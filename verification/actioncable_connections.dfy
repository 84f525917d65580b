/**
 * The server side of an Action Cable connection: the commands a client sends (subscribe,
 * unsubscribe, message) against the connection's map of unsubscribers, and the messages the
 * connection queues for the client.
 */
module ActionCableConnections {
  import opened Wrappers
  import opened ActionCableChannels
  import opened GoErrors
  import opened SeqUtil

  const SubscribeCommand := "subscribe"
  const UnsubscribeCommand := "unsubscribe"
  const ActionCommand := "message"

  /** A message queued for the client: its type, subscription identifier and payload ("" when omitted). */
  datatype ServerMessage = ServerMessage(kind: string, identifier: string, message: string)

  /** A command from the client. */
  datatype ClientMessage = ClientMessage(command: string, identifier: string, data: string)

  /** The disconnect message written to the websocket when the connection ends. */
  datatype DisconnectMessage = DisconnectMessage(reason: string, reconnect: bool)

  function Confirmation(identifier: string): ServerMessage
  {
    ServerMessage("confirm_subscription", identifier, "")
  }

  function Rejection(identifier: string): ServerMessage
  {
    ServerMessage("reject_subscription", identifier, "")
  }

  /** Why a connection ended: a cancelled context, or another error. */
  datatype Cause = Canceled | Failure(msg: string)

  /**
   * `defaultErrorSanitizer`: no reason without an error, "logged out" for a cancelled context,
   * and a fixed message otherwise, so that no error text leaks to the client.
   */
  function SanitizeError(err: Option<Cause>): (reason: string)
    ensures reason == "" <==> err.None?
    ensures reason == "logged out" <==> err == Some(Canceled)
    ensures err.Some? && err.value.Failure? ==> reason == "server or client error"
  {
    match err
    case None => ""
    case Some(Canceled) => "logged out"
    case Some(Failure(_)) => "server or client error"
  }

  /** The subscription handler a connection calls: the built-in refusal, a channel registry, or application code. */
  datatype SubscriptionHandler = NoSubscriptionHandler | ChannelSubscriptions(reg: Registry) | CustomSubscriptions

  /** The action handler a connection calls: the built-in refusal, a channel registry, or application code. */
  datatype ActionHandler = NoActionHandler | ChannelActions(reg: Registry) | CustomActions

  /** `WithChannels`: both handlers work over the same registry, and so over the same channels map. */
  function WithChannels(reg: Registry): (handlers: (SubscriptionHandler, ActionHandler))
    ensures handlers.0.ChannelSubscriptions? && handlers.1.ChannelActions?
    ensures handlers.0.reg == handlers.1.reg == reg
  {
    (ChannelSubscriptions(reg), ChannelActions(reg))
  }

  class Conn {
    const sh: SubscriptionHandler
    const ah: ActionHandler
    /** The unsubscriber of each subscribed identifier (numbers stand for the functions). */
    var unsubscribers: map<string, nat>
    /** The messages sent into the connection's `toClient` channel, in order. */
    var toClient: seq<ServerMessage>
    /** The unsubscribers called so far, in order. */
    var unsubscribed: seq<nat>
    /** The disconnect messages written to the websocket. */
    var written: seq<DisconnectMessage>

    /** The registry the subscription handler changes, if any. */
    function Registries(): set<Registry>
      reads this
    {
      if sh.ChannelSubscriptions? then {sh.reg} else {}
    }

    /** `Upgrade`: no subscriptions yet, with the handlers the options chose. */
    constructor (sh: SubscriptionHandler, ah: ActionHandler)
      ensures this.sh == sh && this.ah == ah
      ensures unsubscribers == map[] && toClient == [] && unsubscribed == [] && written == []
    {
      this.sh := sh;
      this.ah := ah;
      unsubscribers := map[];
      toClient := [];
      unsubscribed := [];
      written := [];
    }

    /** Calls the subscription handler: its result, and the registry's change when it is a registry. */
    method CallSubscriptionHandler(identifier: string, calls: SubscribeCalls) returns (r: Subscribed)
      modifies Registries()
      ensures sh.NoSubscriptionHandler? ==> r == Subscribed(None, Some("No subscription handler registered"))
      ensures sh.CustomSubscriptions? ==> r == calls.subscribed
      ensures sh.ChannelSubscriptions? && r.unsubscriber.Some? ==> r == calls.subscribed && identifier in sh.reg.channels
    {
      match sh {
        case NoSubscriptionHandler =>
          r := Subscribed(None, Some("No subscription handler registered"));
        case ChannelSubscriptions(reg) =>
          r := reg.HandleSubscription(identifier, calls);
        case CustomSubscriptions =>
          r := calls.subscribed;
      }
    }

    /**
     * `subscribe`: an identifier already subscribed is confirmed again without calling the
     * handler. Otherwise the handler runs (`called` is its result): an error is a rejection and
     * is returned wrapped; a nil unsubscriber is a rejection without error; else the
     * unsubscriber is stored and the subscription confirmed.
     */
    method Subscribe(identifier: string, calls: SubscribeCalls) returns (err: Option<string>, called: Option<Subscribed>)
      modifies this, Registries()
      ensures unsubscribed == old(unsubscribed) && written == old(written)
      ensures called.None? <==> identifier in old(unsubscribers)
      ensures called.None? ==>
        err.None? && unsubscribers == old(unsubscribers) && toClient == old(toClient) + [Confirmation(identifier)] &&
        unchanged(Registries())
      ensures called.Some? && called.value.err.Some? ==>
        err == Wrap(called.value.err, "subscribe command handler encountered error") &&
        unsubscribers == old(unsubscribers) && toClient == old(toClient) + [Rejection(identifier)]
      ensures called.Some? && called.value.err.None? && called.value.unsubscriber.None? ==>
        err.None? && unsubscribers == old(unsubscribers) && toClient == old(toClient) + [Rejection(identifier)]
      ensures called.Some? && Succeeded(called.value) ==>
        err.None? && unsubscribers == old(unsubscribers)[identifier := called.value.unsubscriber.value] &&
        toClient == old(toClient) + [Confirmation(identifier)]
      ensures called.Some? && sh.NoSubscriptionHandler? ==> called.value == Subscribed(None, Some("No subscription handler registered"))
      ensures called.Some? && sh.CustomSubscriptions? ==> called.value == calls.subscribed
    {
      if identifier in unsubscribers {
        toClient := toClient + [Confirmation(identifier)];
        return None, None;
      }
      var r := CallSubscriptionHandler(identifier, calls);
      called := Some(r);
      if r.err.Some? {
        toClient := toClient + [Rejection(identifier)];
        return Wrap(r.err, "subscribe command handler encountered error"), called;
      }
      if r.unsubscriber.None? {
        toClient := toClient + [Rejection(identifier)];
        return None, called;
      }
      unsubscribers := unsubscribers[identifier := r.unsubscriber.value];
      toClient := toClient + [Confirmation(identifier)];
      err := None;
    }

    /** The action handler's result for an action on `identifier`; `performed` is what application code returns. */
    method CallActionHandler(identifier: string, performed: Option<string>) returns (err: Option<string>)
      ensures ah.NoActionHandler? ==> err == Some("No action handler registered")
      ensures ah.CustomActions? ==> err == performed
      ensures ah.ChannelActions? ==>
        err == (if identifier in ah.reg.channels then performed else Some("no preexisting subscription on " + identifier))
    {
      match ah {
        case NoActionHandler =>
          err := Some("No action handler registered");
        case ChannelActions(reg) =>
          err := reg.HandleAction(identifier, performed);
        case CustomActions =>
          err := performed;
      }
    }

    /**
     * `receive`: dispatches one client command. An unknown command is an error; unsubscribing
     * an unknown identifier changes nothing; unsubscribing a known one calls its unsubscriber
     * once and removes it; an action's handler error is returned wrapped and changes nothing.
     */
    method Receive(command: ClientMessage, calls: SubscribeCalls, performed: Option<string>) returns (err: Option<string>)
      modifies this, Registries()
      ensures written == old(written)
      ensures command.command !in {SubscribeCommand, UnsubscribeCommand, ActionCommand} ==>
        err == Some("unknown command " + command.command) &&
        unsubscribers == old(unsubscribers) && toClient == old(toClient) && unsubscribed == old(unsubscribed)
      ensures command.command == UnsubscribeCommand ==>
        err.None? && toClient == old(toClient) &&
        if command.identifier in old(unsubscribers) then
          unsubscribers == old(unsubscribers) - {command.identifier} &&
          unsubscribed == old(unsubscribed) + [old(unsubscribers)[command.identifier]]
        else
          unsubscribers == old(unsubscribers) && unsubscribed == old(unsubscribed)
      ensures command.command == SubscribeCommand ==>
        unsubscribed == old(unsubscribed) &&
        (forall k :: k != command.identifier ==> (k in unsubscribers <==> k in old(unsubscribers))) &&
        (forall k :: k != command.identifier && k in unsubscribers ==> unsubscribers[k] == old(unsubscribers)[k])
      ensures command.command == ActionCommand ==>
        unsubscribers == old(unsubscribers) && toClient == old(toClient) && unsubscribed == old(unsubscribed) &&
        (err.None? <==> (ah.CustomActions? || (ah.ChannelActions? && command.identifier in ah.reg.channels)) && performed.None?)
      ensures command.command == ActionCommand ==>
        err == Wrap(
          match ah
          case NoActionHandler => Some("No action handler registered")
          case CustomActions => performed
          case ChannelActions(reg) =>
            if command.identifier in reg.channels then performed else Some("no preexisting subscription on " + command.identifier),
          "action command handler encountered error")
    {
      if command.command == SubscribeCommand {
        var called;
        err, called := Subscribe(command.identifier, calls);
      } else if command.command == UnsubscribeCommand {
        err := None;
        if command.identifier in unsubscribers {
          unsubscribed := unsubscribed + [unsubscribers[command.identifier]];
          unsubscribers := unsubscribers - {command.identifier};
        }
      } else if command.command == ActionCommand {
        var e := CallActionHandler(command.identifier, performed);
        err := Wrap(e, "action command handler encountered error");
      } else {
        err := Some("unknown command " + command.command);
      }
    }

    /**
     * `disconnect`: calls every stored unsubscriber once, in the map's iteration order (returned
     * as `order`), empties the map and writes a disconnect message with the sanitized reason.
     */
    method Disconnect(serr: Option<Cause>, allowReconnect: bool) returns (order: seq<string>)
      modifies this
      ensures Distinct(order) && forall k :: k in order <==> k in old(unsubscribers)
      ensures |unsubscribed| == |old(unsubscribed)| + |order| && unsubscribed[..|old(unsubscribed)|] == old(unsubscribed)
      ensures forall i :: 0 <= i < |order| ==> unsubscribed[|old(unsubscribed)| + i] == old(unsubscribers)[order[i]]
      ensures unsubscribers == map[] && toClient == old(toClient)
      ensures written == old(written) + [DisconnectMessage(SanitizeError(serr), allowReconnect)]
    {
      var pending := unsubscribers.Keys;
      order := [];
      while pending != {}
        invariant pending <= old(unsubscribers).Keys && unsubscribers == old(unsubscribers)
        invariant toClient == old(toClient) && written == old(written)
        invariant Distinct(order) && forall k :: k in order <==> k in old(unsubscribers) && k !in pending
        invariant |unsubscribed| == |old(unsubscribed)| + |order| && unsubscribed[..|old(unsubscribed)|] == old(unsubscribed)
        invariant forall i :: 0 <= i < |order| ==> unsubscribed[|old(unsubscribed)| + i] == old(unsubscribers)[order[i]]
        decreases |pending|
      {
        var k :| k in pending;
        unsubscribed := unsubscribed + [unsubscribers[k]];
        order := order + [k];
        pending := pending - {k};
      }
      unsubscribers := map[];
      written := written + [DisconnectMessage(SanitizeError(serr), allowReconnect)];
    }
  }
}
