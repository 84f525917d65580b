/**
 * The Action Cable channel registry: subscription and action handlers that share one map from
 * subscription identifiers to channel instances, made on demand by per-channel factories.
 */
module ActionCableChannels {
  import opened Wrappers
  import opened GoErrors

  /**
   * What a subscription handler, or a channel's `Subscribe`, returns: an unsubscriber
   * (identified by a number, `None` for a nil function) and an error.
   */
  datatype Subscribed = Subscribed(unsubscriber: Option<nat>, err: Option<string>)

  /**
   * The results of the calls a subscription makes into code outside the model, each used only
   * when the call is made: parsing the identifier's JSON for its channel name, the channel
   * factory, and the channel's (or a custom handler's) `Subscribe`.
   */
  datatype SubscribeCalls = SubscribeCalls(parsed: Result<string>, made: Result<nat>, subscribed: Subscribed)

  /** Succeeded: a non-nil unsubscriber and no error. */
  predicate Succeeded(s: Subscribed)
  {
    s.unsubscriber.Some? && s.err.None?
  }

  class Registry {
    /** The channel names that have a factory. */
    const factories: set<string>
    /** The channel instances, by subscription identifier (numbers stand for the instances). */
    var channels: map<string, nat>

    constructor (factories: set<string>, channels: map<string, nat>)
      ensures this.factories == factories && this.channels == channels
    {
      this.factories := factories;
      this.channels := channels;
    }

    /**
     * `HandleSubscription`: an existing channel is subscribed again and dropped from the map when
     * that fails; otherwise the identifier's channel name must have a factory, and the channel it
     * makes is stored only once its `Subscribe` succeeded. Other identifiers are untouched.
     */
    method HandleSubscription(identifier: string, calls: SubscribeCalls) returns (r: Subscribed)
      modifies this
      ensures forall k :: k != identifier ==> (k in channels <==> k in old(channels))
      ensures forall k :: k != identifier && k in channels ==> channels[k] == old(channels)[k]
      ensures r.unsubscriber.Some? ==> r == calls.subscribed && identifier in channels
      ensures r.unsubscriber.None? ==> identifier !in channels
      ensures identifier in old(channels) ==>
        r == (if Succeeded(calls.subscribed) then calls.subscribed
          else Subscribed(None, Wrap(calls.subscribed.err, "couldn't re-subscribe to " + identifier)))
      ensures identifier in old(channels) && identifier in channels ==> channels[identifier] == old(channels)[identifier]
      ensures identifier !in old(channels) && calls.parsed.Err? ==> r == Subscribed(None, Some(calls.parsed.error))
      ensures identifier !in old(channels) && calls.parsed.Ok? && calls.parsed.value !in factories ==>
        r == Subscribed(None, Some("unknown channel name " + calls.parsed.value))
      ensures identifier !in old(channels) && identifier in channels ==>
        calls.parsed.Ok? && calls.parsed.value in factories && calls.made == Ok(channels[identifier]) && Succeeded(calls.subscribed)
      ensures identifier !in old(channels) && calls.parsed.Ok? && calls.parsed.value in factories && calls.made.Err? ==>
        r == Subscribed(None, Wrap(Some(calls.made.error), "couldn't instantiate " + identifier))
      ensures identifier !in old(channels) && calls.parsed.Ok? && calls.parsed.value in factories && calls.made.Ok? ==>
        r == (if Succeeded(calls.subscribed) then calls.subscribed
          else Subscribed(None, Wrap(calls.subscribed.err, "couldn't subscribe to " + identifier)))
    {
      if identifier in channels {
        if !Succeeded(calls.subscribed) {
          channels := channels - {identifier};
          return Subscribed(None, Wrap(calls.subscribed.err, "couldn't re-subscribe to " + identifier));
        }
        return calls.subscribed;
      }
      if calls.parsed.Err? {
        return Subscribed(None, Some(calls.parsed.error));
      }
      var channelName := calls.parsed.value;
      if channelName !in factories {
        return Subscribed(None, Some("unknown channel name " + channelName));
      }
      if calls.made.Err? {
        return Subscribed(None, Wrap(Some(calls.made.error), "couldn't instantiate " + identifier));
      }
      // The channel's Subscribe decides whether the subscription is possible, so it runs first
      if !Succeeded(calls.subscribed) {
        return Subscribed(None, Wrap(calls.subscribed.err, "couldn't subscribe to " + identifier));
      }
      channels := channels[identifier := calls.made.value];
      return calls.subscribed;
    }

    /**
     * `HandleAction`: the action goes to the identifier's channel, whose `Perform` result
     * (`performed`) is returned; with no channel for the identifier it is an error.
     */
    method HandleAction(identifier: string, performed: Option<string>) returns (err: Option<string>)
      ensures identifier !in channels ==> err == Some("no preexisting subscription on " + identifier)
      ensures identifier in channels ==> err == performed
    {
      if identifier !in channels {
        return Some("no preexisting subscription on " + identifier);
      }
      return performed;
    }
  }
}
