/** The per-request context handed to Turbo Streams topic handlers. */
module TurboStreamsContext {
  import opened TurboMessages

  /** A topic handler: the built-in not-found handler, or a handler registered by the application. */
  datatype Handler = NotFoundHandler | Registered(id: nat)

  class Context {
    /** The route's pristine path once a route is found, else the topic itself. */
    var path: string
    var pnames: seq<string>
    /** Parameter values, sized by the router's largest parameter count when the context is made. */
    const pvalues: array<string>
    var handler: Handler
    const topic: string
    const sessionID: string
    const messages: seq<Message>

    /** `newContext`: room for `maxParam` parameter values, and the not-found handler until a route is found. */
    constructor (topic: string, sessionID: string, messages: seq<Message>, maxParam: nat)
      ensures this.topic == topic && this.sessionID == sessionID && this.messages == messages
      ensures fresh(pvalues) && pvalues.Length == maxParam
      ensures forall i :: 0 <= i < maxParam ==> pvalues[i] == ""
      ensures handler == NotFoundHandler && path == "" && pnames == []
    {
      this.topic := topic;
      this.sessionID := sessionID;
      this.messages := messages;
      pvalues := new string[maxParam](_ => "");
      handler := NotFoundHandler;
      path := "";
      pnames := [];
    }

    /** The topic, as given when the context was made. */
    function Topic(): (t: string)
      ensures t == topic
    {
      topic
    }

    /** The session the request belongs to, as given when the context was made. */
    function SessionID(): (id: string)
      ensures id == sessionID
    {
      sessionID
    }

    /** The messages received with the request, as given when the context was made. */
    function Published(): (published: seq<Message>)
      ensures published == messages
    {
      messages
    }

    /**
     * The value of the path parameter `name`: the value at the first position where `name`
     * appears among the parameter names and a value exists, or "" when there is none.
     */
    method Param(name: string) returns (value: string)
      ensures (forall i :: 0 <= i < |pnames| && i < pvalues.Length ==> pnames[i] != name) ==> value == ""
      ensures forall i ::
        (0 <= i < |pnames| && i < pvalues.Length && pnames[i] == name && forall j :: 0 <= j < i ==> pnames[j] != name)
        ==> value == pvalues[i]
    {
      var i := 0;
      while i < |pnames|
        invariant 0 <= i <= |pnames|
        invariant forall j :: 0 <= j < i && j < pvalues.Length ==> pnames[j] != name
      {
        if i < pvalues.Length {
          if pnames[i] == name {
            return pvalues[i];
          }
        }
        i := i + 1;
      }
      return "";
    }
  }
}
