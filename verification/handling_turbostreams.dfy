/**
 * Preparing Turbo Stream messages for rendering: every message that renders a template gets
 * the request's authentication data in its template data under "Auth".
 */
module HandlingTurboStreams {
  import opened Wrappers
  import opened TurboMessages

  const AuthKey := "Auth"
  /** The error for data that is not a map (Go also names the data's type). */
  const ErrDataType := "unexpected turbo stream message data type"

  /** A message whose template data cannot take the authentication data. */
  predicate Unrenderable(m: Message) {
    m.action != ActionRemove && !m.data.MapData?
  }

  /** Copies a data map entry by entry into a new map. */
  method CopyData(d: map<string, Value>) returns (data: map<string, Value>)
    ensures data == d
  {
    data := map[];
    var pending := d.Keys;
    while pending != {}
      invariant pending <= d.Keys
      invariant data.Keys == d.Keys - pending
      invariant forall k :: k in data ==> data[k] == d[k]
      decreases |pending|
    {
      var key :| key in pending;
      data := data[key := d[key]];
      pending := pending - {key};
    }
  }

  /** The message published for a renderable `m`: the fields `AddAuthData` promises for it. */
  predicate PublishedFor(a: Value, m: Message, p: Message)
  {
    p.action == m.action && p.target == m.target && p.targets == "" &&
    (m.action == ActionRemove ==> p.template == "" && p.data == NoData) &&
    (m.action != ActionRemove ==> p.template == m.template && m.data.MapData? && p.data == MapData(m.data.entries[AuthKey := a]))
  }

  /**
   * `AddAuthData`: an error at the first message, other than a removal, whose data is not a
   * map; otherwise one message per input, with the same action and target (the multiple-target
   * selector is not copied). A removal keeps no template and no data; any other message keeps
   * its template and gets a copy of its data with "Auth" set to `a`.
   */
  method AddAuthData(a: Value, messages: seq<Message>) returns (r: Result<seq<Message>>)
    ensures r.Err? <==> exists i :: 0 <= i < |messages| && Unrenderable(messages[i])
    ensures r.Err? ==> r.error == ErrDataType
    ensures r.Ok? ==> |r.value| == |messages|
    ensures r.Ok? ==> forall i :: 0 <= i < |messages| ==> (
      r.value[i].action == messages[i].action && r.value[i].target == messages[i].target &&
      r.value[i].targets == "")
    ensures r.Ok? ==> forall i :: 0 <= i < |messages| && messages[i].action == ActionRemove ==> (
      r.value[i].template == "" && r.value[i].data == NoData)
    ensures r.Ok? ==> forall i :: 0 <= i < |messages| && messages[i].action != ActionRemove ==> (
      r.value[i].template == messages[i].template &&
      r.value[i].data == MapData(messages[i].data.entries[AuthKey := a]))
  {
    var published := new Message[|messages|](_ => Message("", "", "", "", NoData));
    for i := 0 to |messages|
      invariant forall k :: 0 <= k < i ==> !Unrenderable(messages[k]) && PublishedFor(a, messages[k], published[k])
    {
      var m := messages[i];
      published[i] := Message(m.action, m.target, "", m.template, NoData);
      if m.action == ActionRemove {
        published[i] := published[i].(template := "");
        continue;
      }
      if !m.data.MapData? {
        return Err(ErrDataType);
      }
      var data := CopyData(m.data.entries);
      data := data[AuthKey := a];
      published[i] := published[i].(data := MapData(data));
    }
    r := Ok(published[..]);
  }
}
