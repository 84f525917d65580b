/** Turbo Stream messages, as published on a topic and rendered into `<turbo-stream>` elements. */
module TurboMessages {

  /** The actions of a Turbo Stream element. */
  const ActionAppend := "append"
  const ActionPrepend := "prepend"
  const ActionReplace := "replace"
  const ActionUpdate := "update"
  const ActionRemove := "remove"
  const ActionBefore := "before"
  const ActionAfter := "after"

  /** An opaque value stored in template data; `AuthValue` is the authentication data of a request. */
  datatype Value = Text(text: string) | AuthValue(identity: string, authenticated: bool) | Other(id: nat)

  /** The dynamic type of a message's data: a string-keyed map, or anything else (including nothing). */
  datatype Data = NoData | MapData(entries: map<string, Value>) | OtherData(id: nat)

  datatype Message = Message(action: string, target: string, targets: string, template: string, data: Data)
}
