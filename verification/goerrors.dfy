/** Error wrapping in the manner of `github.com/pkg/errors`, over error messages. */
module GoErrors {
  import opened Wrappers
  import opened GoStrings

  /** `errors.Wrap`/`errors.Wrapf`: a nil error stays nil; otherwise the message is prefixed. */
  function Wrap(err: Option<string>, msg: string): (r: Option<string>)
    ensures r.None? <==> err.None?
    ensures r.Some? ==> HasPrefix(r.value, msg) && HasSuffix(r.value, err.value)
  {
    match err
    case None => None
    case Some(e) =>
      assert (msg + ": " + e)[..|msg|] == msg;
      assert (msg + ": " + e)[|msg + ": " + e| - |e|..] == e;
      Some(msg + ": " + e)
  }
}
