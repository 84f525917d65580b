/**
 * Checking a CSRF token issued to a page against the token held in the session: issued
 * tokens are a one-time pad and the session token XORed with it, so that every page gets a
 * different string. The session cookie store and base64 decoding enter as results.
 */
module SessionCSRF {
  import opened Wrappers
  import opened GoErrors

  /** The length of a session token, in bytes. */
  const TokenLength := 32

  const ErrNoSessionToken := "request session lacks CSRF token"
  const ErrDecode := "couldn't decode issued token"
  const ErrMismatch := "issued CSRF token doesn't match session token"

  /** The bytewise XOR of the common prefix of `a` and `b`. */
  function Xor(a: seq<bv8>, b: seq<bv8>): seq<bv8> {
    var n := if |b| < |a| then |b| else |a|;
    seq(n, i requires 0 <= i < n => a[i] ^ b[i])
  }

  /** `xorToken`: as long as the shorter input, each byte the XOR of the inputs' bytes. */
  method XorToken(a: seq<bv8>, b: seq<bv8>) returns (res: seq<bv8>)
    ensures |res| == (if |b| < |a| then |b| else |a|)
    ensures forall i :: 0 <= i < |res| ==> res[i] == a[i] ^ b[i]
    ensures res == Xor(a, b)
  {
    var n := |a|;
    if |b| < n {
      n := |b|;
    }
    var arr := new bv8[n];
    for i := 0 to n
      invariant forall k :: 0 <= k < i ==> arr[k] == a[k] ^ b[k]
    {
      arr[i] := a[i] ^ b[i];
    }
    res := arr[..];
  }

  /** XORing with the same pad twice gives back any input no longer than the pad. */
  lemma XorTwice(a: seq<bv8>, pad: seq<bv8>)
    requires |a| <= |pad|
    ensures Xor(Xor(a, pad), pad) == a
  {
    var once := Xor(a, pad);
    forall i | 0 <= i < |a|
      ensures Xor(once, pad)[i] == a[i]
    {
      assert once[i] == a[i] ^ pad[i];
    }
  }

  /**
   * `unmask`: nil unless the issued token is twice a session token long; otherwise the XOR of
   * its second half, the pad, with its first half, the masked token.
   */
  function Unmask(issued: seq<bv8>): (r: Option<seq<bv8>>)
    ensures r.Some? <==> |issued| == 2 * TokenLength
    ensures r.Some? ==> (
      |r.value| == TokenLength &&
      forall i :: 0 <= i < TokenLength ==> r.value[i] == issued[TokenLength + i] ^ issued[i])
  {
    if |issued| != 2 * TokenLength then None
    else Some(Xor(issued[TokenLength..], issued[..TokenLength]))
  }

  /** Unmasking a token masked with a pad, and followed by the pad, gives the token back. */
  lemma UnmaskMasked(token: seq<bv8>, pad: seq<bv8>)
    requires |token| == TokenLength && |pad| == TokenLength
    ensures Unmask(Xor(pad, token) + pad) == Some(token)
  {
    var issued := Xor(pad, token) + pad;
    assert issued[TokenLength..] == pad && issued[..TokenLength] == Xor(pad, token);
    var r := Unmask(issued).value;
    forall i | 0 <= i < TokenLength
      ensures r[i] == token[i]
    {
      assert r[i] == pad[i] ^ (pad[i] ^ token[i]);
    }
    assert r == token;
  }

  /**
   * `compareTokens`: false when the lengths differ, otherwise whether the bytes are equal (a
   * nil token compares as an empty one).
   */
  function CompareTokens(a: seq<bv8>, b: seq<bv8>): (equal: bool)
    ensures equal <==> a == b
  {
    |a| == |b| && forall i :: 0 <= i < |a| ==> a[i] == b[i]
  }

  /** The unmasked issued token, nil (as empty) when it has the wrong length. */
  function Unmasked(issued: seq<bv8>): seq<bv8> {
    var u := Unmask(issued);
    if u.Some? then u.value else []
  }

  /**
   * `Check` as written: a session lookup error is returned wrapped, but a session token of the
   * wrong length with no error is wrapped as a nil error, so the check passes without looking
   * at the issued token. `session` is the cookie store's result and `decode` base64 decoding.
   */
  function CheckAsWritten(session: Result<seq<bv8>>, token: string, decode: string -> Result<seq<bv8>>): (err: Option<string>)
    ensures session.Ok? && |session.value| != TokenLength ==> err.None?
    ensures err.None? <==> (
      session.Ok? &&
      (|session.value| != TokenLength || (decode(token).Ok? && Unmask(decode(token).value) == Some(session.value))))
  {
    if session.Err? then Wrap(Some(session.error), ErrNoSessionToken)
    else if |session.value| != TokenLength then Wrap(None, ErrNoSessionToken)
    else if decode(token).Err? then Wrap(Some(decode(token).error), ErrDecode)
    else if !CompareTokens(Unmasked(decode(token).value), session.value) then Some(ErrMismatch)
    else None
  }

  /** A session holding an empty token accepts any issued token in the check as written. */
  lemma EmptySessionTokenAccepted(token: string, decode: string -> Result<seq<bv8>>)
    ensures CheckAsWritten(Ok([]), token, decode).None?
    ensures Check(Ok([]), token, decode) == Some(ErrNoSessionToken)
  {
  }

  /**
   * `Check` as intended: the issued token passes exactly when the session holds a token of
   * the right length and the issued token decodes and unmasks to it.
   */
  function Check(session: Result<seq<bv8>>, token: string, decode: string -> Result<seq<bv8>>): (err: Option<string>)
    ensures err.None? <==> (
      session.Ok? && |session.value| == TokenLength &&
      decode(token).Ok? && Unmask(decode(token).value) == Some(session.value))
    ensures session.Ok? && |session.value| != TokenLength ==> err == Some(ErrNoSessionToken)
  {
    if session.Err? then Wrap(Some(session.error), ErrNoSessionToken)
    else if |session.value| != TokenLength then Some(ErrNoSessionToken)
    else if decode(token).Err? then Wrap(Some(decode(token).error), ErrDecode)
    else if !CompareTokens(Unmasked(decode(token).value), session.value) then Some(ErrMismatch)
    else None
  }

  /** A token issued by masking the session token with any pad passes the check. */
  lemma IssuedTokenAccepted(sessionToken: seq<bv8>, pad: seq<bv8>, token: string, decode: string -> Result<seq<bv8>>)
    requires |sessionToken| == TokenLength && |pad| == TokenLength
    requires decode(token) == Ok(Xor(pad, sessionToken) + pad)
    ensures Check(Ok(sessionToken), token, decode).None?
  {
    UnmaskMasked(sessionToken, pad);
  }
}
