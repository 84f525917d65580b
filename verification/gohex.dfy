/**
 * Hexadecimal encoding as Go's `encoding/hex` does it: two digits per byte, upper- or
 * lower-case digits accepted on decoding, lower-case digits produced on encoding.
 */
module GoHex {
  import opened Wrappers

  /** The error for a character that is not a hexadecimal digit (Go also names the character). */
  const ErrInvalidByte := "encoding/hex: invalid byte"
  /** The error for an odd number of digits. */
  const ErrLength := "encoding/hex: odd length hex string"

  predicate IsHexChar(c: char) {
    '0' <= c <= '9' || 'a' <= c <= 'f' || 'A' <= c <= 'F'
  }

  function FromHexChar(c: char): (v: bv8)
    requires IsHexChar(c)
    ensures v < 16
  {
    if '0' <= c <= '9' then (c as int - '0' as int) as bv8
    else if 'a' <= c <= 'f' then (c as int - 'a' as int + 10) as bv8
    else (c as int - 'A' as int + 10) as bv8
  }

  /** The lower-case digit of a value below 16. */
  function HexChar(v: bv8): (c: char)
    requires v < 16
    ensures IsHexChar(c) && FromHexChar(c) == v
    ensures !('A' <= c <= 'F')
  {
    if v < 10 then ('0' as int + v as int) as char else ('a' as int + v as int - 10) as char
  }

  predicate AllHex(s: string) {
    forall i :: 0 <= i < |s| ==> IsHexChar(s[i])
  }

  /** The byte two digits stand for, high digit first. */
  function PairByte(hi: char, lo: char): bv8
    requires IsHexChar(hi) && IsHexChar(lo)
  {
    FromHexChar(hi) * 16 + FromHexChar(lo)
  }

  /** The bytes of an even-length string of digits, two digits per byte, high digit first. */
  function DecodePairs(s: string): (r: seq<bv8>)
    requires |s| % 2 == 0 && AllHex(s)
    ensures |r| == |s| / 2
    ensures forall i :: 0 <= i < |r| ==> r[i] == PairByte(s[2 * i], s[2 * i + 1])
  {
    if s == [] then [] else [PairByte(s[0], s[1])] + DecodePairs(s[2..])
  }

  /** `b` is what the digits `s` stand for, two digits per byte, high digit first. */
  predicate DecodesTo(s: string, b: seq<bv8>)
    requires AllHex(s)
  {
    |s| == 2 * |b| &&
    forall i :: 0 <= i < |b| ==> b[i] == PairByte(s[2 * i], s[2 * i + 1])
  }

  /**
   * `hex.DecodeString`: an error when a character is not a digit (that error wins over an odd
   * length, since Go checks the characters first), otherwise the bytes.
   */
  function DecodeString(s: string): (r: Result<seq<bv8>>)
    ensures r.Ok? <==> |s| % 2 == 0 && AllHex(s)
    ensures r.Err? ==> r.error == (if AllHex(s) then ErrLength else ErrInvalidByte)
    ensures r.Ok? ==> DecodesTo(s, r.value)
  {
    if !AllHex(s) then Err(ErrInvalidByte)
    else if |s| % 2 == 1 then Err(ErrLength)
    else Ok(DecodePairs(s))
  }

  /** The high and low digits of a byte. */
  function High(v: bv8): (h: bv8)
    ensures h < 16
  {
    v >> 4
  }

  function Low(v: bv8): (l: bv8)
    ensures l < 16 && High(v) * 16 + l == v
  {
    v & 0x0f
  }

  /** `hex.EncodeToString`: two lower-case digits per byte. */
  function EncodeToString(b: seq<bv8>): (s: string)
    ensures |s| == 2 * |b| && AllHex(s)
    ensures forall i :: 0 <= i < |b| ==> s[2 * i] == HexChar(High(b[i])) && s[2 * i + 1] == HexChar(Low(b[i]))
  {
    if b == [] then [] else [HexChar(High(b[0])), HexChar(Low(b[0]))] + EncodeToString(b[1..])
  }

  /** Decoding undoes encoding. */
  lemma EncodeDecode(b: seq<bv8>)
    ensures DecodeString(EncodeToString(b)) == Ok(b)
  {
    var s := EncodeToString(b);
    assert DecodeString(s).Ok?;
    var d := DecodeString(s).value;
    assert |d| == |b|;
    forall i | 0 <= i < |b|
      ensures d[i] == b[i]
    {
      assert s[2 * i] == HexChar(High(b[i])) && s[2 * i + 1] == HexChar(Low(b[i]));
    }
    assert d == b;
  }
}
