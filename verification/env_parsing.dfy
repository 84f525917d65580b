/**
 * Typed reads of environment variables, each with its default for an unset (or empty)
 * variable. The environment is a map from names to values; `os.Getenv` gives "" for a name
 * not in it.
 */
module Env {
  import opened Wrappers
  import opened GoErrors

  /** `os.Getenv` */
  function Getenv(env: map<string, string>, name: string): string {
    if name in env then env[name] else ""
  }

  /**
   * `GetBool`: false for an empty value, the three spellings of true and of false, and an
   * error naming the value and the variable for anything else.
   */
  function GetBool(env: map<string, string>, name: string): (r: Result<bool>)
    ensures Getenv(env, name) == "" ==> r == Ok(false)
    ensures Getenv(env, name) in {"TRUE", "true", "True"} ==> r == Ok(true)
    ensures Getenv(env, name) in {"FALSE", "false", "False"} ==> r == Ok(false)
    ensures r.Err? <==> Getenv(env, name) !in {"", "TRUE", "true", "True", "FALSE", "false", "False"}
    ensures r.Err? ==> r.error == "unknown value " + Getenv(env, name) + " for boolean environment variable " + name
  {
    var value := Getenv(env, name);
    if |value| == 0 then Ok(false)
    else if value in {"TRUE", "true", "True"} then Ok(true)
    else if value in {"FALSE", "false", "False"} then Ok(false)
    else Err("unknown value " + value + " for boolean environment variable " + name)
  }

  /** `GetString`: the value, or the default when the value is empty. */
  function GetString(env: map<string, string>, name: string, defaultValue: string): (r: string)
    ensures Getenv(env, name) == "" ==> r == defaultValue
    ensures Getenv(env, name) != "" ==> r == Getenv(env, name)
  {
    var value := Getenv(env, name);
    if |value| == 0 then defaultValue else value
  }

  predicate IsDigit(c: char) {
    '0' <= c <= '9'
  }

  predicate AllDigits(s: string) {
    forall i :: 0 <= i < |s| ==> IsDigit(s[i])
  }

  /** The number a string of decimal digits writes, most significant digit first. */
  function DecimalValue(s: string): nat
    requires AllDigits(s)
    decreases |s|
  {
    if s == [] then 0 else DecimalValue(s[..|s| - 1]) * 10 + (s[|s| - 1] as int - '0' as int)
  }

  /** The decimal digits of `n`, without leading zeros. */
  function FormatDecimal(n: nat): (s: string)
    ensures |s| >= 1 && AllDigits(s)
    ensures |s| > 1 ==> s[0] != '0'
  {
    if n < 10 then [('0' as int + n) as char] else FormatDecimal(n / 10) + [('0' as int + n % 10) as char]
  }

  /** Reading the digits of a number gives the number back. */
  lemma {:induction false} DecimalRoundTrip(n: nat)
    ensures DecimalValue(FormatDecimal(n)) == n
  {
    if n >= 10 {
      DecimalRoundTrip(n / 10);
      var s := FormatDecimal(n);
      assert s[..|s| - 1] == FormatDecimal(n / 10);
    }
  }

  const Two32: nat := 0x1_0000_0000
  const Two63: nat := 0x8000_0000_0000_0000
  const Two64: nat := 0x1_0000_0000_0000_0000

  /** The widths `strconv.ParseUint` is asked for here, in bits. */
  datatype BitSize = Bits32 | Bits64

  /** The first number too large for a width. */
  function Bound(bitSize: BitSize): nat {
    match bitSize
    case Bits32 => Two32
    case Bits64 => Two64
  }

  /** The error `strconv` reports for a value that is not a number in the expected form. */
  function SyntaxError(fn: string, s: string): string {
    "strconv." + fn + ": parsing \"" + s + "\": invalid syntax"
  }

  /** The error `strconv` reports for a number that does not fit in the requested width. */
  function RangeError(fn: string, s: string): string {
    "strconv." + fn + ": parsing \"" + s + "\": value out of range"
  }

  /** The end of the run of decimal digits of `s` that starts at `i`. */
  function DigitsEnd(s: string, i: nat): (e: nat)
    requires i <= |s|
    ensures i <= e <= |s| && (e < |s| ==> !IsDigit(s[e]))
    ensures forall k :: i <= k < e ==> IsDigit(s[k])
    decreases |s| - i
  {
    if i == |s| || !IsDigit(s[i]) then i else DigitsEnd(s, i + 1)
  }

  /** The number the leading decimal digits of `s` write (0 when `s` does not start with a digit). */
  function LeadingValue(s: string): nat
  {
    var e := DigitsEnd(s, 0);
    assert AllDigits(s[..e]);
    DecimalValue(s[..e])
  }

  /** How the scan of a string of decimal digits ends. */
  datatype NumScan = Fits(n: nat) | BadSyntax | OutOfRange

  /**
   * The loop of `strconv.ParseUint` in base 10 from index `i`, where `n` is the value of the
   * digits before it: a non-digit is a syntax error, and a digit that takes the value to
   * `bound` or beyond is a range error at once, before the rest is looked at.
   */
  function ScanDigits(s: string, i: nat, n: nat, bound: nat): NumScan
    requires i <= |s| && AllDigits(s[..i]) && n == DecimalValue(s[..i]) < bound
    decreases |s| - i
  {
    if i == |s| then Fits(n)
    else if !IsDigit(s[i]) then BadSyntax
    else
      var n' := n * 10 + (s[i] as int - '0' as int);
      assert s[..i + 1][..i] == s[..i];
      if n' >= bound then OutOfRange else ScanDigits(s, i + 1, n', bound)
  }

  /** A longer run of digits writes a number at least as large. */
  lemma {:induction false} DecimalMonotone(t: string, j: nat)
    requires AllDigits(t) && j <= |t|
    ensures DecimalValue(t[..j]) <= DecimalValue(t)
    decreases |t|
  {
    if j < |t| {
      var u := t[..|t| - 1];
      assert t[..j] == u[..j];
      assert IsDigit(t[|t| - 1]);
      DecimalMonotone(u, j);
      assert DecimalValue(t) == DecimalValue(u) * 10 + (t[|t| - 1] as int - '0' as int);
    } else {
      assert t[..j] == t;
    }
  }

  /**
   * The scan from `i` overflows exactly when the digit run that starts at `i` (with the digits
   * before it) writes `bound` or more; otherwise it stops at a non-digit, or reads the whole
   * string and yields its value.
   */
  lemma {:induction false} ScanDigitsResult(s: string, i: nat, n: nat, bound: nat)
    requires i <= |s| && AllDigits(s[..i]) && n == DecimalValue(s[..i]) < bound
    ensures AllDigits(s[..DigitsEnd(s, i)])
    ensures ScanDigits(s, i, n, bound) ==
      var e := DigitsEnd(s, i);
      if DecimalValue(s[..e]) >= bound then OutOfRange else if e < |s| then BadSyntax else Fits(DecimalValue(s[..e]))
    decreases |s| - i
  {
    var e := DigitsEnd(s, i);
    assert AllDigits(s[..e]);
    if i < |s| && IsDigit(s[i]) {
      assert e == DigitsEnd(s, i + 1);
      assert s[..i + 1][..i] == s[..i];
      var n' := n * 10 + (s[i] as int - '0' as int);
      assert AllDigits(s[..i + 1]) && n' == DecimalValue(s[..i + 1]);
      if n' >= bound {
        assert s[..e][..i + 1] == s[..i + 1];
        DecimalMonotone(s[..e], i + 1);
        assert ScanDigits(s, i, n, bound) == OutOfRange;
      } else {
        ScanDigitsResult(s, i + 1, n', bound);
        assert ScanDigits(s, i, n, bound) == ScanDigits(s, i + 1, n', bound);
      }
    } else {
      assert e == i;
    }
  }

  /** The scan of `strconv.ParseUint` in base 10 below `bound`; an empty string is a syntax error. */
  function ScanUint(s: string, bound: nat): (r: NumScan)
    requires bound > 0
    ensures r.Fits? <==> |s| > 0 && AllDigits(s) && DecimalValue(s) < bound
    ensures r.Fits? ==> r.n == DecimalValue(s)
    ensures r.OutOfRange? <==> LeadingValue(s) >= bound
    ensures r.BadSyntax? <==> LeadingValue(s) < bound && !(|s| > 0 && AllDigits(s))
  {
    if |s| == 0 then BadSyntax
    else
      ScanDigitsResult(s, 0, 0, bound);
      assert s[..|s|] == s;
      ScanDigits(s, 0, 0, bound)
  }

  /**
   * `strconv.ParseUint(s, 10, bitSize)`: decimal digits only, below 2 to the `bitSize`. The
   * scan goes left to right, so an overflowing run of leading digits is a range error even when
   * a non-digit follows it.
   */
  function ParseUint(s: string, bitSize: BitSize): (r: Result<nat>)
    ensures r.Ok? <==> |s| > 0 && AllDigits(s) && DecimalValue(s) < Bound(bitSize)
    ensures r.Ok? ==> r.value == DecimalValue(s)
    ensures r.Err? ==> r.error == (if LeadingValue(s) >= Bound(bitSize) then RangeError("ParseUint", s) else SyntaxError("ParseUint", s))
  {
    match ScanUint(s, Bound(bitSize))
    case Fits(n) => Ok(n)
    case BadSyntax => Err(SyntaxError("ParseUint", s))
    case OutOfRange => Err(RangeError("ParseUint", s))
  }

  /**
   * Digits followed by a non-digit: the error is a range error when the digits alone already
   * reach the bound (as for "5000000000x" at 32 bits), and a syntax error otherwise.
   */
  lemma LeadingDigitsDecide(digits: string, rest: string, bitSize: BitSize)
    requires AllDigits(digits) && |rest| > 0 && !IsDigit(rest[0])
    ensures ParseUint(digits + rest, bitSize) ==
      if DecimalValue(digits) >= Bound(bitSize) then Err(RangeError("ParseUint", digits + rest))
      else Err(SyntaxError("ParseUint", digits + rest))
  {
    var s := digits + rest;
    assert !IsDigit(s[|digits|]);
    assert DigitsEnd(s, 0) == |digits| by {
      assert forall k :: 0 <= k < |digits| ==> IsDigit(s[k]);
      DigitsEndAt(s, 0, |digits|);
    }
    assert s[..|digits|] == digits;
  }

  /** The digit run from `i` ends at the first non-digit `e` after it. */
  lemma {:induction false} DigitsEndAt(s: string, i: nat, e: nat)
    requires i <= e < |s| && !IsDigit(s[e])
    requires forall k :: i <= k < e ==> IsDigit(s[k])
    ensures DigitsEnd(s, i) == e
    decreases e - i
  {
    if i < e {
      DigitsEndAt(s, i + 1, e);
    }
  }

  /** The text after an optional leading sign. */
  function Unsigned(s: string): string
  {
    if |s| > 0 && (s[0] == '+' || s[0] == '-') then s[1..] else s
  }

  /**
   * `strconv.ParseInt(s, 10, 64)`: an optional sign, then decimal digits, in the range of a
   * signed 64-bit integer. The digits are scanned as by `ParseUint` at 64 bits: its syntax
   * error is reported as `ParseInt`'s, and its range error, like a value that fits 64 unsigned
   * bits but not 63, as a range error.
   */
  function ParseInt64(s: string): (r: Result<int>)
    ensures r.Ok? <==> (|Unsigned(s)| > 0 && AllDigits(Unsigned(s)) &&
      DecimalValue(Unsigned(s)) < Two63 + (if |s| > 0 && s[0] == '-' then 1 else 0))
    ensures r.Ok? ==> r.value == (if s[0] == '-' then -(DecimalValue(Unsigned(s)) as int) else DecimalValue(Unsigned(s)))
    ensures r.Err? ==> r.error == (if LeadingValue(Unsigned(s)) >= Two64 || (|Unsigned(s)| > 0 && AllDigits(Unsigned(s)))
      then RangeError("ParseInt", s) else SyntaxError("ParseInt", s))
  {
    if |s| == 0 then Err(SyntaxError("ParseInt", s))
    else
      var neg := s[0] == '-';
      var digits := Unsigned(s);
      var scanned := ScanUint(digits, Two64);
      if scanned.BadSyntax? then Err(SyntaxError("ParseInt", s))
      else
        var un := if scanned.OutOfRange? then Two64 - 1 else scanned.n;
        if !neg && un >= Two63 then Err(RangeError("ParseInt", s))
        else if neg && un > Two63 then Err(RangeError("ParseInt", s))
        else Ok(if neg then -(un as int) else un)
  }

  /** Decimal text of a signed number, with a minus sign when it is negative. */
  function FormatInt(n: int): (s: string)
    ensures |s| >= 1
  {
    if n < 0 then "-" + FormatDecimal(-n) else FormatDecimal(n)
  }

  /** Every signed 64-bit number reads back from its decimal text. */
  lemma ParseInt64RoundTrip(n: int)
    requires -(Two63 as int) <= n < Two63
    ensures ParseInt64(FormatInt(n)) == Ok(n)
  {
    var s := FormatInt(n);
    var m: nat := if n < 0 then -n else n;
    DecimalRoundTrip(m);
    if n < 0 {
      assert s[0] == '-' && Unsigned(s) == FormatDecimal(m);
    } else {
      assert s == FormatDecimal(n) && IsDigit(s[0]) && Unsigned(s) == s;
    }
    var u := Unsigned(s);
    assert |u| > 0 && AllDigits(u) && DecimalValue(u) == m;
    assert (s[0] == '-') == (n < 0);
  }

  /** `GetInt64`: the default for an empty value, otherwise the value parsed or a wrapped error. */
  function GetInt64(env: map<string, string>, name: string, defaultValue: int): (r: Result<int>)
    ensures Getenv(env, name) == "" ==> r == Ok(defaultValue)
    ensures Getenv(env, name) != "" ==> (
      if ParseInt64(Getenv(env, name)).Ok? then r == ParseInt64(Getenv(env, name))
      else r == Err(Wrap(Some(ParseInt64(Getenv(env, name)).error),
        "unparseable value " + Getenv(env, name) + " for int64 environment variable " + name).value))
  {
    var value := Getenv(env, name);
    if |value| == 0 then Ok(defaultValue)
    else
      var parsed := ParseInt64(value);
      if parsed.Err? then
        Err(Wrap(Some(parsed.error), "unparseable value " + value + " for int64 environment variable " + name).value)
      else parsed
  }

  /** A signed 64-bit number written into a variable is read back. */
  lemma GetInt64RoundTrip(env: map<string, string>, name: string, n: int, defaultValue: int)
    requires -(Two63 as int) <= n < Two63
    ensures GetInt64(env[name := FormatInt(n)], name, defaultValue) == Ok(n)
  {
    ParseInt64RoundTrip(n);
  }

  /** `GetUint64` as written: the value is parsed with a width of 32 bits, not 64. */
  function GetUint64AsWritten(env: map<string, string>, name: string, defaultValue: nat): (r: Result<nat>)
    ensures Getenv(env, name) == "" ==> r == Ok(defaultValue)
    ensures var v := Getenv(env, name);
      v != "" ==> (r.Ok? <==> AllDigits(v) && DecimalValue(v) < Two32)
    ensures var v := Getenv(env, name);
      v != "" && r.Ok? ==> r.value == DecimalValue(v) < Two32
    ensures var v := Getenv(env, name);
      v != "" && r.Err? ==>
        r.error == Wrap(Some(if LeadingValue(v) >= Two32 then RangeError("ParseUint", v) else SyntaxError("ParseUint", v)),
          "unparseable value " + v + " for uint64 environment variable " + name).value
  {
    var value := Getenv(env, name);
    if |value| == 0 then Ok(defaultValue)
    else
      var parsed := ParseUint(value, Bits32);
      if parsed.Err? then
        Err(Wrap(Some(parsed.error), "unparseable value " + value + " for uint64 environment variable " + name).value)
      else parsed
  }

  /** `GetUint64` as intended: the default for an empty value, otherwise any unsigned 64-bit number. */
  function GetUint64(env: map<string, string>, name: string, defaultValue: nat): (r: Result<nat>)
    ensures Getenv(env, name) == "" ==> r == Ok(defaultValue)
    ensures var v := Getenv(env, name);
      v != "" ==> (r.Ok? <==> AllDigits(v) && DecimalValue(v) < Two64)
    ensures var v := Getenv(env, name);
      v != "" && r.Ok? ==> r.value == DecimalValue(v) < Two64
    ensures var v := Getenv(env, name);
      v != "" && r.Err? ==>
        r.error == Wrap(Some(if LeadingValue(v) >= Two64 then RangeError("ParseUint", v) else SyntaxError("ParseUint", v)),
          "unparseable value " + v + " for uint64 environment variable " + name).value
  {
    var value := Getenv(env, name);
    if |value| == 0 then Ok(defaultValue)
    else
      var parsed := ParseUint(value, Bits64);
      if parsed.Err? then
        Err(Wrap(Some(parsed.error), "unparseable value " + value + " for uint64 environment variable " + name).value)
      else parsed
  }

  /** Every unsigned 64-bit number written into a variable is read back by `GetUint64`. */
  lemma GetUint64RoundTrip(env: map<string, string>, name: string, n: nat, defaultValue: nat)
    requires n < Two64
    ensures GetUint64(env[name := FormatDecimal(n)], name, defaultValue) == Ok(n)
  {
    DecimalRoundTrip(n);
  }

  /**
   * A number of 2 to the 32 or more, which fits an unsigned 64-bit variable, is refused by
   * `GetUint64` as written although the intended version reads it back.
   */
  lemma GetUint64AsWrittenRefusesWideValues(env: map<string, string>, name: string, n: nat, defaultValue: nat)
    requires Two32 <= n < Two64
    ensures GetUint64AsWritten(env[name := FormatDecimal(n)], name, defaultValue).Err?
    ensures GetUint64(env[name := FormatDecimal(n)], name, defaultValue) == Ok(n)
  {
    DecimalRoundTrip(n);
  }

  /** The parts of a URL that `GetURLOrigin` reads or clears. */
  datatype URLParts = URLParts(
    scheme: string, opaqueText: string, user: Option<string>, host: string, path: string, rawQuery: string, fragment: string)

  /** A parsed URL, whose fields are changed in place. */
  class URL {
    var scheme: string
    var opaqueText: string
    var user: Option<string>
    var host: string
    var path: string
    var rawQuery: string
    var fragment: string

    constructor (parts: URLParts)
      ensures scheme == parts.scheme && opaqueText == parts.opaqueText && user == parts.user && host == parts.host
      ensures path == parts.path && rawQuery == parts.rawQuery && fragment == parts.fragment
    {
      scheme, opaqueText, user, host := parts.scheme, parts.opaqueText, parts.user, parts.host;
      path, rawQuery, fragment := parts.path, parts.rawQuery, parts.fragment;
    }
  }

  /**
   * `GetURLOrigin`: parses the value (or the default for an empty value) with `parse`, the
   * library's URL parser; fills in the default scheme when there is none, and clears the
   * path, user, query and fragment, keeping the host.
   */
  method GetURLOrigin(env: map<string, string>, name: string, defaultValue: string, defaultScheme: string,
                      parse: string -> Result<URLParts>)
    returns (r: Result<URL>)
    ensures var value := if Getenv(env, name) == "" then defaultValue else Getenv(env, name);
      && (r.Err? <==> parse(value).Err?)
      && (r.Err? ==> (
        r.error == "unparseable value " + Getenv(env, name) + " for URL environment variable " + name + ": " +
          parse(value).error))
      && (r.Ok? ==> (
        fresh(r.value) &&
        r.value.scheme == (if parse(value).value.scheme == "" then defaultScheme else parse(value).value.scheme) &&
        r.value.host == parse(value).value.host && r.value.opaqueText == parse(value).value.opaqueText &&
        r.value.path == "" && r.value.user.None? && r.value.rawQuery == "" && r.value.fragment == ""))
  {
    var value := Getenv(env, name);
    if |value| == 0 {
      value := defaultValue;
    }
    var parsed := parse(value);
    if parsed.Err? {
      var err := Wrap(Some(parsed.error), "unparseable value " + Getenv(env, name) + " for URL environment variable " + name);
      return Err(err.value);
    }
    var url := new URL(parsed.value);
    if |url.scheme| == 0 {
      url.scheme := defaultScheme;
    }
    url.path := "";
    url.user := None;
    url.rawQuery := "";
    url.fragment := "";
    r := Ok(url);
  }
}
