/** `StringSet`: a Go map from strings to empty structs used as a set, where the nil map is distinct from the empty one. */
module StringSets {
  import opened Wrappers

  /** A string set; `None` is the nil map. */
  type StringSet = Option<set<string>>

  /** `NewStringSet`: a non-nil set holding exactly the given strings. */
  method NewStringSet(strings: seq<string>) returns (ss: StringSet)
    ensures ss.Some? && forall s :: s in ss.value <==> s in strings
  {
    var elems: set<string> := {};
    for i := 0 to |strings|
      invariant forall s :: s in elems <==> s in strings[..i]
    {
      assert strings[..i + 1] == strings[..i] + [strings[i]];
      elems := elems + {strings[i]};
    }
    assert strings[..|strings|] == strings;
    ss := Some(elems);
  }

  /** A subset is never larger than its superset. */
  lemma {:induction false} SubsetCardinality(a: set<string>, b: set<string>)
    requires a <= b
    ensures |a| <= |b|
    decreases |a|
  {
    if a != {} {
      var x :| x in a;
      SubsetCardinality(a - {x}, b - {x});
    }
  }

  /**
   * `Contains`: false when either set is nil; otherwise whether every element of `other` is in
   * `ss` (the size test only ever short-cuts a false answer).
   */
  function Contains(ss: StringSet, other: StringSet): (r: bool)
    ensures r <==> ss.Some? && other.Some? && other.value <= ss.value
  {
    if ss.None? || other.None? then false
    else if |other.value| > |ss.value| then
      assert !(other.value <= ss.value) by {
        if other.value <= ss.value {
          SubsetCardinality(other.value, ss.value);
        }
      }
      false
    else other.value <= ss.value
  }

  /** `Equals`: false when either set is nil; otherwise set equality. */
  function Equals(ss: StringSet, other: StringSet): (r: bool)
    ensures r <==> ss.Some? && other.Some? && ss.value == other.value
    ensures r <==> Contains(ss, other) && Contains(other, ss)
  {
    if ss.None? || other.None? then false
    else if |other.value| != |ss.value| then false
    else Contains(ss, other) && Contains(other, ss)
  }

  /**
   * `Difference`: a non-nil set of the elements of `ss` not in `other`; a nil `other` removes
   * nothing and a nil `ss` gives the empty set. The elements are visited in the map's order,
   * which the loop leaves open.
   */
  method Difference(ss: StringSet, other: StringSet) returns (diff: StringSet)
    ensures diff.Some?
    ensures forall s :: s in diff.value <==> ss.Some? && s in ss.value && (other.None? || s !in other.value)
  {
    var pending := if ss.Some? then ss.value else {};
    var elems: set<string> := {};
    while pending != {}
      invariant ss.None? ==> pending == {} && elems == {}
      invariant ss.Some? ==> pending <= ss.value && pending !! elems
      invariant forall s :: s in elems <==>
        ss.Some? && s in ss.value && s !in pending && (other.None? || s !in other.value)
      decreases |pending|
    {
      var s :| s in pending;
      if other.None? || s !in other.value {
        elems := elems + {s};
      }
      pending := pending - {s};
    }
    diff := Some(elems);
  }
}
