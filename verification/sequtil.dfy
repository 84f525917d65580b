/** Sequence helpers shared by the modelled code: distinctness and first-occurrence de-duplication. */
module SeqUtil {

  /** No element occurs twice. */
  predicate Distinct<T(==)>(s: seq<T>) {
    forall i, j :: 0 <= i < j < |s| ==> s[i] != s[j]
  }

  /** The keys of the elements of `s`. */
  function KeysOf<T(==), K(==)>(s: seq<T>, key: T -> K): set<K> {
    set x | x in s :: key(x)
  }

  /**
   * Keeps, in order, each element whose key has not been seen earlier in `s`: the way the
   * modelled code appends to a result list guarded by a "seen" map.
   */
  function DedupBy<T(==), K(==)>(s: seq<T>, key: T -> K): seq<T>
    decreases |s|
  {
    if s == [] then []
    else
      var d := DedupBy(s[..|s| - 1], key);
      if key(s[|s| - 1]) in KeysOf(d, key) then d else d + [s[|s| - 1]]
  }

  /** De-duplication keeps exactly the keys of the input, each once, and only input elements. */
  lemma {:induction false} DedupByProperties<T, K>(s: seq<T>, key: T -> K)
    ensures KeysOf(DedupBy(s, key), key) == KeysOf(s, key)
    ensures forall x :: x in DedupBy(s, key) ==> x in s
    ensures forall i, j :: 0 <= i < j < |DedupBy(s, key)| ==> key(DedupBy(s, key)[i]) != key(DedupBy(s, key)[j])
    decreases |s|
  {
    if s != [] {
      var init := s[..|s| - 1];
      DedupByProperties(init, key);
      assert s == init + [s[|s| - 1]];
      var d := DedupBy(init, key);
      assert KeysOf(s, key) == KeysOf(init, key) + {key(s[|s| - 1])};
      if key(s[|s| - 1]) !in KeysOf(d, key) {
        assert KeysOf(d + [s[|s| - 1]], key) == KeysOf(d, key) + {key(s[|s| - 1])};
        var r := d + [s[|s| - 1]];
        forall i, j | 0 <= i < j < |r| ensures key(r[i]) != key(r[j]) {
          if j == |r| - 1 {
            assert r[i] in d;
          }
        }
      }
    }
  }

  /** One more element is kept exactly when its key is not among the keys kept so far. */
  lemma DedupBySnoc<T, K>(s: seq<T>, x: T, key: T -> K)
    ensures DedupBy(s + [x], key) ==
      if key(x) in KeysOf(DedupBy(s, key), key) then DedupBy(s, key) else DedupBy(s, key) + [x]
  {
    assert (s + [x])[..|s|] == s;
  }

  /** The keys of a list with one more element gain that element's key. */
  lemma KeysOfSnoc<T, K>(s: seq<T>, x: T, key: T -> K)
    ensures KeysOf(s + [x], key) == KeysOf(s, key) + {key(x)}
  {
    assert forall y :: y in s + [x] <==> y in s || y == x;
  }

  /** Appending an element whose key was already seen leaves the de-duplication unchanged. */
  lemma DedupByAppendSeen<T, K>(s: seq<T>, x: T, key: T -> K)
    requires key(x) in KeysOf(s, key)
    ensures DedupBy(s + [x], key) == DedupBy(s, key)
  {
    assert (s + [x])[..|s|] == s;
    DedupByProperties(s, key);
  }

  /** Appending an element with a new key appends it to the de-duplication. */
  lemma DedupByAppendNew<T, K>(s: seq<T>, x: T, key: T -> K)
    requires key(x) !in KeysOf(s, key)
    ensures DedupBy(s + [x], key) == DedupBy(s, key) + [x]
  {
    assert (s + [x])[..|s|] == s;
    DedupByProperties(s, key);
  }

  /** The elements of `s` in reverse order. */
  function Reversed<T>(s: seq<T>): (r: seq<T>)
    ensures |r| == |s| && forall i :: 0 <= i < |s| ==> r[i] == s[|s| - 1 - i]
  {
    seq(|s|, i requires 0 <= i < |s| => s[|s| - 1 - i])
  }

  /** Reversing twice gives the sequence back, so reversal is injective. */
  lemma ReversedTwice<T>(s: seq<T>)
    ensures Reversed(Reversed(s)) == s
  {
  }
}
