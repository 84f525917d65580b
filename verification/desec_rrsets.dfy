/**
 * Filtering and ordering of a subname's RRsets by the configured record types: the RRsets are
 * filed under their upper-cased type, and then read back in the configured order.
 */
module DesecRRsets {
  import opened GoStrings
  import opened SeqUtil
  import opened DesecModels

  /** The `all` map of `filterRRsets`: each RRset under its upper-cased type, a later one replacing an earlier one. */
  function ByType(rrsets: seq<RRset>): map<string, RRset>
    decreases |rrsets|
  {
    if rrsets == [] then map[]
    else ByType(rrsets[..|rrsets| - 1])[ToUpper(rrsets[|rrsets| - 1].typ) := rrsets[|rrsets| - 1]]
  }

  /**
   * A type is filed exactly when some RRset has it, upper-cased, and what is filed is the last
   * such RRset of the input.
   */
  lemma {:induction false} ByTypeLastWins(rrsets: seq<RRset>, key: string)
    ensures key in ByType(rrsets) <==> exists i :: 0 <= i < |rrsets| && ToUpper(rrsets[i].typ) == key
    ensures key in ByType(rrsets) ==>
      exists i :: 0 <= i < |rrsets| && ToUpper(rrsets[i].typ) == key && ByType(rrsets)[key] == rrsets[i] &&
        forall j :: i < j < |rrsets| ==> ToUpper(rrsets[j].typ) != key
    decreases |rrsets|
  {
    if rrsets != [] {
      var n := |rrsets| - 1;
      var init := rrsets[..n];
      ByTypeLastWins(init, key);
      if ToUpper(rrsets[n].typ) != key {
        if key in ByType(rrsets) {
          var i :| 0 <= i < |init| && ToUpper(init[i].typ) == key && ByType(init)[key] == init[i] &&
            forall j :: i < j < |init| ==> ToUpper(init[j].typ) != key;
          assert rrsets[i] == init[i];
          assert forall j :: i < j < |rrsets| ==> ToUpper(rrsets[j].typ) != key by {
            forall j | i < j < |rrsets| ensures ToUpper(rrsets[j].typ) != key {
              if j < n {
                assert rrsets[j] == init[j];
              }
            }
          }
        }
        if exists i :: 0 <= i < |rrsets| && ToUpper(rrsets[i].typ) == key {
          var i :| 0 <= i < |rrsets| && ToUpper(rrsets[i].typ) == key;
          assert i < n && init[i] == rrsets[i];
        }
      }
    }
  }

  /** The entries of `all` whose type is listed in `types`, matched exactly. */
  function Restrict(all: map<string, RRset>, types: seq<string>): map<string, RRset>
  {
    map t | t in types && t in all :: all[t]
  }

  /** What `filterRRsets` returns: the RRsets filed by type, kept only for the configured types. */
  function Filtered(rrsets: seq<RRset>, types: seq<string>): map<string, RRset>
  {
    Restrict(ByType(rrsets), types)
  }

  /**
   * `filterRRsets`: the last RRset of each upper-cased type, for the listed types only. Which
   * RRset that is, and that nothing else survives, is `ByTypeLastWins` and `FilteredKeys`.
   */
  method FilterRRsets(rrsets: seq<RRset>, recordTypes: seq<string>) returns (filtered: map<string, RRset>)
    ensures filtered == Filtered(rrsets, recordTypes)
  {
    var all: map<string, RRset> := map[];
    for i := 0 to |rrsets|
      invariant all == ByType(rrsets[..i])
    {
      assert rrsets[..i + 1][..i] == rrsets[..i];
      all := all[ToUpper(rrsets[i].typ) := rrsets[i]];
    }
    assert rrsets[..|rrsets|] == rrsets;
    filtered := map[];
    for i := 0 to |recordTypes|
      invariant filtered == Restrict(all, recordTypes[..i])
    {
      var t := recordTypes[i];
      assert forall u :: u in recordTypes[..i + 1] <==> u in recordTypes[..i] || u == t by {
        assert recordTypes[..i + 1] == recordTypes[..i] + [t];
      }
      if t in all {
        filtered := filtered[t := all[t]];
      }
    }
    assert recordTypes[..|recordTypes|] == recordTypes;
  }

  /** A type survives filtering exactly when it is configured and some RRset has it, upper-cased. */
  lemma FilteredKeys(rrsets: seq<RRset>, types: seq<string>, t: string)
    ensures t in Filtered(rrsets, types) <==> t in types && exists i :: 0 <= i < |rrsets| && ToUpper(rrsets[i].typ) == t
    ensures t in Filtered(rrsets, types) ==> Filtered(rrsets, types)[t] in rrsets && ToUpper(Filtered(rrsets, types)[t].typ) == t
  {
    ByTypeLastWins(rrsets, t);
  }

  /** The values of `f` for the listed types that it holds, in list order: the `sorted` slice. */
  function InTypeOrder(f: map<string, RRset>, types: seq<string>): seq<RRset>
    decreases |types|
  {
    if types == [] then []
    else
      var t := types[|types| - 1];
      InTypeOrder(f, types[..|types| - 1]) + (if t in f then [f[t]] else [])
  }

  /** The listed types that `f` holds, in list order (repeats kept). */
  function Kept(types: seq<string>, f: map<string, RRset>): (kept: seq<string>)
    ensures |kept| <= |types| && forall t :: t in kept ==> t in types && t in f
    decreases |types|
  {
    if types == [] then []
    else
      var t := types[|types| - 1];
      var r := Kept(types[..|types| - 1], f);
      assert forall u :: u in r ==> u in types by {
        forall u | u in r ensures u in types {
          var k :| 0 <= k < |types| - 1 && types[..|types| - 1][k] == u;
          assert types[k] == u;
        }
      }
      r + (if t in f then [t] else [])
  }

  /** The types of an RRset list, upper-cased. */
  function UpperTypes(rrsets: seq<RRset>): seq<string>
  {
    seq(|rrsets|, i requires 0 <= i < |rrsets| => ToUpper(rrsets[i].typ))
  }

  /** `InTypeOrder` holds one RRset per kept type, in the same positions. */
  lemma {:induction false} InTypeOrderKept(f: map<string, RRset>, types: seq<string>)
    ensures |InTypeOrder(f, types)| == |Kept(types, f)|
    ensures forall i :: 0 <= i < |InTypeOrder(f, types)| ==> InTypeOrder(f, types)[i] == f[Kept(types, f)[i]]
    decreases |types|
  {
    if types != [] {
      InTypeOrderKept(f, types[..|types| - 1]);
    }
  }

  /** Keeping only some of the types of a list without repeats yields a list without repeats. */
  lemma {:induction false} KeptDistinct(types: seq<string>, f: map<string, RRset>)
    requires Distinct(types)
    ensures Distinct(Kept(types, f))
    decreases |types|
  {
    if types != [] {
      var init := types[..|types| - 1];
      var t := types[|types| - 1];
      assert Distinct(init) by {
        forall i, j | 0 <= i < j < |init| ensures init[i] != init[j] {
          assert init[i] == types[i] && init[j] == types[j];
        }
      }
      KeptDistinct(init, f);
    }
  }

  /**
   * `FilterAndSortRRsets`: the filtered RRsets in the configured order. Their types are the
   * configured types that some RRset has, in configured order (so at most one per listed type),
   * and each is the last RRset of its type.
   */
  method FilterAndSortRRsets(rrsets: seq<RRset>, recordTypes: seq<string>) returns (sorted: seq<RRset>)
    ensures sorted == InTypeOrder(Filtered(rrsets, recordTypes), recordTypes)
  {
    var filtered := FilterRRsets(rrsets, recordTypes);
    sorted := [];
    for i := 0 to |recordTypes|
      invariant sorted == InTypeOrder(filtered, recordTypes[..i])
    {
      assert recordTypes[..i + 1][..i] == recordTypes[..i];
      if recordTypes[i] in filtered {
        sorted := sorted + [filtered[recordTypes[i]]];
      }
    }
    assert recordTypes[..|recordTypes|] == recordTypes;
  }

  /**
   * The output's upper-cased types are the configured types present in the input, in the
   * configured order: no longer than the configuration, and without repeats when the
   * configuration has none.
   */
  lemma FilterAndSortTypes(rrsets: seq<RRset>, types: seq<string>)
    ensures UpperTypes(InTypeOrder(Filtered(rrsets, types), types)) == Kept(types, Filtered(rrsets, types))
    ensures |InTypeOrder(Filtered(rrsets, types), types)| <= |types|
    ensures Distinct(types) ==> Distinct(UpperTypes(InTypeOrder(Filtered(rrsets, types), types)))
    ensures forall r :: r in InTypeOrder(Filtered(rrsets, types), types) ==> r in rrsets
  {
    var f := Filtered(rrsets, types);
    var out := InTypeOrder(f, types);
    InTypeOrderKept(f, types);
    forall i | 0 <= i < |out| ensures ToUpper(out[i].typ) == Kept(types, f)[i] && out[i] in rrsets {
      FilteredKeys(rrsets, types, Kept(types, f)[i]);
    }
    if Distinct(types) {
      KeptDistinct(types, f);
    }
  }
}
