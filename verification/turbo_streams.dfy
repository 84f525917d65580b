/**
 * Content negotiation for Turbo Streams (section 5.3.2 of RFC 7231): a request accepts a
 * stream response when its `Accept` header lists the Turbo Stream media type as one of its
 * comma-separated entries, white space around the entry aside.
 */
module TurboStreams {
  import opened GoStrings
  import opened HTTPHeaders

  const StreamContentType := "text/vnd.turbo-stream.html"

  /** Some comma-separated entry of `accept`, trimmed, is the Turbo Stream media type. */
  predicate ListsStreamType(accept: string) {
    exists i :: 0 <= i < |Split(accept, ',')| && TrimSpace(Split(accept, ',')[i]) == StreamContentType
  }

  /**
   * `StreamAccepted`: scans the entries of the `Accept` header in order and stops at the first
   * that is the Turbo Stream media type. An entry with parameters (`;q=...`) is not it.
   */
  method StreamAccepted(h: Header) returns (accepted: bool)
    ensures accepted <==> ListsStreamType(h.Get("Accept"))
    ensures h.Get("Accept") == "" ==> !accepted
  {
    var entries := Split(h.Get("Accept"), ',');
    for i := 0 to |entries|
      invariant forall k :: 0 <= k < i ==> TrimSpace(entries[k]) != StreamContentType
    {
      if TrimSpace(entries[i]) == StreamContentType {
        return true;
      }
    }
    return false;
  }

  /**
   * Reordering the entries of an `Accept` header does not change whether it lists the Turbo
   * Stream media type.
   */
  lemma EntryOrderIrrelevant(entries: seq<string>, reordered: seq<string>)
    requires |entries| >= 1 && forall i :: 0 <= i < |entries| ==> ',' !in entries[i]
    requires multiset(reordered) == multiset(entries)
    ensures ListsStreamType(Join(entries, ',')) <==> ListsStreamType(Join(reordered, ','))
  {
    assert |reordered| == |multiset(reordered)| == |entries|;
    forall i | 0 <= i < |reordered|
      ensures ',' !in reordered[i]
    {
      assert reordered[i] in multiset(entries);
    }
    SplitJoin(entries, ',');
    SplitJoin(reordered, ',');
    if ListsStreamType(Join(entries, ',')) {
      var i :| 0 <= i < |entries| && TrimSpace(entries[i]) == StreamContentType;
      assert entries[i] in multiset(reordered);
      var j :| 0 <= j < |reordered| && reordered[j] == entries[i];
    }
    if ListsStreamType(Join(reordered, ',')) {
      var j :| 0 <= j < |reordered| && TrimSpace(reordered[j]) == StreamContentType;
      assert reordered[j] in multiset(entries);
      var i :| 0 <= i < |entries| && entries[i] == reordered[j];
    }
  }
}
