/**
 * Weak entity tags for rendered pages (sections 2.3 and 3.2 of RFC 7232): the tag built from
 * the segments that identify a page's content, the response headers that carry it, and the
 * `If-None-Match` comparison that lets a handler answer "not modified".
 */
module Etags {
  import opened GoStrings
  import opened HTTPHeaders

  const CacheControl := "Cache-Control"
  const EtagHeader := "Etag"
  const IfNoneMatch := "If-None-Match"
  const NoStore := "no-cache=\"Set-Cookie, Set-Cookie2\", no-store, max-age=0"
  const PrivateNoCache := "private, no-cache"

  /** `makeEtag`: the segments joined by single spaces, quoted, with the weak-tag prefix `W/`. */
  function MakeEtag(segments: seq<string>): (etag: string)
    ensures HasPrefix(etag, "W/\"") && HasSuffix(etag, "\"") && |etag| >= 4
    ensures etag[3..|etag| - 1] == Join(segments, ' ')
  {
    "W/\"" + Join(segments, ' ') + "\""
  }

  /** The segments of a tag made from space-free segments can be read back from it. */
  lemma EtagSegments(segments: seq<string>)
    requires |segments| >= 1 && forall i :: 0 <= i < |segments| ==> ' ' !in segments[i]
    ensures var etag := MakeEtag(segments); Split(etag[3..|etag| - 1], ' ') == segments
  {
    SplitJoin(segments, ' ');
  }

  /** Tags made from space-free segments are equal only when the segments are. */
  lemma EtagInjective(segments: seq<string>, others: seq<string>)
    requires |segments| >= 1 && forall i :: 0 <= i < |segments| ==> ' ' !in segments[i]
    requires |others| >= 1 && forall i :: 0 <= i < |others| ==> ' ' !in others[i]
    requires MakeEtag(segments) == MakeEtag(others)
    ensures segments == others
  {
    EtagSegments(segments);
    EtagSegments(others);
  }

  /** `SetUncacheable`: forbids storing the response, so that no cookie is cached. */
  method SetUncacheable(resh: Header)
    modifies resh
    ensures resh.fields == old(resh.fields)[CacheControl := [NoStore]]
    ensures resh.Get(CacheControl) == NoStore
  {
    resh.Set(CacheControl, NoStore);
  }

  /** `setEtag`: the response may be cached privately, only after revalidation, under `etag`. */
  method SetEtag(resh: Header, etag: string)
    modifies resh
    ensures resh.fields == old(resh.fields)[CacheControl := [PrivateNoCache]][EtagHeader := [etag]]
    ensures resh.Get(CacheControl) == PrivateNoCache && resh.Get(EtagHeader) == etag
  {
    resh.Set(CacheControl, PrivateNoCache);
    resh.Set(EtagHeader, etag);
  }

  /**
   * `checkEtagMatch`: whether the request's `If-None-Match` is the tag itself; never when
   * either is empty. (A list of tags or `*` does not match.)
   */
  function CheckEtagMatch(reqh: Header, etag: string): (matches: bool)
    reads reqh
    ensures reqh.Get(IfNoneMatch) == "" || etag == "" ==> !matches
    ensures matches <==> etag != "" && reqh.Get(IfNoneMatch) == etag
  {
    var matchQuery := reqh.Get(IfNoneMatch);
    if matchQuery == "" || etag == "" then false else matchQuery == etag
  }

  /**
   * `setAndCheckEtag`: always sets the caching headers and the tag of the segments, then
   * reports whether the request already holds that tag (so the page need not be sent).
   */
  method SetAndCheckEtag(resh: Header, reqh: Header, segments: seq<string>) returns (noContent: bool)
    requires resh != reqh
    modifies resh
    ensures resh.fields == old(resh.fields)[CacheControl := [PrivateNoCache]][EtagHeader := [MakeEtag(segments)]]
    ensures noContent <==> reqh.Get(IfNoneMatch) == MakeEtag(segments)
  {
    var etag := MakeEtag(segments);
    SetEtag(resh, etag);
    noContent := CheckEtagMatch(reqh, etag);
  }
}
