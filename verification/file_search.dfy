/**
 * `FileControl::searchFile`: a case-insensitive search of file names below
 * the working root (the home directory), capped at ten results. The
 * traversal of the root is given as a sequence of entries.
 */
module FileSearch {
  import opened Text
  import opened DirEntry

  const MaxResults: nat := 10

  /** The lower-cased last path component contains the lower-cased keyword.
      Every entry is considered, directories included. */
  predicate NameMatches(e: Entry, keyword: string) {
    Contains(Lower(e.name), Lower(keyword))
  }

  /** Full paths of the entries `matches` accepts, in traversal order. */
  function PathsWhere(entries: seq<Entry>, keyword: string, matches: (Entry, string) -> bool): (r: seq<string>)
    ensures |r| <= |entries|
  {
    if entries == [] then []
    else
      var last := entries[|entries| - 1];
      PathsWhere(entries[..|entries| - 1], keyword, matches) + (if matches(last, keyword) then [last.path] else [])
  }

  /** Full paths of all matching entries, in traversal order. */
  function Hits(entries: seq<Entry>, keyword: string): (r: seq<string>)
    ensures |r| <= |entries|
  {
    PathsWhere(entries, keyword, NameMatches)
  }

  /** What `searchFile` returns: the first ten hits. */
  function SearchResults(entries: seq<Entry>, keyword: string): seq<string> {
    var h := Hits(entries, keyword);
    h[..Min(MaxResults, |h|)]
  }

  /** Entry `i` is accepted and has path `p`. */
  predicate AcceptedAt(entries: seq<Entry>, keyword: string, matches: (Entry, string) -> bool, i: int, p: string) {
    0 <= i < |entries| && matches(entries[i], keyword) && entries[i].path == p
  }

  lemma {:induction false} PathsWhereMembers(entries: seq<Entry>, keyword: string, matches: (Entry, string) -> bool, p: string)
    ensures p in PathsWhere(entries, keyword, matches) <==> exists i :: AcceptedAt(entries, keyword, matches, i, p)
  {
    if entries != [] {
      var front := entries[..|entries| - 1];
      var last := entries[|entries| - 1];
      PathsWhereMembers(front, keyword, matches, p);
      var tail := if matches(last, keyword) then [last.path] else [];
      assert PathsWhere(entries, keyword, matches) == PathsWhere(front, keyword, matches) + tail;
      if p in tail {
        assert AcceptedAt(entries, keyword, matches, |entries| - 1, p);
      }
      if exists i :: AcceptedAt(front, keyword, matches, i, p) {
        var i :| AcceptedAt(front, keyword, matches, i, p);
        assert AcceptedAt(entries, keyword, matches, i, p);
      }
      if exists i :: AcceptedAt(entries, keyword, matches, i, p) {
        var i :| AcceptedAt(entries, keyword, matches, i, p);
        if i < |front| {
          assert AcceptedAt(front, keyword, matches, i, p);
        }
      }
    }
  }

  lemma {:induction false} HitsAppend(a: seq<Entry>, b: seq<Entry>, keyword: string)
    ensures Hits(a + b, keyword) == Hits(a, keyword) + Hits(b, keyword)
  {
    if b == [] {
      assert a + b == a;
    } else {
      var front := b[..|b| - 1];
      assert (a + b)[..|a + b| - 1] == a + front;
      HitsAppend(a, front, keyword);
    }
  }

  /** At most ten results; each is the path of a matching entry; they are the
      first hits in traversal order; and when ten or fewer entries match,
      every one of them is returned. */
  lemma SearchResultsSpec(entries: seq<Entry>, keyword: string, p: string)
    ensures |SearchResults(entries, keyword)| <= MaxResults
    ensures SearchResults(entries, keyword) == Hits(entries, keyword)[..|SearchResults(entries, keyword)|]
    ensures p in SearchResults(entries, keyword) ==> exists i :: AcceptedAt(entries, keyword, NameMatches, i, p)
    ensures |Hits(entries, keyword)| <= MaxResults ==> SearchResults(entries, keyword) == Hits(entries, keyword)
    ensures |SearchResults(entries, keyword)| == Min(MaxResults, |Hits(entries, keyword)|)
  {
    var r := SearchResults(entries, keyword);
    var h := Hits(entries, keyword);
    if p in r {
      var k :| 0 <= k < |r| && r[k] == p;
      assert h[k] == p;
      PathsWhereMembers(entries, keyword, NameMatches, p);
    }
  }

  /** Only the lower-cased keyword matters. */
  lemma SearchIgnoresKeywordCase(entries: seq<Entry>, k1: string, k2: string)
    requires Lower(k1) == Lower(k2)
    ensures SearchResults(entries, k1) == SearchResults(entries, k2)
  {
    assert forall e :: NameMatches(e, k1) == NameMatches(e, k2);
    HitsSameMatches(entries, k1, k2);
  }

  lemma {:induction false} HitsSameMatches(entries: seq<Entry>, k1: string, k2: string)
    requires forall e :: NameMatches(e, k1) == NameMatches(e, k2)
    ensures Hits(entries, k1) == Hits(entries, k2)
  {
    if entries != [] {
      HitsSameMatches(entries[..|entries| - 1], k1, k2);
    }
  }

  /** The paths of the given entries. */
  function Paths(entries: seq<Entry>): (r: seq<string>)
    ensures |r| == |entries| && forall i :: 0 <= i < |entries| ==> r[i] == entries[i].path
  {
    seq(|entries|, i requires 0 <= i < |entries| => entries[i].path)
  }

  lemma {:induction false} HitsOfEmptyKeyword(entries: seq<Entry>)
    ensures Hits(entries, "") == Paths(entries)
  {
    if entries != [] {
      var front := entries[..|entries| - 1];
      var last := entries[|entries| - 1];
      HitsOfEmptyKeyword(front);
      assert IsAt(Lower(last.name), Lower(""), 0);
      ContainsAt(Lower(last.name), Lower(""), 0);
      assert Paths(entries) == Paths(front) + [last.path];
    }
  }

  /** The empty keyword matches every entry: the first ten paths come back. */
  lemma SearchEmptyKeyword(entries: seq<Entry>)
    ensures SearchResults(entries, "") == Paths(entries)[..Min(MaxResults, |entries|)]
  {
    HitsOfEmptyKeyword(entries);
  }

  /** `searchFile`: push each matching path, stop once ten are held. */
  method SearchFile(traversal: seq<Entry>, keyword: string) returns (results: seq<string>)
    ensures results == SearchResults(traversal, keyword)
  {
    results := [];
    var keyLower := Lower(keyword);
    var i := 0;
    while i < |traversal|
      invariant 0 <= i <= |traversal|
      invariant results == Hits(traversal[..i], keyword)
      invariant |results| < MaxResults
    {
      var entry := traversal[i];
      HitsStep(traversal, keyword, i);
      var nameLower := Lower(entry.name);
      if IndexOf(nameLower, keyLower).Some? {
        results := results + [entry.path];
        if |results| >= 10 {
          SearchCut(traversal, keyword, i + 1);
          return;
        }
      }
      i := i + 1;
    }
    assert traversal[..i] == traversal;
  }

  /** One more entry adds its path to the hits exactly when its name matches. */
  lemma HitsStep(entries: seq<Entry>, keyword: string, i: nat)
    requires i < |entries|
    ensures Hits(entries[..i + 1], keyword) ==
      Hits(entries[..i], keyword) + (if NameMatches(entries[i], keyword) then [entries[i].path] else [])
  {
    assert entries[..i + 1][..i] == entries[..i];
  }

  /** Where the loop stops: once the first `n` entries give ten hits, those are
      the answer. */
  lemma SearchCut(entries: seq<Entry>, keyword: string, n: nat)
    requires n <= |entries|
    requires |Hits(entries[..n], keyword)| == MaxResults
    ensures SearchResults(entries, keyword) == Hits(entries[..n], keyword)
  {
    HitsAppend(entries[..n], entries[n..], keyword);
    assert entries[..n] + entries[n..] == entries;
  }
}
