/**
 * The history command (history.go): search Safari's history, drop entries
 * whose URL has been seen already, and show the rest.
 */
module HistoryCommands {
  import opened Wrappers
  import opened Icons
  import opened Urls
  import opened HistoryDb

  // ---------------------------------------------------------------------
  // De-duplication, as a specification

  /** The URLs of the entries. */
  function URLs(es: seq<Entry>): set<string> {
    set k | 0 <= k < |es| :: es[k].url
  }

  /** The entries with every entry whose URL occurred earlier removed. */
  function Dedup(es: seq<Entry>): seq<Entry> {
    if es == [] then []
    else
      var n := |es| - 1;
      Dedup(es[..n]) + if es[n].url in URLs(es[..n]) then [] else [es[n]]
  }

  /** Entry `k` is the first one with its URL. */
  predicate FirstWithURL(es: seq<Entry>, k: int) {
    0 <= k < |es| && forall j | 0 <= j < k :: es[j].url != es[k].url
  }

  /** `idx` maps each position of `a` to a position of `b` holding the same entry, in increasing order. */
  predicate Embeds(idx: seq<int>, a: seq<Entry>, b: seq<Entry>) {
    |idx| == |a|
    && (forall k | 0 <= k < |idx| :: 0 <= idx[k] < |b| && a[k] == b[idx[k]])
    && (forall i, j | 0 <= i < j < |idx| :: idx[i] < idx[j])
  }

  lemma URLsAppend(a: seq<Entry>, b: seq<Entry>)
    ensures URLs(a + b) == URLs(a) + URLs(b)
  {
    forall u | u in URLs(a + b)
      ensures u in URLs(a) + URLs(b)
    {
      var k :| 0 <= k < |a + b| && (a + b)[k].url == u;
      if k >= |a| {
        assert b[k - |a|].url == u;
      }
    }
    forall u | u in URLs(b)
      ensures u in URLs(a + b)
    {
      var k :| 0 <= k < |b| && b[k].url == u;
      assert (a + b)[|a| + k].url == u;
    }
    forall u | u in URLs(a)
      ensures u in URLs(a + b)
    {
      var k :| 0 <= k < |a| && a[k].url == u;
      assert (a + b)[k].url == u;
    }
  }

  /** De-duplication keeps the set of URLs. */
  lemma {:induction false} DedupURLs(es: seq<Entry>)
    ensures URLs(Dedup(es)) == URLs(es)
  {
    if es != [] {
      var n := |es| - 1;
      var p := es[..n];
      DedupURLs(p);
      assert es == p + [es[n]];
      URLsAppend(p, [es[n]]);
      assert URLs([es[n]]) == {es[n].url};
      var tail := if es[n].url in URLs(p) then [] else [es[n]];
      assert Dedup(es) == Dedup(p) + tail;
      URLsAppend(Dedup(p), tail);
      assert URLs(tail) == if es[n].url in URLs(p) then {} else {es[n].url};
    }
  }

  /** After de-duplication no two entries share a URL. */
  lemma {:induction false} DedupDistinct(es: seq<Entry>)
    ensures forall i, j | 0 <= i < j < |Dedup(es)| :: Dedup(es)[i].url != Dedup(es)[j].url
  {
    if es != [] {
      var n := |es| - 1;
      var p := es[..n];
      DedupDistinct(p);
      DedupURLs(p);
      var d := Dedup(p);
      if es[n].url !in URLs(p) {
        assert Dedup(es) == d + [es[n]];
        forall i | 0 <= i < |d|
          ensures d[i].url != es[n].url
        {
          assert d[i].url in URLs(d);
        }
      }
    }
  }

  /** Being first with a URL does not depend on the entries after it. */
  lemma FirstWithURLInPrefix(es: seq<Entry>, k: int)
    requires es != [] && k < |es| - 1 && FirstWithURL(es, k)
    ensures FirstWithURL(es[..|es| - 1], k)
  {
  }

  /** The last entry, when first with its URL, has a URL no earlier entry has. */
  lemma FirstLastIsNew(es: seq<Entry>)
    requires es != [] && FirstWithURL(es, |es| - 1)
    ensures es[|es| - 1].url !in URLs(es[..|es| - 1])
  {
  }

  /** The entry at `k`, when first with its URL, survives de-duplication. */
  lemma {:induction false} DedupKeepsFirstAt(es: seq<Entry>, k: int)
    requires FirstWithURL(es, k)
    ensures es[k] in Dedup(es)
  {
    var n := |es| - 1;
    var p := es[..n];
    if k < n {
      FirstWithURLInPrefix(es, k);
      DedupKeepsFirstAt(p, k);
      assert p[k] == es[k];
    } else {
      FirstLastIsNew(es);
    }
  }

  /** Every entry that is the first with its URL survives de-duplication. */
  lemma DedupKeepsFirst(es: seq<Entry>)
    ensures forall k | 0 <= k < |es| :: FirstWithURL(es, k) ==> es[k] in Dedup(es)
  {
    forall k | 0 <= k < |es| && FirstWithURL(es, k)
      ensures es[k] in Dedup(es)
    {
      DedupKeepsFirstAt(es, k);
    }
  }

  /** Every entry that survives de-duplication is the first with its URL. */
  lemma {:induction false} DedupOnlyFirst(es: seq<Entry>)
    ensures forall e | e in Dedup(es) :: exists k :: FirstWithURL(es, k) && es[k] == e
  {
    if es != [] {
      var n := |es| - 1;
      var p := es[..n];
      DedupOnlyFirst(p);
      assert forall k | 0 <= k < n :: p[k] == es[k];
      var tail := if es[n].url in URLs(p) then [] else [es[n]];
      assert Dedup(es) == Dedup(p) + tail;
      forall e | e in Dedup(es)
        ensures exists k :: FirstWithURL(es, k) && es[k] == e
      {
        if e in Dedup(p) {
          var k :| FirstWithURL(p, k) && p[k] == e;
          assert FirstWithURL(es, k);
        } else {
          assert e == es[n] && es[n].url !in URLs(p);
          forall j | 0 <= j < n
            ensures es[j].url != es[n].url
          {
            assert p[j].url in URLs(p);
          }
          assert FirstWithURL(es, n);
        }
      }
    }
  }

  /** An embedding into `b` is one into any `c` that starts with `b`. */
  lemma EmbedsExtend(idx: seq<int>, a: seq<Entry>, b: seq<Entry>, c: seq<Entry>)
    requires Embeds(idx, a, b)
    requires |b| <= |c| && forall k | 0 <= k < |b| :: c[k] == b[k]
    ensures Embeds(idx, a, c)
  {
  }

  /** An embedding into `b` grows by the entry that follows `b` in `c`. */
  lemma EmbedsSnoc(idx: seq<int>, a: seq<Entry>, b: seq<Entry>, c: seq<Entry>)
    requires Embeds(idx, a, b)
    requires |b| < |c| && forall k | 0 <= k < |b| :: c[k] == b[k]
    ensures Embeds(idx + [|b|], a + [c[|b|]], c)
  {
    var idx', a' := idx + [|b|], a + [c[|b|]];
    forall k | 0 <= k < |idx'|
      ensures 0 <= idx'[k] < |c| && a'[k] == c[idx'[k]]
    {
      if k < |idx| {
        assert idx'[k] == idx[k] && a'[k] == a[k];
      }
    }
  }

  /** One more entry extends an embedding; de-duplication keeps the entry only when its URL is new. */
  lemma EmbedsStep(idx: seq<int>, d: seq<Entry>, p: seq<Entry>, es: seq<Entry>, idx': seq<int>, d': seq<Entry>)
    requires Embeds(idx, d, p)
    requires |es| == |p| + 1 && forall k | 0 <= k < |p| :: es[k] == p[k]
    requires idx' == if es[|p|].url in URLs(p) then idx else idx + [|p|]
    requires d' == if es[|p|].url in URLs(p) then d else d + [es[|p|]]
    ensures Embeds(idx', d', es)
  {
    if es[|p|].url in URLs(p) {
      EmbedsExtend(idx, d, p, es);
    } else {
      EmbedsSnoc(idx, d, p, es);
    }
  }

  /** The positions of the entries de-duplication keeps. */
  function DedupPositions(es: seq<Entry>): seq<int> {
    if es == [] then []
    else
      var n := |es| - 1;
      DedupPositions(es[..n]) + if es[n].url in URLs(es[..n]) then [] else [n]
  }

  /**
   * De-duplication keeps the order of the entries it keeps: the result is a
   * subsequence, taken at `DedupPositions`.
   */
  lemma {:induction false} DedupIsSubsequence(es: seq<Entry>)
    ensures Embeds(DedupPositions(es), Dedup(es), es)
  {
    if es != [] {
      DedupIsSubsequence(es[..|es| - 1]);
      DedupPositionsStep(es);
    }
  }

  /** The embedding of a prefix extends to one more entry. */
  lemma DedupPositionsStep(es: seq<Entry>)
    requires es != []
    requires Embeds(DedupPositions(es[..|es| - 1]), Dedup(es[..|es| - 1]), es[..|es| - 1])
    ensures Embeds(DedupPositions(es), Dedup(es), es)
  {
    var n := |es| - 1;
    DedupStep(es, n);
    assert es[..n + 1] == es;
    EmbedsStep(DedupPositions(es[..n]), Dedup(es[..n]), es[..n], es, DedupPositions(es), Dedup(es));
  }

  // ---------------------------------------------------------------------
  // doFilterHistory

  /** `hURLer`: a history entry is identified, copied and shown large by its URL. */
  function HistoryURLer(e: Entry): (u: URLer)
    ensures u.uid == u.url && u.copytext == u.url && u.largetype == u.url
    ensures u.title == e.title && u.url == e.url && u.icon == IconHistory
  {
    URLer(e.title, e.url, e.url, e.url, e.url, IconHistory)
  }

  /** The de-duplication loop of `doFilterHistory`: a set of seen URLs and the entries kept. */
  method UniqueEntries(entries: seq<Entry>) returns (unique: seq<Entry>)
    ensures unique == Dedup(entries)
  {
    var seen: map<string, bool> := map[];
    unique := [];
    for i := 0 to |entries|
      invariant unique == Dedup(entries[..i])
      invariant seen.Keys == URLs(entries[..i])
      invariant forall u | u in seen :: seen[u]
    {
      DedupStep(entries, i);
      var e := entries[i];
      if e.url in seen && seen[e.url] {
        continue;
      }
      seen := seen[e.url := true];
      unique := unique + [e];
    }
    assert entries[..|entries|] == entries;
  }

  /** One more entry: de-duplication keeps it iff its URL is new, and the URLs grow by it. */
  lemma DedupStep(es: seq<Entry>, i: int)
    requires 0 <= i < |es|
    ensures Dedup(es[..i + 1]) == Dedup(es[..i]) + if es[i].url in URLs(es[..i]) then [] else [es[i]]
    ensures URLs(es[..i + 1]) == URLs(es[..i]) + {es[i].url}
  {
    assert es[..i + 1][..i] == es[..i];
    URLsAppend(es[..i], [es[i]]);
    assert es[..i + 1] == es[..i] + [es[i]];
    assert URLs([es[i]]) == {es[i].url};
  }

  /** The history search `doFilterHistory` runs: ten times the result limit, to allow for duplicates. */
  function HistorySearch(query: string, maxResults: int): Query {
    SearchQuery(query, maxResults * 10)
  }

  /**
   * `doFilterHistory`, with the database as `db`: the items for the
   * de-duplicated results of the search, or the search's error.
   */
  method DoFilterHistory(query: string, maxResults: int, db: Query -> Result<seq<Entry>, string>)
    returns (r: Result<seq<URLer>, string>)
    ensures db(HistorySearch(query, maxResults)).Err? ==> r == Err(db(HistorySearch(query, maxResults)).error)
    ensures db(HistorySearch(query, maxResults)).Ok? ==>
      var kept := Dedup(db(HistorySearch(query, maxResults)).value);
      r.Ok? && |r.value| == |kept| && forall k | 0 <= k < |kept| :: r.value[k] == HistoryURLer(kept[k])
  {
    var q := Search(query, maxResults * 10);
    var entries := db(q);
    if entries.Err? {
      return Err(entries.error);
    }
    var unique := UniqueEntries(entries.value);
    var items: seq<URLer> := [];
    for i := 0 to |unique|
      invariant |items| == i
      invariant forall k | 0 <= k < i :: items[k] == HistoryURLer(unique[k])
    {
      items := items + [HistoryURLer(unique[i])];
    }
    return Ok(items);
  }

  /** The search's row limit, its last argument, is ten times the number of results shown. */
  lemma HistorySearchLimit(query: string, maxResults: int)
    ensures var q := HistorySearch(query, maxResults);
      |q.args| >= 1 && q.args[|q.args| - 1] == Int(maxResults * 10)
  {
  }
}
