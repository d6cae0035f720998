/**
 * The combined search (search.go): every bookmark that is not a
 * bookmarklet, followed by the de-duplicated recent history.
 */
module SearchCommand {
  import opened Wrappers
  import opened Seqs
  import opened Icons
  import opened Urls
  import opened HistoryDb
  import opened HistoryCommands
  import opened BookmarkCommands
  import Safari

  /** Search shows a bookmark iff it is not a bookmarklet. */
  predicate SearchableBookmark(bm: Safari.Bookmark) {
    !Safari.IsBookmarklet(bm)
  }

  /** The history as `loadHistory` keeps it, and how many duplicates it dropped. */
  datatype Loaded = Loaded(entries: seq<Entry>, removed: int)

  /**
   * `loadHistory`, with the database as `db`: the recent entries without
   * repeated URLs, the first of each kept; `removed` is the number dropped.
   */
  method LoadHistory(count: int, db: Query -> Result<seq<Entry>, string>) returns (r: Result<Loaded, string>)
    ensures db(Recent(count)).Err? ==> r == Err(db(Recent(count)).error)
    ensures db(Recent(count)).Ok? ==>
      var all := db(Recent(count)).value;
      r == Ok(Loaded(Dedup(all), |all| - |Dedup(all)|))
  {
    var res := db(Recent(count));
    if res.Err? {
      return Err(res.error);
    }
    var all := res.value;
    var seen: map<string, bool> := map[];
    var entries: seq<Entry> := [];
    for i := 0 to |all|
      invariant entries == Dedup(all[..i])
      invariant seen.Keys == URLs(all[..i])
      invariant forall u | u in seen :: seen[u]
    {
      DedupStep(all, i);
      var e := all[i];
      if e.url in seen && seen[e.url] {
        continue;
      }
      entries := entries + [e];
      seen := seen[e.url := true];
    }
    assert all[..|all|] == all;
    return Ok(Loaded(entries, |all| - |entries|));
  }

  /** De-duplication never adds entries, so the logged count is never negative. */
  lemma {:induction false} DedupRemovesNothingNew(es: seq<Entry>)
    ensures |Dedup(es)| <= |es|
    ensures |es| - |Dedup(es)| == 0 <==> forall i, j | 0 <= i < j < |es| :: es[i].url != es[j].url
  {
    if es != [] {
      var n := |es| - 1;
      DedupRemovesNothingNew(es[..n]);
      assert forall k | 0 <= k < n :: es[..n][k] == es[k];
      if es[n].url in URLs(es[..n]) {
        var j :| 0 <= j < n && es[..n][j].url == es[n].url;
        assert es[j].url == es[n].url;
      }
    }
  }

  /** The items of the search: the bookmarks' first, then the history entries'. */
  function SearchItems(bms: seq<Safari.Bookmark>, entries: seq<Entry>): seq<URLer> {
    seq(|bms|, k requires 0 <= k < |bms| => BookmarkURLer(bms[k]))
    + seq(|entries|, k requires 0 <= k < |entries| => HistoryURLer(entries[k]))
  }

  lemma SearchItemsSnocBookmark(bms: seq<Safari.Bookmark>, i: int)
    requires 0 <= i < |bms|
    ensures SearchItems(bms[..i + 1], []) == SearchItems(bms[..i], []) + [BookmarkURLer(bms[i])]
  {
  }

  lemma SearchItemsSnocEntry(bms: seq<Safari.Bookmark>, es: seq<Entry>, i: int)
    requires 0 <= i < |es|
    ensures SearchItems(bms, es[..i + 1]) == SearchItems(bms, es[..i]) + [HistoryURLer(es[i])]
  {
  }

  /**
   * `doSearch`: the searchable bookmarks, then the loaded history, each as
   * an item, or the error loading the history ran into.
   */
  method DoSearch(lib: Safari.Library, count: int, db: Query -> Result<seq<Entry>, string>) returns (r: Result<seq<URLer>, string>)
    ensures db(Recent(count)).Err? ==> r == Err(db(Recent(count)).error)
    ensures db(Recent(count)).Ok? ==>
      r == Ok(SearchItems(Filter(lib.bookmarks, SearchableBookmark), Dedup(db(Recent(count)).value)))
  {
    var bms := Filter(lib.bookmarks, SearchableBookmark);
    var loaded := LoadHistory(count, db);
    if loaded.Err? {
      return Err(loaded.error);
    }
    var entries := loaded.value.entries;
    var items: seq<URLer> := [];
    for i := 0 to |bms|
      invariant items == SearchItems(bms[..i], [])
    {
      SearchItemsSnocBookmark(bms, i);
      items := items + [BookmarkURLer(bms[i])];
    }
    assert bms[..|bms|] == bms;
    assert entries[..0] == [];
    for i := 0 to |entries|
      invariant items == SearchItems(bms, entries[..i])
    {
      SearchItemsSnocEntry(bms, entries, i);
      items := items + [HistoryURLer(entries[i])];
    }
    assert entries[..|entries|] == entries;
    return Ok(items);
  }

  /**
   * In the search results no bookmarklet appears, every bookmark item comes
   * before every history item, and no two history items share a URL.
   */
  lemma SearchItemsOrder(lib: Safari.Library, all: seq<Entry>)
    ensures var bms := Filter(lib.bookmarks, SearchableBookmark);
      var items := SearchItems(bms, Dedup(all));
      (forall k | 0 <= k < |bms| :: !Safari.IsBookmarklet(bms[k]) && items[k].icon != IconBookmarklet)
      && (forall i, j | 0 <= i < j < |items| :: items[i].icon == IconHistory ==> items[j].icon == IconHistory)
      && (forall i, j | |bms| <= i < j < |items| :: items[i].url != items[j].url)
  {
    var bms := Filter(lib.bookmarks, SearchableBookmark);
    var items := SearchItems(bms, Dedup(all));
    forall k | 0 <= k < |bms|
      ensures items[k].icon != IconHistory && items[k].icon != IconBookmarklet
    {
      BookmarkIconKinds(bms[k]);
    }
    DedupDistinct(all);
  }
}
