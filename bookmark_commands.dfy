/**
 * The bookmark commands (bookmarks.go): opening a bookmark, folder or URL by
 * UID, the bookmark list filters, and what a bookmark item shows.
 */
module BookmarkCommands {
  import opened Wrappers
  import opened Strings
  import opened Seqs
  import opened Icons
  import opened Urls
  import opened SafariTabs
  import opened Actions
  import opened TabCommands
  import Safari

  // ---------------------------------------------------------------------
  // bmURLer

  /** Copytext: "bkm:" + UID for a bookmarklet, which a modifier setting can name; else the URL. */
  function Copytext(bm: Safari.Bookmark): string {
    if Safari.IsBookmarklet(bm) then "bkm:" + bm.uid else bm.url
  }

  /** Largetype: the preview text of a reading-list item, else the URL. */
  function Largetype(bm: Safari.Bookmark): string {
    if Safari.InReadingList(bm) then bm.preview else bm.url
  }

  /** The icon: bookmarklet first, then reading list, then plain bookmark. */
  function BookmarkIcon(bm: Safari.Bookmark): Icon {
    if Safari.IsBookmarklet(bm) then IconBookmarklet
    else if Safari.InReadingList(bm) then IconReadingList
    else IconBookmark
  }

  function BookmarkURLer(bm: Safari.Bookmark): URLer {
    URLer(bm.title, bm.url, bm.uid, Copytext(bm), Largetype(bm), BookmarkIcon(bm))
  }

  /**
   * Each icon stands for one kind of bookmark, and a bookmarklet in the
   * reading list still shows the bookmarklet icon.
   */
  lemma BookmarkIconKinds(bm: Safari.Bookmark)
    ensures BookmarkIcon(bm) == IconBookmarklet <==> Safari.IsBookmarklet(bm)
    ensures BookmarkIcon(bm) == IconReadingList <==> !Safari.IsBookmarklet(bm) && Safari.InReadingList(bm)
    ensures BookmarkIcon(bm) == IconBookmark <==> !Safari.IsBookmarklet(bm) && !Safari.InReadingList(bm)
    ensures BookmarkIcon(bm) != IconHistory
  {
    assert IconBookmarklet.value[6] == 'b' && IconReadingList.value[6] == 'r';
    assert IconBookmark.value[|IconBookmark.value| - 5] == 'k';
    assert IconBookmarklet.value[|IconBookmarklet.value| - 5] == 't';
    assert IconHistory.value[6] == 'h';
  }

  /** Of two lists of bookmarks, all with one UID carry one title, that title is the one recorded. */
  lemma {:induction false} UidTitlesAgree(bms: seq<Safari.Bookmark>, uid: string, title: string)
    requires exists k | 0 <= k < |bms| :: bms[k].uid == uid
    requires forall k | 0 <= k < |bms| && bms[k].uid == uid :: bms[k].title == title
    ensures uid in UidTitles(bms) && UidTitles(bms)[uid] == title
  {
    var n := |bms| - 1;
    if bms[n].uid != uid {
      var k :| 0 <= k < |bms| && bms[k].uid == uid;
      assert bms[..n][k] == bms[k];
      forall j | 0 <= j < n && bms[..n][j].uid == uid
        ensures bms[..n][j].title == title
      {
        assert bms[..n][j] == bms[j];
      }
      UidTitlesAgree(bms[..n], uid, title);
    }
  }

  /**
   * The copytext of a bookmarklet, set as a modifier action of the tab
   * items, makes a modifier that runs that bookmarklet under its title,
   * provided no other bookmarklet shares its UID.
   */
  lemma BookmarkletCopytextRoundTrip(bms: seq<Safari.Bookmark>, bm: Safari.Bookmark, key: string, types: map<string, string>)
    requires bm in bms && Safari.IsBookmarklet(bm)
    requires forall k | 0 <= k < |bms| && bms[k].uid == bm.uid && Safari.IsBookmarklet(bms[k]) :: bms[k] == bm
    ensures ActionDetails(Copytext(bm), UidTitles(Filter(bms, Safari.IsBookmarklet)), types) == Details(bm.title, "bookmarklet", bm.uid)
    ensures ModifierFor(Copytext(bm), key, UidTitles(Filter(bms, Safari.IsBookmarklet)), types)
      == Some(Modifier(key, bm.title, bm.uid, "bookmarklet"))
  {
    var fb := Filter(bms, Safari.IsBookmarklet);
    FilterMembership(bms, Safari.IsBookmarklet, bm);
    forall k | 0 <= k < |fb| && fb[k].uid == bm.uid
      ensures fb[k].title == bm.title
    {
      FilterMembership(bms, Safari.IsBookmarklet, fb[k]);
    }
    UidTitlesAgree(fb, bm.uid, bm.title);
    var s := Copytext(bm);
    assert s == "bkm:" + bm.uid;
    assert s[..4] == "bkm:" && s[4..] == bm.uid;
  }

  // ---------------------------------------------------------------------
  // Filters

  /** `doFilterBookmarks` keeps bookmarklets only when they are asked for. */
  function ListFilter(includeBookmarklets: bool): Safari.Bookmark -> bool {
    bm => includeBookmarklets || !Safari.IsBookmarklet(bm)
  }

  function DoFilterBookmarks(lib: Safari.Library, includeBookmarklets: bool): seq<Safari.Bookmark> {
    Filter(lib.bookmarks, ListFilter(includeBookmarklets))
  }

  function DoFilterBookmarklets(lib: Safari.Library): seq<Safari.Bookmark> {
    Filter(lib.bookmarks, Safari.IsBookmarklet)
  }

  /** What the two lists hold, and that together they hold every non-reading-list bookmark. */
  lemma FilterListsMembership(lib: Safari.Library, includeBookmarklets: bool, bm: Safari.Bookmark)
    ensures bm in DoFilterBookmarks(lib, includeBookmarklets) <==>
      bm in lib.bookmarks && (includeBookmarklets || !Safari.IsBookmarklet(bm))
    ensures bm in DoFilterBookmarklets(lib) <==> bm in lib.bookmarks && Safari.IsBookmarklet(bm)
    ensures bm in lib.bookmarks ==> bm in DoFilterBookmarks(lib, false) || bm in DoFilterBookmarklets(lib)
  {
    FilterMembership(lib.bookmarks, ListFilter(includeBookmarklets), bm);
    FilterMembership(lib.bookmarks, ListFilter(false), bm);
    FilterMembership(lib.bookmarks, Safari.IsBookmarklet, bm);
  }

  // ---------------------------------------------------------------------
  // doOpen

  /** `openURL`: the `open` command with the URL. */
  function OpenURL(u: string): Effect {
    Spawn(Invocation("open", [u]))
  }

  /**
   * What `doOpen` sets out to do for a UID: the effects it performs, in
   * order, or the error it stops with first. A web URL is opened before any
   * lookup; a bookmark is run (bookmarklet) or opened; a folder has all its
   * bookmarks opened.
   */
  function OpenPlan(uid: string, lib: Safari.Library, parse: Parser, active: Result<Tab, string>,
                    unescape: string -> Result<string, string>): Result<seq<Effect>, string>
  {
    if uid == "" then Err("No UID specified")
    else if parse(uid).Ok? && IsWeb(parse(uid).value) then Ok([OpenURL(uid)])
    else match Safari.BookmarkForUID(lib, uid)
      case Some(bm) =>
        if Safari.IsBookmarklet(bm) then
          match RunBookmarklet(bm, active, unescape)
          case Ok(e) => Ok([e])
          case Err(e) => Err(e)
        else Ok([OpenURL(bm.url)])
      case None =>
        match Safari.FolderForUID(lib, uid)
        case Some(f) => Ok(seq(|f.bookmarks|, k requires 0 <= k < |f.bookmarks| => OpenURL(f.bookmarks[k].url)))
        case None => Err("Not found: " + uid)
  }

  /**
   * The first error among performing the effects in order, all of them being
   * performed; `exec` says how performing each one ends.
   */
  function FirstError(effs: seq<Effect>, exec: Effect -> Option<string>): (r: Option<string>)
    ensures r.None? <==> forall k | 0 <= k < |effs| :: exec(effs[k]).None?
    ensures r.Some? ==> exists k | 0 <= k < |effs| :: exec(effs[k]) == r && forall j | 0 <= j < k :: exec(effs[j]).None?
  {
    if effs == [] then None
    else
      var n := |effs| - 1;
      var r := FirstError(effs[..n], exec);
      assert forall k | 0 <= k < n :: effs[..n][k] == effs[k];
      if r.Some? then r else exec(effs[n])
  }

  /** Performing one more effect reports its failure only when none came before. */
  lemma FirstErrorStep(effs: seq<Effect>, i: int, exec: Effect -> Option<string>)
    requires 0 <= i < |effs|
    ensures effs[..i + 1] == effs[..i] + [effs[i]]
    ensures FirstError(effs[..i + 1], exec) == if FirstError(effs[..i], exec).Some? then FirstError(effs[..i], exec) else exec(effs[i])
  {
    assert effs[..i + 1][..i] == effs[..i];
  }

  /**
   * A folder is opened bookmark by bookmark, in order; a UID that is a URL
   * never reaches the library; an empty UID and an unknown one do nothing.
   */
  lemma OpenPlanCases(uid: string, lib: Safari.Library, parse: Parser, active: Result<Tab, string>,
                      unescape: string -> Result<string, string>)
    ensures uid != "" && parse(uid).Ok? && IsWeb(parse(uid).value) ==> OpenPlan(uid, lib, parse, active, unescape) == Ok([OpenURL(uid)])
    ensures var plan := OpenPlan(uid, lib, parse, active, unescape);
      uid != "" && !(parse(uid).Ok? && IsWeb(parse(uid).value))
      && Safari.BookmarkForUID(lib, uid).None? && Safari.FolderForUID(lib, uid).Some? ==>
        var f := Safari.FolderForUID(lib, uid).value;
        plan.Ok? && |plan.value| == |f.bookmarks|
        && forall k | 0 <= k < |f.bookmarks| :: plan.value[k] == Spawn(Invocation("open", [f.bookmarks[k].url]))
    ensures OpenPlan(uid, lib, parse, active, unescape).Err? ==>
      OpenPlan(uid, lib, parse, active, unescape).error in {"No UID specified", "Not found: " + uid}
      || (Safari.BookmarkForUID(lib, uid).Some? && Safari.IsBookmarklet(Safari.BookmarkForUID(lib, uid).value))
  {
  }

  /**
   * `doOpen`, with the command runner and the bridge as `exec`: the effects
   * performed are the plan's, every one of them even after a failure, and the
   * error is the first failure.
   */
  method DoOpen(uid: string, lib: Safari.Library, parse: Parser, active: Result<Tab, string>,
                unescape: string -> Result<string, string>, exec: Effect -> Option<string>)
    returns (err: Option<string>, done: seq<Effect>)
    ensures OpenPlan(uid, lib, parse, active, unescape).Err? ==>
      err == Some(OpenPlan(uid, lib, parse, active, unescape).error) && done == []
    ensures OpenPlan(uid, lib, parse, active, unescape).Ok? ==>
      done == OpenPlan(uid, lib, parse, active, unescape).value && err == FirstError(done, exec)
  {
    done := [];
    if uid == "" {
      return Some("No UID specified"), done;
    }
    var u := parse(uid);
    if u.Ok? && IsWeb(u.value) {
      done := [OpenURL(uid)];
      return exec(OpenURL(uid)), done;
    }
    var bm := Safari.BookmarkForUID(lib, uid);
    if bm.Some? {
      if Safari.IsBookmarklet(bm.value) {
        var run := RunBookmarklet(bm.value, active, unescape);
        if run.Err? {
          return Some(run.error), done;
        }
        done := [run.value];
        return exec(run.value), done;
      }
      done := [OpenURL(bm.value.url)];
      return exec(OpenURL(bm.value.url)), done;
    }
    var f := Safari.FolderForUID(lib, uid);
    if f.Some? {
      var errs: seq<string> := [];
      var bms := f.value.bookmarks;
      ghost var effs := seq(|bms|, k requires 0 <= k < |bms| => OpenURL(bms[k].url));
      for i := 0 to |bms|
        invariant done == effs[..i]
        invariant errs == [] <==> FirstError(done, exec).None?
        invariant errs != [] ==> FirstError(done, exec) == Some(errs[0])
      {
        FirstErrorStep(effs, i, exec);
        var e := exec(OpenURL(bms[i].url));
        done := done + [OpenURL(bms[i].url)];
        if e.Some? {
          errs := errs + [e.value];
        }
      }
      if |errs| > 0 {
        return Some(errs[0]), done;
      }
      return None, done;
    }
    return Some("Not found: " + uid), done;
  }
}
