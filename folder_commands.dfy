/**
 * The folder commands (folders.go): what a folder item shows and when it
 * can be actioned, and the listing of one folder's contents.
 */
module FolderCommands {
  import opened Wrappers
  import opened Strings
  import opened Icons
  import opened Urls
  import opened BookmarkCommands
  import Safari
  import Seqs
  import SafariTabs

  // ---------------------------------------------------------------------
  // folderSubtitle and folderTitle

  function AncestorTitles(ancestors: seq<Safari.FolderInfo>): seq<string> {
    seq(|ancestors|, k requires 0 <= k < |ancestors| => ancestors[k].title)
  }

  /** The path of the folder: its ancestors' titles, root first, joined by " / ". */
  function Subtitle(f: Safari.Folder): string {
    Join(AncestorTitles(f.ancestors), " / ")
  }

  /** `folderSubtitle`: the ancestor titles collected in a loop, then joined. */
  method FolderSubtitle(f: Safari.Folder) returns (r: string)
    ensures r == Subtitle(f)
  {
    var s: seq<string> := [];
    for i := 0 to |f.ancestors|
      invariant s == AncestorTitles(f.ancestors[..i])
    {
      s := s + [f.ancestors[i].title];
    }
    assert f.ancestors[..|f.ancestors|] == f.ancestors;
    return Join(s, " / ");
  }

  /** A top-level folder has no subtitle; otherwise it starts at the root and ends at the parent. */
  lemma SubtitleEnds(f: Safari.Folder)
    ensures f.ancestors == [] ==> Subtitle(f) == ""
    ensures |f.ancestors| == 1 ==> Subtitle(f) == f.ancestors[0].title
    ensures f.ancestors != [] ==>
      HasPrefix(Subtitle(f), f.ancestors[0].title) && HasSuffix(Subtitle(f), f.ancestors[|f.ancestors| - 1].title)
  {
    if f.ancestors != [] {
      JoinEnds(AncestorTitles(f.ancestors), " / ");
    }
  }

  /** `folderTitle`: "<title> (<n> bookmarks)", counting the direct bookmarks only. */
  function FolderTitle(f: Safari.Folder): string {
    f.info.title + " (" + Decimal(|f.bookmarks|) + " bookmarks)"
  }

  /** The title starts with the folder's name and does not depend on its subfolders. */
  lemma FolderTitleShape(f: Safari.Folder, subfolders: seq<nat>)
    ensures HasPrefix(FolderTitle(f), f.info.title)
    ensures HasSuffix(FolderTitle(f), " bookmarks)")
    ensures FolderTitle(f.(folders := subfolders)) == FolderTitle(f)
  {
    var t := FolderTitle(f);
    assert t == f.info.title + (" (" + Decimal(|f.bookmarks|) + " bookmarks)");
    assert t[..|f.info.title|] == f.info.title;
    assert t[|t| - 11..] == " bookmarks)";
  }

  // ---------------------------------------------------------------------
  // folderItem

  /**
   * A "cmd" modifier; `valid` is `None` when the item's validity is left as
   * it is. awgo's `Item.NewModifier` copies the variables the item already
   * has into the modifier, so `vars` holds those and the modifier's own.
   */
  datatype CmdModifier = CmdModifier(subtitle: Option<string>, valid: Option<bool>, vars: map<string, string>)

  datatype FolderItem = FolderItem(
    title: string,
    subtitle: string,
    matchText: string,
    uid: string,
    icon: Icon,
    valid: bool,
    vars: map<string, string>,
    cmd: Option<CmdModifier>)

  /** `folderItem`. */
  function FolderItemOf(f: Safari.Folder): FolderItem {
    var it := FolderItem(FolderTitle(f), Subtitle(f), f.info.title, f.info.uid, IconFolder, false, map[], None);
    if |f.bookmarks| + |f.folders| > 0 then
      var cmd :=
        if |f.bookmarks| > 0 then
          CmdModifier(Some("Open " + Decimal(|f.bookmarks|) + " bookmark(s)"), None, map["ALSF_UID" := f.info.uid, "action" := "open"])
        else CmdModifier(None, Some(false), map["ALSF_UID" := f.info.uid]);
      it.(valid := true, vars := map["ALSF_UID" := f.info.uid, "action" := "browse"], cmd := Some(cmd))
    else it
  }

  /**
   * A folder item can be actioned iff the folder is not empty, and then it
   * browses the folder; its cmd modifier exists exactly then, and opens the
   * bookmarks iff there are direct ones, being invalid otherwise.
   */
  lemma FolderItemValidity(f: Safari.Folder)
    ensures var it := FolderItemOf(f);
      (it.valid <==> |f.bookmarks| > 0 || |f.folders| > 0)
      && (it.cmd.Some? <==> it.valid)
      && (it.valid ==> it.vars == map["ALSF_UID" := f.info.uid, "action" := "browse"])
      && (it.cmd.Some? ==> "ALSF_UID" in it.cmd.value.vars && it.cmd.value.vars["ALSF_UID"] == f.info.uid)
      && (it.cmd.Some? ==> ("action" in it.cmd.value.vars && it.cmd.value.vars["action"] == "open" <==> |f.bookmarks| > 0))
      && (it.cmd.Some? ==> it.cmd.value.vars.Keys <= {"ALSF_UID", "action"})
      && (it.cmd.Some? ==> (it.cmd.value.valid == Some(false) <==> |f.bookmarks| == 0))
  {
  }

  /**
   * The cmd modifier of a folder with direct bookmarks carries the folder's
   * UID with the "open" action, and opening that UID opens exactly those
   * bookmarks, in order, unless the UID is empty, parses as a web URL or also
   * names a bookmark (the earlier branches of `doOpen`).
   */
  lemma FolderCmdOpensFolder(lib: Safari.Library, ignoreBookmarklets: bool, uid: string, parse: Parser,
                             active: Result<SafariTabs.Tab, string>, unescape: string -> Result<string, string>)
    requires Safari.Inv(lib, ignoreBookmarklets)
    requires Safari.FolderForUID(lib, uid).Some?
    ensures var f := Safari.FolderForUID(lib, uid).value;
      var cmd := FolderItemOf(f).cmd;
      |f.bookmarks| > 0 ==>
        cmd.Some? && cmd.value.vars == map["ALSF_UID" := uid, "action" := "open"]
        && (uid != "" && !(parse(uid).Ok? && IsWeb(parse(uid).value)) && Safari.BookmarkForUID(lib, uid).None? ==>
              OpenPlan(cmd.value.vars["ALSF_UID"], lib, parse, active, unescape)
              == Ok(seq(|f.bookmarks|, k requires 0 <= k < |f.bookmarks| => OpenURL(f.bookmarks[k].url))))
  {
    Safari.UidLookups(lib, ignoreBookmarklets, uid);
  }

  // ---------------------------------------------------------------------
  // doFilterFolder

  /** A row of the folder listing: a navigation item, a subfolder, or a bookmark. */
  datatype Row =
    | NavRow(title: string, icon: Icon, vars: map<string, string>, cmd: Option<CmdModifier>)
    | FolderRow(folder: FolderItem)
    | BookmarkRow(bookmark: URLer)

  /**
   * The navigation rows, shown only when there is no query: "Up to" the
   * parent, with cmd going back to all folders; or, for a top-level folder
   * reached by a UID, "Back to All Folders".
   */
  function NavRows(f: Safari.Folder, uid: string, query: string): seq<Row> {
    if query != "" then []
    else if |f.ancestors| > 0 then
      var p := f.ancestors[|f.ancestors| - 1];
      [NavRow("Up to \"" + p.title + "\"", IconUp, map["ALSF_UID" := p.uid, "action" := "browse"],
              Some(CmdModifier(Some("Go back to All Folders"), None, map["ALSF_UID" := p.uid, "action" := "top"])))]
    else if uid != "" then [NavRow("Back to All Folders", IconHome, map["action" := "top"], None)]
    else []
  }

  /** A row per subfolder, in stored order. */
  function SubfolderRows(lib: Safari.Library, f: Safari.Folder): seq<Row>
    requires forall k | 0 <= k < |f.folders| :: f.folders[k] < |lib.folders|
  {
    seq(|f.folders|, k requires 0 <= k < |f.folders| => FolderRow(FolderItemOf(lib.folders[f.folders[k]])))
  }

  /** A row per bookmark, in stored order. */
  function BookmarkRows(f: Safari.Folder): seq<Row> {
    seq(|f.bookmarks|, k requires 0 <= k < |f.bookmarks| => BookmarkRow(BookmarkURLer(f.bookmarks[k])))
  }

  /** The subfolders, then the bookmarks, each in stored order. */
  function ChildRows(lib: Safari.Library, f: Safari.Folder): seq<Row>
    requires forall k | 0 <= k < |f.folders| :: f.folders[k] < |lib.folders|
  {
    SubfolderRows(lib, f) + BookmarkRows(f)
  }

  /** The listing of a folder, or the error for a UID that names none. */
  function Listing(lib: Safari.Library, uid: string, query: string): Result<seq<Row>, string>
    requires Safari.ChildrenLinked(lib)
  {
    match Safari.FolderForUID(lib, uid)
    case None => Err("No folder found with UID: " + uid)
    case Some(f) =>
      assert f == lib.folders[lib.uid2Folder[uid]];
      Ok(NavRows(f, uid, query) + ChildRows(lib, f))
  }

  /**
   * With no query the first row navigates up (to the parent, the last
   * ancestor) unless the folder is top-level and was reached without a UID;
   * subfolders are listed before bookmarks, one row each.
   */
  lemma ListingShape(lib: Safari.Library, uid: string, query: string)
    requires Safari.ChildrenLinked(lib)
    requires Safari.FolderForUID(lib, uid).Some?
    ensures var f := Safari.FolderForUID(lib, uid).value;
      var rows := Listing(lib, uid, query).value;
      var nav := if query == "" && (|f.ancestors| > 0 || uid != "") then 1 else 0;
      |rows| == nav + |f.folders| + |f.bookmarks|
      && (nav == 1 ==> rows[0].NavRow?)
      && (query == "" && |f.ancestors| > 0 ==>
            var p := f.ancestors[|f.ancestors| - 1];
            rows[0].vars == map["ALSF_UID" := p.uid, "action" := "browse"]
            && rows[0].cmd.Some? && rows[0].cmd.value.vars == map["ALSF_UID" := p.uid, "action" := "top"])
      && (forall k | nav <= k < nav + |f.folders| :: rows[k].FolderRow?)
      && (forall k | nav + |f.folders| <= k < |rows| :: rows[k].BookmarkRow? && rows[k].bookmark.url == f.bookmarks[k - nav - |f.folders|].url)
  {
  }

  /**
   * `doFilterFolder`: look the folder up, add the navigation rows, collect
   * the subfolders and then the bookmarks, and make a row of each.
   */
  method DoFilterFolder(lib: Safari.Library, uid: string, query: string) returns (r: Result<seq<Row>, string>)
    requires Safari.ChildrenLinked(lib)
    ensures r == Listing(lib, uid, query)
  {
    var found := Safari.FolderForUID(lib, uid);
    if found.None? {
      return Err("No folder found with UID: " + uid);
    }
    var f := found.value;
    assert f == lib.folders[lib.uid2Folder[uid]];
    var nav := NavRows(f, uid, query);
    var subs, marks := SubfolderRows(lib, f), BookmarkRows(f);
    var rows := nav;
    for i := 0 to |f.folders|
      invariant rows == nav + subs[..i]
    {
      Seqs.PrefixStep(nav, subs, i);
      rows := rows + [FolderRow(FolderItemOf(lib.folders[f.folders[i]]))];
    }
    assert subs[..|f.folders|] == subs;
    for i := 0 to |f.bookmarks|
      invariant rows == nav + subs + marks[..i]
    {
      Seqs.PrefixStep(nav + subs, marks, i);
      rows := rows + [BookmarkRow(BookmarkURLer(f.bookmarks[i]))];
    }
    assert marks[..|f.bookmarks|] == marks;
    assert rows == nav + ChildRows(lib, f);
    return Ok(rows);
  }
}
