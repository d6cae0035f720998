/**
 * go-safari's bookmark library (vendor/.../go-safari/safari.go): the raw
 * Bookmarks.plist tree, the flattening walk `parseRaw`, and the queries over
 * its result.
 *
 * Go links folders and bookmarks by pointer. Here the folders live in one
 * sequence (`Library.folders`); a folder's children are positions in it, and
 * the ancestors of a folder or bookmark are snapshots (`FolderInfo`) of the
 * folders above it. A folder's title, UID and flags are final before anything
 * below it is created, so the snapshots agree with the folders they name.
 */
module Safari {
  import opened Wrappers
  import opened Strings
  import opened Seqs

  const WebBookmarkTypeLeaf := "WebBookmarkTypeLeaf"
  const WebBookmarkTypeList := "WebBookmarkTypeList"
  const WebBookmarkTypeProxy := "WebBookmarkTypeProxy"

  const NameBookmarksBar := "BookmarksBar"
  const NameBookmarksMenu := "BookmarksMenu"
  const NameReadingList := "com.apple.ReadingList"

  const TypeFolder := "folder"
  const TypeBookmark := "bookmark"

  /** Reading-list metadata of an entry; its dates are not modelled. */
  datatype RawRL = RawRL(previewText: string)

  /** An entry of Bookmarks.plist, as the plist decoder delivers it. */
  datatype RawBookmark = RawBookmark(
    rawTitle: string,
    kind: string,
    url: string,
    uuid: string,
    readingList: Option<RawRL>,
    uriDict: map<string, string>,
    children: seq<RawBookmark>)

  /** `rawBookmark.Title`: the plist title, or else the URI dictionary's (Go's zero value "" if absent). */
  function RawTitle(rb: RawBookmark): (r: string)
    ensures rb.rawTitle != "" ==> r == rb.rawTitle
    ensures rb.rawTitle == "" ==> r == (if "title" in rb.uriDict then rb.uriDict["title"] else "")
  {
    if rb.rawTitle != "" then rb.rawTitle
    else if "title" in rb.uriDict then rb.uriDict["title"]
    else ""
  }

  /** The fixed part of a folder: its position in `Library.folders`, title, UID and flags. */
  datatype FolderInfo = FolderInfo(
    id: nat,
    title: string,
    uid: string,
    isReadingList: bool,
    isBookmarksBar: bool,
    isBookmarksMenu: bool)

  /** A bookmark; the last of its ancestors is its folder. */
  datatype Bookmark = Bookmark(title: string, url: string, ancestors: seq<FolderInfo>, preview: string, uid: string)

  /** A folder: its direct bookmarks, and the positions of its direct subfolders. */
  datatype Folder = Folder(info: FolderInfo, ancestors: seq<FolderInfo>, bookmarks: seq<Bookmark>, folders: seq<nat>)

  /** What a `Parser` holds once it has parsed a bookmarks file. */
  datatype Library = Library(
    bookmarks: seq<Bookmark>,
    bookmarksRL: seq<Bookmark>,
    folders: seq<Folder>,
    bookmarksBar: Option<nat>,
    bookmarksMenu: Option<nat>,
    readingList: Option<nat>,
    uid2Folder: map<string, nat>,
    uid2Bookmark: map<string, Bookmark>,
    uid2Type: map<string, string>)

  const EmptyLibrary := Library([], [], [], None, None, None, map[], map[], map[])

  /** The parent named by `ancestors` (its last element), if any, is a folder of `l`. */
  predicate ParentIn(l: Library, ancestors: seq<FolderInfo>) {
    ancestors == [] || ancestors[|ancestors| - 1].id < |l.folders|
  }

  /** `b` extends `a`: it has at least its folders, each with the same info and ancestors. */
  ghost predicate Grows(a: Library, b: Library) {
    |a.folders| <= |b.folders|
    && forall i | 0 <= i < |a.folders| ::
         b.folders[i].info == a.folders[i].info && b.folders[i].ancestors == a.folders[i].ancestors
  }

  /** The `List` case of `parseRaw`: register a folder, rename a special top-level one, link it to its parent. */
  function AddFolder(l: Library, rb: RawBookmark, ancestors: seq<FolderInfo>): (r: Library)
    requires ParentIn(l, ancestors)
    ensures Grows(l, r) && |r.folders| == |l.folders| + 1
    ensures r.folders[|l.folders|] == Folder(FolderInfo(|l.folders|, r.folders[|l.folders|].info.title, rb.uuid,
      r.folders[|l.folders|].info.isReadingList, r.folders[|l.folders|].info.isBookmarksBar,
      r.folders[|l.folders|].info.isBookmarksMenu), ancestors, [], [])
  {
    var id := |l.folders|;
    var title := RawTitle(rb);
    var top := ancestors == [];
    var bar := top && title == NameBookmarksBar;
    var menu := top && title == NameBookmarksMenu;
    var rl := top && title == NameReadingList;
    var info := FolderInfo(id,
      if bar then "Favorites" else if menu then "Bookmarks Menu" else if rl then "Reading List" else title,
      rb.uuid, rl, bar, menu);
    var l1 := l.(
      folders := l.folders + [Folder(info, ancestors, [], [])],
      uid2Folder := l.uid2Folder[rb.uuid := id],
      uid2Type := l.uid2Type[rb.uuid := TypeFolder],
      bookmarksBar := if bar then Some(id) else l.bookmarksBar,
      bookmarksMenu := if menu then Some(id) else l.bookmarksMenu,
      readingList := if rl then Some(id) else l.readingList);
    if top then l1
    else
      var pid := ancestors[|ancestors| - 1].id;
      l1.(folders := l1.folders[pid := l1.folders[pid].(folders := l1.folders[pid].folders + [id])])
  }

  /** The bookmark `parseRaw` makes of a leaf. */
  function LeafBookmark(rb: RawBookmark, ancestors: seq<FolderInfo>): Bookmark {
    Bookmark(RawTitle(rb), rb.url, ancestors,
      if rb.readingList.Some? then rb.readingList.value.previewText else "", rb.uuid)
  }

  /** `Bookmark.IsBookmarklet`. */
  predicate IsBookmarklet(bm: Bookmark) {
    HasPrefix(bm.url, "javascript:")
  }

  /** The `Leaf` case of `parseRaw`. */
  function AddLeaf(l: Library, rb: RawBookmark, ancestors: seq<FolderInfo>, ignoreBookmarklets: bool): (r: Library)
    requires ParentIn(l, ancestors)
    ensures Grows(l, r) && |r.folders| == |l.folders|
  {
    if ignoreBookmarklets && HasPrefix(rb.url, "javascript:") then l
    else
      var bm := LeafBookmark(rb, ancestors);
      var l1 := l.(uid2Bookmark := l.uid2Bookmark[rb.uuid := bm], uid2Type := l.uid2Type[rb.uuid := TypeBookmark]);
      if ancestors != [] then
        var pid := ancestors[|ancestors| - 1].id;
        var l2 := l1.(folders := l1.folders[pid := l1.folders[pid].(bookmarks := l1.folders[pid].bookmarks + [bm])]);
        if ancestors[0].isReadingList then l2.(bookmarksRL := l2.bookmarksRL + [bm])
        else l2.(bookmarks := l2.bookmarks + [bm])
      else l1.(bookmarks := l1.bookmarks + [bm])
  }

  /** One child `rb` of the entry being walked: proxies and unknown kinds are skipped. */
  function WalkOne(l: Library, rb: RawBookmark, ancestors: seq<FolderInfo>, ignoreBookmarklets: bool): (r: Library)
    requires ParentIn(l, ancestors)
    ensures Grows(l, r)
    decreases rb, 1, 0
  {
    if rb.kind == WebBookmarkTypeProxy then l
    else if rb.kind == WebBookmarkTypeList then
      var l1 := AddFolder(l, rb, ancestors);
      WalkChildren(l1, rb, 0, ancestors + [l1.folders[|l.folders|].info], ignoreBookmarklets)
    else if rb.kind == WebBookmarkTypeLeaf then AddLeaf(l, rb, ancestors, ignoreBookmarklets)
    else l
  }

  /** `parseRaw(root, ancestors)` from child `i` of `root` on. */
  function WalkChildren(l: Library, root: RawBookmark, i: nat, ancestors: seq<FolderInfo>, ignoreBookmarklets: bool): (r: Library)
    requires i <= |root.children| && ParentIn(l, ancestors)
    ensures Grows(l, r)
    decreases root, 0, |root.children| - i
  {
    if i == |root.children| then l
    else
      var l1 := WalkOne(l, root.children[i], ancestors, ignoreBookmarklets);
      WalkChildren(l1, root, i + 1, ancestors, ignoreBookmarklets)
  }

  /** `parseData` after decoding: walk the root's children with no ancestors. */
  function Parse(raw: RawBookmark, ignoreBookmarklets: bool): Library {
    WalkChildren(EmptyLibrary, raw, 0, [], ignoreBookmarklets)
  }

  /** The path of folder `i`: its ancestors, then the folder itself. */
  function PathOf(l: Library, i: nat): seq<FolderInfo>
    requires i < |l.folders|
  {
    l.folders[i].ancestors + [l.folders[i].info]
  }

  /** `ancestors` is the path of the folder it ends in. */
  ghost predicate AncestryOK(l: Library, ancestors: seq<FolderInfo>) {
    ancestors == [] || (ancestors[|ancestors| - 1].id < |l.folders| && PathOf(l, ancestors[|ancestors| - 1].id) == ancestors)
  }

  ghost predicate IdsArePositions(l: Library) {
    forall i | 0 <= i < |l.folders| :: l.folders[i].info.id == i
  }

  /** Every subfolder link points at a folder whose ancestors are the parent's path. */
  ghost predicate ChildrenLinked(l: Library) {
    forall i, j | 0 <= i < |l.folders| && 0 <= j < |l.folders[i].folders| ::
      l.folders[i].folders[j] < |l.folders| && l.folders[l.folders[i].folders[j]].ancestors == PathOf(l, i)
  }

  /** The bookmarks of a folder have that folder's path as their ancestors. */
  ghost predicate BookmarksLinked(l: Library) {
    forall i, j | 0 <= i < |l.folders| && 0 <= j < |l.folders[i].bookmarks| ::
      l.folders[i].bookmarks[j].ancestors == PathOf(l, i)
  }

  /** Only top-level folders are special, and each special folder carries its display name. */
  ghost predicate SpecialFolders(l: Library) {
    forall i | 0 <= i < |l.folders| ::
      var f := l.folders[i].info;
      (f.isBookmarksBar ==> l.folders[i].ancestors == [] && f.title == "Favorites")
      && (f.isBookmarksMenu ==> l.folders[i].ancestors == [] && f.title == "Bookmarks Menu")
      && (f.isReadingList ==> l.folders[i].ancestors == [] && f.title == "Reading List")
  }

  /** Reading-list bookmarks are exactly those whose root ancestor is the Reading List. */
  ghost predicate ReadingListSplit(l: Library) {
    (forall k | 0 <= k < |l.bookmarksRL| :: l.bookmarksRL[k].ancestors != [] && l.bookmarksRL[k].ancestors[0].isReadingList)
    && (forall k | 0 <= k < |l.bookmarks| :: l.bookmarks[k].ancestors == [] || !l.bookmarks[k].ancestors[0].isReadingList)
  }

  ghost predicate NoBookmarklets(l: Library) {
    (forall k | 0 <= k < |l.bookmarks| :: !IsBookmarklet(l.bookmarks[k]))
    && (forall k | 0 <= k < |l.bookmarksRL| :: !IsBookmarklet(l.bookmarksRL[k]))
    && (forall i, j | 0 <= i < |l.folders| && 0 <= j < |l.folders[i].bookmarks| :: !IsBookmarklet(l.folders[i].bookmarks[j]))
  }

  /** The folder UID map points at folders with that UID. */
  ghost predicate FolderUids(l: Library) {
    forall u | u in l.uid2Folder :: l.uid2Folder[u] < |l.folders| && l.folders[l.uid2Folder[u]].info.uid == u
  }

  /** The type map says "folder" or "bookmark" exactly for the UIDs of the two other maps. */
  ghost predicate TypeUids(l: Library) {
    (forall u | u in l.uid2Type ::
       (l.uid2Type[u] == TypeFolder && u in l.uid2Folder) || (l.uid2Type[u] == TypeBookmark && u in l.uid2Bookmark))
    && l.uid2Type.Keys == l.uid2Folder.Keys + l.uid2Bookmark.Keys
  }

  /** The UID maps point at items with that UID, and the type map agrees with them. */
  ghost predicate UidMapsConsistent(l: Library) {
    FolderUids(l)
    && (forall u | u in l.uid2Bookmark :: l.uid2Bookmark[u].uid == u)
    && TypeUids(l)
  }

  /** The special-folder fields point at folders with the matching flag. */
  ghost predicate SpecialPointers(l: Library) {
    (l.bookmarksBar.Some? ==> l.bookmarksBar.value < |l.folders| && l.folders[l.bookmarksBar.value].info.isBookmarksBar)
    && (l.bookmarksMenu.Some? ==> l.bookmarksMenu.value < |l.folders| && l.folders[l.bookmarksMenu.value].info.isBookmarksMenu)
    && (l.readingList.Some? ==> l.readingList.value < |l.folders| && l.folders[l.readingList.value].info.isReadingList)
  }

  /** What `parseRaw` keeps true of the library it builds. */
  ghost predicate Inv(l: Library, ignoreBookmarklets: bool) {
    IdsArePositions(l) && ChildrenLinked(l) && BookmarksLinked(l) && SpecialFolders(l)
    && ReadingListSplit(l) && (ignoreBookmarklets ==> NoBookmarklets(l))
    && UidMapsConsistent(l) && SpecialPointers(l)
  }

  lemma GrowsKeepsAncestry(a: Library, b: Library, ancestors: seq<FolderInfo>)
    requires Grows(a, b) && AncestryOK(a, ancestors)
    ensures AncestryOK(b, ancestors)
  {
  }

  /** The id of the folder `ancestors` ends in, or -1 at the top level. */
  function ParentId(ancestors: seq<FolderInfo>): int {
    if ancestors == [] then -1 else ancestors[|ancestors| - 1].id
  }

  /** Folders appended with their own positions as ids keep ids equal to positions. */
  lemma IdsAfterGrowth(l: Library, r: Library)
    requires IdsArePositions(l) && Grows(l, r)
    requires forall i | |l.folders| <= i < |r.folders| :: r.folders[i].info.id == i
    ensures IdsArePositions(r)
  {
  }

  /** Subfolder links stay right when only the parent in `ancestors` gains children, each under that parent's path. */
  lemma ChildrenAfterGrowth(l: Library, r: Library, ancestors: seq<FolderInfo>, extra: seq<nat>)
    requires ChildrenLinked(l) && Grows(l, r) && AncestryOK(l, ancestors)
    requires forall i | 0 <= i < |l.folders| ::
      r.folders[i].folders == l.folders[i].folders + (if i == ParentId(ancestors) then extra else [])
    requires forall i | |l.folders| <= i < |r.folders| :: r.folders[i].folders == []
    requires forall k | 0 <= k < |extra| :: extra[k] < |r.folders| && r.folders[extra[k]].ancestors == ancestors
    ensures ChildrenLinked(r)
  {
    forall i, j | 0 <= i < |r.folders| && 0 <= j < |r.folders[i].folders|
      ensures r.folders[i].folders[j] < |r.folders| && r.folders[r.folders[i].folders[j]].ancestors == PathOf(r, i)
    {
      assert i < |l.folders|;
      assert PathOf(r, i) == PathOf(l, i);
      if j >= |l.folders[i].folders| {
        assert r.folders[i].folders[j] == extra[j - |l.folders[i].folders|];
      }
    }
  }

  /** Bookmark links stay right when only the parent in `ancestors` gains bookmarks, each under that parent's path. */
  lemma BookmarksAfterGrowth(l: Library, r: Library, ancestors: seq<FolderInfo>, extra: seq<Bookmark>)
    requires BookmarksLinked(l) && Grows(l, r) && AncestryOK(l, ancestors)
    requires forall i | 0 <= i < |l.folders| ::
      r.folders[i].bookmarks == l.folders[i].bookmarks + (if i == ParentId(ancestors) then extra else [])
    requires forall i | |l.folders| <= i < |r.folders| :: r.folders[i].bookmarks == []
    requires forall k | 0 <= k < |extra| :: extra[k].ancestors == ancestors
    ensures BookmarksLinked(r)
  {
    forall i, j | 0 <= i < |r.folders| && 0 <= j < |r.folders[i].bookmarks|
      ensures r.folders[i].bookmarks[j].ancestors == PathOf(r, i)
    {
      assert i < |l.folders|;
      assert PathOf(r, i) == PathOf(l, i);
      if j >= |l.folders[i].bookmarks| {
        assert r.folders[i].bookmarks[j] == extra[j - |l.folders[i].bookmarks|];
      }
    }
  }

  /** `AddFolder` appends one empty folder and links it under the parent only. */
  lemma AddFolderShape(l: Library, rb: RawBookmark, ancestors: seq<FolderInfo>)
    requires ParentIn(l, ancestors)
    ensures var r := AddFolder(l, rb, ancestors);
      var id := |l.folders|;
      && (forall i | 0 <= i < id ::
            r.folders[i].folders == l.folders[i].folders + (if i == ParentId(ancestors) then [id] else [])
            && r.folders[i].bookmarks == l.folders[i].bookmarks)
      && r.folders[id].ancestors == ancestors
  {
  }

  lemma AddFolderLinks(l: Library, rb: RawBookmark, ancestors: seq<FolderInfo>)
    requires ParentIn(l, ancestors) && AncestryOK(l, ancestors)
    requires IdsArePositions(l) && ChildrenLinked(l) && BookmarksLinked(l)
    ensures var r := AddFolder(l, rb, ancestors);
      IdsArePositions(r) && ChildrenLinked(r) && BookmarksLinked(r)
  {
    var r := AddFolder(l, rb, ancestors);
    var id := |l.folders|;
    AddFolderShape(l, rb, ancestors);
    IdsAfterGrowth(l, r);
    ChildrenAfterGrowth(l, r, ancestors, [id]);
    BookmarksAfterGrowth(l, r, ancestors, []);
  }

  lemma AddFolderSpecial(l: Library, rb: RawBookmark, ancestors: seq<FolderInfo>)
    requires ParentIn(l, ancestors) && SpecialFolders(l) && SpecialPointers(l)
    ensures SpecialFolders(AddFolder(l, rb, ancestors)) && SpecialPointers(AddFolder(l, rb, ancestors))
  {
    var r := AddFolder(l, rb, ancestors);
    assert forall i | 0 <= i < |l.folders| :: r.folders[i].info == l.folders[i].info && r.folders[i].ancestors == l.folders[i].ancestors;
  }

  lemma AddFolderBookmarks(l: Library, rb: RawBookmark, ancestors: seq<FolderInfo>, ignoreBookmarklets: bool)
    requires ParentIn(l, ancestors) && ReadingListSplit(l) && (ignoreBookmarklets ==> NoBookmarklets(l))
    ensures ReadingListSplit(AddFolder(l, rb, ancestors))
    ensures ignoreBookmarklets ==> NoBookmarklets(AddFolder(l, rb, ancestors))
  {
    var r := AddFolder(l, rb, ancestors);
    var id := |l.folders|;
    assert r.bookmarks == l.bookmarks && r.bookmarksRL == l.bookmarksRL;
    assert forall i | 0 <= i < id :: r.folders[i].bookmarks == l.folders[i].bookmarks;
    assert r.folders[id].bookmarks == [];
  }

  /** Filing a new folder under its UID keeps the folder map pointing at the right folders. */
  lemma FolderUidsAfterFolder(l: Library, r: Library, uid: string, id: nat)
    requires FolderUids(l)
    requires |l.folders| <= |r.folders| && id < |r.folders| && r.folders[id].info.uid == uid
    requires forall i | 0 <= i < |l.folders| :: r.folders[i].info == l.folders[i].info
    requires r.uid2Folder == l.uid2Folder[uid := id]
    ensures FolderUids(r)
  {
    forall u | u in r.uid2Folder
      ensures r.uid2Folder[u] < |r.folders| && r.folders[r.uid2Folder[u]].info.uid == u
    {
      if u != uid {
        assert r.folders[l.uid2Folder[u]].info == l.folders[l.uid2Folder[u]].info;
      }
    }
  }

  /** Adding one UID of the given type to the type map and to the matching map keeps them agreeing. */
  lemma TypeUidsAfterFolder(l: Library, r: Library, uid: string, id: nat)
    requires TypeUids(l)
    requires r.uid2Folder == l.uid2Folder[uid := id] && r.uid2Bookmark == l.uid2Bookmark
    requires r.uid2Type == l.uid2Type[uid := TypeFolder]
    ensures TypeUids(r)
  {
    assert r.uid2Type.Keys == l.uid2Type.Keys + {uid};
    assert r.uid2Folder.Keys == l.uid2Folder.Keys + {uid};
  }

  /** Filing a new folder under its UID keeps the UID maps consistent. */
  lemma UidsAfterFolder(l: Library, r: Library, uid: string, id: nat)
    requires UidMapsConsistent(l)
    requires |l.folders| <= |r.folders| && id < |r.folders| && r.folders[id].info.uid == uid
    requires forall i | 0 <= i < |l.folders| :: r.folders[i].info == l.folders[i].info
    requires r.uid2Folder == l.uid2Folder[uid := id] && r.uid2Bookmark == l.uid2Bookmark
    requires r.uid2Type == l.uid2Type[uid := TypeFolder]
    ensures UidMapsConsistent(r)
  {
    FolderUidsAfterFolder(l, r, uid, id);
    TypeUidsAfterFolder(l, r, uid, id);
  }

  lemma AddFolderMaps(l: Library, rb: RawBookmark, ancestors: seq<FolderInfo>)
    requires ParentIn(l, ancestors)
    ensures var r := AddFolder(l, rb, ancestors);
      r.uid2Folder == l.uid2Folder[rb.uuid := |l.folders|] && r.uid2Bookmark == l.uid2Bookmark
      && r.uid2Type == l.uid2Type[rb.uuid := TypeFolder]
  {
  }

  lemma AddFolderUids(l: Library, rb: RawBookmark, ancestors: seq<FolderInfo>)
    requires ParentIn(l, ancestors) && UidMapsConsistent(l)
    ensures UidMapsConsistent(AddFolder(l, rb, ancestors))
  {
    AddFolderMaps(l, rb, ancestors);
    UidsAfterFolder(l, AddFolder(l, rb, ancestors), rb.uuid, |l.folders|);
  }

  /** The bookmarks a leaf adds to its parent folder: none when it is an ignored bookmarklet. */
  function LeafExtra(rb: RawBookmark, ancestors: seq<FolderInfo>, ignoreBookmarklets: bool): seq<Bookmark> {
    if ignoreBookmarklets && HasPrefix(rb.url, "javascript:") then [] else [LeafBookmark(rb, ancestors)]
  }

  /** `AddLeaf` adds no folder and changes only the parent's bookmarks. */
  lemma AddLeafShape(l: Library, rb: RawBookmark, ancestors: seq<FolderInfo>, ignoreBookmarklets: bool)
    requires ParentIn(l, ancestors)
    ensures var r := AddLeaf(l, rb, ancestors, ignoreBookmarklets);
      forall i | 0 <= i < |l.folders| ::
        r.folders[i].folders == l.folders[i].folders
        && r.folders[i].bookmarks == l.folders[i].bookmarks
             + (if i == ParentId(ancestors) then LeafExtra(rb, ancestors, ignoreBookmarklets) else [])
  {
  }

  lemma AddLeafLinks(l: Library, rb: RawBookmark, ancestors: seq<FolderInfo>, ignoreBookmarklets: bool)
    requires ParentIn(l, ancestors) && AncestryOK(l, ancestors)
    requires IdsArePositions(l) && ChildrenLinked(l) && BookmarksLinked(l)
    ensures var r := AddLeaf(l, rb, ancestors, ignoreBookmarklets);
      IdsArePositions(r) && ChildrenLinked(r) && BookmarksLinked(r)
  {
    var r := AddLeaf(l, rb, ancestors, ignoreBookmarklets);
    AddLeafShape(l, rb, ancestors, ignoreBookmarklets);
    IdsAfterGrowth(l, r);
    ChildrenAfterGrowth(l, r, ancestors, []);
    BookmarksAfterGrowth(l, r, ancestors, LeafExtra(rb, ancestors, ignoreBookmarklets));
  }

  lemma AddLeafSpecial(l: Library, rb: RawBookmark, ancestors: seq<FolderInfo>, ignoreBookmarklets: bool)
    requires ParentIn(l, ancestors) && SpecialFolders(l) && SpecialPointers(l)
    ensures SpecialFolders(AddLeaf(l, rb, ancestors, ignoreBookmarklets))
    ensures SpecialPointers(AddLeaf(l, rb, ancestors, ignoreBookmarklets))
  {
    var r := AddLeaf(l, rb, ancestors, ignoreBookmarklets);
    assert forall i | 0 <= i < |l.folders| :: r.folders[i].info == l.folders[i].info && r.folders[i].ancestors == l.folders[i].ancestors;
    assert r.bookmarksBar == l.bookmarksBar && r.bookmarksMenu == l.bookmarksMenu && r.readingList == l.readingList;
  }

  lemma AddLeafBookmarks(l: Library, rb: RawBookmark, ancestors: seq<FolderInfo>, ignoreBookmarklets: bool)
    requires ParentIn(l, ancestors) && ReadingListSplit(l) && (ignoreBookmarklets ==> NoBookmarklets(l))
    ensures ReadingListSplit(AddLeaf(l, rb, ancestors, ignoreBookmarklets))
    ensures ignoreBookmarklets ==> NoBookmarklets(AddLeaf(l, rb, ancestors, ignoreBookmarklets))
  {
    var extra := LeafExtra(rb, ancestors, ignoreBookmarklets);
    AddLeafShape(l, rb, ancestors, ignoreBookmarklets);
    assert ignoreBookmarklets ==> forall k | 0 <= k < |extra| :: !IsBookmarklet(extra[k]);
  }

  /** A leaf that is kept touches the UID maps only at its own UID, and no folder's info. */
  lemma AddLeafKeepsFolders(l: Library, rb: RawBookmark, ancestors: seq<FolderInfo>, ignoreBookmarklets: bool)
    requires ParentIn(l, ancestors)
    ensures var r := AddLeaf(l, rb, ancestors, ignoreBookmarklets);
      r.uid2Folder == l.uid2Folder && |r.folders| == |l.folders|
      && forall i | 0 <= i < |l.folders| :: r.folders[i].info == l.folders[i].info
  {
  }

  lemma AddLeafMaps(l: Library, rb: RawBookmark, ancestors: seq<FolderInfo>, ignoreBookmarklets: bool)
    requires ParentIn(l, ancestors)
    requires !(ignoreBookmarklets && HasPrefix(rb.url, "javascript:"))
    ensures var r := AddLeaf(l, rb, ancestors, ignoreBookmarklets);
      r.uid2Bookmark == l.uid2Bookmark[rb.uuid := LeafBookmark(rb, ancestors)]
      && r.uid2Type == l.uid2Type[rb.uuid := TypeBookmark]
  {
    if ancestors != [] {
      if ancestors[0].isReadingList {
      } else {
      }
    }
  }

  lemma FolderUidsAfterBookmark(l: Library, r: Library)
    requires FolderUids(l)
    requires r.uid2Folder == l.uid2Folder && |r.folders| == |l.folders|
    requires forall i | 0 <= i < |l.folders| :: r.folders[i].info == l.folders[i].info
    ensures FolderUids(r)
  {
    forall u | u in r.uid2Folder
      ensures r.uid2Folder[u] < |r.folders| && r.folders[r.uid2Folder[u]].info.uid == u
    {
      assert r.folders[l.uid2Folder[u]].info == l.folders[l.uid2Folder[u]].info;
    }
  }

  lemma TypeUidsAfterBookmark(l: Library, r: Library, uid: string, bm: Bookmark)
    requires TypeUids(l)
    requires r.uid2Folder == l.uid2Folder
    requires r.uid2Bookmark == l.uid2Bookmark[uid := bm] && r.uid2Type == l.uid2Type[uid := TypeBookmark]
    ensures TypeUids(r)
  {
    assert r.uid2Type.Keys == l.uid2Type.Keys + {uid};
    assert r.uid2Bookmark.Keys == l.uid2Bookmark.Keys + {uid};
  }

  /** Filing a bookmark under its UID keeps the UID maps consistent. */
  lemma UidsAfterBookmark(l: Library, r: Library, bm: Bookmark)
    requires UidMapsConsistent(l)
    requires r.uid2Folder == l.uid2Folder && |r.folders| == |l.folders|
    requires forall i | 0 <= i < |l.folders| :: r.folders[i].info == l.folders[i].info
    requires r.uid2Bookmark == l.uid2Bookmark[bm.uid := bm] && r.uid2Type == l.uid2Type[bm.uid := TypeBookmark]
    ensures UidMapsConsistent(r)
  {
    FolderUidsAfterBookmark(l, r);
    TypeUidsAfterBookmark(l, r, bm.uid, bm);
  }

  lemma AddLeafUids(l: Library, rb: RawBookmark, ancestors: seq<FolderInfo>, ignoreBookmarklets: bool)
    requires ParentIn(l, ancestors) && UidMapsConsistent(l)
    ensures UidMapsConsistent(AddLeaf(l, rb, ancestors, ignoreBookmarklets))
  {
    if !(ignoreBookmarklets && HasPrefix(rb.url, "javascript:")) {
      AddLeafKeepsFolders(l, rb, ancestors, ignoreBookmarklets);
      AddLeafMaps(l, rb, ancestors, ignoreBookmarklets);
      UidsAfterBookmark(l, AddLeaf(l, rb, ancestors, ignoreBookmarklets), LeafBookmark(rb, ancestors));
    }
  }

  lemma {:induction false} WalkOneInv(l: Library, rb: RawBookmark, ancestors: seq<FolderInfo>, ignoreBookmarklets: bool)
    requires ParentIn(l, ancestors) && AncestryOK(l, ancestors) && Inv(l, ignoreBookmarklets)
    ensures Inv(WalkOne(l, rb, ancestors, ignoreBookmarklets), ignoreBookmarklets)
    decreases rb, 1, 0
  {
    if rb.kind == WebBookmarkTypeProxy {
    } else if rb.kind == WebBookmarkTypeList {
      var l1 := AddFolder(l, rb, ancestors);
      AddFolderLinks(l, rb, ancestors);
      AddFolderSpecial(l, rb, ancestors);
      AddFolderBookmarks(l, rb, ancestors, ignoreBookmarklets);
      AddFolderUids(l, rb, ancestors);
      var anc := ancestors + [l1.folders[|l.folders|].info];
      assert AncestryOK(l1, anc);
      WalkChildrenInv(l1, rb, 0, anc, ignoreBookmarklets);
    } else if rb.kind == WebBookmarkTypeLeaf {
      AddLeafLinks(l, rb, ancestors, ignoreBookmarklets);
      AddLeafSpecial(l, rb, ancestors, ignoreBookmarklets);
      AddLeafBookmarks(l, rb, ancestors, ignoreBookmarklets);
      AddLeafUids(l, rb, ancestors, ignoreBookmarklets);
    }
  }

  lemma {:induction false} WalkChildrenInv(l: Library, root: RawBookmark, i: nat, ancestors: seq<FolderInfo>, ignoreBookmarklets: bool)
    requires i <= |root.children| && ParentIn(l, ancestors) && AncestryOK(l, ancestors) && Inv(l, ignoreBookmarklets)
    ensures Inv(WalkChildren(l, root, i, ancestors, ignoreBookmarklets), ignoreBookmarklets)
    decreases root, 0, |root.children| - i
  {
    if i < |root.children| {
      var l1 := WalkOne(l, root.children[i], ancestors, ignoreBookmarklets);
      WalkOneInv(l, root.children[i], ancestors, ignoreBookmarklets);
      GrowsKeepsAncestry(l, l1, ancestors);
      WalkChildrenInv(l1, root, i + 1, ancestors, ignoreBookmarklets);
    }
  }

  /** Every library `Parse` builds satisfies `Inv`. */
  lemma ParseInv(raw: RawBookmark, ignoreBookmarklets: bool)
    ensures Inv(Parse(raw, ignoreBookmarklets), ignoreBookmarklets)
  {
    WalkChildrenInv(EmptyLibrary, raw, 0, [], ignoreBookmarklets);
  }

  /**
   * A `List` entry becomes the next folder, under its UID and typed "folder";
   * at the top level the three special names are replaced and flagged, and
   * below it the folder is linked as the last subfolder of its parent.
   */
  lemma AddFolderEffect(l: Library, rb: RawBookmark, ancestors: seq<FolderInfo>)
    requires ParentIn(l, ancestors)
    ensures var r := AddFolder(l, rb, ancestors);
      var id := |l.folders|;
      var f := r.folders[id].info;
      var t := RawTitle(rb);
      && r.uid2Folder == l.uid2Folder[rb.uuid := id]
      && r.uid2Type == l.uid2Type[rb.uuid := TypeFolder]
      && r.folders[id].ancestors == ancestors
      && (ancestors == [] && t == NameBookmarksBar ==> f.title == "Favorites" && f.isBookmarksBar && r.bookmarksBar == Some(id))
      && (ancestors == [] && t == NameBookmarksMenu ==> f.title == "Bookmarks Menu" && f.isBookmarksMenu && r.bookmarksMenu == Some(id))
      && (ancestors == [] && t == NameReadingList ==> f.title == "Reading List" && f.isReadingList && r.readingList == Some(id))
      && (!(ancestors == [] && t in {NameBookmarksBar, NameBookmarksMenu, NameReadingList}) ==>
            f.title == t && !f.isBookmarksBar && !f.isBookmarksMenu && !f.isReadingList)
      && (ancestors != [] ==>
            var pid := ancestors[|ancestors| - 1].id;
            r.folders[pid].folders == l.folders[pid].folders + [id])
  {
  }

  /**
   * A `Leaf` entry is dropped only for a bookmarklet while bookmarklets are
   * ignored. Otherwise it is registered under its UID, appended to its
   * folder, and appended to `bookmarksRL` exactly when its root ancestor is the
   * Reading List, to `bookmarks` in every other case.
   */
  lemma AddLeafEffect(l: Library, rb: RawBookmark, ancestors: seq<FolderInfo>, ignoreBookmarklets: bool)
    requires ParentIn(l, ancestors)
    ensures var r := AddLeaf(l, rb, ancestors, ignoreBookmarklets);
      var bm := LeafBookmark(rb, ancestors);
      if ignoreBookmarklets && IsBookmarklet(bm) then r == l
      else
        && r.uid2Bookmark == l.uid2Bookmark[rb.uuid := bm]
        && r.uid2Type == l.uid2Type[rb.uuid := TypeBookmark]
        && (ancestors != [] ==>
              var pid := ancestors[|ancestors| - 1].id;
              r.folders[pid].bookmarks == l.folders[pid].bookmarks + [bm])
        && (if ancestors != [] && ancestors[0].isReadingList
            then r.bookmarksRL == l.bookmarksRL + [bm] && r.bookmarks == l.bookmarks
            else r.bookmarks == l.bookmarks + [bm] && r.bookmarksRL == l.bookmarksRL)
  {
  }

  /** `Bookmark.Folder`: the last ancestor, if any. */
  function BookmarkFolder(bm: Bookmark): (r: Option<FolderInfo>)
    ensures r.None? <==> bm.ancestors == []
    ensures r.Some? ==> r.value == bm.ancestors[|bm.ancestors| - 1]
  {
    if bm.ancestors == [] then None else Some(bm.ancestors[|bm.ancestors| - 1])
  }

  /** `Bookmark.InReadingList`: only the immediate folder is consulted. */
  predicate InReadingList(bm: Bookmark) {
    match BookmarkFolder(bm)
    case None => false
    case Some(f) => f.isReadingList
  }

  /**
   * In a parsed library every reading-list bookmark sits somewhere below the
   * Reading List, and no other bookmark does.
   */
  lemma ReadingListMembership(l: Library, ignoreBookmarklets: bool, bm: Bookmark)
    requires Inv(l, ignoreBookmarklets)
    ensures bm in l.bookmarksRL ==> bm.ancestors != [] && bm.ancestors[0].isReadingList
    ensures bm in l.bookmarks && bm.ancestors != [] ==> !bm.ancestors[0].isReadingList
  {
  }

  /**
   * A leaf in a subfolder of the Reading List goes to the reading list, yet
   * `InReadingList` is false for it: only its immediate folder is consulted,
   * and that folder is not the Reading List.
   */
  lemma ReadingListSubfolderLeaf(l: Library, rb: RawBookmark, ancestors: seq<FolderInfo>, ignoreBookmarklets: bool)
    requires ParentIn(l, ancestors) && AncestryOK(l, ancestors) && SpecialFolders(l)
    requires |ancestors| > 1 && ancestors[0].isReadingList
    requires !(ignoreBookmarklets && HasPrefix(rb.url, "javascript:"))
    ensures var bm := LeafBookmark(rb, ancestors);
      AddLeaf(l, rb, ancestors, ignoreBookmarklets).bookmarksRL == l.bookmarksRL + [bm] && !InReadingList(bm)
  {
    var n := |ancestors|;
    var id := ancestors[n - 1].id;
    assert PathOf(l, id) == ancestors;
    assert |l.folders[id].ancestors| == n - 1;
    assert l.folders[id].info == ancestors[n - 1];
  }

  /** `Bookmark.ToJS`, with `url.PathUnescape` given as `unescape`. */
  function ToJS(bm: Bookmark, unescape: string -> Result<string, string>): (r: Result<string, string>)
    ensures !IsBookmarklet(bm) ==> r == Err("not a bookmarklet")
    ensures IsBookmarklet(bm) ==> r == unescape(bm.url[11..])
  {
    if !IsBookmarklet(bm) then Err("not a bookmarklet") else unescape(bm.url[11..])
  }

  /** A bookmarklet's JavaScript is what follows the "javascript:" scheme, unescaped. */
  lemma ToJSOfBookmarklet(bm: Bookmark, code: string, unescape: string -> Result<string, string>)
    requires bm.url == "javascript:" + code
    ensures IsBookmarklet(bm) && ToJS(bm, unescape) == unescape(code)
  {
    assert bm.url[..11] == "javascript:";
    assert bm.url[11..] == code;
  }

  /** `Parser.BookmarkForUID`. */
  function BookmarkForUID(l: Library, uid: string): Option<Bookmark> {
    if uid in l.uid2Bookmark then Some(l.uid2Bookmark[uid]) else None
  }

  /** `Parser.FolderForUID`. */
  function FolderForUID(l: Library, uid: string): Option<Folder> {
    if uid in l.uid2Folder && l.uid2Folder[uid] < |l.folders| then Some(l.folders[l.uid2Folder[uid]]) else None
  }

  /** `Parser.TypeForUID`: "" (Go's zero value) for an unknown UID. */
  function TypeForUID(l: Library, uid: string): string {
    if uid in l.uid2Type then l.uid2Type[uid] else ""
  }

  /** In a parsed library the UID lookups return items carrying that UID, as the type map says. */
  lemma UidLookups(l: Library, ignoreBookmarklets: bool, uid: string)
    requires Inv(l, ignoreBookmarklets)
    ensures FolderForUID(l, uid).Some? ==> FolderForUID(l, uid).value.info.uid == uid
    ensures BookmarkForUID(l, uid).Some? ==> BookmarkForUID(l, uid).value.uid == uid
    ensures TypeForUID(l, uid) == TypeFolder ==> FolderForUID(l, uid).Some?
    ensures TypeForUID(l, uid) == TypeBookmark ==> BookmarkForUID(l, uid).Some?
    ensures TypeForUID(l, uid) == "" <==> FolderForUID(l, uid).None? && BookmarkForUID(l, uid).None?
  {
    if uid in l.uid2Type {
      assert uid in l.uid2Folder.Keys + l.uid2Bookmark.Keys;
    }
  }

  /** go-safari's `Parser` after `New`: the flattened library and the option it was built with. */
  class Parser {
    var ignoreBookmarklets: bool
    var bookmarks: seq<Bookmark>
    var bookmarksRL: seq<Bookmark>
    var folders: seq<Folder>
    var bookmarksBar: Option<nat>
    var bookmarksMenu: Option<nat>
    var readingList: Option<nat>
    var uid2Folder: map<string, nat>
    var uid2Bookmark: map<string, Bookmark>
    var uid2Type: map<string, string>

    function State(): Library
      reads this
    {
      Library(bookmarks, bookmarksRL, folders, bookmarksBar, bookmarksMenu, readingList, uid2Folder, uid2Bookmark, uid2Type)
    }

    /** `New` with the decoded plist `raw`: empty maps and lists, then `parseRaw(raw, [])`. */
    constructor (raw: RawBookmark, ignore: bool)
      ensures ignoreBookmarklets == ignore
      ensures State() == Parse(raw, ignore)
      ensures Inv(State(), ignore)
    {
      ignoreBookmarklets := ignore;
      bookmarks := [];
      bookmarksRL := [];
      folders := [];
      bookmarksBar := None;
      bookmarksMenu := None;
      readingList := None;
      uid2Folder := map[];
      uid2Bookmark := map[];
      uid2Type := map[];
      new;
      ParseRaw(raw, []);
      ParseInv(raw, ignore);
    }

    /** `parseRaw(root, ancestors)`: flattens the children of `root` into this parser. */
    method ParseRaw(root: RawBookmark, ancestors: seq<FolderInfo>)
      requires ParentIn(State(), ancestors)
      modifies this
      ensures ignoreBookmarklets == old(ignoreBookmarklets)
      ensures State() == WalkChildren(old(State()), root, 0, ancestors, ignoreBookmarklets)
      decreases root
    {
      var i := 0;
      while i < |root.children|
        invariant 0 <= i <= |root.children|
        invariant ignoreBookmarklets == old(ignoreBookmarklets)
        invariant ParentIn(State(), ancestors)
        invariant WalkChildren(State(), root, i, ancestors, ignoreBookmarklets)
          == WalkChildren(old(State()), root, 0, ancestors, ignoreBookmarklets)
      {
        var rb := root.children[i];
        ghost var before := State();
        if rb.kind == WebBookmarkTypeProxy {
          // Ignored: only History, which is empty.
        } else if rb.kind == WebBookmarkTypeList {
          var id := |folders|;
          AddFolderStep(rb, ancestors);
          assert State() == AddFolder(before, rb, ancestors);
          ParseRaw(rb, ancestors + [folders[id].info]);
        } else if rb.kind == WebBookmarkTypeLeaf {
          if ignoreBookmarklets && HasPrefix(rb.url, "javascript:") {
          } else {
            AddLeafStep(rb, ancestors);
          }
        }
        assert State() == WalkOne(before, rb, ancestors, ignoreBookmarklets);
        i := i + 1;
      }
    }

    /** Replacing the folder just appended is appending its replacement. */
    lemma ReplaceLast(fs: seq<Folder>, f: Folder, g: Folder)
      ensures (fs + [f])[|fs| := g] == fs + [g]
    {
    }

    /** The folder bookkeeping of the `List` case, on the fields. */
    method AddFolderStep(rb: RawBookmark, ancestors: seq<FolderInfo>)
      requires ParentIn(State(), ancestors)
      modifies this
      ensures ignoreBookmarklets == old(ignoreBookmarklets)
      ensures State() == AddFolder(old(State()), rb, ancestors)
    {
      var id := |folders|;
      var f := Folder(FolderInfo(id, RawTitle(rb), rb.uuid, false, false, false), ancestors, [], []);
      ghost var fs := folders;
      folders := folders + [f];
      uid2Folder := uid2Folder[rb.uuid := id];
      uid2Type := uid2Type[rb.uuid := TypeFolder];
      if |ancestors| == 0 {
        if f.info.title == NameBookmarksBar {
          folders := folders[id := f.(info := f.info.(title := "Favorites", isBookmarksBar := true))];
          ReplaceLast(fs, f, folders[id]);
          bookmarksBar := Some(id);
        } else if f.info.title == NameBookmarksMenu {
          folders := folders[id := f.(info := f.info.(title := "Bookmarks Menu", isBookmarksMenu := true))];
          ReplaceLast(fs, f, folders[id]);
          bookmarksMenu := Some(id);
        } else if f.info.title == NameReadingList {
          folders := folders[id := f.(info := f.info.(title := "Reading List", isReadingList := true))];
          ReplaceLast(fs, f, folders[id]);
          readingList := Some(id);
        }
      } else {
        var pid := ancestors[|ancestors| - 1].id;
        folders := folders[pid := folders[pid].(folders := folders[pid].folders + [id])];
      }
    }

    /** The bookmark bookkeeping of the `Leaf` case, on the fields. */
    method AddLeafStep(rb: RawBookmark, ancestors: seq<FolderInfo>)
      requires ParentIn(State(), ancestors)
      requires !(ignoreBookmarklets && HasPrefix(rb.url, "javascript:"))
      modifies this
      ensures ignoreBookmarklets == old(ignoreBookmarklets)
      ensures State() == AddLeaf(old(State()), rb, ancestors, ignoreBookmarklets)
    {
      var bm := Bookmark(RawTitle(rb), rb.url, ancestors, "", rb.uuid);
      if rb.readingList.Some? {
        bm := bm.(preview := rb.readingList.value.previewText);
      }
      uid2Bookmark := uid2Bookmark[rb.uuid := bm];
      uid2Type := uid2Type[rb.uuid := TypeBookmark];
      if |ancestors| > 0 {
        var pid := ancestors[|ancestors| - 1].id;
        folders := folders[pid := folders[pid].(bookmarks := folders[pid].bookmarks + [bm])];
        if ancestors[0].isReadingList {
          bookmarksRL := bookmarksRL + [bm];
        } else {
          bookmarks := bookmarks + [bm];
        }
      } else {
        bookmarks := bookmarks + [bm];
      }
    }

    /** `FilterBookmarks`: the accepted non-reading-list bookmarks, in order. */
    method FilterBookmarks(accept: Bookmark -> bool) returns (r: seq<Bookmark>)
      ensures r == Filter(bookmarks, accept)
    {
      r := [];
      var i := 0;
      while i < |bookmarks|
        invariant 0 <= i <= |bookmarks|
        invariant r == Filter(bookmarks[..i], accept)
      {
        assert bookmarks[..i + 1] == bookmarks[..i] + [bookmarks[i]];
        FilterAppend(bookmarks[..i], [bookmarks[i]], accept);
        if accept(bookmarks[i]) {
          r := r + [bookmarks[i]];
        }
        i := i + 1;
      }
      assert bookmarks[..i] == bookmarks;
    }

    /** `FindBookmark`: the first accepted non-reading-list bookmark. */
    method FindBookmark(accept: Bookmark -> bool) returns (r: Option<Bookmark>)
      ensures r == FindFirst(bookmarks, accept)
    {
      var i := 0;
      while i < |bookmarks|
        invariant 0 <= i <= |bookmarks|
        invariant FindFirst(bookmarks[i..], accept) == FindFirst(bookmarks, accept)
      {
        if accept(bookmarks[i]) {
          return Some(bookmarks[i]);
        }
        assert bookmarks[i..][1..] == bookmarks[i + 1..];
        i := i + 1;
      }
      return None;
    }

    /** `FilterFolders`: the accepted folders, in order. */
    method FilterFolders(accept: Folder -> bool) returns (r: seq<Folder>)
      ensures r == Filter(folders, accept)
    {
      r := [];
      var i := 0;
      while i < |folders|
        invariant 0 <= i <= |folders|
        invariant r == Filter(folders[..i], accept)
      {
        assert folders[..i + 1] == folders[..i] + [folders[i]];
        FilterAppend(folders[..i], [folders[i]], accept);
        if accept(folders[i]) {
          r := r + [folders[i]];
        }
        i := i + 1;
      }
      assert folders[..i] == folders;
    }

    /** `FindFolder`: the first accepted folder. */
    method FindFolder(accept: Folder -> bool) returns (r: Option<Folder>)
      ensures r == FindFirst(folders, accept)
    {
      var i := 0;
      while i < |folders|
        invariant 0 <= i <= |folders|
        invariant FindFirst(folders[i..], accept) == FindFirst(folders, accept)
      {
        if accept(folders[i]) {
          return Some(folders[i]);
        }
        assert folders[i..][1..] == folders[i + 1..];
        i := i + 1;
      }
      return None;
    }
  }
}
