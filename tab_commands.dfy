/**
 * The tab commands of the workflow (tabs.go): running an action on a tab
 * picked by window and tab number, closing tabs, listing the actions for a
 * tab, and the custom modifier actions of a tab item.
 */
module TabCommands {
  import opened Wrappers
  import opened Strings
  import opened Seqs
  import opened Icons
  import opened Urls
  import opened SafariTabs
  import opened Actions
  import opened Alsf
  import Safari
  import SafariCloseJs

  // ---------------------------------------------------------------------
  // Target resolution

  /** Tab `j` of window `i` is the one the numbers name. */
  predicate Hit(wins: seq<Window>, i: int, j: int, winIdx: int, tabIdx: int) {
    0 <= i < |wins| && 0 <= j < |wins[i].tabs| && wins[i].index == winIdx && wins[i].tabs[j].index == tabIdx
  }

  /** The first tab of a window with the given index. */
  function TabWithIndex(tabs: seq<Tab>, tabIdx: int): Option<Tab> {
    if tabs == [] then None
    else if tabs[0].index == tabIdx then Some(tabs[0])
    else TabWithIndex(tabs[1..], tabIdx)
  }

  /** The tab `doTabAction` acts on: searched window by window, in order. */
  function FindTab(wins: seq<Window>, winIdx: int, tabIdx: int): Option<Tab> {
    if wins == [] then None
    else if wins[0].index == winIdx && TabWithIndex(wins[0].tabs, tabIdx).Some? then TabWithIndex(wins[0].tabs, tabIdx)
    else FindTab(wins[1..], winIdx, tabIdx)
  }

  lemma {:induction false} TabWithIndexFirst(tabs: seq<Tab>, tabIdx: int)
    ensures TabWithIndex(tabs, tabIdx).None? <==> forall j | 0 <= j < |tabs| :: tabs[j].index != tabIdx
    ensures TabWithIndex(tabs, tabIdx).Some? ==>
      exists j | 0 <= j < |tabs| :: tabs[j] == TabWithIndex(tabs, tabIdx).value && tabs[j].index == tabIdx
        && forall j' | 0 <= j' < j :: tabs[j'].index != tabIdx
  {
    if tabs != [] && tabs[0].index != tabIdx {
      TabWithIndexFirst(tabs[1..], tabIdx);
      assert forall j | 1 <= j < |tabs| :: tabs[j] == tabs[1..][j - 1];
      if TabWithIndex(tabs, tabIdx).Some? {
        var j :| 0 <= j < |tabs[1..]| && tabs[1..][j] == TabWithIndex(tabs, tabIdx).value && tabs[1..][j].index == tabIdx
          && forall j' | 0 <= j' < j :: tabs[1..][j'].index != tabIdx;
        assert tabs[j + 1] == TabWithIndex(tabs, tabIdx).value;
      }
    }
  }

  /**
   * The tab found is the first hit in window-then-tab order: no tab is found
   * iff no window with that index has a tab with that index, and a found tab
   * is at a hit before which, in that order, there is none.
   */
  lemma {:induction false} FindTabFirst(wins: seq<Window>, winIdx: int, tabIdx: int)
    ensures FindTab(wins, winIdx, tabIdx).None? <==> forall i, j :: !Hit(wins, i, j, winIdx, tabIdx)
    ensures FindTab(wins, winIdx, tabIdx).Some? ==>
      exists i, j :: Hit(wins, i, j, winIdx, tabIdx) && wins[i].tabs[j] == FindTab(wins, winIdx, tabIdx).value
        && (forall i', j' | Hit(wins, i', j', winIdx, tabIdx) :: i < i' || (i == i' && j <= j'))
  {
    if wins != [] {
      var w := wins[0];
      TabWithIndexFirst(w.tabs, tabIdx);
      FindTabFirst(wins[1..], winIdx, tabIdx);
      assert forall i, j | 1 <= i < |wins| :: Hit(wins, i, j, winIdx, tabIdx) == Hit(wins[1..], i - 1, j, winIdx, tabIdx);
      if w.index == winIdx && TabWithIndex(w.tabs, tabIdx).Some? {
        var j :| 0 <= j < |w.tabs| && w.tabs[j] == TabWithIndex(w.tabs, tabIdx).value && w.tabs[j].index == tabIdx
          && forall j' | 0 <= j' < j :: w.tabs[j'].index != tabIdx;
        assert Hit(wins, 0, j, winIdx, tabIdx);
      } else {
        assert forall j :: !Hit(wins, 0, j, winIdx, tabIdx);
        if FindTab(wins, winIdx, tabIdx).Some? {
          var i, j :| Hit(wins[1..], i, j, winIdx, tabIdx) && wins[1..][i].tabs[j] == FindTab(wins, winIdx, tabIdx).value
            && (forall i', j' | Hit(wins[1..], i', j', winIdx, tabIdx) :: i < i' || (i == i' && j <= j'));
          assert Hit(wins, i + 1, j, winIdx, tabIdx);
        }
      }
    }
  }

  /** "Tab not found : WWxTT", both numbers padded to two digits. */
  function TabNotFound(winIdx: int, tabIdx: int): string {
    "Tab not found : " + Pad2(winIdx) + "x" + Pad2(tabIdx)
  }

  /** The tab and its parsed URL, or why there is none. */
  function Target(wins: seq<Window>, winIdx: int, tabIdx: int, parse: Parser): Result<(Tab, Url), string> {
    match FindTab(wins, winIdx, tabIdx)
    case None => Err(TabNotFound(winIdx, tabIdx))
    case Some(t) =>
      match parse(t.url)
      case Err(e) => Err(e)
      case Ok(u) => Ok((t, u))
  }

  /**
   * The search loop of `doTabAction`: windows in order, tabs in order, and
   * the URL of the first match parsed as soon as it is found.
   */
  method ResolveTarget(wins: seq<Window>, winIdx: int, tabIdx: int, parse: Parser) returns (r: Result<(Tab, Url), string>)
    ensures r == Target(wins, winIdx, tabIdx, parse)
  {
    var tab: Option<Tab> := None;
    var url: Option<Url> := None;
    var i := 0;
    while i < |wins|
      invariant 0 <= i <= |wins|
      invariant tab.None? ==> FindTab(wins[i..], winIdx, tabIdx) == FindTab(wins, winIdx, tabIdx)
      invariant tab.Some? ==> url.Some? && tab == FindTab(wins, winIdx, tabIdx) && parse(tab.value.url) == Ok(url.value)
    {
      if tab.Some? {
        break;
      }
      var w := wins[i];
      assert wins[i..][1..] == wins[i + 1..];
      if w.index == winIdx {
        var j := 0;
        while j < |w.tabs|
          invariant 0 <= j <= |w.tabs|
          invariant TabWithIndex(w.tabs[j..], tabIdx) == TabWithIndex(w.tabs, tabIdx)
        {
          assert w.tabs[j..][1..] == w.tabs[j + 1..];
          if w.tabs[j].index == tabIdx {
            tab := Some(w.tabs[j]);
            var u := parse(w.tabs[j].url);
            if u.Err? {
              return Err(u.error);
            }
            url := Some(u.value);
            break;
          }
          j := j + 1;
        }
      }
      i := i + 1;
    }
    if tab.None? {
      assert wins[i..] == [];
      return Err(TabNotFound(winIdx, tabIdx));
    }
    return Ok((tab.value, url.value));
  }

  // ---------------------------------------------------------------------
  // Dispatch

  /** The JavaScript of a bookmarklet, run in the given tab. */
  function BookmarkletOnTab(bm: Safari.Bookmark, t: Tab, unescape: string -> Result<string, string>): Result<Effect, string> {
    match Safari.ToJS(bm, unescape)
    case Err(e) => Err(e)
    case Ok(js) => Ok(Bridge(TabRunJS(t, js)))
  }

  /**
   * What `doTabAction` does once the tab is found: a bookmarklet is looked up
   * by UID; tab and URL actions are looked up among the listed ones; any
   * other type is reported as a missing tab.
   */
  function Dispatch(t: Tables, bl: set<string>, d: Disk, lib: Safari.Library, unescape: string -> Result<string, string>,
                    actionType: string, action: string, tab: Tab, u: Url, winIdx: int, tabIdx: int): Result<Effect, string>
    requires WellKeyed(t)
  {
    if actionType == "bookmarklet" then
      match Safari.BookmarkForUID(lib, action)
      case None => Err("Unknown bookmarklet: " + action)
      case Some(bm) => BookmarkletOnTab(bm, tab, unescape)
    else if actionType == "tab" then
      if action in t.tab && action !in bl then RunOnTab(d, t.tab[action], tab)
      else Err("Unknown action : " + action)
    else if actionType == "url" then URLOutcome(t, bl, d, action, u.text)
    else Err(TabNotFound(winIdx, tabIdx))
  }

  /**
   * `doTabAction`. The window list is what `loadWindows` returned. Scripts
   * are loaded only for tab and URL actions, after the tab has been found.
   */
  method DoTabAction(reg: Registry, d: Disk, dirs: seq<Walk>, lib: Safari.Library,
                     unescape: string -> Result<string, string>, parse: Parser,
                     wins: Result<seq<Window>, string>, winIdx: int, tabIdx: int,
                     action: string, actionType: string) returns (r: Result<Effect, string>)
    requires reg.Valid()
    modifies reg
    ensures reg.Valid()
    ensures wins.Err? ==> r == Err(wins.error) && unchanged(reg)
    ensures wins.Ok? && Target(wins.value, winIdx, tabIdx, parse).Err? ==>
      r == Err(Target(wins.value, winIdx, tabIdx, parse).error) && unchanged(reg)
    ensures actionType == "bookmarklet" ==> unchanged(reg)
    ensures actionType != "bookmarklet" && wins.Ok? && Target(wins.value, winIdx, tabIdx, parse).Ok? ==>
      reg.blacklist == old(reg.blacklist) + NamesOf(SplitLines(Initialised(old(reg.blacklistFile))))
      && reg.Tabs() == RegisterAll(old(reg.Tabs()), ScriptActions(d, dirs, reg.blacklist))
    ensures wins.Ok? && Target(wins.value, winIdx, tabIdx, parse).Ok? ==>
      var (tab, u) := Target(wins.value, winIdx, tabIdx, parse).value;
      r == Dispatch(reg.Tabs(), reg.blacklist, d, lib, unescape, actionType, action, tab, u, winIdx, tabIdx)
  {
    if wins.Err? {
      return Err(wins.error);
    }
    var target := ResolveTarget(wins.value, winIdx, tabIdx, parse);
    if target.Err? {
      return Err(target.error);
    }
    var (tab, u) := target.value;
    if actionType == "bookmarklet" {
      var bm := Safari.BookmarkForUID(lib, action);
      if bm.None? {
        return Err("Unknown bookmarklet: " + action);
      }
      var js := Safari.ToJS(bm.value, unescape);
      if js.Err? {
        return Err(js.error);
      }
      return Ok(Bridge(TabRunJS(tab, js.value)));
    }
    var _ := reg.LoadScripts(d, dirs);
    if actionType == "tab" {
      var ta := reg.TabAction(action);
      if ta.None? {
        return Err("Unknown action : " + action);
      }
      return RunOnTab(d, ta.value, tab);
    }
    if actionType == "url" {
      var ua := reg.URLAction(action);
      if ua.None? {
        return Err("Unknown action : " + action);
      }
      return RunOnURL(d, ua.value, u.text);
    }
    return Err(TabNotFound(winIdx, tabIdx));
  }

  /**
   * The variables of a listed action's item lead `doTabAction` back to that
   * action: dispatching on its type and name runs it on the tab (or on the
   * tab's URL).
   */
  lemma ListedItemDispatches(t: Tables, bl: set<string>, d: Disk, lib: Safari.Library,
                             unescape: string -> Result<string, string>, a: Action, tab: Tab, u: Url, winIdx: int, tabIdx: int)
    requires WellKeyed(t)
    requires (a in t.tab.Values || a in t.url.Values) && Title(a) !in bl
    ensures var vars := ActionItemOf(a).vars;
      "ALSF_ACTION_TYPE" in vars && "ALSF_ACTION" in vars
      && Dispatch(t, bl, d, lib, unescape, vars["ALSF_ACTION_TYPE"], vars["ALSF_ACTION"], tab, u, winIdx, tabIdx)
        == if TabCapable(a) then RunOnTab(d, a, tab) else RunOnURL(d, a, u.text)
  {
    ItemTagNamesTable(t, a);
  }

  // ---------------------------------------------------------------------
  // doClose and doActivate

  /** `doClose`: which tabs the left and right flags close. */
  function DoClose(left: bool, right: bool, winIdx: int, tabIdx: int): JxaCall {
    if !left && !right then CloseTab(winIdx, tabIdx)
    else if left && right then CloseTabsOther(winIdx, tabIdx)
    else if left then CloseTabsLeft(winIdx, tabIdx)
    else CloseTabsRight(winIdx, tabIdx)
  }

  /**
   * The close script then closes the tab alone with neither flag, all other
   * tabs with both, and the tabs to the left or right with one; a tab of 0
   * or less stands for the window's current tab.
   */
  lemma DoCloseOutcome(left: bool, right: bool, winIdx: int, tabIdx: int, currentTab: int)
    ensures var sel :=
        if !left && !right then SafariCloseJs.One
        else if left && right then SafariCloseJs.Others
        else if left then SafariCloseJs.Left
        else SafariCloseJs.Right;
      SafariCloseJs.Run(DoClose(left, right, winIdx, tabIdx).argv, currentTab)
        == SafariCloseJs.CloseTabs(sel, if winIdx == 0 then 1 else winIdx, if tabIdx > 0 then tabIdx else currentTab)
  {
    if !left && !right {
      SafariCloseJs.CloseTabOutcome(winIdx, tabIdx, currentTab);
    } else if left && right {
      SafariCloseJs.CloseTabsOtherOutcome(winIdx, tabIdx, currentTab);
    } else if left {
      SafariCloseJs.CloseTabsLeftOutcome(winIdx, tabIdx, currentTab);
    } else {
      SafariCloseJs.CloseTabsRightOutcome(winIdx, tabIdx, currentTab);
    }
  }

  /** `doActivate`. */
  function DoActivate(winIdx: int, tabIdx: int): (c: JxaCall)
    ensures c.script == JsActivate
    ensures tabIdx > 0 ==> c.argv == [Decimal(winIdx), Decimal(tabIdx)]
    ensures tabIdx <= 0 ==> c == ActivateWin(winIdx)
  {
    ActivateTab(winIdx, tabIdx)
  }

  // ---------------------------------------------------------------------
  // doFilterTabActions

  /**
   * `doFilterTabActions`: the items for the listed tab actions, then, for a
   * web page only, those for the listed URL actions.
   */
  method DoFilterTabActions(reg: Registry, d: Disk, dirs: seq<Walk>, u: Url) returns (items: seq<ActionItem>)
    requires reg.Valid()
    modifies reg
    ensures reg.Valid()
    ensures reg.blacklist == old(reg.blacklist) + NamesOf(SplitLines(Initialised(old(reg.blacklistFile))))
    ensures reg.Tabs() == RegisterAll(old(reg.Tabs()), ScriptActions(d, dirs, reg.blacklist))
    ensures TabActionList(reg.Tabs(), reg.blacklist, u, items)
  {
    var _ := reg.LoadScripts(d, dirs);
    var acts := reg.TabActions();
    var nTab := |acts|;
    if IsWeb(u) {
      var more := reg.URLActions();
      acts := acts + more;
    }
    items := ListActions(acts);
    TaggedItems(reg.Tabs(), reg.blacklist, acts, nTab, u);
  }

  /**
   * The items offered for a tab: one for every listed tab action; one for a
   * listed URL action iff the page is a web page; nothing else; and no tab
   * action after a URL action.
   */
  ghost predicate TabActionList(t: Tables, bl: set<string>, u: Url, items: seq<ActionItem>) {
    (forall a | a in t.tab.Values && Title(a) !in bl :: ActionItemOf(a) in items)
    && (forall a | a in t.url.Values && Title(a) !in bl :: ActionItemOf(a) in items <==> IsWeb(u))
    && (forall it | it in items :: exists a ::
          ((a in t.tab.Values) || (IsWeb(u) && a in t.url.Values)) && Title(a) !in bl && it == ActionItemOf(a))
    && (forall i, j | 0 <= i < j < |items| ::
          "ALSF_ACTION_TYPE" in items[i].vars && "ALSF_ACTION_TYPE" in items[j].vars
          && (items[i].vars["ALSF_ACTION_TYPE"] == "url" ==> items[j].vars["ALSF_ACTION_TYPE"] == "url"))
  }

  /** The list `DoFilterTabActions` builds is the one `TabActionList` describes. */
  lemma TaggedItems(t: Tables, bl: set<string>, acts: seq<Action>, nTab: nat, u: Url)
    requires WellKeyed(t)
    requires nTab <= |acts|
    requires forall a :: a in acts[..nTab] <==> a in t.tab.Values && Title(a) !in bl
    requires forall a :: a in acts[nTab..] <==> IsWeb(u) && a in t.url.Values && Title(a) !in bl
    ensures TabActionList(t, bl, u, ActionItems(acts))
  {
    ItemTags(t, bl, acts, nTab, u);
    ItemsCover(t, bl, acts, nTab, u);
    ItemsListed(t, bl, acts, nTab, u);
  }

  /** The first `nTab` items are tagged "tab", the rest "url". */
  lemma ItemTags(t: Tables, bl: set<string>, acts: seq<Action>, nTab: nat, u: Url)
    requires WellKeyed(t)
    requires nTab <= |acts|
    requires forall a :: a in acts[..nTab] <==> a in t.tab.Values && Title(a) !in bl
    requires forall a :: a in acts[nTab..] <==> IsWeb(u) && a in t.url.Values && Title(a) !in bl
    ensures forall k | 0 <= k < |acts| ::
      "ALSF_ACTION_TYPE" in ActionItems(acts)[k].vars
      && ActionItems(acts)[k].vars["ALSF_ACTION_TYPE"] == (if k < nTab then "tab" else "url")
  {
    forall k | 0 <= k < |acts|
      ensures "ALSF_ACTION_TYPE" in ActionItemOf(acts[k]).vars
      ensures ActionItemOf(acts[k]).vars["ALSF_ACTION_TYPE"] == (if k < nTab then "tab" else "url")
    {
      if k < nTab {
        assert acts[k] == acts[..nTab][k];
      } else {
        assert acts[k] == acts[nTab..][k - nTab];
      }
      ItemTagNamesTable(t, acts[k]);
    }
  }

  /** Every listed tab action has an item, and every listed URL action has one iff the page is a web page. */
  lemma ItemsCover(t: Tables, bl: set<string>, acts: seq<Action>, nTab: nat, u: Url)
    requires WellKeyed(t)
    requires nTab <= |acts|
    requires forall a :: a in acts[..nTab] <==> a in t.tab.Values && Title(a) !in bl
    requires forall a :: a in acts[nTab..] <==> IsWeb(u) && a in t.url.Values && Title(a) !in bl
    requires forall k | 0 <= k < |acts| ::
      "ALSF_ACTION_TYPE" in ActionItems(acts)[k].vars
      && ActionItems(acts)[k].vars["ALSF_ACTION_TYPE"] == (if k < nTab then "tab" else "url")
    ensures forall a | a in t.tab.Values && Title(a) !in bl :: ActionItemOf(a) in ActionItems(acts)
    ensures forall a | a in t.url.Values && Title(a) !in bl :: ActionItemOf(a) in ActionItems(acts) <==> IsWeb(u)
  {
    forall a | a in t.url.Values && Title(a) !in bl && ActionItemOf(a) in ActionItems(acts)
      ensures IsWeb(u)
    {
      var k :| 0 <= k < |acts| && ActionItems(acts)[k] == ActionItemOf(a);
      ItemTagNamesTable(t, a);
      assert k >= nTab;
      assert acts[k] == acts[nTab..][k - nTab];
    }
    forall a | a in t.url.Values && Title(a) !in bl && IsWeb(u)
      ensures ActionItemOf(a) in ActionItems(acts)
    {
      assert a in acts[nTab..];
      var k :| 0 <= k < |acts| - nTab && acts[nTab..][k] == a;
      assert ActionItems(acts)[nTab + k] == ActionItemOf(a);
    }
    forall a | a in t.tab.Values && Title(a) !in bl
      ensures ActionItemOf(a) in ActionItems(acts)
    {
      assert a in acts[..nTab];
      var k :| 0 <= k < nTab && acts[..nTab][k] == a;
      assert ActionItems(acts)[k] == ActionItemOf(a);
    }
  }

  /** Every item is that of a listed action of an offered kind. */
  lemma ItemsListed(t: Tables, bl: set<string>, acts: seq<Action>, nTab: nat, u: Url)
    requires nTab <= |acts|
    requires forall a :: a in acts[..nTab] <==> a in t.tab.Values && Title(a) !in bl
    requires forall a :: a in acts[nTab..] <==> IsWeb(u) && a in t.url.Values && Title(a) !in bl
    ensures forall it | it in ActionItems(acts) :: exists a ::
      ((a in t.tab.Values) || (IsWeb(u) && a in t.url.Values)) && Title(a) !in bl && it == ActionItemOf(a)
  {
    forall it | it in ActionItems(acts)
      ensures exists a :: ((a in t.tab.Values) || (IsWeb(u) && a in t.url.Values)) && Title(a) !in bl && it == ActionItemOf(a)
    {
      var k :| 0 <= k < |acts| && ActionItems(acts)[k] == it;
      if k < nTab {
        assert acts[k] == acts[..nTab][k];
      } else {
        assert acts[k] == acts[nTab..][k - nTab];
      }
      assert it == ActionItemOf(acts[k]);
    }
  }

  // ---------------------------------------------------------------------
  // customTabActions

  /** UID to title of each bookmarklet; of two with one UID, the later wins. */
  function UidTitles(bms: seq<Safari.Bookmark>): map<string, string> {
    if bms == [] then map[]
    else UidTitles(bms[..|bms| - 1])[bms[|bms| - 1].uid := bms[|bms| - 1].title]
  }

  /** The map has each UID of the list, with the title of the last bookmark carrying it. */
  lemma {:induction false} UidTitlesLookup(bms: seq<Safari.Bookmark>, uid: string)
    ensures uid in UidTitles(bms) <==> exists k | 0 <= k < |bms| :: bms[k].uid == uid
    ensures forall k | 0 <= k < |bms| && bms[k].uid == uid && (forall j | k < j < |bms| :: bms[j].uid != uid) ::
      UidTitles(bms)[uid] == bms[k].title
  {
    if bms != [] {
      var n := |bms| - 1;
      UidTitlesLookup(bms[..n], uid);
      assert forall k | 0 <= k < n :: bms[..n][k] == bms[k];
    }
  }

  /** The `bkms` loop of `customTabActions`. */
  method BookmarkletTitles(bms: seq<Safari.Bookmark>) returns (m: map<string, string>)
    ensures m == UidTitles(bms)
  {
    m := map[];
    for i := 0 to |bms|
      invariant m == UidTitles(bms[..i])
    {
      assert bms[..i + 1][..i] == bms[..i];
      m := m[bms[i].uid := bms[i].title];
    }
    assert bms[..|bms|] == bms;
  }

  /** Title to type of every listed action; a URL action overrides a tab action of the same title. */
  function ActionTypes(t: Tables, bl: set<string>): map<string, string> {
    map k | k in t.tab.Keys + t.url.Keys && k !in bl :: if k in t.url then "url" else "tab"
  }

  /** The titles of a list of actions. */
  function TitleSet(acts: seq<Action>): set<string> {
    if acts == [] then {} else TitleSet(acts[..|acts| - 1]) + {Title(acts[|acts| - 1])}
  }

  lemma {:induction false} TitleSetMembership(acts: seq<Action>, k: string)
    ensures k in TitleSet(acts) <==> exists j | 0 <= j < |acts| :: Title(acts[j]) == k
  {
    if acts != [] {
      var n := |acts| - 1;
      TitleSetMembership(acts[..n], k);
      assert forall j | 0 <= j < n :: acts[..n][j] == acts[j];
    }
  }

  lemma TitleSetSnoc(acts: seq<Action>, i: int)
    requires 0 <= i < |acts|
    ensures TitleSet(acts[..i + 1]) == TitleSet(acts[..i]) + {Title(acts[i])}
  {
    assert acts[..i + 1][..i] == acts[..i];
  }

  /** The titles of a listed table are its keys outside the blacklist. */
  lemma ListedTitleSet(m: map<string, Action>, bl: set<string>, acts: seq<Action>)
    requires TitleKeyed(m)
    requires forall a :: a in acts <==> a in m.Values && Title(a) !in bl
    ensures TitleSet(acts) == m.Keys - bl
  {
    forall k
      ensures k in TitleSet(acts) <==> k in m.Keys - bl
    {
      TitleSetMembership(acts, k);
      ListedLookup(m, bl, acts, k);
    }
  }

  /** The `actions` loops of `customTabActions`: tab actions first, then URL actions. */
  method TypesOfListed(reg: Registry) returns (types: map<string, string>)
    requires reg.Valid()
    ensures types == ActionTypes(reg.Tabs(), reg.blacklist)
  {
    types := map[];
    var acts := reg.TabActions();
    for i := 0 to |acts|
      invariant types.Keys == TitleSet(acts[..i])
      invariant forall k | k in types :: types[k] == "tab"
    {
      TitleSetSnoc(acts, i);
      types := types[Title(acts[i]) := "tab"];
    }
    assert acts[..|acts|] == acts;
    var more := reg.URLActions();
    for i := 0 to |more|
      invariant types.Keys == TitleSet(acts) + TitleSet(more[..i])
      invariant forall k | k in types :: types[k] == if k in TitleSet(more[..i]) then "url" else "tab"
    {
      TitleSetSnoc(more, i);
      types := types[Title(more[i]) := "url"];
    }
    assert more[..|more|] == more;
    ListedTitleSet(reg.tabActions, reg.blacklist, acts);
    ListedTitleSet(reg.urlActions, reg.blacklist, more);
    TypesFromTitles(reg.Tabs(), reg.blacklist, types, TitleSet(more));
  }

  /** A map built from the listed tab titles and then the listed URL titles is `ActionTypes`. */
  lemma TypesFromTitles(t: Tables, bl: set<string>, types: map<string, string>, urls: set<string>)
    requires urls == t.url.Keys - bl
    requires types.Keys == (t.tab.Keys - bl) + urls
    requires forall k | k in types :: types[k] == if k in urls then "url" else "tab"
    ensures types == ActionTypes(t, bl)
  {
    assert types.Keys == ActionTypes(t, bl).Keys;
  }

  /** What a modifier setting names: its title, its type ("" when unknown) and the action. */
  datatype Details = Details(title: string, typ: string, action: string)

  /** A value of the map, or "" (Go's zero value) for a missing key. */
  function Lookup(m: map<string, string>, k: string): string {
    if k in m then m[k] else ""
  }

  /** `actionDetails`: "bkm:UID" names a bookmarklet; anything else an action by title. */
  function ActionDetails(s: string, bkms: map<string, string>, types: map<string, string>): Details {
    if HasPrefix(s, "bkm:") then Details(Lookup(bkms, s[4..]), "bookmarklet", s[4..])
    else Details(s, Lookup(types, s), s)
  }

  /**
   * A modifier of a tab item: its key, its subtitle and the action variables.
   * The variables it inherits from the tab item are not recorded.
   */
  datatype Modifier = Modifier(key: string, subtitle: string, action: string, actionType: string)

  /** The modifier for one setting: none for an empty setting or an unknown name. */
  function ModifierFor(setting: string, key: string, bkms: map<string, string>, types: map<string, string>): Option<Modifier> {
    if setting == "" then None
    else
      var det := ActionDetails(setting, bkms, types);
      if det.typ == "" then None else Some(Modifier(key, det.title, det.action, det.typ))
  }

  /** The four settings with their keys, in the order they are applied. */
  function AltActions(ctrl: string, shift: string, opt: string, fn: string): seq<(string, string)> {
    [(ctrl, "ctrl"), (shift, "shift"), (opt, "alt"), (fn, "fn")]
  }

  /** The modifiers for the settings, in their order. */
  function Modifiers(alts: seq<(string, string)>, bkms: map<string, string>, types: map<string, string>): seq<Modifier> {
    if alts == [] then []
    else
      var n := |alts| - 1;
      Modifiers(alts[..n], bkms, types)
        + match ModifierFor(alts[n].0, alts[n].1, bkms, types) case Some(m) => [m] case None => []
  }

  /** Position of a modifier key in the order the settings are applied. */
  function KeyRank(key: string): int {
    if key == "ctrl" then 0 else if key == "shift" then 1 else if key == "alt" then 2 else 3
  }

  /** A modifier is made for a setting exactly when one of the settings yields it. */
  lemma {:induction false} ModifiersMembership(alts: seq<(string, string)>, bkms: map<string, string>, types: map<string, string>, m: Modifier)
    ensures m in Modifiers(alts, bkms, types) <==> exists k | 0 <= k < |alts| :: ModifierFor(alts[k].0, alts[k].1, bkms, types) == Some(m)
  {
    if alts != [] {
      var n := |alts| - 1;
      ModifiersMembership(alts[..n], bkms, types, m);
      assert forall k | 0 <= k < n :: alts[..n][k] == alts[k];
    }
  }

  /** Settings whose keys are in order give modifiers whose keys are in order. */
  lemma {:induction false} ModifiersRanked(alts: seq<(string, string)>, bkms: map<string, string>, types: map<string, string>)
    requires forall i, j | 0 <= i < j < |alts| :: KeyRank(alts[i].1) < KeyRank(alts[j].1)
    ensures var r := Modifiers(alts, bkms, types);
      |r| <= |alts|
      && (forall i, j | 0 <= i < j < |r| :: KeyRank(r[i].key) < KeyRank(r[j].key))
      && (alts != [] ==> forall i | 0 <= i < |r| :: KeyRank(r[i].key) <= KeyRank(alts[|alts| - 1].1))
  {
    if alts != [] {
      var n := |alts| - 1;
      ModifiersRanked(alts[..n], bkms, types);
      if n > 0 {
        assert KeyRank(alts[..n][n - 1].1) < KeyRank(alts[n].1);
      }
    }
  }

  /** The modifiers come out in ctrl, shift, alt, fn order, each key at most once. */
  lemma ModifierKeysInOrder(ctrl: string, shift: string, opt: string, fn: string, bkms: map<string, string>, types: map<string, string>)
    ensures var r := Modifiers(AltActions(ctrl, shift, opt, fn), bkms, types);
      |r| <= 4 && forall i, j | 0 <= i < j < |r| :: KeyRank(r[i].key) < KeyRank(r[j].key)
  {
    ModifiersRanked(AltActions(ctrl, shift, opt, fn), bkms, types);
  }

  /**
   * With the types of the listed actions, a setting is skipped iff it is
   * empty or, not naming a bookmarklet, names no listed action; a "bkm:"
   * setting always makes a modifier, with "" as its subtitle when no
   * bookmarklet has that UID.
   */
  lemma ModifierSkips(t: Tables, bl: set<string>, s: string, key: string, bkms: map<string, string>)
    ensures ModifierFor(s, key, bkms, ActionTypes(t, bl)).None? <==>
      s == "" || (!HasPrefix(s, "bkm:") && !((s in t.tab || s in t.url) && s !in bl))
    ensures s != "" && HasPrefix(s, "bkm:") ==>
      ModifierFor(s, key, bkms, ActionTypes(t, bl)) == Some(Modifier(key, Lookup(bkms, s[4..]), s[4..], "bookmarklet"))
  {
  }

  /**
   * A modifier for an action name leads `doTabAction` to that action: to the
   * URL action when there is a listed one of that title, else to the tab
   * action.
   */
  lemma ModifierRunsNamedAction(t: Tables, bl: set<string>, d: Disk, lib: Safari.Library, unescape: string -> Result<string, string>,
                                s: string, key: string, bkms: map<string, string>, tab: Tab, u: Url, winIdx: int, tabIdx: int)
    requires WellKeyed(t)
    requires !HasPrefix(s, "bkm:") && ModifierFor(s, key, bkms, ActionTypes(t, bl)).Some?
    ensures var m := ModifierFor(s, key, bkms, ActionTypes(t, bl)).value;
      m.action == s && m.subtitle == s && s !in bl
      && Dispatch(t, bl, d, lib, unescape, m.actionType, m.action, tab, u, winIdx, tabIdx)
        == if s in t.url then RunOnURL(d, t.url[s], u.text) else RunOnTab(d, t.tab[s], tab)
  {
  }

  /**
   * `customTabActions`: the bookmarklet titles, then the scripts are loaded
   * and the listed action types collected, then one modifier per usable
   * setting.
   */
  method CustomTabActions(reg: Registry, d: Disk, dirs: seq<Walk>, lib: Safari.Library,
                          ctrl: string, shift: string, opt: string, fn: string) returns (mods: seq<Modifier>)
    requires reg.Valid()
    modifies reg
    ensures reg.Valid()
    ensures reg.blacklist == old(reg.blacklist) + NamesOf(SplitLines(Initialised(old(reg.blacklistFile))))
    ensures reg.Tabs() == RegisterAll(old(reg.Tabs()), ScriptActions(d, dirs, reg.blacklist))
    ensures mods == Modifiers(AltActions(ctrl, shift, opt, fn),
                              UidTitles(Filter(lib.bookmarks, Safari.IsBookmarklet)), ActionTypes(reg.Tabs(), reg.blacklist))
  {
    var bkms := BookmarkletTitles(Filter(lib.bookmarks, Safari.IsBookmarklet));
    var _ := reg.LoadScripts(d, dirs);
    var types := TypesOfListed(reg);
    mods := ApplySettings(AltActions(ctrl, shift, opt, fn), bkms, types);
  }

  /** The settings loop of `customTabActions`. */
  method ApplySettings(alts: seq<(string, string)>, bkms: map<string, string>, types: map<string, string>) returns (mods: seq<Modifier>)
    ensures mods == Modifiers(alts, bkms, types)
  {
    mods := [];
    for i := 0 to |alts|
      invariant mods == Modifiers(alts[..i], bkms, types)
    {
      assert alts[..i + 1][..i] == alts[..i];
      var (setting, key) := alts[i];
      if setting == "" {
        continue;
      }
      var det := ActionDetails(setting, bkms, types);
      if det.typ == "" {
        continue;
      }
      mods := mods + [Modifier(key, det.title, det.action, det.typ)];
    }
    assert alts[..|alts|] == alts;
  }

  // ---------------------------------------------------------------------
  // runBookmarklet

  /** `runBookmarklet`: the bookmarklet's JavaScript in the frontmost tab. */
  function RunBookmarklet(bm: Safari.Bookmark, active: Result<Tab, string>, unescape: string -> Result<string, string>): (r: Result<Effect, string>)
    ensures active.Err? ==> r == Err(active.error)
    ensures active.Ok? && !Safari.IsBookmarklet(bm) ==> r == Err("not a bookmarklet")
    ensures r.Ok? <==> active.Ok? && Safari.IsBookmarklet(bm) && unescape(bm.url[11..]).Ok?
    ensures r.Ok? ==> r.value == Bridge(TabRunJS(active.value, unescape(bm.url[11..]).value))
  {
    match active
    case Err(e) => Err(e)
    case Ok(tab) => BookmarkletOnTab(bm, tab, unescape)
  }
}
