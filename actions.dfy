/**
 * The action registry of actions.go: the built-in and script actions, the
 * two title-keyed tables they are registered in, the user's blacklist and
 * the blacklist file, and how a script is run.
 *
 * The file system is a value: the paths `os.Stat` can see, with their
 * permission bits, and for each script directory the entries
 * `filepath.Walk` visits, in order.
 */
module Actions {
  import opened Wrappers
  import opened Strings
  import opened Paths
  import opened Icons
  import opened SafariTabs
  import opened Seqs
  import SafariCloseJs

  // ---------------------------------------------------------------------
  // The file system as far as the registry sees it

  /** Every path `os.Stat` succeeds on, with its permission bits. */
  datatype Disk = Disk(perms: map<string, bv9>)

  /** `isExecutable`: the path can be stat'ed and one of its execute bits (0111) is set. */
  predicate IsExecutable(d: Disk, p: string) {
    p in d.perms && d.perms[p] & 0x49 != 0
  }

  // ---------------------------------------------------------------------
  // Actions

  /** The built-in actions registered by `init`. */
  datatype Builtin =
    | CloseTabCmd
    | CloseTabsLeftCmd
    | CloseTabsRightCmd
    | CloseTabsOtherCmd
    | CloseWindowCmd
    | OpenURLCmd

  /**
   * A script found on disk, the icon chosen for it, and its title, which
   * `scriptTitle` derives from the path (`NewScript` computes it once).
   */
  datatype Script = Script(path: string, title: string, icon: Icon)

  /**
   * An `Actionable`. `Unrunnable` stands for a value with a title and an icon
   * but neither `Run` method, the case `Register` rejects.
   */
  datatype Action =
    | BuiltinAction(cmd: Builtin)
    | TabScript(script: Script)
    | URLScript(script: Script)
    | Unrunnable(name: string, image: Icon)

  /** The action runs on a Safari tab (`TabActionable`). */
  predicate TabCapable(a: Action) {
    (a.BuiltinAction? && a.cmd != OpenURLCmd) || a.TabScript?
  }

  /** The action runs on a URL (`URLActionable`). */
  predicate URLCapable(a: Action) {
    a == BuiltinAction(OpenURLCmd) || a.URLScript?
  }

  function Title(a: Action): string {
    match a
    case BuiltinAction(CloseTabCmd) => "Close Tab"
    case BuiltinAction(CloseTabsOtherCmd) => "Close Other Tabs"
    case BuiltinAction(CloseTabsLeftCmd) => "Close Tabs to Left"
    case BuiltinAction(CloseTabsRightCmd) => "Close Tabs to Right"
    case BuiltinAction(CloseWindowCmd) => "Close Window"
    case BuiltinAction(OpenURLCmd) => "Open in Default Browser"
    case TabScript(s) => s.title
    case URLScript(s) => s.title
    case Unrunnable(name, _) => name
  }

  function ActionIcon(a: Action): Icon {
    match a
    case BuiltinAction(OpenURLCmd) => IconURL
    case BuiltinAction(_) => IconTab
    case TabScript(s) => s.icon
    case URLScript(s) => s.icon
    case Unrunnable(_, image) => image
  }

  /** The built-in actions in the order `init` registers them. */
  const Builtins: seq<Action> := [
    BuiltinAction(CloseTabCmd), BuiltinAction(CloseTabsLeftCmd), BuiltinAction(CloseTabsRightCmd),
    BuiltinAction(CloseTabsOtherCmd), BuiltinAction(CloseWindowCmd), BuiltinAction(OpenURLCmd)]

  // ---------------------------------------------------------------------
  // Script icons

  /** Icon file extensions, in the order `getIcon` tries them. */
  const IconExts := [".png", ".icns", ".jpg", ".jpeg", ".gif"]

  /** The path without its extension. */
  function Stem(p: string): (r: string)
    ensures r + Ext(p) == p
  {
    p[..|p| - |Ext(p)|]
  }

  /** The icon for a script type that has no icon file of its own. */
  function TypeIcon(typ: string): Icon {
    if typ == "url" then IconURL else if typ == "tab" then IconTab else IconDefault
  }

  /**
   * `getIcon`: the first icon file next to the script, with the script's stem
   * and one of the icon extensions, else the icon of the script's type.
   */
  function GetIcon(d: Disk, p: string, typ: string): Icon {
    var stem := Stem(p);
    match FindFirst(IconExts, x => stem + x in d.perms)
    case Some(x) => Icon(stem + x)
    case None => TypeIcon(typ)
  }

  /** The icon is the first existing icon file in extension order, or else the type's icon. */
  lemma GetIconChoice(d: Disk, p: string, typ: string)
    ensures (forall k | 0 <= k < |IconExts| :: Stem(p) + IconExts[k] !in d.perms) ==> GetIcon(d, p, typ) == TypeIcon(typ)
    ensures forall k | 0 <= k < |IconExts| && Stem(p) + IconExts[k] in d.perms ::
      exists j | 0 <= j <= k :: GetIcon(d, p, typ) == Icon(Stem(p) + IconExts[j]) && Stem(p) + IconExts[j] in d.perms
        && forall i | 0 <= i < j :: Stem(p) + IconExts[i] !in d.perms
  {
  }

  /** `newScript`. */
  function NewScript(d: Disk, p: string, typ: string): Script {
    Script(p, ScriptTitle(p), GetIcon(d, p, typ))
  }

  // ---------------------------------------------------------------------
  // Running actions

  /**
   * `scriptRunner.run` as the command it starts: an executable script is run
   * itself; an OSA script is handed to osascript, in JavaScript mode for
   * `.js`; anything else cannot be run.
   */
  function RunPlan(d: Disk, path: string, args: seq<string>): (r: Result<Invocation, string>)
    ensures r.Ok? <==> IsExecutable(d, path) || IsOSAScript(path)
    ensures r.Err? ==> r.error == "Don't know how to run script: " + path
    ensures r.Ok? ==> r.value.program == (if IsExecutable(d, path) then path else Osascript)
    ensures r.Ok? ==> |r.value.args| >= |args| && r.value.args[|r.value.args| - |args|..] == args
    ensures r.Ok? && !IsExecutable(d, path) ==>
      var lead := if Ext(path) == ".js" then 2 else 0;
      |r.value.args| == lead + 1 + |args| && r.value.args[lead] == path
      && r.value.args[..lead] == (if lead == 2 then ["-l", "JavaScript"] else [])
  {
    if IsExecutable(d, path) then Ok(Invocation(path, args))
    else if IsOSAScript(path) then
      var lang := if Ext(path) == ".js" then ["-l", "JavaScript"] else [];
      Ok(Invocation(Osascript, lang + [path] + args))
    else Err("Don't know how to run script: " + path)
  }

  /** What running an action asks for: a call to a Safari bridge script, or a program. */
  datatype Effect = Bridge(call: JxaCall) | Spawn(inv: Invocation)

  /** The arguments `tabRunner.Run` passes: the window number, then the tab number. */
  function TabArgs(t: Tab): (args: seq<string>)
    ensures |args| == 2 && args[0] == Decimal(t.windowIndex) && args[1] == Decimal(t.index)
  {
    [Decimal(t.windowIndex), Decimal(t.index)]
  }

  /** The bridge call a built-in tab action makes for tab `t`. */
  function BuiltinCall(c: Builtin, t: Tab): JxaCall
    requires c != OpenURLCmd
  {
    match c
    case CloseTabCmd => CloseTab(t.windowIndex, t.index)
    case CloseTabsOtherCmd => CloseTabsOther(t.windowIndex, t.index)
    case CloseTabsLeftCmd => CloseTabsLeft(t.windowIndex, t.index)
    case CloseTabsRightCmd => CloseTabsRight(t.windowIndex, t.index)
    case CloseWindowCmd => CloseWin(t.windowIndex)
  }

  /** `Run(t)` of a tab action: a bridge call for a built-in, the script's command line for a script. */
  function RunOnTab(d: Disk, a: Action, t: Tab): (r: Result<Effect, string>)
    requires TabCapable(a)
    ensures a.BuiltinAction? ==> r == Ok(Bridge(BuiltinCall(a.cmd, t)))
    ensures a.TabScript? ==> (r.Ok? <==> IsExecutable(d, a.script.path) || IsOSAScript(a.script.path))
    ensures a.TabScript? && r.Ok? ==>
      r.value.Spawn? && |r.value.inv.args| >= 2 && r.value.inv.args[|r.value.inv.args| - 2..] == TabArgs(t)
  {
    if a.BuiltinAction? then Ok(Bridge(BuiltinCall(a.cmd, t)))
    else
      match RunPlan(d, a.script.path, TabArgs(t))
      case Ok(inv) => Ok(Spawn(inv))
      case Err(e) => Err(e)
  }

  /** `Run(u)` of a URL action; `u` is the URL as `u.String()` writes it. */
  function RunOnURL(d: Disk, a: Action, u: string): (r: Result<Effect, string>)
    requires URLCapable(a)
    ensures a.BuiltinAction? ==> r == Ok(Spawn(Invocation("/usr/bin/open", [u])))
    ensures a.URLScript? ==> (r.Ok? <==> IsExecutable(d, a.script.path) || IsOSAScript(a.script.path))
    ensures a.URLScript? && r.Ok? ==>
      r.value.Spawn? && |r.value.inv.args| >= 1 && r.value.inv.args[|r.value.inv.args| - 1] == u
  {
    if a.BuiltinAction? then Ok(Spawn(Invocation("/usr/bin/open", [u])))
    else
      match RunPlan(d, a.script.path, [u])
      case Ok(inv) => Ok(Spawn(inv))
      case Err(e) => Err(e)
  }

  /**
   * The close script closes what each built-in promises: the tab itself, the
   * others, those to its left or right, or its window.
   */
  lemma BuiltinCloseOutcome(c: Builtin, t: Tab, currentTab: int)
    requires c != OpenURLCmd && t.index > 0
    ensures var w := if t.windowIndex == 0 then 1 else t.windowIndex;
      SafariCloseJs.Run(BuiltinCall(c, t).argv, currentTab) ==
        match c
        case CloseTabCmd => SafariCloseJs.CloseTabs(SafariCloseJs.One, w, t.index)
        case CloseTabsOtherCmd => SafariCloseJs.CloseTabs(SafariCloseJs.Others, w, t.index)
        case CloseTabsLeftCmd => SafariCloseJs.CloseTabs(SafariCloseJs.Left, w, t.index)
        case CloseTabsRightCmd => SafariCloseJs.CloseTabs(SafariCloseJs.Right, w, t.index)
        case CloseWindowCmd => SafariCloseJs.CloseWindow(w)
  {
    var target := match c
      case CloseTabCmd => SafariCloseJs.Tabs(SafariCloseJs.One)
      case CloseTabsOtherCmd => SafariCloseJs.Tabs(SafariCloseJs.Others)
      case CloseTabsLeftCmd => SafariCloseJs.Tabs(SafariCloseJs.Left)
      case CloseTabsRightCmd => SafariCloseJs.Tabs(SafariCloseJs.Right)
      case CloseWindowCmd => SafariCloseJs.Win;
    var tab := if c == CloseWindowCmd then 0 else t.index;
    assert BuiltinCall(c, t) == CloseStuff(SafariCloseJs.TargetName(target), t.windowIndex, tab);
    SafariCloseJs.CloseStuffRoundTrip(target, t.windowIndex, tab, currentTab);
  }

  // ---------------------------------------------------------------------
  // Registration, on values

  /** The two registry tables, `tabActions` and `urlActions`, keyed by title. */
  datatype Tables = Tables(tab: map<string, Action>, url: map<string, Action>)

  const NoTables := Tables(map[], map[])

  /** Each table holds only actions of its kind, each under its own title. */
  ghost predicate WellKeyed(t: Tables) {
    TitleKeyed(t.tab) && TitleKeyed(t.url)
    && (forall k | k in t.tab :: TabCapable(t.tab[k]))
    && (forall k | k in t.url :: URLCapable(t.url[k]) && !TabCapable(t.url[k]))
  }

  /** Every action is filed under its own title. */
  ghost predicate TitleKeyed(m: map<string, Action>) {
    forall k | k in m :: Title(m[k]) == k
  }

  /**
   * In a list holding exactly the table's actions with titles outside `bl`,
   * a title is found iff the table has it and it is not in `bl`, and what is
   * found is the table's entry.
   */
  lemma ListedLookup(m: map<string, Action>, bl: set<string>, acts: seq<Action>, title: string)
    requires TitleKeyed(m)
    requires forall a :: a in acts <==> a in m.Values && Title(a) !in bl
    ensures (exists j | 0 <= j < |acts| :: Title(acts[j]) == title) <==> title in m && title !in bl
    ensures forall j | 0 <= j < |acts| && Title(acts[j]) == title :: acts[j] == m[title]
  {
    if title in m && title !in bl {
      assert m[title] in m.Values;
      var j :| 0 <= j < |acts| && acts[j] == m[title];
    }
    forall j | 0 <= j < |acts| && Title(acts[j]) == title
      ensures acts[j] == m[title]
    {
      assert acts[j] in m.Values;
      var key :| key in m && m[key] == acts[j];
    }
  }

  /**
   * `Register` on values: a tab action goes into the tab table and otherwise
   * a URL action into the URL table, replacing any action with the same
   * title; any other action changes nothing.
   */
  function Enrol(t: Tables, a: Action): Tables {
    if TabCapable(a) then t.(tab := t.tab[Title(a) := a])
    else if URLCapable(a) then t.(url := t.url[Title(a) := a])
    else t
  }

  /** Registering the actions one after the other. */
  function RegisterAll(t: Tables, acts: seq<Action>): Tables {
    if acts == [] then t else Enrol(RegisterAll(t, acts[..|acts| - 1]), acts[|acts| - 1])
  }

  lemma {:induction false} RegisterAllAppend(t: Tables, a: seq<Action>, b: seq<Action>)
    ensures RegisterAll(t, a + b) == RegisterAll(RegisterAll(t, a), b)
    decreases |b|
  {
    if b == [] {
      assert a + b == a;
    } else {
      assert (a + b)[..|a + b| - 1] == a + b[..|b| - 1];
      RegisterAllAppend(t, a, b[..|b| - 1]);
    }
  }

  /** After registering `acts`, a title is in the tab table iff it was before or a tab action among `acts` has it. */
  lemma {:induction false} RegisterAllTabKeys(t: Tables, acts: seq<Action>, title: string)
    ensures title in RegisterAll(t, acts).tab <==>
      title in t.tab || exists k | 0 <= k < |acts| :: TabCapable(acts[k]) && Title(acts[k]) == title
    decreases |acts|
  {
    if acts != [] {
      var n := |acts| - 1;
      RegisterAllTabKeys(t, acts[..n], title);
      assert forall k | 0 <= k < n :: acts[..n][k] == acts[k];
    }
  }

  /** The same for the URL table, which takes only actions that cannot run on a tab. */
  lemma {:induction false} RegisterAllURLKeys(t: Tables, acts: seq<Action>, title: string)
    ensures title in RegisterAll(t, acts).url <==>
      title in t.url || exists k | 0 <= k < |acts| :: !TabCapable(acts[k]) && URLCapable(acts[k]) && Title(acts[k]) == title
    decreases |acts|
  {
    if acts != [] {
      var n := |acts| - 1;
      RegisterAllURLKeys(t, acts[..n], title);
      assert forall k | 0 <= k < n :: acts[..n][k] == acts[k];
    }
  }

  /** Last write wins: a title holds the last tab action registered under it. */
  lemma {:induction false} RegisterAllLastWins(t: Tables, acts: seq<Action>, k: nat)
    requires k < |acts| && TabCapable(acts[k])
    requires forall j | k < j < |acts| :: !(TabCapable(acts[j]) && Title(acts[j]) == Title(acts[k]))
    ensures Title(acts[k]) in RegisterAll(t, acts).tab && RegisterAll(t, acts).tab[Title(acts[k])] == acts[k]
    decreases |acts|
  {
    var n := |acts| - 1;
    var title := Title(acts[k]);
    var before := RegisterAll(t, acts[..n]);
    assert RegisterAll(t, acts) == Enrol(before, acts[n]);
    var last := acts[n];
    if k == n {
      assert Enrol(before, last).tab == before.tab[title := last];
    } else {
      assert forall j | k < j < n :: acts[..n][j] == acts[j];
      RegisterAllLastWins(t, acts[..n], k);
      if TabCapable(last) {
        assert Title(last) != title;
        assert Enrol(before, last).tab == before.tab[Title(last) := last];
      } else {
        assert Enrol(before, last).tab == before.tab;
      }
    }
  }

  /** The tables `init` leaves: the five tab built-ins and the one URL built-in. */
  lemma BuiltinTables()
    ensures RegisterAll(NoTables, Builtins) == Tables(
      map[
        "Close Tab" := BuiltinAction(CloseTabCmd),
        "Close Tabs to Left" := BuiltinAction(CloseTabsLeftCmd),
        "Close Tabs to Right" := BuiltinAction(CloseTabsRightCmd),
        "Close Other Tabs" := BuiltinAction(CloseTabsOtherCmd),
        "Close Window" := BuiltinAction(CloseWindowCmd)],
      map["Open in Default Browser" := BuiltinAction(OpenURLCmd)])
  {
    var b := Builtins;
    assert b[..1][..0] == [];
    assert RegisterAll(NoTables, b[..1]) == Enrol(NoTables, b[0]);
    assert b[..2][..1] == b[..1];
    assert RegisterAll(NoTables, b[..2]) == Enrol(RegisterAll(NoTables, b[..1]), b[1]);
    assert b[..3][..2] == b[..2];
    assert RegisterAll(NoTables, b[..3]) == Enrol(RegisterAll(NoTables, b[..2]), b[2]);
    assert b[..4][..3] == b[..3];
    assert RegisterAll(NoTables, b[..4]) == Enrol(RegisterAll(NoTables, b[..3]), b[3]);
    assert b[..5][..4] == b[..4];
    assert RegisterAll(NoTables, b[..5]) == Enrol(RegisterAll(NoTables, b[..4]), b[4]);
    assert b[..5] == b[..|b| - 1];
    assert RegisterAll(NoTables, b) == Enrol(RegisterAll(NoTables, b[..5]), b[5]);
  }

  // ---------------------------------------------------------------------
  // The blacklist file

  /**
   * The text a new blacklist file starts with: comment lines and a final
   * empty line. Long lines are written in pieces so the verifier can inspect
   * each one.
   */
  const TemplateLines: seq<string> := TemplateHead + TemplateNote + TemplateTail

  const TemplateHead: seq<string> := [
    "#",
    "# Action blacklist",
    "# ----------------",
    "#",
    "# Add the names of action scripts" + " to ignore to this file,",
    "# one per line without any" + " file extensions, e.g. add",
    "#",
    "# Open in Firefox",
    "#"]

  const TemplateNote: seq<string> := [
    "# to prevent the " + "\"Open in Firefox\"" + " action from being shown in",
    "# any list of actions.",
    "#",
    "# NOTE: This doesn't prevent an" + " action from being called:" + " it only",
    "# prevents it from being shown in" + " any action lists in Alfred's UI."]

  const TemplateTail: seq<string> := [
    "# That means you can blacklist" + " actions here that you've assigned",
    "# as alterate actions via the" + " workflow configuration sheet.",
    "#",
    "# Empty lines and lines beginning" + " with # are ignored.",
    "#",
    ""]

  const BlacklistTemplate := JoinLines(TemplateLines)

  /** `initBlacklist`: the file's content once it exists. */
  function Initialised(file: Option<string>): string {
    match file
    case Some(content) => content
    case None => BlacklistTemplate
  }

  /** A trimmed line that names an action: not empty and not a comment. */
  predicate IsName(line: string) {
    line != "" && !HasPrefix(line, "#")
  }

  /** The names `loadBlacklist` takes from the lines of the file. */
  function NamesOf(lines: seq<string>): set<string> {
    if lines == [] then {}
    else
      var n := TrimSpace(lines[|lines| - 1]);
      NamesOf(lines[..|lines| - 1]) + (if IsName(n) then {n} else {})
  }

  /** A name is blacklisted iff some line, trimmed, is that name. */
  lemma {:induction false} NamesOfMembership(lines: seq<string>, n: string)
    ensures n in NamesOf(lines) <==>
      exists k | 0 <= k < |lines| :: IsName(TrimSpace(lines[k])) && TrimSpace(lines[k]) == n
  {
    if lines != [] {
      var m := |lines| - 1;
      NamesOfMembership(lines[..m], n);
      assert forall k | 0 <= k < m :: lines[..m][k] == lines[k];
    }
  }

  /** One more line adds its name, if it is one. */
  lemma NamesOfStep(lines: seq<string>, i: int)
    requires 0 <= i < |lines|
    ensures var n := TrimSpace(lines[i]);
      NamesOf(lines[..i + 1]) == NamesOf(lines[..i]) + (if IsName(n) then {n} else {})
  {
    assert lines[..i + 1][..i] == lines[..i];
  }

  lemma {:induction false} NamesOfAppend(a: seq<string>, b: seq<string>)
    ensures NamesOf(a + b) == NamesOf(a) + NamesOf(b)
    decreases |b|
  {
    if b == [] {
      assert a + b == a;
    } else {
      assert (a + b)[..|a + b| - 1] == a + b[..|b| - 1];
      NamesOfAppend(a, b[..|b| - 1]);
    }
  }

  /** Lines that are blank or comments name nothing. */
  lemma {:induction false} CommentsNameNothing(lines: seq<string>)
    requires forall k | 0 <= k < |lines| :: lines[k] == "" || lines[k][0] == '#'
    ensures NamesOf(lines) == {}
  {
    if lines != [] {
      var l := lines[|lines| - 1];
      CommentsNameNothing(lines[..|lines| - 1]);
      if l != "" {
        TrimSpaceKeepsFirst(l);
      }
    }
  }

  lemma TemplateHeadIsPlain()
    ensures forall k | 0 <= k < |TemplateHead| :: PlainLine(TemplateHead[k])
  {
    ScriptsPiecesArePlain();
    OnePerLinePiecesArePlain();
  }

  // Solver aids: each literal piece of the template is checked on its own,
  // because the verifier gives up on long literals. They model nothing by
  // themselves; the `Template*IsPlain` lemmas put them together.

  lemma ScriptsPiecesArePlain()
    ensures '\n' !in "# Add the names of action scripts" && '\n' !in " to ignore to this file,"
  {}

  lemma OnePerLinePiecesArePlain()
    ensures '\n' !in "# one per line without any" && '\n' !in " file extensions, e.g. add"
  {}

  lemma PreventPiecesArePlain()
    ensures '\n' !in "# to prevent the " && '\n' !in "\"Open in Firefox\"" && '\n' !in " action from being shown in"
  {}

  lemma NotePiecesArePlain()
    ensures '\n' !in "# NOTE: This doesn't prevent an" && '\n' !in " action from being called:" && '\n' !in " it only"
  {}

  lemma PreventsPiecesArePlain()
    ensures '\n' !in "# prevents it from being shown in" && '\n' !in " any action lists in Alfred's UI."
  {}

  lemma TemplateNoteIsPlain()
    ensures forall k | 0 <= k < |TemplateNote| :: PlainLine(TemplateNote[k])
  {
    PreventPiecesArePlain();
    NotePiecesArePlain();
    PreventsPiecesArePlain();
  }

  lemma TemplateTailIsPlain()
    ensures forall k | 0 <= k < |TemplateTail| :: PlainLine(TemplateTail[k])
  {
    BlacklistPiecesArePlain();
    AlternatePiecesArePlain();
    IgnoredPiecesArePlain();
  }

  lemma BlacklistPiecesArePlain()
    ensures '\n' !in "# That means you can blacklist" && '\n' !in " actions here that you've assigned"
  {}

  lemma AlternatePiecesArePlain()
    ensures '\n' !in "# as alterate actions via the" && '\n' !in " workflow configuration sheet."
  {}

  lemma IgnoredPiecesArePlain()
    ensures '\n' !in "# Empty lines and lines beginning" && '\n' !in " with # are ignored."
  {}

  lemma TemplateLinesArePlain()
    ensures forall k | 0 <= k < |TemplateLines| :: PlainLine(TemplateLines[k])
  {
    TemplateHeadIsPlain();
    TemplateNoteIsPlain();
    TemplateTailIsPlain();
    var h, n := |TemplateHead|, |TemplateNote|;
    assert forall k | 0 <= k < |TemplateLines| ::
      TemplateLines[k] == (if k < h then TemplateHead[k] else if k < h + n then TemplateNote[k - h] else TemplateTail[k - h - n]);
  }

  lemma TemplateLinesAreComments()
    ensures forall k | 0 <= k < |TemplateLines| :: TemplateLines[k] == "" || TemplateLines[k][0] == '#'
  {
  }

  /** A new blacklist file blacklists nothing: all its lines are comments or blank. */
  lemma TemplateNamesNothing()
    ensures SplitLines(BlacklistTemplate) == TemplateLines
    ensures NamesOf(SplitLines(BlacklistTemplate)) == {}
  {
    TemplateLinesArePlain();
    SplitJoinLines(TemplateLines);
    TemplateLinesAreComments();
    CommentsNameNothing(TemplateLines);
  }

  /**
   * Appending names to a file that ends at a line boundary blacklists exactly
   * the names it blacklisted before plus those of the appended lines.
   */
  lemma AppendedNamesLoad(content: string, names: seq<string>)
    requires content == [] || content[|content| - 1] == '\n'
    requires forall k | 0 <= k < |names| :: PlainLine(names[k])
    ensures NamesOf(SplitLines(content + JoinLines(names))) == NamesOf(SplitLines(content)) + NamesOf(names)
  {
    SplitLinesAppend(content, JoinLines(names));
    SplitJoinLines(names);
    NamesOfAppend(SplitLines(content), names);
  }

  /** Solver aid for `UnterminatedLastLineAbsorbsName`: the example line, trimmed, is a name. */
  lemma FooBarIsAName()
    ensures TrimSpace("FooBar") == "FooBar" && IsName("FooBar")
  {
    var line: string := "FooBar";
    assert !IsSpace(line[0]) && !IsSpace(line[|line| - 1]);
    assert line[..1] != "#";
  }

  /** Solver aid for `UnterminatedLastLineAbsorbsName`: the one example line names itself. */
  lemma NamesOfSingleLine()
    ensures NamesOf(["FooBar"]) == {"FooBar"}
  {
    var line: string := "FooBar";
    FooBarIsAName();
    var lines: seq<string> := [line];
    assert lines[..0] == [];
  }

  /**
   * A file whose last line has no newline gets the first appended name joined
   * onto that line: the name itself is not blacklisted.
   */
  lemma UnterminatedLastLineAbsorbsName()
    ensures NamesOf(SplitLines("Foo" + JoinLines(["Bar"]))) == {"FooBar"}
  {
    var line := "FooBar";
    assert JoinLines(["Bar"]) == "Bar\n";
    assert JoinLines([line]) == line + "\n" + JoinLines([line][1..]);
    assert "Foo" + JoinLines(["Bar"]) == JoinLines([line]);
    assert PlainLine(line) by {
      assert forall k | 0 <= k < |line| :: line[k] != '\n';
    }
    SplitJoinLines([line]);
    NamesOfSingleLine();
  }

  // ---------------------------------------------------------------------
  // Finding scripts

  /** One entry `filepath.Walk` hands to the callback: a path, or the error met there. */
  datatype Visit = Visit(path: string, isDir: bool, err: Option<string>)

  /** A walk of one script directory: its root and the entries visited, in order. */
  datatype Walk = Walk(root: string, visits: seq<Visit>)

  /** The number of visits before the first one that reports an error. */
  function StopAt(vs: seq<Visit>): (n: nat)
    ensures n <= |vs|
    ensures forall k | 0 <= k < n :: vs[k].err.None?
    ensures n < |vs| ==> vs[n].err.Some?
  {
    if vs == [] || vs[0].err.Some? then 0 else 1 + StopAt(vs[1..])
  }

  /** The error the walk returns: the callback hands back the first error it is given. */
  function WalkError(w: Walk): (r: Option<string>)
    ensures r.None? <==> forall k | 0 <= k < |w.visits| :: w.visits[k].err.None?
  {
    var n := StopAt(w.visits);
    if n < |w.visits| then w.visits[n].err else None
  }

  /** A visited path is a script if it is a file that is an OSA script or executable. */
  predicate IsCandidate(d: Disk, v: Visit) {
    !v.isDir && (IsOSAScript(v.path) || IsExecutable(d, v.path))
  }

  /** The action a script in a directory named `typ` becomes, if the name is a known type. */
  function ScriptAction(d: Disk, typ: string, p: string): (r: Option<Action>)
    ensures r.Some? <==> typ == "tab" || typ == "url"
    ensures r.Some? ==> TabCapable(r.value) == (typ == "tab") && URLCapable(r.value) == (typ == "url")
    ensures r.Some? ==> Title(r.value) == ScriptTitle(p)
  {
    if typ == "tab" then Some(TabScript(NewScript(d, p, typ)))
    else if typ == "url" then Some(URLScript(NewScript(d, p, typ)))
    else None
  }

  /** The actions `LoadScripts` registers for one visit: none, or the visit's script. */
  function Registers(d: Disk, typ: string, bl: set<string>, v: Visit): seq<Action> {
    if IsCandidate(d, v) then
      match ScriptAction(d, typ, v.path)
      case Some(a) => if Title(a) in bl then [] else [a]
      case None => []
    else []
  }

  function FileActions(d: Disk, typ: string, bl: set<string>, vs: seq<Visit>): seq<Action> {
    FlatMap(vs, v => Registers(d, typ, bl, v))
  }

  /** The actions a walk registers, in visiting order: the type is the base name of the walk's root. */
  function WalkActions(d: Disk, w: Walk, bl: set<string>): seq<Action> {
    FileActions(d, Base(w.root), bl, w.visits[..StopAt(w.visits)])
  }

  /** The actions all the walks register, directory by directory. */
  function ScriptActions(d: Disk, dirs: seq<Walk>, bl: set<string>): seq<Action> {
    if dirs == [] then []
    else ScriptActions(d, dirs[..|dirs| - 1], bl) + WalkActions(d, dirs[|dirs| - 1], bl)
  }

  /** The errors the walks return, in directory order. */
  function WalkErrors(dirs: seq<Walk>): seq<string> {
    if dirs == [] then []
    else
      var last := WalkError(dirs[|dirs| - 1]);
      WalkErrors(dirs[..|dirs| - 1]) + (if last.Some? then [last.value] else [])
  }

  /** Walking one more directory appends its actions and its error. */
  lemma WalksSnoc(d: Disk, dirs: seq<Walk>, i: int, bl: set<string>)
    requires 0 <= i < |dirs|
    ensures ScriptActions(d, dirs[..i + 1], bl) == ScriptActions(d, dirs[..i], bl) + WalkActions(d, dirs[i], bl)
    ensures WalkErrors(dirs[..i + 1]) == WalkErrors(dirs[..i]) + (if WalkError(dirs[i]).Some? then [WalkError(dirs[i]).value] else [])
  {
    assert dirs[..i + 1][..i] == dirs[..i];
  }

  /** Visit `v` of a walk of a `typ` directory registers action `a`. */
  predicate Yields(d: Disk, typ: string, bl: set<string>, v: Visit, a: Action) {
    IsCandidate(d, v) && ScriptAction(d, typ, v.path) == Some(a) && Title(a) !in bl
  }

  lemma RegistersMembership(d: Disk, typ: string, bl: set<string>, v: Visit, a: Action)
    ensures a in Registers(d, typ, bl, v) <==> Yields(d, typ, bl, v, a)
  {
  }

  /**
   * An action comes from a walk iff it is the script action of a file the
   * walk visits before any error, the file is an OSA script or executable,
   * the root's base name is "tab" or "url", and the title is not blacklisted.
   */
  lemma {:induction false} FileActionsMembership(d: Disk, typ: string, bl: set<string>, vs: seq<Visit>, a: Action)
    ensures a in FileActions(d, typ, bl, vs) <==> exists k | 0 <= k < |vs| :: Yields(d, typ, bl, vs[k], a)
  {
    FlatMapMembership(vs, v => Registers(d, typ, bl, v), a);
    forall k | 0 <= k < |vs|
      ensures a in Registers(d, typ, bl, vs[k]) <==> Yields(d, typ, bl, vs[k], a)
    {
      RegistersMembership(d, typ, bl, vs[k], a);
    }
  }

  /** No action a walk registers has a blacklisted title, and each is a tab or URL action. */
  lemma {:induction false} ScriptActionsAllowed(d: Disk, dirs: seq<Walk>, bl: set<string>)
    ensures forall k | 0 <= k < |ScriptActions(d, dirs, bl)| ::
      var a := ScriptActions(d, dirs, bl)[k];
      Title(a) !in bl && (TabCapable(a) || URLCapable(a))
  {
    if dirs != [] {
      var n := |dirs| - 1;
      ScriptActionsAllowed(d, dirs[..n], bl);
      var w := dirs[n];
      var vs := w.visits[..StopAt(w.visits)];
      forall a | a in WalkActions(d, w, bl)
        ensures Title(a) !in bl && (TabCapable(a) || URLCapable(a))
      {
        FileActionsMembership(d, Base(w.root), bl, vs, a);
        var k :| 0 <= k < |vs| && Yields(d, Base(w.root), bl, vs[k], a);
      }
    }
  }

  /** Go's `errs[0]`: the first error collected is the error of the first walk that failed. */
  lemma {:induction false} FirstWalkError(dirs: seq<Walk>)
    ensures WalkErrors(dirs) == [] <==> forall k | 0 <= k < |dirs| :: WalkError(dirs[k]).None?
    ensures WalkErrors(dirs) != [] ==>
      exists k | 0 <= k < |dirs| :: WalkError(dirs[k]) == Some(WalkErrors(dirs)[0])
        && forall j | 0 <= j < k :: WalkError(dirs[j]).None?
  {
    if dirs != [] {
      var n := |dirs| - 1;
      var p := dirs[..n];
      FirstWalkError(p);
      assert forall k | 0 <= k < n :: p[k] == dirs[k];
      var last := WalkError(dirs[n]);
      assert WalkErrors(dirs) == WalkErrors(p) + (if last.Some? then [last.value] else []);
      if WalkErrors(p) != [] {
        assert WalkErrors(dirs)[0] == WalkErrors(p)[0];
      } else if last.Some? {
        assert WalkErrors(dirs)[0] == last.value;
      }
    }
  }

  // ---------------------------------------------------------------------
  // The registry

  /**
   * The registry's package-level state: the two tables, the blacklist, and
   * the blacklist file in the workflow's data directory (`None` while the
   * file does not exist).
   */
  class Registry {
    var tabActions: map<string, Action>
    var urlActions: map<string, Action>
    var blacklist: set<string>
    var blacklistFile: Option<string>

    function Tabs(): Tables
      reads this
    {
      Tables(tabActions, urlActions)
    }

    ghost predicate Valid()
      reads this
    {
      WellKeyed(Tabs())
    }

    /** `init`: the built-in actions, registered in order; nothing is blacklisted yet. */
    constructor(file: Option<string>)
      ensures Valid()
      ensures Tabs() == RegisterAll(NoTables, Builtins)
      ensures blacklist == {} && blacklistFile == file
    {
      tabActions := map[];
      urlActions := map[];
      blacklist := {};
      blacklistFile := file;
      new;
      var i := 0;
      while i < |Builtins|
        invariant 0 <= i <= |Builtins|
        invariant Valid()
        invariant Tabs() == RegisterAll(NoTables, Builtins[..i])
        invariant blacklist == {} && blacklistFile == file
      {
        var _ := Register(Builtins[i]);
        assert Builtins[..i + 1][..i] == Builtins[..i];
        i := i + 1;
      }
      assert Builtins[..i] == Builtins;
    }

    /** `Register`: file the action under its title in the table of its kind. */
    method Register(a: Action) returns (r: Result<(), string>)
      requires Valid()
      modifies this
      ensures Valid()
      ensures Tabs() == Enrol(old(Tabs()), a)
      ensures r.Err? <==> !TabCapable(a) && !URLCapable(a)
      ensures r.Err? ==> r.error == "unknown action type : " + Title(a)
      ensures blacklist == old(blacklist) && blacklistFile == old(blacklistFile)
    {
      if TabCapable(a) {
        tabActions := tabActions[Title(a) := a];
        return Ok(());
      }
      if URLCapable(a) {
        urlActions := urlActions[Title(a) := a];
        return Ok(());
      }
      return Err("unknown action type : " + Title(a));
    }

    /** `Blacklist`: hide the action with this title from the lists. */
    method Blacklist(actionName: string)
      requires Valid()
      modifies this
      ensures Valid()
      ensures blacklist == old(blacklist) + {actionName}
      ensures Tabs() == old(Tabs()) && blacklistFile == old(blacklistFile)
    {
      blacklist := blacklist + {actionName};
    }

    /** `TabActions`: the registered tab actions whose title is not blacklisted, in no particular order. */
    method TabActions() returns (acts: seq<Action>)
      requires Valid()
      ensures forall a :: a in acts <==> a in tabActions.Values && Title(a) !in blacklist
      ensures forall i, j | 0 <= i < j < |acts| :: acts[i] != acts[j]
    {
      acts := [];
      var todo := tabActions.Keys;
      while todo != {}
        invariant todo <= tabActions.Keys
        invariant forall a :: a in acts <==> a in tabActions.Values && Title(a) !in blacklist && Title(a) !in todo
        invariant forall i, j | 0 <= i < j < |acts| :: acts[i] != acts[j]
        decreases |todo|
      {
        var k :| k in todo;
        var a := tabActions[k];
        todo := todo - {k};
        if Title(a) !in blacklist {
          acts := acts + [a];
        }
      }
    }

    /** `URLActions`: the registered URL actions whose title is not blacklisted, in no particular order. */
    method URLActions() returns (acts: seq<Action>)
      requires Valid()
      ensures forall a :: a in acts <==> a in urlActions.Values && Title(a) !in blacklist
      ensures forall i, j | 0 <= i < j < |acts| :: acts[i] != acts[j]
    {
      acts := [];
      var todo := urlActions.Keys;
      while todo != {}
        invariant todo <= urlActions.Keys
        invariant forall a :: a in acts <==> a in urlActions.Values && Title(a) !in blacklist && Title(a) !in todo
        invariant forall i, j | 0 <= i < j < |acts| :: acts[i] != acts[j]
        decreases |todo|
      {
        var k :| k in todo;
        var a := urlActions[k];
        todo := todo - {k};
        if Title(a) !in blacklist {
          acts := acts + [a];
        }
      }
    }

    /**
     * `TabAction`: the tab action with this title, searched for among the
     * listed ones, so a blacklisted title is not found.
     */
    method TabAction(title: string) returns (r: Option<Action>)
      requires Valid()
      ensures r.Some? <==> title in tabActions && title !in blacklist
      ensures r.Some? ==> r.value == tabActions[title]
    {
      var acts := TabActions();
      ListedLookup(tabActions, blacklist, acts, title);
      var i := 0;
      while i < |acts|
        invariant 0 <= i <= |acts|
        invariant forall j | 0 <= j < i :: Title(acts[j]) != title
      {
        if Title(acts[i]) == title {
          return Some(acts[i]);
        }
        i := i + 1;
      }
      return None;
    }

    /** `URLAction`: the same search among the listed URL actions. */
    method URLAction(title: string) returns (r: Option<Action>)
      requires Valid()
      ensures r.Some? <==> title in urlActions && title !in blacklist
      ensures r.Some? ==> r.value == urlActions[title]
    {
      var acts := URLActions();
      ListedLookup(urlActions, blacklist, acts, title);
      var i := 0;
      while i < |acts|
        invariant 0 <= i <= |acts|
        invariant forall j | 0 <= j < i :: Title(acts[j]) != title
      {
        if Title(acts[i]) == title {
          return Some(acts[i]);
        }
        i := i + 1;
      }
      return None;
    }

    /** `initBlacklist`: create the file from the template if it does not exist. */
    method InitBlacklist()
      modifies this
      ensures blacklistFile == Some(Initialised(old(blacklistFile)))
      ensures Tabs() == old(Tabs()) && blacklist == old(blacklist)
    {
      if blacklistFile.None? {
        blacklistFile := Some(BlacklistTemplate);
      }
    }

    /** `addToBlacklist`: append each name on a line of its own; what was there stays. */
    method AddToBlacklist(names: seq<string>)
      modifies this
      ensures blacklistFile == Some(Initialised(old(blacklistFile)) + JoinLines(names))
      ensures Tabs() == old(Tabs()) && blacklist == old(blacklist)
    {
      InitBlacklist();
      assert names[..0] == [];
      assert blacklistFile.value + JoinLines([]) == blacklistFile.value;
      var i := 0;
      while i < |names|
        invariant 0 <= i <= |names|
        invariant blacklistFile == Some(Initialised(old(blacklistFile)) + JoinLines(names[..i]))
        invariant Tabs() == old(Tabs()) && blacklist == old(blacklist)
      {
        JoinLinesSnoc(names[..i], names[i]);
        assert names[..i + 1] == names[..i] + [names[i]];
        var base := Initialised(old(blacklistFile));
        assert base + JoinLines(names[..i]) + (names[i] + "\n") == base + JoinLines(names[..i + 1]);
        blacklistFile := Some(blacklistFile.value + (names[i] + "\n"));
        i := i + 1;
      }
      assert names[..i] == names;
    }

    /** `loadBlacklist`: blacklist every line of the file that names an action; nothing is removed. */
    method LoadBlacklist()
      requires Valid()
      modifies this
      ensures Valid()
      ensures blacklistFile == Some(Initialised(old(blacklistFile)))
      ensures blacklist == old(blacklist) + NamesOf(SplitLines(Initialised(old(blacklistFile))))
      ensures Tabs() == old(Tabs())
    {
      InitBlacklist();
      var lines := SplitLines(blacklistFile.value);
      var i := 0;
      while i < |lines|
        invariant 0 <= i <= |lines|
        invariant blacklistFile == Some(Initialised(old(blacklistFile)))
        invariant blacklist == old(blacklist) + NamesOf(lines[..i])
        invariant Tabs() == old(Tabs()) && Valid()
      {
        NamesOfStep(lines, i);
        var line := TrimSpace(lines[i]);
        i := i + 1;
        if line == "" || HasPrefix(line, "#") {
          continue;
        }
        Blacklist(line);
      }
      assert lines[..i] == lines;
    }

    /**
     * `LoadScripts`: load the blacklist, then walk each directory, register
     * every script that is not blacklisted, and return the first walk error
     * once all directories have been walked.
     */
    method LoadScripts(d: Disk, dirs: seq<Walk>) returns (err: Option<string>)
      requires Valid()
      modifies this
      ensures Valid()
      ensures blacklistFile == Some(Initialised(old(blacklistFile)))
      ensures blacklist == old(blacklist) + NamesOf(SplitLines(Initialised(old(blacklistFile))))
      ensures Tabs() == RegisterAll(old(Tabs()), ScriptActions(d, dirs, blacklist))
      ensures err == (if WalkErrors(dirs) == [] then None else Some(WalkErrors(dirs)[0]))
    {
      LoadBlacklist();
      ghost var start := Tabs();
      ghost var file := blacklistFile;
      ghost var bl := blacklist;
      var errs: seq<string> := [];
      var i := 0;
      while i < |dirs|
        invariant 0 <= i <= |dirs|
        invariant Valid()
        invariant blacklist == bl && blacklistFile == file
        invariant Tabs() == RegisterAll(start, ScriptActions(d, dirs[..i], bl))
        invariant errs == WalkErrors(dirs[..i])
      {
        ghost var before := Tabs();
        var werr := WalkDir(d, dirs[i]);
        WalksSnoc(d, dirs, i, bl);
        RegisterAllAppend(start, ScriptActions(d, dirs[..i], bl), WalkActions(d, dirs[i], bl));
        if werr.Some? {
          errs := errs + [werr.value];
        }
        i := i + 1;
      }
      assert dirs[..i] == dirs;
      if |errs| > 0 {
        return Some(errs[0]);
      }
      return None;
    }

    /** The `filepath.Walk` of one script directory, with `LoadScripts`'s callback. */
    method WalkDir(d: Disk, w: Walk) returns (werr: Option<string>)
      requires Valid()
      modifies this
      ensures Valid()
      ensures blacklist == old(blacklist) && blacklistFile == old(blacklistFile)
      ensures Tabs() == RegisterAll(old(Tabs()), WalkActions(d, w, blacklist))
      ensures werr == WalkError(w)
    {
      var typ := Base(w.root);
      var j := 0;
      while j < |w.visits|
        invariant 0 <= j <= StopAt(w.visits)
        invariant Valid()
        invariant blacklist == old(blacklist) && blacklistFile == old(blacklistFile)
        invariant Tabs() == RegisterAll(old(Tabs()), FileActions(d, typ, blacklist, w.visits[..j]))
      {
        var v := w.visits[j];
        if v.err.Some? {
          assert j == StopAt(w.visits);
          return v.err;
        }
        VisitFile(d, typ, v);
        StepRegisters(d, typ, blacklist, w.visits, j);
        RegisterAllAppend(old(Tabs()), FileActions(d, typ, blacklist, w.visits[..j]), Registers(d, typ, blacklist, v));
        j := j + 1;
      }
      assert w.visits[..j] == w.visits[..StopAt(w.visits)];
      return None;
    }

    /** The callback on one visited entry that reports no error. */
    method VisitFile(d: Disk, typ: string, v: Visit)
      requires Valid()
      modifies this
      ensures Valid()
      ensures blacklist == old(blacklist) && blacklistFile == old(blacklistFile)
      ensures Tabs() == RegisterAll(old(Tabs()), Registers(d, typ, blacklist, v))
    {
      var acts := Registers(d, typ, blacklist, v);
      assert acts == [] ==> RegisterAll(Tabs(), acts) == Tabs();
      if IsCandidate(d, v) {
        var sc := NewScript(d, v.path, typ);
        if typ == "tab" {
          var a := TabScript(sc);
          if Title(a) !in blacklist {
            assert acts == [a] && [a][..0] == [];
            var _ := Register(a);
          }
        } else if typ == "url" {
          var a := URLScript(sc);
          if Title(a) !in blacklist {
            assert acts == [a] && [a][..0] == [];
            var _ := Register(a);
          }
        }
      }
    }
  }

  /** The actions of the first `j + 1` visits are those of the first `j` and then those of visit `j`. */
  lemma StepRegisters(d: Disk, typ: string, bl: set<string>, vs: seq<Visit>, j: nat)
    requires j < |vs|
    ensures FileActions(d, typ, bl, vs[..j + 1]) == FileActions(d, typ, bl, vs[..j]) + Registers(d, typ, bl, vs[j])
  {
    assert vs[..j + 1][..j] == vs[..j];
  }
}
