/**
 * Helpers and commands of the workflow's main file (alsf.go): the fuzzy
 * keywords of a URL, the name of the distribution file, running a URL
 * action, and the list items for actions.
 */
module Alsf {
  import opened Wrappers
  import opened Strings
  import opened Icons
  import opened Urls
  import opened Actions

  // ---------------------------------------------------------------------
  // urlKeywords

  /** Host fragments that carry no meaning, removed in this order. */
  const UrlKillWords := ["www.", ".com", ".net", ".org", ".co.uk"]

  predicate NoEmptyWord(words: seq<string>) {
    forall k | 0 <= k < |words| :: words[k] != []
  }

  /** Every occurrence of each word deleted in turn, the first word first. */
  function StripAll(h: string, words: seq<string>): string
    requires NoEmptyWord(words)
  {
    if words == [] then h
    else ReplaceAll(StripAll(h, words[..|words| - 1]), words[|words| - 1], "")
  }

  /** Stripping only ever deletes characters. */
  lemma {:induction false} StripAllShrinks(h: string, words: seq<string>)
    requires NoEmptyWord(words)
    ensures |StripAll(h, words)| <= |h|
    ensures multiset(StripAll(h, words)) <= multiset(h)
  {
    if words != [] {
      var n := |words| - 1;
      StripAllShrinks(h, words[..n]);
      ReplaceDeleteShrinks(StripAll(h, words[..n]), words[n]);
    }
  }

  /** A host in which no word occurs is left as it is. */
  lemma {:induction false} StripAllAbsent(h: string, words: seq<string>)
    requires NoEmptyWord(words)
    requires forall k | 0 <= k < |words| :: !Contains(h, words[k])
    ensures StripAll(h, words) == h
  {
    if words != [] {
      var n := |words| - 1;
      StripAllAbsent(h, words[..n]);
      ReplaceAbsent(h, words[n], "");
    }
  }

  /**
   * `urlKeywords`: "" when the URL does not parse, otherwise its host with
   * every kill word removed.
   */
  method UrlKeywords(url: string, parse: Parser) returns (r: string)
    ensures parse(url).Err? ==> r == ""
    ensures parse(url).Ok? ==> r == StripAll(parse(url).value.host, UrlKillWords)
  {
    var res := parse(url);
    if res.Err? {
      return "";
    }
    var h := res.value.host;
    var i := 0;
    while i < |UrlKillWords|
      invariant 0 <= i <= |UrlKillWords|
      invariant h == StripAll(res.value.host, UrlKillWords[..i])
    {
      assert UrlKillWords[..i + 1][..i] == UrlKillWords[..i];
      h := ReplaceAll(h, UrlKillWords[i], "");
      i := i + 1;
    }
    assert UrlKillWords[..i] == UrlKillWords;
    return h;
  }

  // ---------------------------------------------------------------------
  // doDistname

  /** `doDistname`: "<name> <version>.alfredworkflow" with each space made a hyphen. */
  function Distname(name: string, version: string): string {
    ReplaceAll(name + " " + version + ".alfredworkflow", " ", "-")
  }

  /**
   * The file name has no spaces, keeps every other character of the name,
   * the version and the extension in place, and has the same length.
   */
  lemma DistnameShape(name: string, version: string)
    ensures var s := name + " " + version + ".alfredworkflow";
      |Distname(name, version)| == |s|
      && (forall k | 0 <= k < |s| :: Distname(name, version)[k] == if s[k] == ' ' then '-' else s[k])
    ensures ' ' !in Distname(name, version)
    ensures Distname(name, version)[|name|] == '-'
  {
    var s := name + " " + version + ".alfredworkflow";
    ReplaceChar(s, ' ', '-');
    assert s[|name|] == ' ';
  }

  // ---------------------------------------------------------------------
  // doURLAction

  /**
   * What running the URL action `action` on URL text `u` comes to, given the
   * tables and the blacklist: "Unknown action" unless a listed URL action has
   * that title.
   */
  function URLOutcome(t: Tables, bl: set<string>, d: Disk, action: string, u: string): (r: Result<Effect, string>)
    requires WellKeyed(t)
  {
    if action in t.url && action !in bl then RunOnURL(d, t.url[action], u)
    else Err("Unknown action : " + action)
  }

  /** The lookup fails exactly for titles that are unknown or blacklisted, and then nothing runs. */
  lemma URLOutcomeUnknown(t: Tables, bl: set<string>, d: Disk, action: string, u: string)
    requires WellKeyed(t)
    ensures (action !in t.url || action in bl) <==> URLOutcome(t, bl, d, action, u) == Err("Unknown action : " + action)
  {
    if action in t.url && action !in bl {
      var a := t.url[action];
      assert URLCapable(a);
      if a.URLScript? {
        var r := RunPlan(d, a.script.path, [u]);
        if r.Err? {
          assert r.error == "Don't know how to run script: " + a.script.path;
          assert ("Don't know how to run script: " + a.script.path)[..3] == "Don";
          assert ("Unknown action : " + action)[..3] == "Unk";
        }
      }
    }
  }

  /** `doURLAction`: load the scripts, then run the named URL action on the URL. */
  method DoURLAction(reg: Registry, d: Disk, dirs: seq<Walk>, action: string, u: Url) returns (r: Result<Effect, string>)
    requires reg.Valid()
    modifies reg
    ensures reg.Valid()
    ensures reg.blacklist == old(reg.blacklist) + NamesOf(SplitLines(Initialised(old(reg.blacklistFile))))
    ensures reg.Tabs() == RegisterAll(old(reg.Tabs()), ScriptActions(d, dirs, reg.blacklist))
    ensures r == URLOutcome(reg.Tabs(), reg.blacklist, d, action, u.text)
  {
    var _ := reg.LoadScripts(d, dirs);
    var a := reg.URLAction(action);
    if a.None? {
      return Err("Unknown action : " + action);
    }
    return RunOnURL(d, a.value, u.text);
  }

  // ---------------------------------------------------------------------
  // listActions

  /** An Alfred item for an action, with its workflow variables. */
  datatype ActionItem = ActionItem(title: string, arg: string, icon: Icon, copytext: string, valid: bool, vars: map<string, string>)

  /** The action type an item carries: "tab" is checked first, then "url". */
  function ActionTag(a: Action): Option<string> {
    if TabCapable(a) then Some("tab") else if URLCapable(a) then Some("url") else None
  }

  function ActionItemOf(a: Action): ActionItem {
    var vars := map["action" := "tab-action", "ALSF_ACTION" := Title(a)];
    ActionItem(Title(a), Title(a), ActionIcon(a), Title(a), true,
      match ActionTag(a)
      case Some(tag) => vars["ALSF_ACTION_TYPE" := tag]
      case None => vars)
  }

  /**
   * The tag names the table the action is registered in: an item from the
   * tab table says "tab", one from the URL table says "url", and the action
   * variable is the title it is filed under.
   */
  lemma ItemTagNamesTable(t: Tables, a: Action)
    requires WellKeyed(t)
    requires a in t.tab.Values || a in t.url.Values
    ensures var vars := ActionItemOf(a).vars;
      "ALSF_ACTION_TYPE" in vars && "ALSF_ACTION" in vars
      && (vars["ALSF_ACTION_TYPE"] == "tab" ==> vars["ALSF_ACTION"] in t.tab && t.tab[vars["ALSF_ACTION"]] == a)
      && (vars["ALSF_ACTION_TYPE"] == "url" ==> vars["ALSF_ACTION"] in t.url && t.url[vars["ALSF_ACTION"]] == a)
      && (vars["ALSF_ACTION_TYPE"] == "tab" || vars["ALSF_ACTION_TYPE"] == "url")
  {
    if a in t.tab.Values {
      var k :| k in t.tab && t.tab[k] == a;
      assert Title(a) == k;
    } else {
      var k :| k in t.url && t.url[k] == a;
      assert Title(a) == k;
    }
  }

  /** The items for a list of actions, one per action, in order. */
  function ActionItems(acts: seq<Action>): seq<ActionItem> {
    seq(|acts|, k requires 0 <= k < |acts| => ActionItemOf(acts[k]))
  }

  /** `listActions`. */
  method ListActions(acts: seq<Action>) returns (items: seq<ActionItem>)
    ensures items == ActionItems(acts)
  {
    items := [];
    for i := 0 to |acts|
      invariant |items| == i
      invariant forall j | 0 <= j < i :: items[j] == ActionItemOf(acts[j])
    {
      items := items + [ActionItemOf(acts[i])];
    }
  }

  /** `doFilterURLActions`: the items for every listed URL action. */
  method DoFilterURLActions(reg: Registry, d: Disk, dirs: seq<Walk>) returns (items: seq<ActionItem>)
    requires reg.Valid()
    modifies reg
    ensures reg.Valid()
    ensures reg.blacklist == old(reg.blacklist) + NamesOf(SplitLines(Initialised(old(reg.blacklistFile))))
    ensures reg.Tabs() == RegisterAll(old(reg.Tabs()), ScriptActions(d, dirs, reg.blacklist))
    ensures forall a :: ActionItemOf(a) in items <== a in reg.urlActions.Values && Title(a) !in reg.blacklist
    ensures forall it | it in items :: exists a | a in reg.urlActions.Values && Title(a) !in reg.blacklist :: it == ActionItemOf(a)
  {
    var _ := reg.LoadScripts(d, dirs);
    var acts := reg.URLActions();
    items := ListActions(acts);
    forall a | a in reg.urlActions.Values && Title(a) !in reg.blacklist
      ensures ActionItemOf(a) in items
    {
      var i :| 0 <= i < |acts| && acts[i] == a;
      assert items[i] == ActionItemOf(a);
    }
    forall it | it in items
      ensures exists a | a in reg.urlActions.Values && Title(a) !in reg.blacklist :: it == ActionItemOf(a)
    {
      var i :| 0 <= i < |items| && items[i] == it;
      assert acts[i] in acts;
    }
  }
}
