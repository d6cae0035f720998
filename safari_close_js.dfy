/**
 * The close script go-safari runs through the bridge
 * (vendor/.../go-safari/SafariClose.js): argument validation in `run`, and
 * `closeTabs`, which walks a window's tabs from last to first and closes
 * those its predicate selects.
 */
module SafariCloseJs {
  import opened Wrappers
  import opened Strings
  import SafariTabs

  /** JavaScript's white space and line terminators, which `parseInt` skips. */
  predicate JsIsSpace(c: char) {
    c == '\t' || c == '\n' || c == '\U{B}' || c == '\U{C}' || c == '\r' || c == ' '
    || c == '\U{A0}' || c == '\U{1680}' || ('\U{2000}' <= c <= '\U{200A}')
    || c == '\U{2028}' || c == '\U{2029}' || c == '\U{202F}' || c == '\U{205F}'
    || c == '\U{3000}' || c == '\U{FEFF}'
  }

  function JsLeadingSpaces(s: string): (n: nat)
    ensures n <= |s|
    ensures forall k | 0 <= k < n :: JsIsSpace(s[k])
    ensures n < |s| ==> !JsIsSpace(s[n])
  {
    if s == [] || !JsIsSpace(s[0]) then 0 else 1 + JsLeadingSpaces(s[1..])
  }

  predicate IsDigit(c: char) {
    '0' <= c <= '9'
  }

  /** Length of the run of decimal digits at the start of `s`. */
  function DigitRun(s: string): (n: nat)
    ensures n <= |s|
    ensures forall k | 0 <= k < n :: IsDigit(s[k])
    ensures n < |s| ==> !IsDigit(s[n])
  {
    if s == [] || !IsDigit(s[0]) then 0 else 1 + DigitRun(s[1..])
  }

  /** The number a string of decimal digits denotes. */
  function DigitsValue(s: string): nat
    requires forall k | 0 <= k < |s| :: IsDigit(s[k])
  {
    if s == [] then 0
    else
      var last := s[|s| - 1];
      assert IsDigit(last);
      10 * DigitsValue(s[..|s| - 1]) + (last as int - '0' as int)
  }

  /** The value of the run of digits at the start of `u`, if there is one. */
  function ParseDigits(u: string): Option<nat> {
    var n := DigitRun(u);
    if n == 0 then None else Some(DigitsValue(u[..n]))
  }

  /** An optional sign followed by digits. */
  function ParseSigned(t: string): Option<int> {
    if t != [] && t[0] == '-' then
      match ParseDigits(t[1..])
      case None => None
      case Some(v) => Some(-(v as int))
    else if t != [] && t[0] == '+' then
      match ParseDigits(t[1..])
      case None => None
      case Some(v) => Some(v)
    else
      match ParseDigits(t)
      case None => None
      case Some(v) => Some(v)
  }

  /**
   * JavaScript's `parseInt(s, 10)`: leading white space, an optional sign and
   * the longest run of digits; `None` stands for NaN, when there is no digit.
   */
  function ParseInt(s: string): Option<int> {
    ParseSigned(s[JsLeadingSpaces(s)..])
  }

  lemma {:induction false} DigitsValueOfNat(n: nat)
    ensures forall k | 0 <= k < |NatDigits(n)| :: IsDigit(NatDigits(n)[k])
    ensures DigitsValue(NatDigits(n)) == n
  {
    var d := NatDigits(n);
    if n >= 10 {
      DigitsValueOfNat(n / 10);
      assert d[..|d| - 1] == NatDigits(n / 10);
    }
  }

  lemma ParseDigitsAll(d: string)
    requires d != [] && forall k | 0 <= k < |d| :: IsDigit(d[k])
    ensures ParseDigits(d) == Some(DigitsValue(d))
  {
    assert DigitRun(d) == |d|;
    assert d[..|d|] == d;
  }

  lemma ParseIntOfDigits(d: string)
    requires d != [] && forall k | 0 <= k < |d| :: IsDigit(d[k])
    ensures ParseInt(d) == Some(DigitsValue(d))
  {
    assert !JsIsSpace(d[0]);
    assert d[0..] == d;
    ParseDigitsAll(d);
  }

  lemma ParseIntOfNegatedDigits(d: string)
    requires d != [] && forall k | 0 <= k < |d| :: IsDigit(d[k])
    ensures ParseInt("-" + d) == Some(-(DigitsValue(d) as int))
  {
    var s := "-" + d;
    assert s[0] == '-';
    assert JsLeadingSpaces(s) == 0;
    assert s[0..] == s;
    assert s[1..] == d;
    ParseDigitsAll(d);
    assert ParseSigned(s) == Some(-(DigitsValue(d) as int));
  }

  /** `parseInt` reads back every integer Go's `%d` writes. */
  lemma ParseIntOfDecimal(n: int)
    ensures ParseInt(Decimal(n)) == Some(n)
  {
    var m: nat := if n < 0 then -n else n;
    var d := NatDigits(m);
    DigitsValueOfNat(m);
    if n < 0 {
      ParseIntOfNegatedDigits(d);
      assert Decimal(n) == "-" + d;
    } else {
      ParseIntOfDigits(d);
      assert Decimal(n) == d;
    }
  }

  /** Which tabs of a window `closeTabs` is asked to close. */
  datatype TabSelection = One | Others | Left | Right

  /** The targets the script accepts, in `whats` order. */
  datatype Target = Win | Tabs(selection: TabSelection)

  function TargetName(t: Target): string {
    match t
    case Win => "win"
    case Tabs(One) => "tab"
    case Tabs(Others) => "tabs-other"
    case Tabs(Left) => "tabs-left"
    case Tabs(Right) => "tabs-right"
  }

  /** The membership test `whats.contains(what)`, returning the matching target. */
  function ParseTarget(s: string): (r: Option<Target>)
    ensures r.Some? ==> TargetName(r.value) == s
  {
    if s == "win" then Some(Win)
    else if s == "tab" then Some(Tabs(One))
    else if s == "tabs-other" then Some(Tabs(Others))
    else if s == "tabs-left" then Some(Tabs(Left))
    else if s == "tabs-right" then Some(Tabs(Right))
    else None
  }

  /** Every target name is accepted, and names exactly its target. */
  lemma ParseTargetName(t: Target)
    ensures ParseTarget(TargetName(t)) == Some(t)
  {
  }

  /** What `run` ends in: usage (exit 0), an error (exit 1) or one of the closing calls. */
  datatype Outcome =
    | Usage
    | Fail(message: string)
    | CloseWindow(win: int)
    | CloseTabs(selection: TabSelection, win: int, tabIdx: int)

  /**
   * `run(argv)`; `currentTab` is the index of the frontmost window's current
   * tab, read only when a tab target is given without a tab number.
   */
  function Run(argv: seq<string>, currentTab: int): (o: Outcome)
    ensures o == Usage <==> "-h" in argv || "--help" in argv
    ensures o.CloseWindow? ==> |argv| > 0 && argv[0] == "win"
    ensures o.CloseTabs? ==> |argv| > 0 && argv[0] == TargetName(Tabs(o.selection))
    ensures o.CloseWindow? || o.CloseTabs? ==>
      if |argv| > 1 then ParseInt(argv[1]) == Some(o.win) else o.win == 1
    ensures o.CloseTabs? ==>
      if |argv| > 2 then ParseInt(argv[2]) == Some(o.tabIdx) else o.tabIdx == currentTab
  {
    if "-h" in argv || "--help" in argv then Usage
    else if |argv| == 0 then Fail("Invalid target: undefined")
    else if ParseTarget(argv[0]).None? then Fail("Invalid target: " + argv[0])
    else
      var target := ParseTarget(argv[0]).value;
      var win := if |argv| > 1 then ParseInt(argv[1]) else Some(1);
      if win.None? then Fail("Invalid window number: " + argv[1])
      else if target == Win then CloseWindow(win.value)
      else
        var tab := if |argv| > 2 then ParseInt(argv[2]) else Some(currentTab);
        if tab.None? then Fail("Invalid tab number for window " + Decimal(win.value) + ": " + argv[2])
        else CloseTabs(target.selection, win.value, tab.value)
  }

  /** An argument vector with a valid target and numbers and no help flag is obeyed. */
  lemma RunAccepts(argv: seq<string>, t: Target, w: int, tab: int, currentTab: int)
    requires 2 <= |argv| <= 3
    requires argv[0] == TargetName(t) && ParseInt(argv[1]) == Some(w)
    requires |argv| == 3 ==> ParseInt(argv[2]) == Some(tab)
    requires "-h" !in argv && "--help" !in argv
    ensures Run(argv, currentTab) ==
      match t
      case Win => CloseWindow(w)
      case Tabs(sel) => CloseTabs(sel, w, if |argv| == 3 then tab else currentTab)
  {
    ParseTargetName(t);
  }

  /**
   * What go-safari's `closeStuff` asks for is what the script does: window 0
   * becomes window 1, and a missing tab number means the current tab.
   */
  lemma CloseStuffRoundTrip(t: Target, win: int, tab: int, currentTab: int)
    ensures var c := SafariTabs.CloseStuff(TargetName(t), win, tab);
      var w := if win == 0 then 1 else win;
      Run(c.argv, currentTab) ==
        match t
        case Win => CloseWindow(w)
        case Tabs(sel) => CloseTabs(sel, w, if tab > 0 then tab else currentTab)
  {
    var c := SafariTabs.CloseStuff(TargetName(t), win, tab);
    var w := if win == 0 then 1 else win;
    ParseIntOfDecimal(w);
    if tab > 0 {
      ParseIntOfDecimal(tab);
    }
    NoFlagInCloseArgs(t, win, tab);
    RunAccepts(c.argv, t, w, tab, currentTab);
  }

  /** The arguments `closeStuff` passes never ask for help. */
  lemma NoFlagInCloseArgs(t: Target, win: int, tab: int)
    ensures var c := SafariTabs.CloseStuff(TargetName(t), win, tab);
      "-h" !in c.argv && "--help" !in c.argv
  {
    var c := SafariTabs.CloseStuff(TargetName(t), win, tab);
    var w := if win == 0 then 1 else win;
    assert TargetName(t) != "-h" && TargetName(t) != "--help";
    forall k | 1 <= k < |c.argv|
      ensures c.argv[k] != "-h" && c.argv[k] != "--help"
    {
      assert c.argv[k] == Decimal(w) || c.argv[k] == Decimal(tab);
      DecimalIsNotFlag(w);
      DecimalIsNotFlag(tab);
    }
  }

  /** `CloseWin` makes the script close the window (0 meaning window 1). */
  lemma CloseWinOutcome(win: int, currentTab: int)
    ensures Run(SafariTabs.CloseWin(win).argv, currentTab) == CloseWindow(if win == 0 then 1 else win)
  {
    assert SafariTabs.CloseWin(win) == SafariTabs.CloseStuff(TargetName(Win), win, 0);
    CloseStuffRoundTrip(Win, win, 0, currentTab);
  }

  /** `Close` makes the script close the tab (0 meaning the current tab). */
  lemma CloseOutcome(win: int, tab: int, currentTab: int)
    ensures Run(SafariTabs.Close(win, tab).argv, currentTab) == CloseTabs(One, if win == 0 then 1 else win, if tab > 0 then tab else currentTab)
  {
    assert SafariTabs.Close(win, tab) == SafariTabs.CloseStuff(TargetName(Tabs(One)), win, tab);
    CloseStuffRoundTrip(Tabs(One), win, tab, currentTab);
  }

  /** `CloseTab` makes the script close the tab, as `Close` does. */
  lemma CloseTabOutcome(win: int, tab: int, currentTab: int)
    ensures Run(SafariTabs.CloseTab(win, tab).argv, currentTab) == CloseTabs(One, if win == 0 then 1 else win, if tab > 0 then tab else currentTab)
  {
    assert SafariTabs.CloseTab(win, tab) == SafariTabs.CloseStuff(TargetName(Tabs(One)), win, tab);
    CloseStuffRoundTrip(Tabs(One), win, tab, currentTab);
  }

  /** `CloseTabsOther` makes the script close every other tab of the window. */
  lemma CloseTabsOtherOutcome(win: int, tab: int, currentTab: int)
    ensures Run(SafariTabs.CloseTabsOther(win, tab).argv, currentTab) == CloseTabs(Others, if win == 0 then 1 else win, if tab > 0 then tab else currentTab)
  {
    assert SafariTabs.CloseTabsOther(win, tab) == SafariTabs.CloseStuff(TargetName(Tabs(Others)), win, tab);
    CloseStuffRoundTrip(Tabs(Others), win, tab, currentTab);
  }

  /** `CloseTabsLeft` makes the script close the tabs to the left of the tab. */
  lemma CloseTabsLeftOutcome(win: int, tab: int, currentTab: int)
    ensures Run(SafariTabs.CloseTabsLeft(win, tab).argv, currentTab) == CloseTabs(Left, if win == 0 then 1 else win, if tab > 0 then tab else currentTab)
  {
    assert SafariTabs.CloseTabsLeft(win, tab) == SafariTabs.CloseStuff(TargetName(Tabs(Left)), win, tab);
    CloseStuffRoundTrip(Tabs(Left), win, tab, currentTab);
  }

  /** `CloseTabsRight` makes the script close the tabs to the right of the tab. */
  lemma CloseTabsRightOutcome(win: int, tab: int, currentTab: int)
    ensures Run(SafariTabs.CloseTabsRight(win, tab).argv, currentTab) == CloseTabs(Right, if win == 0 then 1 else win, if tab > 0 then tab else currentTab)
  {
    assert SafariTabs.CloseTabsRight(win, tab) == SafariTabs.CloseStuff(TargetName(Tabs(Right)), win, tab);
    CloseStuffRoundTrip(Tabs(Right), win, tab, currentTab);
  }

  lemma DecimalIsNotFlag(n: int)
    ensures Decimal(n) != "-h" && Decimal(n) != "--help"
  {
    var s := Decimal(n);
    assert "-h"[1] == 'h' && "--help"[1] == '-';
    if n < 0 {
      assert s[1] == NatDigits(-n)[0];
    } else {
      assert s[0] == NatDigits(n)[0];
    }
  }

  /** The predicate `run` hands to `closeTabs` for tab `i`: true means close it. */
  predicate Closes(sel: TabSelection, i: int, tabIdx: int) {
    match sel
    case One => i == tabIdx
    case Others => i != tabIdx
    case Left => i < tabIdx
    case Right => i > tabIdx
  }

  /** The tabs of `s` left open, where `s[k]` is tab number `start + k`. */
  function Kept<T>(s: seq<T>, sel: TabSelection, tabIdx: int, start: int): (r: seq<T>)
    ensures |r| <= |s|
  {
    if s == [] then []
    else (if Closes(sel, start, tabIdx) then [] else [s[0]]) + Kept(s[1..], sel, tabIdx, start + 1)
  }

  /** `Kept` from position `i` decides tab `i + 1` and goes on with the rest. */
  lemma KeptStep<T>(s: seq<T>, i: int, sel: TabSelection, tabIdx: int)
    requires 0 <= i < |s|
    ensures Kept(s[i..], sel, tabIdx, i + 1)
      == (if Closes(sel, i + 1, tabIdx) then [] else [s[i]]) + Kept(s[i + 1..], sel, tabIdx, i + 2)
  {
    assert s[i..][1..] == s[i + 1..];
  }

  lemma SplitAt<T>(s: seq<T>, i: int)
    requires 0 <= i < |s|
    ensures s[..i + 1] == s[..i] + [s[i]]
  {
  }

  /**
   * In `a + [x] + b`, removing the element at position `|a|` leaves `a + b`,
   * and keeping it leaves `a + ([x] + b)`.
   */
  lemma RemoveAt<T>(a: seq<T>, x: T, b: seq<T>)
    ensures var s := a + [x] + b; s[..|a|] + s[|a| + 1..] == a + b && s == a + ([x] + b)
  {
    var s := a + [x] + b;
    assert s[..|a|] == a;
    assert s[|a| + 1..] == b;
  }

  /** One step of the backward loop of `closeTabs`: tab `i + 1` is closed or kept. */
  lemma CloseStep<T>(orig: seq<T>, tabs: seq<T>, i: int, sel: TabSelection, tabIdx: int)
    requires 0 <= i < |orig|
    requires tabs == orig[..i + 1] + Kept(orig[i + 1..], sel, tabIdx, i + 2)
    ensures i < |tabs|
    ensures (if Closes(sel, i + 1, tabIdx) then tabs[..i] + tabs[i + 1..] else tabs)
      == orig[..i] + Kept(orig[i..], sel, tabIdx, i + 1)
  {
    var rest := Kept(orig[i + 1..], sel, tabIdx, i + 2);
    KeptStep(orig, i, sel, tabIdx);
    SplitAt(orig, i);
    RemoveAt(orig[..i], orig[i], rest);
  }

  function Clamp(x: int, n: nat): (r: nat)
    ensures r <= n
  {
    if x < 0 then 0 else if x > n then n else x
  }

  /** "tabs-left" keeps the selected tab and everything to its right. */
  lemma {:induction false} KeptLeft<T>(s: seq<T>, tabIdx: int, start: int)
    ensures Kept(s, Left, tabIdx, start) == s[Clamp(tabIdx - start, |s|)..]
  {
    if s != [] {
      KeptLeft(s[1..], tabIdx, start + 1);
      if start >= tabIdx {
        assert s == [s[0]] + s[1..];
      }
    }
  }

  /** "tabs-right" keeps the selected tab and everything to its left. */
  lemma {:induction false} KeptRight<T>(s: seq<T>, tabIdx: int, start: int)
    ensures Kept(s, Right, tabIdx, start) == s[..Clamp(tabIdx - start + 1, |s|)]
  {
    if s != [] {
      KeptRight(s[1..], tabIdx, start + 1);
      if start <= tabIdx {
        assert s[..Clamp(tabIdx - start + 1, |s|)] == [s[0]] + s[1..][..Clamp(tabIdx - start, |s| - 1)];
      }
    }
  }

  /** "tab" removes exactly the selected tab, if the window has it. */
  lemma {:induction false} KeptOne<T>(s: seq<T>, tabIdx: int, start: int)
    ensures start <= tabIdx < start + |s| ==>
      Kept(s, One, tabIdx, start) == s[..tabIdx - start] + s[tabIdx - start + 1..]
    ensures !(start <= tabIdx < start + |s|) ==> Kept(s, One, tabIdx, start) == s
  {
    if s != [] {
      KeptOne(s[1..], tabIdx, start + 1);
      if start == tabIdx {
        assert s[..0] + s[1..] == s[1..];
      } else if start < tabIdx < start + |s| {
        assert s[..tabIdx - start] == [s[0]] + s[1..][..tabIdx - start - 1];
      } else {
        assert s == [s[0]] + s[1..];
      }
    }
  }

  /** "tabs-other" keeps exactly the selected tab, if the window has it. */
  lemma {:induction false} KeptOthers<T>(s: seq<T>, tabIdx: int, start: int)
    ensures start <= tabIdx < start + |s| ==> Kept(s, Others, tabIdx, start) == [s[tabIdx - start]]
    ensures !(start <= tabIdx < start + |s|) ==> Kept(s, Others, tabIdx, start) == []
  {
    if s != [] {
      KeptOthers(s[1..], tabIdx, start + 1);
    }
  }

  /** A window's tab collection, from which `tab.close()` removes tabs. */
  class TabStrip<T> {
    var tabs: seq<T>

    constructor (tabs: seq<T>)
      ensures this.tabs == tabs
    {
      this.tabs := tabs;
    }

    /**
     * `closeTabs(winIdx, tabFunc)`: walks the tabs from last to first so that
     * every predicate sees the tab's original 1-based index.
     */
    method CloseTabs(sel: TabSelection, tabIdx: int)
      modifies this
      ensures tabs == Kept(old(tabs), sel, tabIdx, 1)
    {
      ghost var orig := tabs;
      var i := |tabs| - 1;
      while i > -1
        invariant -1 <= i < |orig|
        invariant tabs == orig[..i + 1] + Kept(orig[i + 1..], sel, tabIdx, i + 2)
      {
        CloseStep(orig, tabs, i, sel, tabIdx);
        if Closes(sel, i + 1, tabIdx) {
          tabs := tabs[..i] + tabs[i + 1..];
        }
        i := i - 1;
      }
      assert orig[0..] == orig;
    }
  }
}
