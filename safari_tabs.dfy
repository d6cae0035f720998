/**
 * go-safari's tab and window records and the argument vectors its bridge
 * functions hand to `/usr/bin/osascript` (vendor/.../go-safari/tabs.go).
 * Running the bridge is not modelled: each call is the `JxaCall` it would make.
 */
module SafariTabs {
  import opened Wrappers
  import opened Strings

  /** A Safari tab as go-safari reports it. */
  datatype Tab = Tab(index: int, windowIndex: int, title: string, url: string, active: bool)

  /** A Safari window and its tabs. */
  datatype Window = Window(index: int, activeTab: int, tabs: seq<Tab>)

  /** The JavaScript for Automation programs go-safari embeds; their text is not modelled. */
  datatype BridgeScript = JsActivate | JsClose | JsRunJavaScript | JsGetTabs | JsGetCurrentTab

  /** A call of `runJXA(script, argv...)`. */
  datatype JxaCall = JxaCall(script: BridgeScript, argv: seq<string>)

  /** A process to start: program and arguments. */
  datatype Invocation = Invocation(program: string, args: seq<string>)

  const Osascript := "/usr/bin/osascript"

  /** The process `runJXA` starts for a script whose source text is `source`. */
  function RunJxa(source: string, argv: seq<string>): (inv: Invocation)
    ensures inv.program == Osascript
    ensures |inv.args| == 4 + |argv| && inv.args[4..] == argv
    ensures inv.args[..4] == ["-l", "JavaScript", "-e", source]
  {
    Invocation(Osascript, ["-l", "JavaScript", "-e", source] + argv)
  }

  /** `Activate(win, tab)`: the window, and the tab only when it is positive. */
  function Activate(win: int, tab: int): (c: JxaCall)
    ensures c.script == JsActivate
    ensures |c.argv| == (if tab > 0 then 2 else 1)
    ensures c.argv[0] == Decimal(win)
    ensures tab > 0 ==> c.argv[1] == Decimal(tab)
  {
    JxaCall(JsActivate, [Decimal(win)] + (if tab > 0 then [Decimal(tab)] else []))
  }

  function ActivateTab(win: int, tab: int): JxaCall {
    Activate(win, tab)
  }

  /** `ActivateWin` passes only the window. */
  function ActivateWin(win: int): (c: JxaCall)
    ensures c == JxaCall(JsActivate, [Decimal(win)])
  {
    Activate(win, 0)
  }

  /**
   * `closeStuff(what, win, tab)`: window 0 means the frontmost window (1);
   * the tab is passed only when it is positive.
   */
  function CloseStuff(what: string, win: int, tab: int): (c: JxaCall)
    ensures c.script == JsClose
    ensures |c.argv| == (if tab > 0 then 3 else 2)
    ensures c.argv[0] == what
    ensures c.argv[1] == Decimal(if win == 0 then 1 else win)
    ensures tab > 0 ==> c.argv[2] == Decimal(tab)
  {
    var w := if win == 0 then 1 else win;
    JxaCall(JsClose, [what, Decimal(w)] + (if tab > 0 then [Decimal(tab)] else []))
  }

  function Close(win: int, tab: int): JxaCall {
    CloseStuff("tab", win, tab)
  }

  /** `CloseWin` never passes a tab. */
  function CloseWin(win: int): (c: JxaCall)
    ensures c.script == JsClose && c.argv == ["win", Decimal(if win == 0 then 1 else win)]
  {
    CloseStuff("win", win, 0)
  }

  function CloseTab(win: int, tab: int): JxaCall {
    CloseStuff("tab", win, tab)
  }

  function CloseTabsOther(win: int, tab: int): JxaCall {
    CloseStuff("tabs-other", win, tab)
  }

  function CloseTabsLeft(win: int, tab: int): JxaCall {
    CloseStuff("tabs-left", win, tab)
  }

  function CloseTabsRight(win: int, tab: int): JxaCall {
    CloseStuff("tabs-right", win, tab)
  }

  /** `Tab.Activate`: no bridge call at all for the tab that is already active. */
  function TabActivate(t: Tab): (c: Option<JxaCall>)
    ensures c.None? <==> t.active
    ensures c.Some? ==> c.value == Activate(t.windowIndex, t.index)
  {
    if t.active then None else Some(Activate(t.windowIndex, t.index))
  }

  /** `Tab.RunJS`: window index, tab index, then the JavaScript. */
  function TabRunJS(t: Tab, js: string): (c: JxaCall)
    ensures c.script == JsRunJavaScript
    ensures c.argv == [Decimal(t.windowIndex), Decimal(t.index), js]
  {
    JxaCall(JsRunJavaScript, [Decimal(t.windowIndex), Decimal(t.index), js])
  }
}
