/**
 * How the other bridge scripts read the arguments go-safari and the tab
 * actions pass them: `run(argv)` in SafariRunJS.js and SafariActivate.js,
 * and in the bundled tab scripts such as "Copy URL.js". Each reads the
 * window and the tab with `parseInt(argv[k], 10)`; `None` stands for NaN.
 */
module BridgeArgs {
  import opened Wrappers
  import opened SafariCloseJs
  import SafariTabs
  import Actions

  /** What SafariRunJS.js goes on to do: run `js` in tab `tab` of window `win`. */
  datatype RunJSRequest = RunJSRequest(win: int, tab: int, js: string)

  /** A window and a tab as a script reads them; tab 0 means the current tab. */
  datatype TabRef = TabRef(win: int, tab: int)

  /** A window and a tab as a tab script's `run` reads them; `None` is NaN. */
  datatype ScriptTarget = ScriptTarget(win: Option<int>, tab: Option<int>)

  /**
   * SafariRunJS.js `run`: exactly three arguments, else the usage message;
   * a window or tab that is not a number is an error.
   */
  function RunJSArgs(argv: seq<string>): (r: Result<RunJSRequest, string>)
    ensures r.Ok? <==> |argv| == 3 && ParseInt(argv[0]).Some? && ParseInt(argv[1]).Some?
    ensures |argv| != 3 ==> r == Err("Usage: SafariRunJS.js <win> <tab> <script>")
  {
    if |argv| != 3 then Err("Usage: SafariRunJS.js <win> <tab> <script>")
    else
      var w, t := ParseInt(argv[0]), ParseInt(argv[1]);
      if w.None? then Err("Invalid window: NaN")
      else if t.None? then Err("Invalid tab: NaN")
      else Ok(RunJSRequest(w.value, t.value, argv[2]))
  }

  /**
   * SafariActivate.js `run`: the window is the first argument (a missing one
   * reads as NaN), the tab the second when there is one and 0 otherwise.
   */
  function ActivateArgs(argv: seq<string>): (r: Result<TabRef, string>)
    ensures |argv| == 0 ==> r == Err("Invalid window: NaN")
    ensures |argv| == 1 && r.Ok? ==> r.value.tab == 0
  {
    var w := if |argv| > 0 then ParseInt(argv[0]) else None;
    var t := if |argv| > 1 then ParseInt(argv[1]) else Some(0);
    if w.None? then Err("Invalid window: NaN")
    else if t.None? then Err("Invalid tab: NaN")
    else Ok(TabRef(w.value, t.value))
  }

  /** "Copy URL.js" `run`: the first two arguments, as read before `getTab` rejects a NaN. */
  function TabScriptArgs(argv: seq<string>): (r: ScriptTarget)
    ensures |argv| < 2 ==> r.tab.None?
  {
    ScriptTarget(if |argv| > 0 then ParseInt(argv[0]) else None, if |argv| > 1 then ParseInt(argv[1]) else None)
  }

  /** `Tab.RunJS` makes SafariRunJS.js run the JavaScript in exactly that tab. */
  lemma TabRunJSRoundTrip(t: SafariTabs.Tab, js: string)
    ensures RunJSArgs(SafariTabs.TabRunJS(t, js).argv) == Ok(RunJSRequest(t.windowIndex, t.index, js))
  {
    ParseIntOfDecimal(t.windowIndex);
    ParseIntOfDecimal(t.index);
  }

  /** `Activate(win, tab)` makes SafariActivate.js activate that window, and that tab when it is positive. */
  lemma ActivateRoundTrip(win: int, tab: int)
    ensures ActivateArgs(SafariTabs.Activate(win, tab).argv) == Ok(TabRef(win, if tab > 0 then tab else 0))
  {
    ParseIntOfDecimal(win);
    if tab > 0 {
      ParseIntOfDecimal(tab);
    }
  }

  /** A tab script reads back the window and tab numbers `tabRunner.Run` passes it. */
  lemma TabArgsRoundTrip(t: SafariTabs.Tab)
    ensures TabScriptArgs(Actions.TabArgs(t)) == ScriptTarget(Some(t.windowIndex), Some(t.index))
  {
    ParseIntOfDecimal(t.windowIndex);
    ParseIntOfDecimal(t.index);
  }
}
