/**
 * The tab-listing script go-safari runs through the bridge
 * (vendor/.../go-safari/SafariTabs.js): `getWindows` numbers windows and
 * tabs from 1 by position and skips windows whose current tab cannot be read.
 */
module SafariTabsJs {
  import opened Wrappers
  import opened SafariTabs

  /** A tab as the scripting bridge shows it. */
  datatype RawTab = RawTab(name: string, url: string)

  /**
   * A window as the scripting bridge shows it; `currentTab` is `None` when
   * reading it raises, as it does for windows that are not browser windows.
   */
  datatype RawWindow = RawWindow(currentTab: Option<int>, tabs: seq<RawTab>)

  /** The tab records of a window numbered `winIdx` whose current tab is `activeTab`. */
  function TabRecords(ts: seq<RawTab>, winIdx: int, activeTab: int): (r: seq<Tab>)
    ensures |r| == |ts|
  {
    if ts == [] then []
    else
      var n := |ts|;
      TabRecords(ts[..n - 1], winIdx, activeTab) + [Tab(n, winIdx, ts[n - 1].name, ts[n - 1].url, n == activeTab)]
  }

  /** The record of a readable window at 1-based position `index`. */
  function WindowRecord(w: RawWindow, index: int): Window
    requires w.currentTab.Some?
  {
    Window(index, w.currentTab.value, TabRecords(w.tabs, index, w.currentTab.value))
  }

  /** The records of all readable windows, in order. */
  function WindowRecords(ws: seq<RawWindow>): seq<Window> {
    if ws == [] then []
    else
      var n := |ws|;
      WindowRecords(ws[..n - 1]) + (if ws[n - 1].currentTab.None? then [] else [WindowRecord(ws[n - 1], n)])
  }

  /** `getWindows()`. */
  method GetWindows(wins: seq<RawWindow>) returns (results: seq<Window>)
    ensures results == WindowRecords(wins)
  {
    results := [];
    var i := 0;
    while i < |wins|
      invariant 0 <= i <= |wins|
      invariant results == WindowRecords(wins[..i])
    {
      assert wins[..i + 1][..i] == wins[..i];
      var w := wins[i];
      if w.currentTab.None? {
        i := i + 1;
        continue;
      }
      var activeTab := w.currentTab.value;
      var tabs: seq<Tab> := [];
      var j := 0;
      while j < |w.tabs|
        invariant 0 <= j <= |w.tabs|
        invariant tabs == TabRecords(w.tabs[..j], i + 1, activeTab)
      {
        assert w.tabs[..j + 1][..j] == w.tabs[..j];
        var t := w.tabs[j];
        tabs := tabs + [Tab(j + 1, i + 1, t.name, t.url, j + 1 == activeTab)];
        j := j + 1;
      }
      assert w.tabs[..j] == w.tabs;
      results := results + [Window(i + 1, activeTab, tabs)];
      i := i + 1;
    }
    assert wins[..i] == wins;
  }

  /** Tab `j` (from 0) is numbered `j + 1`, belongs to `winIdx`, and is active iff it is the current tab. */
  lemma {:induction false} TabRecordsAt(ts: seq<RawTab>, winIdx: int, activeTab: int)
    ensures forall j | 0 <= j < |ts| ::
      TabRecords(ts, winIdx, activeTab)[j] == Tab(j + 1, winIdx, ts[j].name, ts[j].url, j + 1 == activeTab)
  {
    if ts != [] {
      TabRecordsAt(ts[..|ts| - 1], winIdx, activeTab);
    }
  }

  /** At most one tab of a window is active. */
  lemma AtMostOneActive(ts: seq<RawTab>, winIdx: int, activeTab: int)
    ensures forall j, k | 0 <= j < k < |ts| ::
      !(TabRecords(ts, winIdx, activeTab)[j].active && TabRecords(ts, winIdx, activeTab)[k].active)
  {
    TabRecordsAt(ts, winIdx, activeTab);
  }

  /** `w` is the record of the readable window at position `w.index - 1` of `ws`. */
  predicate RecordOf(ws: seq<RawWindow>, w: Window) {
    1 <= w.index <= |ws| && ws[w.index - 1].currentTab.Some? && w == WindowRecord(ws[w.index - 1], w.index)
  }

  /** Every record is the readable window at position `index - 1`. */
  lemma {:induction false} WindowRecordsSound(ws: seq<RawWindow>)
    ensures forall k | 0 <= k < |WindowRecords(ws)| :: RecordOf(ws, WindowRecords(ws)[k])
  {
    if ws != [] {
      var n := |ws|;
      var init := ws[..n - 1];
      WindowRecordsSound(init);
      var r := WindowRecords(ws);
      var r0 := WindowRecords(init);
      forall k | 0 <= k < |r|
        ensures RecordOf(ws, r[k])
      {
        if k < |r0| {
          assert r[k] == r0[k];
          assert RecordOf(init, r0[k]);
          assert init[r0[k].index - 1] == ws[r0[k].index - 1];
        }
      }
    }
  }

  /** Records come in strictly increasing index order. */
  lemma {:induction false} WindowRecordsOrdered(ws: seq<RawWindow>)
    ensures forall a, b | 0 <= a < b < |WindowRecords(ws)| ::
      WindowRecords(ws)[a].index < WindowRecords(ws)[b].index
  {
    if ws != [] {
      var n := |ws|;
      var init := ws[..n - 1];
      WindowRecordsOrdered(init);
      WindowRecordsSound(init);
      var r0 := WindowRecords(init);
      assert forall k | 0 <= k < |r0| :: RecordOf(init, r0[k]) && r0[k].index <= n - 1;
    }
  }

  /** No readable window is missing: skipping one does not renumber the windows after it. */
  lemma {:induction false} WindowRecordsComplete(ws: seq<RawWindow>)
    ensures forall i | 0 <= i < |ws| && ws[i].currentTab.Some? :: WindowRecord(ws[i], i + 1) in WindowRecords(ws)
  {
    if ws != [] {
      var n := |ws|;
      var init := ws[..n - 1];
      WindowRecordsComplete(init);
      var r := WindowRecords(ws);
      var r0 := WindowRecords(init);
      forall i | 0 <= i < n && ws[i].currentTab.Some?
        ensures WindowRecord(ws[i], i + 1) in r
      {
        if i < n - 1 {
          assert init[i] == ws[i];
          assert WindowRecord(init[i], i + 1) in r0;
        } else {
          assert r[|r| - 1] == WindowRecord(ws[n - 1], n);
        }
      }
    }
  }
}
