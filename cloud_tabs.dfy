/**
 * go-safari's iCloud tabs (vendor/.../go-safari/cloud/tabs.go): turning the
 * rows of the CloudTabs database into tabs and ordering them by device name
 * and sort index with `sort.Sort` over `ByDeviceIndex`.
 */
module CloudTabs {
  import opened Wrappers
  import Strings
  import HistoryDb

  /** An entry of the `sortValues` list in a tab's position blob. */
  datatype SortData = SortData(changeId: int, sortValue: int, device: string)

  /**
   * A row of the query result; `position` is the outcome of decoding the
   * position blob (zlib and JSON, which are not modelled).
   */
  datatype Row = Row(title: string, url: string, position: Result<seq<SortData>, string>, device: string)

  /** A cloud tab. */
  datatype CloudTab = CloudTab(title: string, url: string, device: string, sortIndex: int)

  // The query's text, written in pieces short enough for the verifier to inspect.
  const TabsSelect := "\n\t\tSELECT t.title, t.url,"
  const TabsColumns := " t.position, d.device_name"
  const TabsFrom := "\n\t\t\tFROM cloud_tabs t"
  const TabsJoin := "\n\t\t\t\tLEFT JOIN cloud_tab_devices d"
  const TabsOn := "\n\t\t\t\t\tON t.device_uuid"
  const TabsOnDevice := " = d.device_uuid"
  const TabsWhere := "\n\t\tWHERE d.device_name != "

  /** The query up to its placeholder. */
  const TabsHead := TabsSelect + TabsColumns + TabsFrom + TabsJoin + TabsOn + TabsOnDevice + TabsWhere
  const TabsQuery := TabsHead + "?" + "\n\t\t"

  /** The statement `Tabs` runs: its query with the host name bound to the placeholder. */
  function TabsStatement(hostname: string): HistoryDb.Query {
    HistoryDb.Query(TabsQuery, [HistoryDb.Text(hostname)])
  }

  // Solver aids: each piece of the query is checked on its own; they model
  // nothing by themselves, and `TabsPlaceholders` puts them together.
  lemma TabsSelectHasNoPlaceholder()
    ensures '?' !in TabsSelect && '?' !in TabsColumns && '?' !in TabsFrom
  {}

  lemma TabsJoinHasNoPlaceholder()
    ensures '?' !in TabsJoin && '?' !in TabsOn
  {}

  lemma TabsWhereHasNoPlaceholder()
    ensures '?' !in TabsOnDevice && '?' !in TabsWhere
  {}

  /** The query has one placeholder, and the host name is bound to it. */
  lemma TabsPlaceholders(hostname: string)
    ensures TabsStatement(hostname).args == [HistoryDb.Text(hostname)]
    ensures Strings.CountChar(TabsStatement(hostname).sql, '?') == |TabsStatement(hostname).args| == 1
  {
    TabsSelectHasNoPlaceholder();
    TabsJoinHasNoPlaceholder();
    TabsWhereHasNoPlaceholder();
    assert '?' !in TabsHead;
    Strings.CountCharAbsent(TabsHead, '?');
    assert '?' !in "\n\t\t";
    Strings.CountCharAbsent("\n\t\t", '?');
    Strings.CountCharAppend(TabsHead, "?", '?');
    Strings.CountCharAppend(TabsHead + "?", "\n\t\t", '?');
  }

  /**
   * What the statement's `WHERE d.device_name != ?` selects from the joined
   * tables: the rows of every device but the bound host, in their order.
   */
  function OtherDevices(joined: seq<Row>, hostname: string): (r: seq<Row>)
    ensures forall row | row in r :: row in joined && row.device != hostname
    ensures forall row | row in joined && row.device != hostname :: row in r
  {
    if joined == [] then []
    else (if joined[0].device != hostname then [joined[0]] else []) + OtherDevices(joined[1..], hostname)
  }

  /** Go's `<` on strings: lexicographic by byte, which for UTF-8 is by code point. */
  predicate StrLess(a: string, b: string) {
    if a == [] then b != []
    else b != [] && (a[0] < b[0] || (a[0] == b[0] && StrLess(a[1..], b[1..])))
  }

  lemma {:induction false} StrLessIrreflexive(a: string)
    ensures !StrLess(a, a)
  {
    if a != [] {
      StrLessIrreflexive(a[1..]);
    }
  }

  lemma {:induction false} StrLessAsymmetric(a: string, b: string)
    ensures StrLess(a, b) ==> !StrLess(b, a)
  {
    if a != [] && b != [] {
      StrLessAsymmetric(a[1..], b[1..]);
    }
  }

  lemma {:induction false} StrLessTransitive(a: string, b: string, c: string)
    ensures StrLess(a, b) && StrLess(b, c) ==> StrLess(a, c)
  {
    if a != [] && b != [] && c != [] {
      StrLessTransitive(a[1..], b[1..], c[1..]);
    }
  }

  /** Two different strings are ordered one way or the other. */
  lemma {:induction false} StrLessTotal(a: string, b: string)
    ensures a == b || StrLess(a, b) || StrLess(b, a)
  {
    if a != [] && b != [] && a[0] == b[0] {
      StrLessTotal(a[1..], b[1..]);
      if a[1..] == b[1..] {
        assert a == [a[0]] + a[1..] && b == [b[0]] + b[1..];
      }
    }
  }

  /** `ByDeviceIndex.Less`. */
  predicate Less(x: CloudTab, y: CloudTab) {
    if StrLess(x.device, y.device) then true
    else if StrLess(y.device, x.device) then false
    else x.sortIndex < y.sortIndex
  }

  /** `Less` orders by device first and, on equal devices, by sort index. */
  lemma LessIsLexicographic(x: CloudTab, y: CloudTab)
    ensures Less(x, y) <==> StrLess(x.device, y.device) || (x.device == y.device && x.sortIndex < y.sortIndex)
  {
    StrLessIrreflexive(x.device);
    StrLessTotal(x.device, y.device);
  }

  /** `Less` is a strict weak order: irreflexive, transitive, and its negation is transitive. */
  lemma LessIsStrictWeakOrder(x: CloudTab, y: CloudTab, z: CloudTab)
    ensures !Less(x, x)
    ensures Less(x, y) ==> !Less(y, x)
    ensures Less(x, y) && Less(y, z) ==> Less(x, z)
    ensures !Less(y, x) && !Less(z, y) ==> !Less(z, x)
  {
    StrLessIrreflexive(x.device);
    LessIsLexicographic(x, x);
    LessIsLexicographic(x, y);
    LessIsLexicographic(y, x);
    LessIsLexicographic(y, z);
    LessIsLexicographic(z, y);
    LessIsLexicographic(x, z);
    LessIsLexicographic(z, x);
    StrLessAsymmetric(x.device, y.device);
    StrLessTransitive(x.device, y.device, z.device);
    StrLessTransitive(z.device, y.device, x.device);
    StrLessTransitive(y.device, z.device, x.device);
    StrLessTransitive(z.device, x.device, y.device);
    StrLessTransitive(x.device, z.device, y.device);
    StrLessTransitive(y.device, x.device, z.device);
    StrLessTotal(x.device, y.device);
    StrLessTotal(y.device, z.device);
    StrLessTotal(x.device, z.device);
  }

  /** No tab is ordered before one that precedes it. */
  ghost predicate Sorted(s: seq<CloudTab>) {
    forall p, q | 0 <= p < q < |s| :: !Less(s[q], s[p])
  }

  /** `ByDeviceIndex.Swap`. */
  method Swap(a: array<CloudTab>, i: int, j: int)
    requires 0 <= i < a.Length && 0 <= j < a.Length
    modifies a
    ensures a[..] == old(a[..])[i := old(a[j])][j := old(a[i])]
    ensures multiset(a[..]) == multiset(old(a[..]))
  {
    a[i], a[j] := a[j], a[i];
  }

  /** Moves `a[i]` down into the sorted prefix `a[..i]` by swapping it with larger neighbours. */
  method Insert(a: array<CloudTab>, i: int)
    requires 0 <= i < a.Length && Sorted(a[..i])
    modifies a
    ensures Sorted(a[..i + 1]) && a[i + 1..] == old(a[i + 1..])
    ensures multiset(a[..]) == multiset(old(a[..]))
  {
    var j := i;
    while j > 0 && Less(a[j], a[j - 1])
      invariant 0 <= j <= i
      invariant forall p, q | 0 <= p < q <= i && p != j && q != j :: !Less(a[q], a[p])
      invariant forall q | j < q <= i :: Less(a[j], a[q])
      invariant a[i + 1..] == old(a[i + 1..])
      invariant multiset(a[..]) == multiset(old(a[..]))
    {
      ghost var x, y := a[j], a[j - 1];
      Swap(a, j, j - 1);
      forall p | 0 <= p < j - 1
        ensures !Less(a[j], a[p])
      {
      }
      forall q | j < q <= i
        ensures Less(x, a[q])
      {
      }
      j := j - 1;
    }
    forall p, q | 0 <= p < q <= i
      ensures !Less(a[q], a[p])
    {
      if q == j {
        if p < j - 1 {
          LessIsStrictWeakOrder(a[p], a[j - 1], a[j]);
        }
      } else if p == j {
        LessIsStrictWeakOrder(a[j], a[q], a[j]);
      } else if p < j < q {
        LessIsStrictWeakOrder(a[p], a[j - 1], a[j]);
        LessIsStrictWeakOrder(a[j - 1], a[j], a[q]);
        LessIsStrictWeakOrder(a[p], a[j - 1], a[q]);
        LessIsStrictWeakOrder(a[q], a[j - 1], a[p]);
      }
    }
  }

  /** `sort.Sort(ByDeviceIndex(tabs))`, as an insertion sort built from `Less` and `Swap`. */
  method SortByDeviceIndex(a: array<CloudTab>)
    modifies a
    ensures Sorted(a[..])
    ensures multiset(a[..]) == multiset(old(a[..]))
  {
    var i := 0;
    while i < a.Length
      invariant 0 <= i <= a.Length
      invariant Sorted(a[..i])
      invariant multiset(a[..]) == multiset(old(a[..]))
    {
      Insert(a, i);
      i := i + 1;
    }
    assert a[..i] == a[..];
  }

  /** The tab a row becomes: its sort index is the first sort value, or 0 when there is none. */
  function TabOfRow(r: Row, position: seq<SortData>): (t: CloudTab)
    ensures t.title == r.title && t.url == r.url && t.device == r.device
    ensures t.sortIndex == (if position == [] then 0 else position[0].sortValue)
  {
    CloudTab(r.title, r.url, r.device, if |position| > 0 then position[0].sortValue else 0)
  }

  /** The tabs of rows whose positions all decoded, in row order, or the first decoding error. */
  function Collect(rows: seq<Row>): Result<seq<CloudTab>, string> {
    if rows == [] then Ok([])
    else
      match rows[0].position
      case Err(e) => Err(e)
      case Ok(pos) =>
        match Collect(rows[1..])
        case Err(e) => Err(e)
        case Ok(rest) => Ok([TabOfRow(rows[0], pos)] + rest)
  }

  /** A decoding error anywhere aborts the whole listing with the first such error. */
  lemma {:induction false} CollectFailsOnFirstError(rows: seq<Row>)
    ensures Collect(rows).Err? <==> exists k | 0 <= k < |rows| :: rows[k].position.Err?
    ensures Collect(rows).Err? ==>
      exists k | 0 <= k < |rows| :: rows[k].position.Err? && Collect(rows).error == rows[k].position.error
        && forall j | 0 <= j < k :: rows[j].position.Ok?
    ensures Collect(rows).Ok? ==> |Collect(rows).value| == |rows|
  {
    if rows != [] && rows[0].position.Ok? {
      CollectFailsOnFirstError(rows[1..]);
      if Collect(rows[1..]).Err? {
        var k :| 0 <= k < |rows[1..]| && rows[1..][k].position.Err? && Collect(rows[1..]).error == rows[1..][k].position.error
          && forall j | 0 <= j < k :: rows[1..][j].position.Ok?;
        assert rows[k + 1] == rows[1..][k];
        assert forall j | 1 <= j < k + 1 :: rows[j] == rows[1..][j - 1];
      } else {
        assert forall k | 1 <= k < |rows| :: rows[k] == rows[1..][k - 1];
      }
    }
  }

  /** Each tab comes from the row at the same position and keeps its device. */
  lemma {:induction false} CollectKeepsDevices(rows: seq<Row>)
    ensures Collect(rows).Ok? ==>
      |Collect(rows).value| == |rows| && forall k | 0 <= k < |rows| :: Collect(rows).value[k].device == rows[k].device
  {
    if rows != [] && rows[0].position.Ok? {
      CollectKeepsDevices(rows[1..]);
      if Collect(rows[1..]).Ok? {
        assert forall k | 1 <= k < |rows| :: rows[k] == rows[1..][k - 1];
      }
    }
  }

  /** Tabs for the current device are ignored: no tab listed from the selected rows is on the host. */
  lemma CurrentDeviceIgnored(joined: seq<Row>, hostname: string)
    ensures Collect(OtherDevices(joined, hostname)).Ok? ==>
      forall t | t in Collect(OtherDevices(joined, hostname)).value :: t.device != hostname
  {
    CollectKeepsDevices(OtherDevices(joined, hostname));
  }

  function Prepend(tabs: seq<CloudTab>, c: Result<seq<CloudTab>, string>): Result<seq<CloudTab>, string> {
    match c
    case Err(e) => Err(e)
    case Ok(rest) => Ok(tabs + rest)
  }

  lemma PrependAssoc(tabs: seq<CloudTab>, tab: CloudTab, c: Result<seq<CloudTab>, string>)
    ensures Prepend(tabs, Prepend([tab], c)) == Prepend(tabs + [tab], c)
  {
    if c.Ok? {
      assert tabs + ([tab] + c.value) == tabs + [tab] + c.value;
    }
  }

  /**
   * `CloudTabs.Tabs`, with `run` standing for the database and `hostname`
   * for the host name read when the package starts: a query error is reported
   * with the query text, a position that does not decode aborts the listing,
   * and otherwise the tabs come back sorted by device and sort index.
   */
  method Tabs(hostname: string, run: HistoryDb.Query -> Result<seq<Row>, string>) returns (r: Result<seq<CloudTab>, string>)
    ensures var rows := run(TabsStatement(hostname));
      rows.Err? ==> r == Err("error running query:" + TabsQuery + " error: " + rows.error)
    ensures var rows := run(TabsStatement(hostname));
      rows.Ok? && Collect(rows.value).Err? ==> r == Err(Collect(rows.value).error)
    ensures var rows := run(TabsStatement(hostname));
      rows.Ok? && Collect(rows.value).Ok? ==>
      r.Ok? && Sorted(r.value) && multiset(r.value) == multiset(Collect(rows.value).value)
  {
    var rows := run(TabsStatement(hostname));
    if rows.Err? {
      return Err("error running query:" + TabsQuery + " error: " + rows.error);
    }
    var rs := rows.value;
    var tabs: seq<CloudTab> := [];
    assert rs[0..] == rs;
    assert Collect(rs).Ok? ==> [] + Collect(rs).value == Collect(rs).value;
    var i := 0;
    while i < |rs|
      invariant 0 <= i <= |rs|
      invariant Collect(rs) == Prepend(tabs, Collect(rs[i..]))
    {
      assert rs[i..][1..] == rs[i + 1..];
      assert rs[i..][0] == rs[i];
      match rs[i].position {
        case Err(e) =>
          return Err(e);
        case Ok(sData) =>
          var tab := CloudTab(rs[i].title, rs[i].url, rs[i].device, 0);
          if |sData| > 0 {
            tab := tab.(sortIndex := sData[0].sortValue);
          }
          assert tab == TabOfRow(rs[i], sData);
          PrependAssoc(tabs, tab, Collect(rs[i + 1..]));
          tabs := tabs + [tab];
      }
      i := i + 1;
    }
    var a := new CloudTab[|tabs|](k requires 0 <= k < |tabs| => tabs[k]);
    assert a[..] == tabs;
    SortByDeviceIndex(a);
    r := Ok(a[..]);
  }
}
