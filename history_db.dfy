/**
 * The query builders of go-safari's history package
 * (vendor/.../go-safari/history/history.go). Running the query, and turning
 * Safari's timestamps into times, are not modelled.
 */
module HistoryDb {
  import opened Strings

  /** A value bound to a `?` placeholder. */
  datatype SqlArg = Text(text: string) | Int(number: int)

  /** An SQL statement and the values for its placeholders, in order. */
  datatype Query = Query(sql: string, args: seq<SqlArg>)

  /** A history entry; `time` stands for the visit time. */
  datatype Entry = Entry(title: string, url: string, time: int)

  /** `MaxSearchResults` before any caller changes it. */
  const DefaultMaxSearchResults := 200

  // The statements' text, written in pieces short enough for the verifier to inspect.
  const Select := "\n\tSELECT url, visit_time, title"
  const From := "\n\t\tFROM history_items"
  const Join := "\n\t\t\tLEFT JOIN history_visits"
  const On := "\n\t\t\t\tON history_visits.history_item"
  const OnId := " = history_items.id"
  const WhereTitle := "\n\t\tWHERE title <> ''"
  const WhereUrl := " AND url LIKE 'http%'"
  const OrderBy := "\n\t\tORDER BY visit_time DESC LIMIT "

  /** The statement up to and including its fixed conditions. */
  const QueryHead := Select + From + Join + On + OnId + WhereTitle + WhereUrl
  const TitleLike := " AND title LIKE "
  const TitleClause := TitleLike + "?"
  const RecentTail := OrderBy + "?"
  const SearchTail := RecentTail + "\n\t\t"

  /** `s` repeated `n` times. */
  function Repeat(s: string, n: nat): string {
    if n == 0 then "" else Repeat(s, n - 1) + s
  }

  /** The LIKE pattern for each word, in word order. */
  function LikeArgs(words: seq<string>): (r: seq<SqlArg>)
    ensures |r| == |words|
    ensures forall k | 0 <= k < |words| :: r[k] == Text("%" + words[k] + "%")
  {
    seq(|words|, k requires 0 <= k < |words| => Text("%" + words[k] + "%"))
  }

  /** The statement `Search(query)` runs. */
  function SearchQuery(query: string, maxSearchResults: int): Query {
    var words := Fields(query);
    Query(QueryHead + Repeat(TitleClause, |words|) + SearchTail, LikeArgs(words) + [Int(maxSearchResults)])
  }

  /** `History.Search`: one title condition per word of the query, then the result limit. */
  method Search(query: string, maxSearchResults: int) returns (q: Query)
    ensures q == SearchQuery(query, maxSearchResults)
  {
    var words := Fields(query);
    var args: seq<SqlArg> := [];
    var sql := QueryHead;
    var i := 0;
    while i < |words|
      invariant 0 <= i <= |words|
      invariant sql == QueryHead + Repeat(TitleClause, i)
      invariant args == LikeArgs(words[..i])
    {
      args := args + [Text("%" + words[i] + "%")];
      sql := sql + TitleClause;
      i := i + 1;
    }
    assert words[..i] == words;
    sql := sql + SearchTail;
    args := args + [Int(maxSearchResults)];
    q := Query(sql, args);
  }

  /** `History.Recent`: a fixed statement with the count as its only value. */
  function Recent(count: int): (q: Query)
    ensures q.args == [Int(count)]
    ensures q.sql == QueryHead + RecentTail
  {
    Query(QueryHead + RecentTail, [Int(count)])
  }

  lemma {:induction false} RepeatCount(s: string, n: nat, c: char)
    ensures CountChar(Repeat(s, n), c) == n * CountChar(s, c)
  {
    if n > 0 {
      RepeatCount(s, n - 1, c);
      CountCharAppend(Repeat(s, n - 1), s, c);
    }
  }

  // Solver aids: each piece of the query is checked on its own, because the
  // verifier gives up on long literals. They model nothing by themselves;
  // `HeadHasNoPlaceholder` and `ClauseHasOnePlaceholder` put them together.
  lemma SelectHasNoPlaceholder()
    ensures '?' !in Select && '?' !in From && '?' !in Join
  {}

  lemma JoinHasNoPlaceholder()
    ensures '?' !in On && '?' !in OnId
  {}

  lemma WhereHasNoPlaceholder()
    ensures '?' !in WhereTitle && '?' !in WhereUrl
  {}

  lemma HeadHasNoPlaceholder()
    ensures CountChar(QueryHead, '?') == 0
  {
    SelectHasNoPlaceholder();
    JoinHasNoPlaceholder();
    WhereHasNoPlaceholder();
    assert '?' !in QueryHead;
    CountCharAbsent(QueryHead, '?');
  }

  lemma TitleLikeHasNoPlaceholder()
    ensures '?' !in TitleLike
  {}

  lemma ClauseHasOnePlaceholder()
    ensures CountChar(TitleClause, '?') == 1
  {
    TitleLikeHasNoPlaceholder();
    CountCharAbsent(TitleLike, '?');
    CountCharAppend(TitleLike, "?", '?');
  }

  lemma OrderByHasNoPlaceholder()
    ensures '?' !in OrderBy && '?' !in "\n\t\t"
  {}

  lemma TailsHaveOnePlaceholder()
    ensures CountChar(RecentTail, '?') == 1
    ensures CountChar(SearchTail, '?') == 1
  {
    OrderByHasNoPlaceholder();
    CountCharAbsent(OrderBy, '?');
    CountCharAbsent("\n\t\t", '?');
    CountCharAppend(OrderBy, "?", '?');
    CountCharAppend(RecentTail, "\n\t\t", '?');
  }

  /**
   * A search statement has one placeholder per word plus the limit, exactly
   * as many as it has values; the values are the word patterns in order and
   * then the limit.
   */
  lemma SearchPlaceholdersMatchArgs(query: string, maxSearchResults: int)
    ensures var q := SearchQuery(query, maxSearchResults);
      CountChar(q.sql, '?') == |q.args| == |Fields(query)| + 1
      && q.args[|q.args| - 1] == Int(maxSearchResults)
      && forall k | 0 <= k < |Fields(query)| :: q.args[k] == Text("%" + Fields(query)[k] + "%")
  {
    var n := |Fields(query)|;
    HeadHasNoPlaceholder();
    ClauseHasOnePlaceholder();
    TailsHaveOnePlaceholder();
    RepeatCount(TitleClause, n, '?');
    CountCharAppend(QueryHead, Repeat(TitleClause, n), '?');
    CountCharAppend(QueryHead + Repeat(TitleClause, n), SearchTail, '?');
  }

  /** A query that is empty or all white space adds no condition: only the limit is bound. */
  lemma BlankSearch(query: string, maxSearchResults: int)
    requires AllSpace(query)
    ensures SearchQuery(query, maxSearchResults) == Query(QueryHead + SearchTail, [Int(maxSearchResults)])
  {
    FieldsEmpty(query);
  }

  /** The recent-items statement has exactly one placeholder, for its one value. */
  lemma RecentPlaceholders(count: int)
    ensures CountChar(Recent(count).sql, '?') == |Recent(count).args| == 1
  {
    HeadHasNoPlaceholder();
    TailsHaveOnePlaceholder();
    CountCharAppend(QueryHead, RecentTail, '?');
  }
}
