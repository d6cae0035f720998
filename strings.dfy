/**
 * The parts of Go's `strings`, `bufio` and `fmt` packages that the workflow's
 * logic relies on, as functions on `seq<char>`, with the lemmas the rest of
 * the model uses about them.
 */
module Strings {

  predicate HasPrefix(s: string, p: string) {
    |p| <= |s| && s[..|p|] == p
  }

  predicate HasSuffix(s: string, p: string) {
    |p| <= |s| && s[|s| - |p|..] == p
  }

  /** `t` occurs in `s` starting at position `i`. */
  predicate OccursAt(s: string, t: string, i: int) {
    0 <= i <= |s| - |t| && s[i..i + |t|] == t
  }

  /** `t` occurs somewhere in `s`. */
  ghost predicate Contains(s: string, t: string) {
    exists i :: OccursAt(s, t, i)
  }

  /** Go's `unicode.IsSpace`: the characters with the Unicode White_Space property. */
  predicate IsSpace(c: char) {
    c == ' ' || ('\t' <= c <= '\r') || c == '\U{85}' || c == '\U{A0}' || c == '\U{1680}'
    || ('\U{2000}' <= c <= '\U{200A}') || c == '\U{2028}' || c == '\U{2029}'
    || c == '\U{202F}' || c == '\U{205F}' || c == '\U{3000}'
  }

  predicate AllSpace(s: string) {
    forall k | 0 <= k < |s| :: IsSpace(s[k])
  }

  /** Number of white-space characters at the start of `s`. */
  function LeadingSpaces(s: string): (n: nat)
    ensures n <= |s|
    ensures forall k | 0 <= k < n :: IsSpace(s[k])
    ensures n < |s| ==> !IsSpace(s[n])
  {
    if s == [] || !IsSpace(s[0]) then 0 else 1 + LeadingSpaces(s[1..])
  }

  /** Number of white-space characters at the end of `s`. */
  function TrailingSpaces(s: string): (n: nat)
    ensures n <= |s|
    ensures forall k | |s| - n <= k < |s| :: IsSpace(s[k])
    ensures n < |s| ==> !IsSpace(s[|s| - n - 1])
  {
    if s == [] || !IsSpace(s[|s| - 1]) then 0 else 1 + TrailingSpaces(s[..|s| - 1])
  }

  /** Go's `strings.TrimSpace`. */
  function TrimSpace(s: string): (r: string)
    ensures r == [] || (!IsSpace(r[0]) && !IsSpace(r[|r| - 1]))
    ensures r == [] <==> AllSpace(s)
    ensures (s == [] || (!IsSpace(s[0]) && !IsSpace(s[|s| - 1]))) ==> r == s
  {
    var t := s[LeadingSpaces(s)..];
    assert LeadingSpaces(s) == |s| ==> AllSpace(s);
    t[..|t| - TrailingSpaces(t)]
  }

  /** Length of the run of non-space characters at the start of `s`. */
  function WordLength(s: string): (n: nat)
    ensures n <= |s|
    ensures forall k | 0 <= k < n :: !IsSpace(s[k])
    ensures n < |s| ==> IsSpace(s[n])
  {
    if s == [] || IsSpace(s[0]) then 0 else 1 + WordLength(s[1..])
  }

  /** Go's `strings.Fields`: the maximal runs of non-space characters, in order. */
  function Fields(s: string): (r: seq<string>)
    ensures forall k | 0 <= k < |r| :: r[k] != [] && forall c | c in r[k] :: !IsSpace(c)
    decreases |s|
  {
    var i := LeadingSpaces(s);
    if i == |s| then []
    else
      var t := s[i..];
      var n := WordLength(t);
      [t[..n]] + Fields(t[n..])
  }

  /** `s` with every white-space character removed. */
  function RemoveSpaces(s: string): string {
    if s == [] then [] else (if IsSpace(s[0]) then [] else [s[0]]) + RemoveSpaces(s[1..])
  }

  function Concat(ws: seq<string>): string {
    if ws == [] then [] else ws[0] + Concat(ws[1..])
  }

  lemma {:induction false} RemoveSpacesAppend(a: string, b: string)
    ensures RemoveSpaces(a + b) == RemoveSpaces(a) + RemoveSpaces(b)
  {
    if a != [] {
      assert (a + b)[1..] == a[1..] + b;
      RemoveSpacesAppend(a[1..], b);
    } else {
      assert a + b == b;
    }
  }

  lemma {:induction false} RemoveSpacesOfSpaces(s: string)
    requires AllSpace(s)
    ensures RemoveSpaces(s) == []
  {
    if s != [] {
      RemoveSpacesOfSpaces(s[1..]);
    }
  }

  lemma {:induction false} RemoveSpacesOfWord(s: string)
    requires forall k | 0 <= k < |s| :: !IsSpace(s[k])
    ensures RemoveSpaces(s) == s
  {
    if s != [] {
      RemoveSpacesOfWord(s[1..]);
    }
  }

  lemma ConcatCons(w: string, ws: seq<string>)
    ensures Concat([w] + ws) == w + Concat(ws)
  {
    assert ([w] + ws)[1..] == ws;
  }

  /** Text with a non-space character splits into its first field `w` and the text `rest` after it. */
  lemma FieldsHead(s: string) returns (w: string, rest: string)
    requires LeadingSpaces(s) < |s|
    ensures |rest| < |s|
    ensures Fields(s) == [w] + Fields(rest)
    ensures RemoveSpaces(s) == w + RemoveSpaces(rest)
  {
    var i := LeadingSpaces(s);
    var t := s[i..];
    var n := WordLength(t);
    w, rest := t[..n], t[n..];
    RemoveSpacesSkip(s, i);
    RemoveSpacesKeep(t, n);
  }

  /** Leading white space contributes nothing. */
  lemma RemoveSpacesSkip(s: string, i: nat)
    requires i <= |s| && forall k | 0 <= k < i :: IsSpace(s[k])
    ensures RemoveSpaces(s) == RemoveSpaces(s[i..])
  {
    assert s == s[..i] + s[i..];
    RemoveSpacesAppend(s[..i], s[i..]);
    RemoveSpacesOfSpaces(s[..i]);
  }

  /** A leading word is kept whole. */
  lemma RemoveSpacesKeep(t: string, n: nat)
    requires n <= |t| && forall k | 0 <= k < n :: !IsSpace(t[k])
    ensures RemoveSpaces(t) == t[..n] + RemoveSpaces(t[n..])
  {
    assert t == t[..n] + t[n..];
    RemoveSpacesAppend(t[..n], t[n..]);
    RemoveSpacesOfWord(t[..n]);
  }

  /** Joining the fields of `s` gives back `s` without its white space. */
  lemma {:induction false} FieldsConcat(s: string)
    ensures Concat(Fields(s)) == RemoveSpaces(s)
    decreases |s|
  {
    if LeadingSpaces(s) < |s| {
      var w, rest := FieldsHead(s);
      FieldsConcat(rest);
      ConcatCons(w, Fields(rest));
    } else {
      RemoveSpacesOfSpaces(s);
    }
  }

  /** A string has no fields exactly when it is all white space. */
  lemma FieldsEmpty(s: string)
    ensures Fields(s) == [] <==> AllSpace(s)
  {
    if LeadingSpaces(s) == |s| {
      assert AllSpace(s);
    } else {
      assert !IsSpace(s[LeadingSpaces(s)]);
    }
  }

  /** Go's `strings.Join`. */
  function Join(parts: seq<string>, sep: string): string {
    if parts == [] then ""
    else if |parts| == 1 then parts[0]
    else parts[0] + sep + Join(parts[1..], sep)
  }

  /** A join starts with the first part and ends with the last one. */
  lemma {:induction false} JoinEnds(parts: seq<string>, sep: string)
    requires parts != []
    ensures HasPrefix(Join(parts, sep), parts[0])
    ensures HasSuffix(Join(parts, sep), parts[|parts| - 1])
  {
    if |parts| > 1 {
      JoinEnds(parts[1..], sep);
      var rest := Join(parts[1..], sep);
      assert Join(parts, sep) == parts[0] + (sep + rest);
      assert HasSuffix(rest, parts[|parts| - 1]);
      var j := Join(parts, sep);
      assert j[|j| - |parts[|parts| - 1]|..] == rest[|rest| - |parts[|parts| - 1]|..];
    }
  }

  /** Go's `strings.Replace(s, target, repl, -1)` for a non-empty `target`. */
  function ReplaceAll(s: string, target: string, repl: string): string
    requires target != []
    decreases |s|
  {
    if |s| < |target| then s
    else if s[..|target|] == target then repl + ReplaceAll(s[|target|..], target, repl)
    else [s[0]] + ReplaceAll(s[1..], target, repl)
  }

  lemma ContainsTail(s: string, t: string)
    requires s != []
    ensures Contains(s[1..], t) ==> Contains(s, t)
  {
    if Contains(s[1..], t) {
      var i :| OccursAt(s[1..], t, i);
      assert s[i + 1..i + 1 + |t|] == s[1..][i..i + |t|];
      assert OccursAt(s, t, i + 1);
    }
  }

  /** Replacing a string that does not occur changes nothing. */
  lemma {:induction false} ReplaceAbsent(s: string, target: string, repl: string)
    requires target != [] && !Contains(s, target)
    ensures ReplaceAll(s, target, repl) == s
    decreases |s|
  {
    if |s| >= |target| {
      assert s[0..|target|] == s[..|target|];
      assert !OccursAt(s, target, 0);
      ContainsTail(s, target);
      ReplaceAbsent(s[1..], target, repl);
    }
  }

  /** Replacing one character by another keeps the length and maps each position. */
  lemma {:induction false} ReplaceChar(s: string, a: char, b: char)
    ensures |ReplaceAll(s, [a], [b])| == |s|
    ensures forall k | 0 <= k < |s| :: ReplaceAll(s, [a], [b])[k] == if s[k] == a then b else s[k]
    decreases |s|
  {
    if |s| >= 1 {
      ReplaceChar(s[1..], a, b);
      var rest := ReplaceAll(s[1..], [a], [b]);
      assert s[..1] == [s[0]];
      assert ReplaceAll(s, [a], [b]) == (if s[0] == a then [b] else [s[0]]) + rest;
    }
  }

  /** Deleting every occurrence never lengthens a string nor adds characters. */
  lemma {:induction false} ReplaceDeleteShrinks(s: string, target: string)
    requires target != []
    ensures |ReplaceAll(s, target, "")| <= |s|
    ensures multiset(ReplaceAll(s, target, "")) <= multiset(s)
    decreases |s|
  {
    if |s| >= |target| {
      if s[..|target|] == target {
        ReplaceDeleteShrinks(s[|target|..], target);
        assert s == s[..|target|] + s[|target|..];
      } else {
        ReplaceDeleteShrinks(s[1..], target);
        assert s == [s[0]] + s[1..];
      }
    }
  }

  /** Position of the first `c` in `s`, or `|s|` when there is none. */
  function IndexOfChar(s: string, c: char): (i: nat)
    ensures i <= |s|
    ensures forall k | 0 <= k < i :: s[k] != c
    ensures i < |s| ==> s[i] == c
  {
    if s == [] || s[0] == c then 0 else 1 + IndexOfChar(s[1..], c)
  }

  predicate EndsWithCR(line: string) {
    line != [] && line[|line| - 1] == '\r'
  }

  function DropCR(line: string): string {
    if EndsWithCR(line) then line[..|line| - 1] else line
  }

  /**
   * The tokens `bufio.Scanner` yields with `ScanLines`: the text split at each
   * newline, a trailing carriage return dropped from every line, and no empty
   * token after a final newline.
   */
  function SplitLines(s: string): seq<string>
    decreases |s|
  {
    if s == [] then []
    else
      var i := IndexOfChar(s, '\n');
      if i == |s| then [DropCR(s)]
      else [DropCR(s[..i])] + SplitLines(s[i + 1..])
  }

  /** Each line followed by a newline, as `file.WriteString(s + "\n")` writes them. */
  function JoinLines(lines: seq<string>): string {
    if lines == [] then "" else lines[0] + "\n" + JoinLines(lines[1..])
  }

  predicate PlainLine(line: string) {
    '\n' !in line && !EndsWithCR(line)
  }

  /** The first newline of `l + "\n" + rest` is the one after `l`. */
  lemma IndexOfFirstNewline(l: string, rest: string)
    requires '\n' !in l
    ensures IndexOfChar(l + "\n" + rest, '\n') == |l|
  {
    var s := l + "\n" + rest;
    assert forall k | 0 <= k < |l| :: s[k] == l[k];
    assert s[|l|] == '\n';
  }

  /** A line without a newline, followed by one, is the first token. */
  lemma SplitLinesCons(l: string, rest: string)
    requires '\n' !in l
    ensures SplitLines(l + "\n" + rest) == [DropCR(l)] + SplitLines(rest)
  {
    var s := l + "\n" + rest;
    IndexOfFirstNewline(l, rest);
    assert s[..|l|] == l;
    assert s[|l| + 1..] == rest;
  }

  /** Reading back lines written one per line gives the same lines. */
  lemma {:induction false} SplitJoinLines(lines: seq<string>)
    requires forall k | 0 <= k < |lines| :: PlainLine(lines[k])
    ensures SplitLines(JoinLines(lines)) == lines
  {
    if lines != [] {
      assert PlainLine(lines[0]);
      SplitLinesCons(lines[0], JoinLines(lines[1..]));
      SplitJoinLines(lines[1..]);
      assert lines == [lines[0]] + lines[1..];
    }
  }

  /** Writing one more line appends it, with its newline, at the end. */
  lemma {:induction false} JoinLinesSnoc(lines: seq<string>, line: string)
    ensures JoinLines(lines + [line]) == JoinLines(lines) + line + "\n"
  {
    if lines != [] {
      assert (lines + [line])[1..] == lines[1..] + [line];
      JoinLinesSnoc(lines[1..], line);
    } else {
      assert JoinLines([line]) == line + "\n" + JoinLines([]);
    }
  }

  /** A character found in `a` is found at the same place in `a + b`. */
  lemma {:induction false} IndexOfCharAppend(a: string, b: string, c: char)
    requires IndexOfChar(a, c) < |a|
    ensures IndexOfChar(a + b, c) == IndexOfChar(a, c)
  {
    if a[0] != c {
      assert (a + b)[1..] == a[1..] + b;
      IndexOfCharAppend(a[1..], b, c);
    }
  }

  /**
   * Text ending in a newline splits into its first line `h` and the text `r`
   * after it, and so does the text with anything appended.
   */
  lemma SplitLinesAppendHead(a: string, b: string) returns (h: string, r: string)
    requires a != [] && a[|a| - 1] == '\n'
    ensures |r| < |a| && (r == [] || r[|r| - 1] == '\n')
    ensures SplitLines(a) == [h] + SplitLines(r)
    ensures SplitLines(a + b) == [h] + SplitLines(r + b)
  {
    var i := IndexOfChar(a, '\n');
    h, r := DropCR(a[..i]), a[i + 1..];
    var s := a + b;
    IndexOfCharAppend(a, b, '\n');
    assert s[..i] == a[..i];
    assert s[i + 1..] == r + b;
  }

  lemma LinesAssoc(x: seq<string>, y: seq<string>, z: seq<string>)
    ensures x + (y + z) == (x + y) + z
  {
  }

  /** Text that ends at a line boundary splits independently of what follows. */
  lemma {:induction false} SplitLinesAppend(a: string, b: string)
    requires a == [] || a[|a| - 1] == '\n'
    ensures SplitLines(a + b) == SplitLines(a) + SplitLines(b)
    decreases |a|
  {
    if a == [] {
      assert a + b == b;
    } else {
      var h, r := SplitLinesAppendHead(a, b);
      SplitLinesAppend(r, b);
      LinesAssoc([h], SplitLines(r), SplitLines(b));
    }
  }

  function DigitChar(d: nat): (c: char)
    requires d < 10
    ensures '0' <= c <= '9'
  {
    (48 + d) as char
  }

  /** Decimal digits of a natural number, most significant first. */
  function NatDigits(n: nat): (r: string)
    ensures r != []
    ensures forall k | 0 <= k < |r| :: '0' <= r[k] <= '9'
  {
    if n < 10 then [DigitChar(n)] else NatDigits(n / 10) + [DigitChar(n % 10)]
  }

  /** Go's `fmt.Sprintf("%d", n)`. */
  function Decimal(n: int): string {
    if n < 0 then "-" + NatDigits(-n) else NatDigits(n)
  }

  /** Go's `%02d`: at least two characters, padded with a leading zero. */
  function Pad2(n: int): string {
    if 0 <= n < 10 then "0" + Decimal(n) else Decimal(n)
  }

  /** Number of occurrences of `c` in `s`. */
  function CountChar(s: string, c: char): nat {
    if s == [] then 0 else (if s[0] == c then 1 else 0) + CountChar(s[1..], c)
  }

  lemma {:induction false} CountCharAppend(a: string, b: string, c: char)
    ensures CountChar(a + b, c) == CountChar(a, c) + CountChar(b, c)
  {
    if a == [] {
      assert a + b == b;
    } else {
      assert (a + b)[1..] == a[1..] + b;
      CountCharAppend(a[1..], b, c);
    }
  }

  lemma {:induction false} CountCharAbsent(s: string, c: char)
    requires c !in s
    ensures CountChar(s, c) == 0
  {
    if s != [] {
      CountCharAbsent(s[1..], c);
    }
  }

  /** Trimming keeps a first character that is not white space. */
  lemma TrimSpaceKeepsFirst(s: string)
    requires s != [] && !IsSpace(s[0])
    ensures TrimSpace(s) != [] && TrimSpace(s)[0] == s[0]
  {
    assert LeadingSpaces(s) == 0;
    assert !AllSpace(s);
  }
}
