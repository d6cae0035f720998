/**
 * Go's `path/filepath` on Unix (`Base`, `Ext`) and the workflow's own
 * helpers that derive a script's title and runner from its path
 * (actions.go `scriptTitle`, `isOSAScript`).
 */
module Paths {
  import opened Strings

  /** `p` without its trailing slashes. */
  function TrimTrailingSlashes(p: string): (r: string)
    ensures |r| <= |p| && r == p[..|r|]
    ensures r == [] || r[|r| - 1] != '/'
    ensures forall k | |r| <= k < |p| :: p[k] == '/'
  {
    if p == [] || p[|p| - 1] != '/' then p else TrimTrailingSlashes(p[..|p| - 1])
  }

  /** Position of the last `c` in `s`, or -1. */
  function LastIndexOfChar(s: string, c: char): (i: int)
    ensures -1 <= i < |s|
    ensures forall k | i < k < |s| :: s[k] != c
    ensures i >= 0 ==> s[i] == c
  {
    if s == [] then -1
    else if s[|s| - 1] == c then |s| - 1
    else LastIndexOfChar(s[..|s| - 1], c)
  }

  /** Go's `filepath.Base`: the last element of a path, "." for "" and "/" for all slashes. */
  function Base(p: string): (r: string)
    ensures r != []
    ensures r != "/" ==> '/' !in r
  {
    if p == [] then "."
    else
      var t := TrimTrailingSlashes(p);
      var b := t[LastIndexOfChar(t, '/') + 1..];
      if b == [] then "/" else b
  }

  /** The last element of `p`, the part after its last slash. */
  function LastElement(p: string): string {
    p[LastIndexOfChar(p, '/') + 1..]
  }

  /** An extension as Go's `filepath.Ext` returns it: a dot followed by no dot or slash. */
  predicate IsExtension(e: string) {
    |e| >= 1 && e[0] == '.' && forall k | 1 <= k < |e| :: e[k] != '.' && e[k] != '/'
  }

  /** Go's `filepath.Ext`: the suffix from the last dot of the last element, or "". */
  function Ext(p: string): (r: string)
    ensures HasSuffix(p, r)
    ensures r == [] || IsExtension(r)
  {
    if p == [] || p[|p| - 1] == '/' then ""
    else if p[|p| - 1] == '.' then "."
    else
      var e := Ext(p[..|p| - 1]);
      if e == [] then "" else e + [p[|p| - 1]]
  }

  /** When there is no extension, the last element of the path holds no dot. */
  lemma {:induction false} NoExtNoDot(p: string)
    requires Ext(p) == []
    ensures '.' !in LastElement(p)
  {
    if p != [] && p[|p| - 1] != '/' {
      var q, c := p[..|p| - 1], p[|p| - 1];
      assert p == q + [c];
      assert c != '.';
      assert Ext(q) == [];
      NoExtNoDot(q);
      var i := LastIndexOfChar(q, '/');
      assert LastIndexOfChar(p, '/') == i;
      assert LastElement(p) == LastElement(q) + [c];
    } else if p != [] {
      assert LastIndexOfChar(p, '/') == |p| - 1;
      assert LastElement(p) == [];
    }
  }

  /** A path ending in an extension reports exactly that extension. */
  lemma {:induction false} ExtOfSuffix(p: string, e: string)
    requires IsExtension(e)
    ensures Ext(p + e) == e
    decreases |e|
  {
    var s := p + e;
    if |e| > 1 {
      var e' := e[..|e| - 1];
      assert s[..|s| - 1] == p + e';
      ExtOfSuffix(p, e');
      assert e == e' + [s[|s| - 1]];
    }
  }

  /** A name without dots has no extension. */
  lemma {:induction false} ExtOfDotless(s: string)
    requires '.' !in s
    ensures Ext(s) == ""
  {
    if s != [] && s[|s| - 1] != '/' {
      assert s[..|s| - 1] <= s;
      ExtOfDotless(s[..|s| - 1]);
    }
  }

  /** The base of `dir + "/" + name` is `name` when `name` is a single element. */
  lemma BaseOfJoin(dir: string, name: string)
    requires name != [] && '/' !in name
    ensures Base(dir + "/" + name) == name
  {
    var p := dir + "/" + name;
    assert TrimTrailingSlashes(p) == p by {
      assert p[|p| - 1] == name[|name| - 1];
    }
    assert p[|dir|] == '/';
    assert forall k | |dir| < k < |p| :: p[k] == name[k - |dir| - 1];
    assert LastIndexOfChar(p, '/') == |dir|;
    assert p[|dir| + 1..] == name;
  }

  /** actions.go `scriptTitle`: the base name without its extension, which with the extension rebuilds the base name. */
  function ScriptTitle(p: string): (r: string)
    ensures r != "/" ==> '/' !in r
    ensures r + Ext(Base(p)) == Base(p)
  {
    var b := Base(p);
    StemThenExt(b);
    b[..|b| - |Ext(b)|]
  }

  /** A name without its extension, followed by the extension, is the name again. */
  lemma StemThenExt(b: string)
    ensures b[..|b| - |Ext(b)|] + Ext(b) == b
  {
    var e := Ext(b);
    assert HasSuffix(b, e);
    assert b[|b| - |e|..] == e;
    assert b == b[..|b| - |e|] + b[|b| - |e|..];
  }

  /** A script stored as `dir/stem.ext` is titled `stem`. */
  lemma ScriptTitleOfFile(dir: string, stem: string, ext: string)
    requires '/' !in stem && IsExtension(ext)
    ensures ScriptTitle(dir + "/" + stem + ext) == stem
  {
    assert dir + "/" + stem + ext == dir + "/" + (stem + ext);
    BaseOfJoin(dir, stem + ext);
    ExtOfSuffix(stem, ext);
  }

  /** A script stored as `dir/stem` with no dot in `stem` is titled `stem`. */
  lemma ScriptTitleOfPlainFile(dir: string, stem: string)
    requires stem != [] && '/' !in stem && '.' !in stem
    ensures ScriptTitle(dir + "/" + stem) == stem
  {
    BaseOfJoin(dir, stem);
    ExtOfDotless(stem);
  }

  /** Extensions of files run through `/usr/bin/osascript` (actions.go `osaExts`). */
  const OsaExts: set<string> := {".scpt", ".js", ".applescript", ".scptd"}

  /** actions.go `isOSAScript`. */
  predicate IsOSAScript(p: string) {
    Ext(p) in OsaExts
  }

  /** Every file whose name ends in an OSA extension is an OSA script, whatever its stem. */
  lemma OSAScriptBySuffix(p: string, e: string)
    requires e in OsaExts
    ensures IsOSAScript(p + e)
  {
    ExtOfSuffix(p, e);
  }
}
