/** Comma-separated lists: the parser that scans for commas, and the joiner. */
module CommaList {

  /** A text cut at its commas: the finished pieces and the one after the last comma. */
  datatype Cut = Cut(finished: seq<string>, current: string) {
    function All(): seq<string> {
      finished + [current]
    }
  }

  /** The first `n` characters, cut at their commas. */
  function CutAt(s: string, n: nat): Cut
    requires n <= |s|
  {
    if n == 0 then Cut([], "") else
      var c := CutAt(s, n - 1);
      if s[n - 1] == ',' then Cut(c.All(), "") else Cut(c.finished, c.current + [s[n - 1]])
  }

  function Split(s: string): seq<string> {
    CutAt(s, |s|).All()
  }

  /** The first `n` of `xs` with `sep` between them. */
  function JoinFirst(xs: seq<string>, sep: string, n: nat): string
    requires n <= |xs|
  {
    if n == 0 then "" else if n == 1 then xs[0] else JoinFirst(xs, sep, n - 1) + sep + xs[n - 1]
  }

  function Join(xs: seq<string>, sep: string): string {
    JoinFirst(xs, sep, |xs|)
  }

  /** The first `n` of `xs` without the empty ones. */
  function NonemptyFirst(xs: seq<string>, n: nat): seq<string>
    requires n <= |xs|
  {
    if n == 0 then [] else NonemptyFirst(xs, n - 1) + (if xs[n - 1] == "" then [] else [xs[n - 1]])
  }

  function Nonempty(xs: seq<string>): seq<string> {
    NonemptyFirst(xs, |xs|)
  }

  predicate CommaFree(x: string) {
    forall i :: 0 <= i < |x| ==> x[i] != ','
  }

  predicate Clean(xs: seq<string>) {
    forall i :: 0 <= i < |xs| ==> CommaFree(xs[i])
  }

  // ---------------------------------------------------------------------------------------------
  // Appending one element

  lemma {:induction false} SameNonempty(xs: seq<string>, ys: seq<string>, n: nat)
    requires n <= |xs| && n <= |ys| && forall i :: 0 <= i < n ==> xs[i] == ys[i]
    ensures NonemptyFirst(xs, n) == NonemptyFirst(ys, n)
  {
    if n > 0 { SameNonempty(xs, ys, n - 1); }
  }

  lemma NonemptyAppend(xs: seq<string>, x: string)
    ensures Nonempty(xs + [x]) == Nonempty(xs) + (if x == "" then [] else [x])
  {
    SameNonempty(xs, xs + [x], |xs|);
  }

  lemma {:induction false} SameJoin(xs: seq<string>, ys: seq<string>, sep: string, n: nat)
    requires n <= |xs| && n <= |ys| && forall i :: 0 <= i < n ==> xs[i] == ys[i]
    ensures JoinFirst(xs, sep, n) == JoinFirst(ys, sep, n)
  {
    if n > 0 { SameJoin(xs, ys, sep, n - 1); }
  }

  lemma JoinAppend(xs: seq<string>, x: string, sep: string)
    ensures Join(xs + [x], sep) == if xs == [] then x else Join(xs, sep) + sep + x
  {
    SameJoin(xs, xs + [x], sep, |xs|);
  }

  // ---------------------------------------------------------------------------------------------
  // The two loops

  /** Before position `i`: the current piece began at `start`, and `result` has the finished ones. */
  ghost predicate Scanned(s: string, i: int, start: int, result: seq<string>) {
    0 <= start <= i <= |s| && CutAt(s, i).current == s[start..i] && result == Nonempty(CutAt(s, i).finished)
  }

  lemma ScanOn(s: string, i: nat, start: nat, result: seq<string>, nextStart: nat, nextResult: seq<string>)
    requires i < |s| && Scanned(s, i, start, result)
    requires nextStart == if s[i] == ',' then i + 1 else start
    requires nextResult == if s[i] == ',' && start < i then result + [s[start..i]] else result
    ensures Scanned(s, i + 1, nextStart, nextResult)
  {
    if s[i] == ',' {
      NonemptyAppend(CutAt(s, i).finished, s[start..i]);
    } else {
      assert s[start..i + 1] == s[start..i] + [s[i]];
    }
  }

  lemma ScanEnd(s: string, start: nat, result: seq<string>)
    requires Scanned(s, |s|, start, result)
    ensures Nonempty(Split(s)) == if start < |s| then result + [s[start..|s|]] else result
  {
    NonemptyAppend(CutAt(s, |s|).finished, CutAt(s, |s|).current);
  }

  method ParseStringSlice(s: string) returns (result: seq<string>)
    ensures result == Nonempty(Split(s))
  {
    result := [];
    if s == "" {
      NonemptyAppend([], "");
      return;
    }
    var start := 0;
    var i := 0;
    while i <= |s|
      invariant 0 <= i <= |s| + 1 && start >= 0
      invariant i <= |s| ==> Scanned(s, i, start, result)
      invariant i == |s| + 1 ==> result == Nonempty(Split(s))
    {
      ghost var before, resultBefore := start, result;
      if i == |s| || s[i] == ',' {
        if start < i { result := result + [s[start..i]]; }
        start := i + 1;
      }
      if i < |s| { ScanOn(s, i, before, resultBefore, start, result); } else { ScanEnd(s, before, resultBefore); }
      i := i + 1;
    }
  }

  method JoinClauses(clauses: seq<string>, sep: string) returns (out: string)
    ensures out == Join(clauses, sep)
  {
    if |clauses| == 0 { return ""; }
    out := clauses[0];
    for i := 1 to |clauses|
      invariant out == JoinFirst(clauses, sep, i)
    {
      out := out + sep + clauses[i];
    }
  }

  // ---------------------------------------------------------------------------------------------
  // Splitting and joining undo each other

  lemma {:induction false} CutOfPrefix(t: string, s: string, n: nat)
    requires n <= |t| <= |s| && forall i :: 0 <= i < |t| ==> s[i] == t[i]
    ensures CutAt(s, n) == CutAt(t, n)
  {
    if n > 0 { CutOfPrefix(t, s, n - 1); }
  }

  /** The characters of a comma-free `x` at the end of `s` extend the current piece. */
  lemma {:induction false} CurrentGrows(s: string, a: nat, x: string, n: nat)
    requires CommaFree(x) && n <= |x| && a + |x| == |s| && forall i :: 0 <= i < |x| ==> s[a + i] == x[i]
    ensures CutAt(s, a + n) == Cut(CutAt(s, a).finished, CutAt(s, a).current + x[..n])
  {
    if n > 0 {
      CurrentGrows(s, a, x, n - 1);
      assert x[..n] == x[..n - 1] + [x[n - 1]];
    } else {
      assert CutAt(s, a).current + x[..0] == CutAt(s, a).current;
    }
  }

  lemma SplitAppend(j: string, x: string)
    requires CommaFree(x)
    ensures Split(j + "," + x) == Split(j) + [x]
  {
    var s := j + "," + x;
    CutOfPrefix(j, s, |j|);
    assert CutAt(s, |j| + 1) == Cut(Split(j), "");
    CurrentGrows(s, |j| + 1, x, |x|);
    assert "" + x[..|x|] == x;
  }

  lemma {:induction false} Uncut(x: string, n: nat)
    requires CommaFree(x) && n <= |x|
    ensures CutAt(x, n) == Cut([], x[..n])
  {
    if n > 0 {
      Uncut(x, n - 1);
      assert x[..n] == x[..n - 1] + [x[n - 1]];
    }
  }

  lemma SplitSingle(x: string)
    requires CommaFree(x)
    ensures Split(x) == [x]
  {
    Uncut(x, |x|);
    assert x[..|x|] == x;
  }

  lemma {:induction false} SplitJoinFirst(xs: seq<string>, n: nat)
    requires 1 <= n <= |xs| && Clean(xs)
    ensures Split(JoinFirst(xs, ",", n)) == xs[..n]
  {
    if n == 1 {
      SplitSingle(xs[0]);
    } else {
      SplitJoinFirst(xs, n - 1);
      SplitAppend(JoinFirst(xs, ",", n - 1), xs[n - 1]);
      assert xs[..n] == xs[..n - 1] + [xs[n - 1]];
    }
  }

  /** Splitting undoes joining, empty pieces included. */
  lemma SplitUndoesJoin(xs: seq<string>)
    requires xs != [] && Clean(xs)
    ensures Split(Join(xs, ",")) == xs
  {
    SplitJoinFirst(xs, |xs|);
  }

  lemma {:induction false} CutIsClean(s: string, n: nat)
    requires n <= |s|
    ensures Clean(CutAt(s, n).finished) && CommaFree(CutAt(s, n).current)
  {
    if n > 0 { CutIsClean(s, n - 1); }
  }

  lemma {:induction false} JoinUndoesCut(s: string, n: nat)
    requires n <= |s|
    ensures Join(CutAt(s, n).All(), ",") == s[..n]
  {
    if n > 0 {
      JoinUndoesCut(s, n - 1);
      var c := CutAt(s, n - 1);
      assert s[..n] == s[..n - 1] + [s[n - 1]];
      JoinAppend(c.finished, c.current, ",");
      if s[n - 1] == ',' {
        JoinAppend(c.All(), "", ",");
      } else {
        JoinAppend(c.finished, c.current + [s[n - 1]], ",");
      }
    }
  }

  /** Joining undoes splitting: the pieces are comma-free and give back the text. */
  lemma JoinUndoesSplit(s: string)
    ensures Clean(Split(s)) && Join(Split(s), ",") == s
  {
    CutIsClean(s, |s|);
    JoinUndoesCut(s, |s|);
    assert s[..|s|] == s;
  }

  // ---------------------------------------------------------------------------------------------
  // Parsing

  /** What ParseStringSlice returns. */
  function Parse(s: string): seq<string> {
    Nonempty(Split(s))
  }

  lemma {:induction false} NonemptyKeeps(xs: seq<string>, n: nat)
    requires n <= |xs| && forall i :: 0 <= i < n ==> xs[i] != ""
    ensures NonemptyFirst(xs, n) == xs[..n]
  {
    if n > 0 { NonemptyKeeps(xs, n - 1); }
  }

  lemma {:induction false} NonemptyCleans(xs: seq<string>, n: nat)
    requires n <= |xs| && Clean(xs)
    ensures Clean(NonemptyFirst(xs, n))
    ensures forall i :: 0 <= i < |NonemptyFirst(xs, n)| ==> NonemptyFirst(xs, n)[i] != ""
  {
    if n > 0 { NonemptyCleans(xs, n - 1); }
  }

  /** Parsing returns exactly what was joined. */
  lemma ParseUndoesJoin(xs: seq<string>)
    requires Clean(xs) && forall i :: 0 <= i < |xs| ==> xs[i] != ""
    ensures Parse(Join(xs, ",")) == xs
  {
    if xs == [] {
      NonemptyAppend([], "");
    } else {
      SplitUndoesJoin(xs);
      NonemptyKeeps(xs, |xs|);
    }
  }

  /** Joining what was parsed gives a text that parses to the same list and is rebuilt unchanged. */
  lemma JoinOfParseIsStable(s: string)
    ensures Parse(Join(Parse(s), ",")) == Parse(s)
    ensures Join(Parse(Join(Parse(s), ",")), ",") == Join(Parse(s), ",")
  {
    JoinUndoesSplit(s);
    NonemptyCleans(Split(s), |Split(s)|);
    ParseUndoesJoin(Parse(s));
  }
}
