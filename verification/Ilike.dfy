/** The ILIKE operator of PostgreSQL (section 9.7.1 of its manual) and what the pattern '%' + q + '%'
    finds.  `fold` is the case folding of the database's locale. */
module Ilike {

  type Folding = char -> char

  predicate Same(fold: Folding, a: char, b: char) {
    fold(a) == fold(b)
  }

  /** Does text[i..] match pattern[j..]?  '%' matches any run, '_' any character, '\' escapes. */
  predicate Matches(fold: Folding, text: string, i: nat, pattern: string, j: nat)
    requires i <= |text| && j <= |pattern|
    decreases |pattern| - j, |text| - i
  {
    if j == |pattern| then i == |text|
    else if pattern[j] == '%' then
      Matches(fold, text, i, pattern, j + 1) || (i < |text| && Matches(fold, text, i + 1, pattern, j))
    else if i == |text| then false
    else if pattern[j] == '_' then Matches(fold, text, i + 1, pattern, j + 1)
    else if pattern[j] == '\\' then
      j + 1 < |pattern| && Same(fold, text[i], pattern[j + 1]) && Matches(fold, text, i + 1, pattern, j + 2)
    else Same(fold, text[i], pattern[j]) && Matches(fold, text, i + 1, pattern, j + 1)
  }

  /** What each character of a pattern means: '%' any run, '_' one character, '\' the next one itself, and any
      other itself. */
  lemma PatternMeans(fold: Folding, text: string, pattern: string, c: char)
    ensures Matches(fold, text, 0, "", 0) <==> text == ""
    ensures Matches(fold, text, 0, "_" + pattern, 0) <==> text != "" && Matches(fold, text, 1, "_" + pattern, 1)
    ensures c !in {'%', '_', '\\'} ==>
      (Matches(fold, text, 0, [c] + pattern, 0) <==>
         text != "" && fold(text[0]) == fold(c) && Matches(fold, text, 1, [c] + pattern, 1))
    ensures Matches(fold, text, 0, ['\\', c] + pattern, 0) <==>
      text != "" && fold(text[0]) == fold(c) && Matches(fold, text, 1, ['\\', c] + pattern, 2)
  {
  }

  function Around(q: string): string {
    ['%'] + q + ['%']
  }

  /** text ILIKE '%' || q || '%' */
  predicate Finds(fold: Folding, text: string, q: string) {
    Matches(fold, text, 0, Around(q), 0)
  }

  /** `q` occurs in `text` at position `i`, from its own position `j` on. */
  predicate OccursAt(fold: Folding, text: string, i: int, q: string, j: nat)
    requires j <= |q|
  {
    0 <= i && i + |q| - j <= |text| && forall k :: j <= k < |q| ==> Same(fold, text[i + k - j], q[k])
  }

  /** `q` occurs in `text`, letter case aside. */
  predicate Contains(fold: Folding, text: string, q: string) {
    exists i :: 0 <= i <= |text| && OccursAt(fold, text, i, q, 0)
  }

  predicate IsMeta(c: char) {
    c == '%' || c == '_' || c == '\\'
  }

  /** No character of `q` from `j` on means anything but itself. */
  predicate LiteralFrom(q: string, j: nat) {
    forall k :: j <= k < |q| ==> !IsMeta(q[k])
  }

  predicate Literal(q: string) {
    LiteralFrom(q, 0)
  }

  lemma {:induction false} TrailingPercent(fold: Folding, text: string, i: nat, q: string)
    requires i <= |text|
    ensures Matches(fold, text, i, Around(q), |q| + 1)
    decreases |text| - i
  {
    assert Around(q)[|q| + 1] == '%';
    if i < |text| { TrailingPercent(fold, text, i + 1, q); }
  }

  /** A literal query matches exactly where it occurs. */
  lemma {:induction false} LiteralMatches(fold: Folding, text: string, i: nat, q: string, j: nat)
    requires i <= |text| && j <= |q| && LiteralFrom(q, j)
    ensures Matches(fold, text, i, Around(q), j + 1) <==> OccursAt(fold, text, i, q, j)
    decreases |q| - j
  {
    if j == |q| {
      TrailingPercent(fold, text, i, q);
    } else {
      assert Around(q)[j + 1] == q[j] && !IsMeta(q[j]);
      if i < |text| {
        LiteralMatches(fold, text, i + 1, q, j + 1);
        if OccursAt(fold, text, i, q, j) {
          assert Same(fold, text[i + j - j], q[j]);
          forall k | j + 1 <= k < |q| ensures Same(fold, text[i + 1 + k - (j + 1)], q[k]) {
            assert Same(fold, text[i + k - j], q[k]);
          }
        }
        if Same(fold, text[i], q[j]) && OccursAt(fold, text, i + 1, q, j + 1) {
          forall k | j <= k < |q| ensures Same(fold, text[i + k - j], q[k]) {
            if k > j { assert Same(fold, text[i + 1 + k - (j + 1)], q[k]); }
          }
        }
      }
    }
  }

  lemma {:induction false} LeadingPercentSkips(fold: Folding, text: string, i: nat, k: nat, q: string)
    requires i <= k <= |text| && Matches(fold, text, k, Around(q), 1)
    ensures Matches(fold, text, i, Around(q), 0)
    decreases k - i
  {
    assert Around(q)[0] == '%';
    if i < k { LeadingPercentSkips(fold, text, i + 1, k, q); }
  }

  lemma {:induction false} LeadingPercentStops(fold: Folding, text: string, i: nat, q: string) returns (k: nat)
    requires i <= |text| && Matches(fold, text, i, Around(q), 0)
    ensures k <= |text| && Matches(fold, text, k, Around(q), 1)
    decreases |text| - i
  {
    assert Around(q)[0] == '%';
    if Matches(fold, text, i, Around(q), 1) { return i; }
    k := LeadingPercentStops(fold, text, i + 1, q);
  }

  /** For a query without '%', '_' and '\', the search finds exactly the texts that contain it. */
  lemma LiteralSearchIsContainment(fold: Folding, text: string, q: string)
    requires Literal(q)
    ensures Finds(fold, text, q) <==> Contains(fold, text, q)
  {
    if Finds(fold, text, q) {
      var k := LeadingPercentStops(fold, text, 0, q);
      LiteralMatches(fold, text, k, q, 0);
    }
    if Contains(fold, text, q) {
      var k :| 0 <= k <= |text| && OccursAt(fold, text, k, q, 0);
      LiteralMatches(fold, text, k, q, 0);
      LeadingPercentSkips(fold, text, 0, k, q);
    }
  }

  // ---------------------------------------------------------------------------------------------
  // The condition is necessary

  /** A shortest text the query matches from its position `j` on. */
  function Instance(q: string, j: nat): (t: string)
    requires j <= |q|
    ensures |t| <= |q| - j
    decreases |q| - j
  {
    if j == |q| then ""
    else if q[j] == '%' then Instance(q, j + 1)
    else if q[j] == '_' then ['a'] + Instance(q, j + 1)
    else if q[j] == '\\' then
      if j + 1 < |q| then [q[j + 1]] + Instance(q, j + 2) else ['%']
    else [q[j]] + Instance(q, j + 1)
  }

  lemma {:induction false} InstanceMatches(fold: Folding, q: string, j: nat, before: string, text: string)
    requires j <= |q| && text == before + Instance(q, j)
    ensures Matches(fold, text, |before|, Around(q), j + 1)
    decreases |q| - j
  {
    var p := Around(q);
    if j == |q| {
      TrailingPercent(fold, text, |before|, q);
      return;
    }
    assert p[j + 1] == q[j];
    if q[j] == '%' {
      InstanceMatches(fold, q, j + 1, before, text);
    } else if q[j] == '\\' && j + 1 == |q| {
      assert p[j + 2] == '%' && j + 3 == |p|;
    } else {
      var next := if q[j] == '\\' then j + 2 else j + 1;
      assert q[j] == '\\' ==> p[j + 2] == q[j + 1];
      var c := Instance(q, j)[0];
      assert Instance(q, j) == [c] + Instance(q, next);
      assert text == (before + [c]) + Instance(q, next);
      InstanceMatches(fold, q, next, before + [c], text);
    }
  }

  /** Case folding never confuses a metacharacter with anything else. */
  ghost predicate KeepsMeta(fold: Folding) {
    forall c, m :: IsMeta(m) && Same(fold, c, m) ==> c == m
  }

  lemma {:induction false} InstanceDiffers(fold: Folding, q: string, j: nat) returns (k: nat)
    requires KeepsMeta(fold) && j <= |q| && !LiteralFrom(q, j) && |Instance(q, j)| == |q| - j
    ensures k < |q| - j && !Same(fold, Instance(q, j)[k], q[j + k])
    decreases |q| - j
  {
    var t := Instance(q, j);
    if q[j] == '_' {
      assert IsMeta('_') && !Same(fold, 'a', '_');
      return 0;
    } else if q[j] == '\\' {
      assert IsMeta('\\') && !Same(fold, '%', '\\');
      return 0;
    } else {
      assert !LiteralFrom(q, j + 1);
      k := InstanceDiffers(fold, q, j + 1);
      assert t[k + 1] == Instance(q, j + 1)[k];
      return k + 1;
    }
  }

  /** A query with a metacharacter finds a text that does not contain it. */
  lemma MetaFindsMore(fold: Folding, q: string) returns (text: string)
    requires KeepsMeta(fold) && !Literal(q)
    ensures Finds(fold, text, q) && !Contains(fold, text, q)
  {
    text := Instance(q, 0);
    assert text == "" + text;
    InstanceMatches(fold, q, 0, "", text);
    LeadingPercentSkips(fold, text, 0, 0, q);
    if |text| == |q| {
      var k := InstanceDiffers(fold, q, 0);
      assert !Same(fold, text[0 + k - 0], q[k]);
    }
  }

  /** The search is containment for all texts if and only if the query is literal. */
  lemma SearchIsContainmentIffLiteral(fold: Folding, q: string)
    requires KeepsMeta(fold)
    ensures (forall text :: Finds(fold, text, q) <==> Contains(fold, text, q)) <==> Literal(q)
  {
    if Literal(q) {
      forall text ensures Finds(fold, text, q) <==> Contains(fold, text, q) {
        LiteralSearchIsContainment(fold, text, q);
      }
    } else {
      var text := MetaFindsMore(fold, q);
    }
  }
}
