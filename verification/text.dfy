/** Byte-string helpers with PHP's meaning: truthiness, decimal conversion, search and `str_replace`. */
module Text {

  /** PHP truthiness of a string: only "" and "0" are falsy. */
  predicate Truthy(s: string) {
    s != "" && s != "0"
  }

  /** The first index at or after `from` whose character satisfies `p`, or |s| when there is none. */
  function FirstWhere(s: string, from: nat, p: char -> bool): (k: nat)
    requires from <= |s|
    ensures from <= k <= |s|
    ensures forall j :: from <= j < k ==> !p(s[j])
    ensures k < |s| ==> p(s[k])
    decreases |s| - from
  {
    if from == |s| then from
    else if p(s[from]) then from
    else FirstWhere(s, from + 1, p)
  }

  predicate All(s: string, p: char -> bool) {
    forall j :: 0 <= j < |s| ==> p(s[j])
  }

  // ---------------------------------------------------------------------------
  // Decimal naturals
  // ---------------------------------------------------------------------------

  predicate IsDigit(c: char) {
    '0' <= c <= '9'
  }

  /** A non-empty run of decimal digits: the tag parts the source does arithmetic on. */
  predicate IsDigits(s: string) {
    |s| > 0 && All(s, IsDigit)
  }

  function DigitChar(d: nat): (c: char)
    requires d < 10
    ensures IsDigit(c)
  {
    "0123456789"[d]
  }

  function DigitOf(c: char): (d: nat)
    requires IsDigit(c)
    ensures d < 10 && DigitChar(d) == c
  {
    (c as int - '0' as int) as nat
  }

  /**
   * The value of a decimal digit string as an unbounded natural (leading zeros are ignored). PHP's
   * arithmetic gives the same integer only up to PHP_INT_MAX; beyond it PHP switches to a float.
   */
  function Val(s: string): nat
    requires All(s, IsDigit)
  {
    if |s| == 0 then 0 else 10 * Val(s[..|s| - 1]) + DigitOf(s[|s| - 1])
  }

  /**
   * The canonical decimal form of a natural, which is how PHP's string interpolation prints an
   * integer up to PHP_INT_MAX (a float beyond it prints in floating-point form, e.g. `1.0E+20`).
   */
  function Show(n: nat): (s: string)
    ensures IsDigits(s)
    ensures |s| > 1 ==> s[0] != '0'
  {
    if n < 10 then [DigitChar(n)] else Show(n / 10) + [DigitChar(n % 10)]
  }

  /** Reading back what `Show` writes gives the same number. */
  lemma {:induction false} ValShow(n: nat)
    ensures Val(Show(n)) == n
  {
    if n >= 10 {
      var s := Show(n);
      assert s[..|s| - 1] == Show(n / 10);
      ValShow(n / 10);
    }
  }

  // ---------------------------------------------------------------------------
  // Counting and replacing
  // ---------------------------------------------------------------------------

  /** Number of occurrences of `c` in `s`. */
  function Count(s: string, c: char): nat {
    if |s| == 0 then 0 else (if s[0] == c then 1 else 0) + Count(s[1..], c)
  }

  lemma {:induction false} CountAppend(a: string, b: string, c: char)
    ensures Count(a + b, c) == Count(a, c) + Count(b, c)
  {
    if |a| > 0 {
      assert (a + b)[0] == a[0];
      assert (a + b)[1..] == a[1..] + b;
      CountAppend(a[1..], b, c);
    } else {
      assert a + b == b;
    }
  }

  /** A string holding `c` somewhere counts it at least once. */
  lemma {:induction false} CountAt(s: string, i: nat, c: char)
    requires i < |s| && s[i] == c
    ensures Count(s, c) > 0
  {
    assert s == s[..i] + s[i..];
    CountAppend(s[..i], s[i..], c);
  }

  /** No character of `s` is `ch`. */
  predicate Lacks(s: string, ch: char) {
    forall m :: 0 <= m < |s| ==> s[m] != ch
  }

  lemma LacksConcat(a: string, b: string, ch: char)
    requires Lacks(a, ch) && Lacks(b, ch)
    ensures Lacks(a + b, ch)
  {
    assert forall m :: |a| <= m < |a + b| ==> (a + b)[m] == b[m - |a|];
  }

  predicate OccursAt(t: string, s: string, i: int) {
    0 <= i && i + |t| <= |s| && s[i..i + |t|] == t
  }

  predicate Occurs(t: string, s: string) {
    exists i :: 0 <= i <= |s| && OccursAt(t, s, i)
  }

  predicate StartsWith(s: string, t: string) {
    |t| <= |s| && s[..|t|] == t
  }

  /**
   * PHP `str_replace(t, v, s)` for a single search string: every non-overlapping occurrence of `t`,
   * found left to right, becomes `v`. An empty search string leaves the subject alone.
   */
  function ReplaceAll(s: string, t: string, v: string): string
    decreases |s|
  {
    if |t| == 0 || |s| == 0 then s
    else if StartsWith(s, t) then v + ReplaceAll(s[|t|..], t, v)
    else [s[0]] + ReplaceAll(s[1..], t, v)
  }

  /** A search string starting with a character the subject lacks does not occur in it. */
  lemma LacksNotOccurs(t: string, s: string)
    requires |t| > 0 && Lacks(s, t[0])
    ensures !Occurs(t, s)
  {
  }

  /** Text without an occurrence of the search string comes back unchanged. */
  lemma {:induction false} ReplaceAllAbsent(s: string, t: string, v: string)
    requires !Occurs(t, s)
    ensures ReplaceAll(s, t, v) == s
  {
    if |t| > 0 && |s| > 0 {
      assert !OccursAt(t, s, 0);
      ReplaceAllSkip(s, t, v);
      forall i | 0 <= i <= |s[1..]|
        ensures !OccursAt(t, s[1..], i)
      {
        OccursAtTail(t, s, i);
      }
      ReplaceAllAbsent(s[1..], t, v);
    }
  }

  lemma OccursAtTail(t: string, s: string, j: int)
    requires |s| > 0 && j >= 0
    ensures OccursAt(t, s[1..], j) <==> OccursAt(t, s, j + 1)
  {
    if 0 <= j && j + |t| <= |s| - 1 {
      assert s[1..][j..j + |t|] == s[j + 1..j + 1 + |t|];
    }
  }

  /** Where the search string does not start the subject, the first character is kept. */
  lemma ReplaceAllSkip(s: string, t: string, v: string)
    requires |t| > 0 && |s| > 0 && !OccursAt(t, s, 0)
    ensures ReplaceAll(s, t, v) == [s[0]] + ReplaceAll(s[1..], t, v)
  {
    assert !StartsWith(s, t);
  }

  /**
   * The leftmost occurrence is replaced, the text before it is kept verbatim, and the rest of the
   * subject is processed after the occurrence (so occurrences never overlap).
   */
  lemma {:induction false} ReplaceAllLeftmost(s: string, t: string, v: string, i: nat)
    requires |t| > 0 && OccursAt(t, s, i)
    requires forall j :: 0 <= j < i ==> !OccursAt(t, s, j)
    ensures ReplaceAll(s, t, v) == s[..i] + v + ReplaceAll(s[i + |t|..], t, v)
  {
    if i == 0 {
      assert StartsWith(s, t);
      assert s[..0] + v == v;
    } else {
      ReplaceAllSkip(s, t, v);
      var s' := s[1..];
      OccursAtTail(t, s, i - 1);
      forall j | 0 <= j < i - 1
        ensures !OccursAt(t, s', j)
      {
        OccursAtTail(t, s, j);
      }
      ReplaceAllLeftmost(s', t, v, i - 1);
      assert s'[i - 1 + |t|..] == s[i + |t|..];
      LeftmostStep(s, i, v, ReplaceAll(s[i + |t|..], t, v));
    }
  }

  /** The sequence algebra of one step of `ReplaceAllLeftmost`. */
  lemma LeftmostStep(s: string, i: nat, v: string, x: string)
    requires 0 < i <= |s|
    ensures [s[0]] + (s[1..][..i - 1] + v + x) == s[..i] + v + x
  {
    assert s[..i] == [s[0]] + s[1..][..i - 1];
  }

  /**
   * Replacing by something with fewer `c` than the search string never adds a `c`, and removes at
   * least one when the search string occurs: the measure that bounds placeholder rescanning.
   */
  lemma {:induction false} ReplaceAllCount(s: string, t: string, v: string, c: char)
    requires |t| > 0 && Count(v, c) < Count(t, c)
    ensures Count(ReplaceAll(s, t, v), c) <= Count(s, c)
    ensures Occurs(t, s) ==> Count(ReplaceAll(s, t, v), c) < Count(s, c)
    decreases |s|
  {
    if |s| > 0 {
      if StartsWith(s, t) {
        var rest := s[|t|..];
        ReplaceAllCount(rest, t, v, c);
        CountAppend(v, ReplaceAll(rest, t, v), c);
        assert s == t + rest;
        CountAppend(t, rest, c);
      } else {
        var rest := s[1..];
        ReplaceAllCount(rest, t, v, c);
        CountAppend([s[0]], ReplaceAll(rest, t, v), c);
        assert s == [s[0]] + rest;
        CountAppend([s[0]], rest, c);
        if Occurs(t, s) {
          var k :| 0 <= k <= |s| && OccursAt(t, s, k);
          assert k != 0;
          OccursAtTail(t, s, k - 1);
        }
      }
    }
  }
}
