/**
 * The placeholder pattern `REGEX_TAG` of `Deploy`, `{name}` or `{name|default}`, recognised by a
 * scanner instead of a regular-expression engine.
 *
 * The pattern is `\{\s*([^|} ]+)(?:\s*[|]\s*([^|} ]*))?\s*\}`. No part of it admits `}`, so a
 * match starting at a `{` always ends at the first `}` after it, and whether there is a match
 * there depends only on the text in between. The scanner decides exactly that and picks the
 * captures PCRE's backtracking order picks.
 */
module Tokens {
  import opened Outcomes
  import opened Text

  /** PCRE's `\s`: space, tab, line feed, vertical tab, form feed, carriage return. */
  predicate IsSpace(c: char) {
    c == ' ' || c == '\t' || c == '\n' || c == '\U{000B}' || c == '\U{000C}' || c == '\r'
  }

  /** `[^|} ]`: the characters of a name or a default. Tabs and newlines are among them. */
  predicate IsNameChar(c: char) {
    c != '|' && c != '}' && c != ' '
  }

  predicate NotSpace(c: char) { !IsSpace(c) }
  predicate NotNameChar(c: char) { !IsNameChar(c) }
  predicate NotBlank(c: char) { c != ' ' }
  predicate IsClose(c: char) { c == '}' }
  predicate IsBar(c: char) { c == '|' }

  // ---------------------------------------------------------------------------
  // The grammar, stated declaratively
  // ---------------------------------------------------------------------------

  /** `a` reads as `\s*`, then `a[x..y]` drawn from `[^|} ]`, then `\s*`. */
  predicate Seg(a: string, x: int, y: int) {
    && 0 <= x <= y <= |a|
    && All(a[..x], IsSpace) && All(a[x..y], IsNameChar) && All(a[y..], IsSpace)
  }

  /** `\s*([^|} ]+)\s*` */
  ghost predicate NameSeg(a: string) {
    exists x, y :: x < y && Seg(a, x, y)
  }

  /** `\s*([^|} ]*)\s*` */
  ghost predicate DefaultSeg(b: string) {
    exists x, y :: Seg(b, x, y)
  }

  /** What may stand between the braces: a name segment, optionally `|` and a default segment. */
  ghost predicate IsTokenBody(c: string) {
    || NameSeg(c)
    || exists q :: 0 <= q < |c| && c[q] == '|' && NameSeg(c[..q]) && DefaultSeg(c[q + 1..])
  }

  /** `t` is, in its entirety, a match of the placeholder pattern. */
  ghost predicate IsToken(t: string) {
    |t| >= 2 && t[0] == '{' && t[|t| - 1] == '}' && IsTokenBody(t[1..|t| - 1])
  }

  /** The substring `s[i..j]` matches the placeholder pattern. */
  ghost predicate TokenAt(s: string, i: int, j: int) {
    0 <= i <= j <= |s| && IsToken(s[i..j])
  }

  /** No substring of `s` matches the placeholder pattern: `preg_match` finds nothing. */
  ghost predicate NoPlaceholder(s: string) {
    forall i, j :: !TokenAt(s, i, j)
  }

  // ---------------------------------------------------------------------------
  // Tokens as the scanner reports them
  // ---------------------------------------------------------------------------

  /** The optional `\s*|\s*default` group: the spaces around the bar and the default itself. */
  datatype DefaultPart = DefaultPart(before: string, after: string, value: string)

  /** A match, split into the pieces the pattern is made of; `name` and `default` are the captures. */
  datatype Token = Token(lead: string, name: string, default: Option<DefaultPart>, trail: string)

  function DefaultText(d: Option<DefaultPart>): string {
    match d
    case None => ""
    case Some(p) => p.before + "|" + p.after + p.value
  }

  /** The whole matched text, `$matches[0]`. */
  function TokenText(tok: Token): string {
    "{" + tok.lead + tok.name + DefaultText(tok.default) + tok.trail + "}"
  }

  predicate WellFormedToken(tok: Token) {
    && All(tok.lead, IsSpace) && |tok.name| > 0 && All(tok.name, IsNameChar) && All(tok.trail, IsSpace)
    && match tok.default
       case None => true
       case Some(p) => All(p.before, IsSpace) && All(p.after, IsSpace) && All(p.value, IsNameChar)
  }

  // ---------------------------------------------------------------------------
  // The scanner
  // ---------------------------------------------------------------------------

  /** The last index whose character is not a space, or -1. */
  function LastNotBlank(a: string): (p: int)
    ensures -1 <= p < |a|
    ensures p >= 0 ==> a[p] != ' '
    ensures forall j :: p < j < |a| ==> a[j] == ' '
  {
    if |a| == 0 then -1
    else if a[|a| - 1] != ' ' then |a| - 1
    else LastNotBlank(a[..|a| - 1])
  }

  /**
   * `\s*([^|} ]+)\s*` on a segment without `|`: the leading `\s*` takes every whitespace
   * character it can and the name runs greedily from there. When the segment is all whitespace,
   * backtracking hands the name the last character that is not a space (a tab, say).
   * The result is (leading spaces, name, trailing spaces).
   */
  function ParseName(a: string): Option<(string, string, string)> {
    var f := FirstWhere(a, 0, NotSpace);
    if f < |a| then
      var e := FirstWhere(a, f, NotNameChar);
      if e > f && All(a[e..], IsSpace) then
        Some((a[..f], a[f..e], a[e..]))
      else None
    else
      var p := LastNotBlank(a);
      if p >= 0 then
        Some((a[..p], a[p..p + 1], a[p + 1..]))
      else None
  }

  /** `\s*([^|} ]*)\s*`: as a name, but the default may be empty (all of `b` is then whitespace). */
  function ParseDefault(b: string): Option<(string, string, string)> {
    var f := FirstWhere(b, 0, NotSpace);
    var e := FirstWhere(b, f, NotNameChar);
    if All(b[e..], IsSpace) then
      Some((b[..f], b[f..e], b[e..]))
    else None
  }

  lemma TextWithoutDefault(c: string, l: string, n: string, t: string)
    requires l + n + t == c
    ensures TokenText(Token(l, n, None, t)) == "{" + c + "}"
  {
  }

  lemma TextWithDefault(c: string, q: nat, l: string, n: string, t: string, a: string, v: string, t': string)
    requires q < |c| && c[q] == '|'
    requires l + n + t == c[..q] && a + v + t' == c[q + 1..]
    ensures TokenText(Token(l, n, Some(DefaultPart(t, a, v)), t')) == "{" + c + "}"
  {
    assert c == c[..q] + "|" + c[q + 1..];
  }

  /** The captures for the text `c` strictly between a `{` and the first `}` after it. */
  function BodyToken(c: string): Option<Token> {
    var q := FirstWhere(c, 0, IsBar);
    if q == |c| then
      match ParseName(c)
      case None => None
      case Some((l, n, t)) => Some(Token(l, n, None, t))
    else
      match (ParseName(c[..q]), ParseDefault(c[q + 1..]))
      case (Some((l, n, t)), Some((a, v, t'))) => Some(Token(l, n, Some(DefaultPart(t, a, v)), t'))
      case _ => None
  }

  /** The match of the placeholder pattern that starts at position `i`, if there is one. */
  function MatchAt(s: string, i: nat): Option<Token> {
    if i >= |s| || s[i] != '{' then None
    else
      var k := FirstWhere(s, i + 1, IsClose);
      if k == |s| then None
      else BodyToken(s[i + 1..k])
  }

  /** The name captures split the segment into leading spaces, a non-empty name and trailing spaces. */
  lemma ParseNameSound(a: string)
    ensures ParseName(a).Some? ==> var (l, n, t) := ParseName(a).value;
      l + n + t == a && All(l, IsSpace) && |n| > 0 && All(n, IsNameChar) && All(t, IsSpace)
  {
    var f := FirstWhere(a, 0, NotSpace);
    if f < |a| {
      var e := FirstWhere(a, f, NotNameChar);
      assert a[..f] + a[f..e] + a[e..] == a;
    } else {
      var p := LastNotBlank(a);
      if p >= 0 {
        assert a[..p] + a[p..p + 1] + a[p + 1..] == a;
      }
    }
  }

  /** As for a name, except that the default may be empty. */
  lemma ParseDefaultSound(b: string)
    ensures ParseDefault(b).Some? ==> var (l, v, t) := ParseDefault(b).value;
      l + v + t == b && All(l, IsSpace) && All(v, IsNameChar) && All(t, IsSpace)
  {
    var f := FirstWhere(b, 0, NotSpace);
    var e := FirstWhere(b, f, NotNameChar);
    assert b[..f] + b[f..e] + b[e..] == b;
  }

  /** The pieces of a reported token put back together give the braced text. */
  lemma BodyTokenSound(c: string)
    ensures BodyToken(c).Some? ==>
      WellFormedToken(BodyToken(c).value) && TokenText(BodyToken(c).value) == "{" + c + "}"
  {
    var q := FirstWhere(c, 0, IsBar);
    if q == |c| {
      ParseNameSound(c);
      if ParseName(c).Some? {
        var (l, n, t) := ParseName(c).value;
        TextWithoutDefault(c, l, n, t);
      }
    } else {
      ParseNameSound(c[..q]);
      ParseDefaultSound(c[q + 1..]);
      if ParseName(c[..q]).Some? && ParseDefault(c[q + 1..]).Some? {
        var (l, n, t) := ParseName(c[..q]).value;
        var (a, v, t') := ParseDefault(c[q + 1..]).value;
        TextWithDefault(c, q, l, n, t, a, v, t');
      }
    }
  }

  /** A token reported at `i` is well formed and its text sits at `i`. */
  lemma MatchAtSound(s: string, i: nat)
    ensures MatchAt(s, i).Some? ==> var tok := MatchAt(s, i).value;
      && WellFormedToken(tok)
      && i + |TokenText(tok)| <= |s| && s[i..i + |TokenText(tok)|] == TokenText(tok)
  {
    if i < |s| && s[i] == '{' {
      var k := FirstWhere(s, i + 1, IsClose);
      if k < |s| {
        var c := s[i + 1..k];
        assert s[i..k + 1] == "{" + c + "}";
        BodyTokenSound(c);
      }
    }
  }

  /** `preg_match`: the leftmost position at or after `from` where the pattern matches. */
  function FindToken(s: string, from: nat): Option<(nat, Token)>
    requires from <= |s|
    decreases |s| - from
  {
    if from == |s| then None
    else match MatchAt(s, from)
      case Some(tok) => Some((from, tok))
      case None => FindToken(s, from + 1)
  }

  /** A scan that finds nothing passed only positions where the scanner reports nothing. */
  lemma {:induction false} FindTokenNone(s: string, from: nat)
    requires from <= |s| && FindToken(s, from).None?
    ensures forall j :: from <= j < |s| ==> MatchAt(s, j).None?
    decreases |s| - from
  {
    if from < |s| {
      FindTokenNone(s, from + 1);
    }
  }

  /** A scan that stops at `i` found a match there and passed only positions without one. */
  lemma {:induction false} FindTokenSome(s: string, from: nat, i: nat, tok: Token)
    requires from <= |s| && FindToken(s, from) == Some((i, tok))
    ensures from <= i < |s| && MatchAt(s, i) == Some(tok)
    ensures forall j :: from <= j < i ==> MatchAt(s, j).None?
    decreases |s| - from
  {
    if from < |s| && MatchAt(s, from).None? {
      FindTokenSome(s, from + 1, i, tok);
    }
  }

  // ---------------------------------------------------------------------------
  // The scanner agrees with the grammar
  // ---------------------------------------------------------------------------

  lemma SegChars(a: string, x: int, y: int)
    requires Seg(a, x, y)
    ensures Lacks(a, '|') && Lacks(a, '}')
  {
    forall m | 0 <= m < |a|
      ensures a[m] != '|' && a[m] != '}'
    {
      if m < x {
        assert a[..x][m] == a[m];
      } else if m < y {
        assert a[x..y][m - x] == a[m];
      } else {
        assert a[y..][m - y] == a[m];
      }
    }
  }

  lemma SegConcat(l: string, n: string, t: string)
    requires All(l, IsSpace) && All(n, IsNameChar) && All(t, IsSpace)
    ensures Seg(l + n + t, |l|, |l| + |n|)
  {
    var a := l + n + t;
    assert a[..|l|] == l && a[|l|..|l| + |n|] == n && a[|l| + |n|..] == t;
  }

  lemma SegAt(a: string, x: int, y: int, m: int)
    requires Seg(a, x, y)
    ensures 0 <= m < x ==> IsSpace(a[m])
    ensures x <= m < y ==> IsNameChar(a[m])
    ensures y <= m < |a| ==> IsSpace(a[m])
  {
    if 0 <= m < x {
      assert a[..x][m] == a[m];
    } else if x <= m < y {
      assert a[x..y][m - x] == a[m];
    } else if y <= m < |a| {
      assert a[y..][m - y] == a[m];
    }
  }

  lemma Braced(c: string)
    requires IsTokenBody(c)
    ensures IsToken("{" + c + "}")
  {
    var t := "{" + c + "}";
    assert t[1..|t| - 1] == c;
  }

  lemma BodyWithDefault(a: string, b: string)
    requires NameSeg(a) && DefaultSeg(b)
    ensures IsTokenBody(a + "|" + b)
  {
    var c := a + "|" + b;
    assert c[|a|] == '|' && c[..|a|] == a && c[|a| + 1..] == b;
  }

  /** Every token the scanner reports reads as the placeholder pattern. */
  lemma TokenSound(tok: Token)
    requires WellFormedToken(tok)
    ensures IsToken(TokenText(tok))
  {
    var c := tok.lead + tok.name + DefaultText(tok.default) + tok.trail;
    assert TokenText(tok) == "{" + c + "}";
    match tok.default
    case None =>
      assert c == tok.lead + tok.name + tok.trail;
      SegConcat(tok.lead, tok.name, tok.trail);
      Braced(c);
    case Some(p) =>
      var a := tok.lead + tok.name + p.before;
      var b := p.after + p.value + tok.trail;
      assert c == a + "|" + b;
      SegConcat(tok.lead, tok.name, p.before);
      SegConcat(p.after, p.value, tok.trail);
      BodyWithDefault(a, b);
      Braced(c);
  }

  lemma ParseNameComplete(a: string, x: int, y: int)
    requires x < y && Seg(a, x, y)
    ensures ParseName(a).Some?
  {
    var f := FirstWhere(a, 0, NotSpace);
    if f < |a| {
      SegAt(a, x, y, f);
      var e := FirstWhere(a, f, NotNameChar);
      SegAt(a, x, y, e);
      assert e >= y;
      assert forall m :: 0 <= m < |a[e..]| ==> a[e..][m] == a[y..][m + e - y];
    } else {
      SegAt(a, x, y, x);
      var p := LastNotBlank(a);
      assert p >= x;
    }
  }

  lemma ParseDefaultComplete(b: string, x: int, y: int)
    requires Seg(b, x, y)
    ensures ParseDefault(b).Some?
  {
    var f := FirstWhere(b, 0, NotSpace);
    var e := FirstWhere(b, f, NotNameChar);
    if f < |b| {
      SegAt(b, x, y, f);
      SegAt(b, x, y, e);
      assert e >= y;
      assert forall m :: 0 <= m < |b[e..]| ==> b[e..][m] == b[y..][m + e - y];
    }
  }

  /**
   * Of all the splits the grammar admits, the name capture is the one PCRE's backtracking tries
   * first: the leading `\s*` is as long as it can be, and then the name is as long as it can be.
   */
  lemma ParseNameGreedy(a: string, x: int, y: int)
    requires x < y && Seg(a, x, y) && ParseName(a).Some?
    ensures var (l, n, _) := ParseName(a).value;
      x < |l| || (x == |l| && y <= |l| + |n|)
  {
    var f := FirstWhere(a, 0, NotSpace);
    if f < |a| {
      SegAt(a, x, y, f);
      var e := FirstWhere(a, f, NotNameChar);
      if x == f {
        SegAt(a, x, y, e);
      }
    } else {
      var p := LastNotBlank(a);
      SegAt(a, x, y, y - 1);
    }
  }

  /** The same preference for the default capture, which may be empty. */
  lemma ParseDefaultGreedy(b: string, x: int, y: int)
    requires Seg(b, x, y) && ParseDefault(b).Some?
    ensures var (l, v, _) := ParseDefault(b).value;
      x < |l| || (x == |l| && y <= |l| + |v|)
  {
    var f := FirstWhere(b, 0, NotSpace);
    var e := FirstWhere(b, f, NotNameChar);
    if f < |b| {
      SegAt(b, x, y, f);
      if x == f {
        SegAt(b, x, y, e);
      }
    }
  }

  lemma BodyTokenWhenParsed(c: string)
    ensures FirstWhere(c, 0, IsBar) == |c| && ParseName(c).Some? ==> BodyToken(c).Some?
    ensures var q := FirstWhere(c, 0, IsBar);
      q < |c| && ParseName(c[..q]).Some? && ParseDefault(c[q + 1..]).Some? ==> BodyToken(c).Some?
  {
  }

  lemma BodyNameOnly(c: string, x: int, y: int)
    requires x < y && Seg(c, x, y)
    ensures BodyToken(c).Some?
    ensures Lacks(c, '}')
  {
    SegChars(c, x, y);
    ParseNameComplete(c, x, y);
    BodyTokenWhenParsed(c);
  }

  lemma BarSplitChars(c: string, q: int)
    requires 0 <= q < |c| && c[q] == '|'
    requires Lacks(c[..q], '|') && Lacks(c[..q], '}') && Lacks(c[q + 1..], '}')
    ensures FirstWhere(c, 0, IsBar) == q
    ensures Lacks(c, '}')
  {
    forall m | 0 <= m < |c|
      ensures c[m] != '}' && (m < q ==> c[m] != '|')
    {
      if m < q {
        assert c[..q][m] == c[m];
      } else if m > q {
        assert c[q + 1..][m - q - 1] == c[m];
      }
    }
  }

  lemma BodyNameDefault(c: string, q: int, x: int, y: int, x': int, y': int)
    requires 0 <= q < |c| && c[q] == '|'
    requires x < y && Seg(c[..q], x, y) && Seg(c[q + 1..], x', y')
    ensures BodyToken(c).Some?
    ensures Lacks(c, '}')
  {
    SegChars(c[..q], x, y);
    SegChars(c[q + 1..], x', y');
    BarSplitChars(c, q);
    ParseNameComplete(c[..q], x, y);
    ParseDefaultComplete(c[q + 1..], x', y');
    BodyTokenWhenParsed(c);
  }

  lemma BodyTokenComplete(c: string)
    requires IsTokenBody(c)
    ensures BodyToken(c).Some?
    ensures Lacks(c, '}')
  {
    if NameSeg(c) {
      var x, y :| x < y && Seg(c, x, y);
      BodyNameOnly(c, x, y);
    } else {
      var q :| 0 <= q < |c| && c[q] == '|' && NameSeg(c[..q]) && DefaultSeg(c[q + 1..]);
      var x, y :| x < y && Seg(c[..q], x, y);
      var x', y' :| Seg(c[q + 1..], x', y');
      BodyNameDefault(c, q, x, y, x', y');
    }
  }

  lemma FirstClose(s: string, i: nat, j: nat)
    requires i + 2 <= j <= |s| && s[j - 1] == '}' && Lacks(s[i + 1..j - 1], '}')
    ensures FirstWhere(s, i + 1, IsClose) == j - 1
  {
  }

  lemma MatchAtUnfold(s: string, i: nat, k: nat)
    requires i < |s| && s[i] == '{' && FirstWhere(s, i + 1, IsClose) == k && k < |s|
    ensures MatchAt(s, i) == BodyToken(s[i + 1..k])
  {
  }

  lemma MatchAtBody(s: string, i: nat, j: nat)
    requires i + 2 <= j <= |s| && s[i] == '{' && s[j - 1] == '}' && Lacks(s[i + 1..j - 1], '}')
    ensures MatchAt(s, i) == BodyToken(s[i + 1..j - 1])
  {
    FirstClose(s, i, j);
    MatchAtUnfold(s, i, j - 1);
  }

  lemma InnerSlice(s: string, i: nat, j: nat)
    requires i + 2 <= j <= |s|
    ensures s[i..j][1..j - i - 1] == s[i + 1..j - 1]
    ensures s[i..j][0] == s[i] && s[i..j][j - i - 1] == s[j - 1]
  {
    var t := s[i..j];
    var u := t[1..j - i - 1];
    assert forall m :: 0 <= m < |u| ==> u[m] == s[i + 1..j - 1][m];
  }

  /** Wherever some substring matches the pattern, the scanner finds a match at its start. */
  lemma MatchAtComplete(s: string, i: nat, j: nat)
    requires TokenAt(s, i, j)
    ensures MatchAt(s, i).Some?
  {
    InnerSlice(s, i, j);
    BodyTokenComplete(s[i + 1..j - 1]);
    MatchAtBody(s, i, j);
  }

  /** The scanner rejects position `i` only if no substring starting there matches. */
  lemma TokenStartsMatch(s: string, i: nat, j: int)
    ensures TokenAt(s, i, j) ==> MatchAt(s, i).Some?
  {
    if TokenAt(s, i, j) {
      MatchAtComplete(s, i, j);
    }
  }

  /** What the scanner reports at `i` is a match of the pattern, sitting at `i` in `s`. */
  lemma MatchedText(s: string, i: nat, tok: Token)
    requires MatchAt(s, i) == Some(tok)
    ensures IsToken(TokenText(tok)) && OccursAt(TokenText(tok), s, i)
    ensures TokenAt(s, i, i + |TokenText(tok)|)
  {
    MatchAtSound(s, i);
    var t := TokenText(tok);
    assert i + |t| <= |s| && s[i..i + |t|] == t;
    TokenSound(tok);
  }

  lemma Witness(s: string, i: nat, j: nat)
    requires TokenAt(s, i, j)
    ensures !NoPlaceholder(s)
  {
  }

  /** `preg_match` finds nothing exactly when no substring matches the pattern. */
  lemma NoPlaceholderIff(s: string)
    ensures NoPlaceholder(s) <==> FindToken(s, 0).None?
  {
    match FindToken(s, 0)
    case Some((i, tok)) =>
      FindTokenSome(s, 0, i, tok);
      FoundPlaceholder(s, i, tok);
    case None =>
      NothingFound(s);
  }

  /** A match the scanner reports is a substring that matches the pattern. */
  lemma FoundPlaceholder(s: string, i: nat, tok: Token)
    requires MatchAt(s, i) == Some(tok)
    ensures !NoPlaceholder(s)
  {
    MatchedText(s, i, tok);
    Witness(s, i, i + |TokenText(tok)|);
  }

  /** When the scan finds nothing, no substring matches the pattern. */
  lemma NothingFound(s: string)
    requires FindToken(s, 0).None?
    ensures NoPlaceholder(s)
  {
    FindTokenNone(s, 0);
    forall i, j
      ensures !TokenAt(s, i, j)
    {
      if 0 <= i {
        TokenStartsMatch(s, i, j);
      }
    }
  }

  /**
   * The match `preg_match` reports is the leftmost one: no substring starting earlier matches,
   * so in particular the matched text does not occur earlier.
   */
  lemma FindTokenLeftmost(s: string, i: nat, tok: Token)
    requires FindToken(s, 0) == Some((i, tok))
    ensures IsToken(TokenText(tok)) && OccursAt(TokenText(tok), s, i)
    ensures forall i', j :: 0 <= i' < i ==> !TokenAt(s, i', j)
    ensures forall i' :: 0 <= i' < i ==> !OccursAt(TokenText(tok), s, i')
  {
    FindTokenSome(s, 0, i, tok);
    MatchedText(s, i, tok);
    NoTokenBefore(s, i);
    NoOccurrenceBefore(s, i, TokenText(tok));
  }

  /** Where the scanner found no match, no substring starting there matches the pattern. */
  lemma NoTokenBefore(s: string, i: nat)
    requires forall j :: 0 <= j < i ==> MatchAt(s, j).None?
    ensures forall i', j :: 0 <= i' < i ==> !TokenAt(s, i', j)
  {
    forall i', j | 0 <= i' < i
      ensures !TokenAt(s, i', j)
    {
      TokenStartsMatch(s, i', j);
    }
  }

  /** A placeholder text cannot occur where no substring matches the pattern. */
  lemma NoOccurrenceBefore(s: string, i: nat, t: string)
    requires IsToken(t)
    requires forall i', j :: 0 <= i' < i ==> !TokenAt(s, i', j)
    ensures forall i' :: 0 <= i' < i ==> !OccursAt(t, s, i')
  {
    forall i' | 0 <= i' < i
      ensures !OccursAt(t, s, i')
    {
      if i' + |t| <= |s| {
        assert !TokenAt(s, i', i' + |t|);
      }
    }
  }

  // ---------------------------------------------------------------------------
  // Placeholders written without spaces
  // ---------------------------------------------------------------------------

  /** A character that may appear in a name and is not whitespace. */
  predicate IsPlain(c: char) {
    IsNameChar(c) && !IsSpace(c)
  }

  lemma PlainSegment(n: string)
    requires All(n, IsPlain)
    ensures |n| > 0 ==> ParseName(n) == Some(("", n, ""))
    ensures ParseDefault(n) == Some(("", n, ""))
  {
    assert FirstWhere(n, 0, NotNameChar) == |n|;
    if |n| > 0 {
      assert NotSpace(n[0]);
    }
    assert FirstWhere(n, 0, NotSpace) == 0;
    assert n[..0] == "" && n[0..|n|] == n && n[|n|..] == "";
  }

  /** `{name}` and `{name|default}` without spaces capture the name and the default as written. */
  lemma PlainBody(n: string, d: string)
    requires |n| > 0 && All(n, IsPlain) && All(d, IsPlain)
    ensures BodyToken(n) == Some(Token("", n, None, ""))
    ensures BodyToken(n + "|" + d) == Some(Token("", n, Some(DefaultPart("", "", d)), ""))
  {
    PlainSegment(n);
    PlainSegment(d);
    assert FirstWhere(n, 0, IsBar) == |n|;
    var c := n + "|" + d;
    assert c[|n|] == '|';
    assert forall j :: 0 <= j < |n| ==> c[j] == n[j];
    assert FirstWhere(c, 0, IsBar) == |n|;
    assert c[..|n|] == n && c[|n| + 1..] == d;
  }

  /** Positions before the first `{` are skipped by the scan. */
  lemma {:induction false} FindTokenSkip(s: string, from: nat, to: nat)
    requires from <= to <= |s| && forall j :: from <= j < to ==> s[j] != '{'
    ensures FindToken(s, from) == FindToken(s, to)
    decreases |s| - from
  {
    if from < to {
      FindTokenSkip(s, from + 1, to);
    }
  }

  lemma BracedParts(p: string, c: string, rest: string)
    ensures var s := p + "{" + c + "}" + rest;
      && (forall j :: 0 <= j < |p| ==> s[j] == p[j])
      && |p| + |c| + 2 <= |s| && s[|p|] == '{' && s[|p| + |c| + 1] == '}'
      && s[|p| + 1..|p| + |c| + 1] == c
  {
    var s := p + "{" + c + "}" + rest;
    assert s == p + ("{" + c + "}" + rest);
    assert forall j :: 0 <= j < |c| ==> s[|p| + 1 + j] == c[j];
  }

  /** The scan stops at the first `{` when the text up to the next `}` reads as a placeholder. */
  lemma FindTokenFirstBrace(s: string, i: nat, k: nat)
    requires i + 2 <= k <= |s| && s[i] == '{' && s[k - 1] == '}' && Lacks(s[i + 1..k - 1], '}')
    requires forall j :: 0 <= j < i ==> s[j] != '{'
    requires BodyToken(s[i + 1..k - 1]).Some?
    ensures FindToken(s, 0) == Some((i, BodyToken(s[i + 1..k - 1]).value))
  {
    FindTokenSkip(s, 0, i);
    MatchAtBody(s, i, k);
  }

  /** A scan of text `p + "{" + c + "}" + rest` with no `{` in `p` looks first at the body `c`. */
  lemma FindTokenBraced(p: string, c: string, rest: string)
    requires Lacks(p, '{') && Lacks(c, '}')
    ensures var s := p + "{" + c + "}" + rest;
      BodyToken(c).Some? ==> FindToken(s, 0) == Some((|p|, BodyToken(c).value))
  {
    var s := p + "{" + c + "}" + rest;
    if BodyToken(c).Some? {
      var i, k := |p|, |p| + |c| + 2;
      BracedParts(p, c, rest);
      assert s[i + 1..k - 1] == c;
      forall j | 0 <= j < i
        ensures s[j] != '{'
      {
        assert s[j] == p[j];
      }
      FindTokenFirstBrace(s, i, k);
    }
  }

  /** Text without `{` holds no placeholder. */
  lemma FindTokenNoBrace(s: string)
    requires Lacks(s, '{')
    ensures FindToken(s, 0).None?
  {
    FindTokenSkip(s, 0, |s|);
  }
}
