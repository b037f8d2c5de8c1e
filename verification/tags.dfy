/**
 * The release-tag parser of `Deploy::production`: the nearest `v*` tag is stripped of its first
 * character and split on `.` or `-` into 3, 4 or 5 parts.
 */
module Tags {
  import opened Outcomes
  import opened Text

  /** What follows the patch number: nothing, a pre-release identifier, or an identifier and an increment. */
  datatype PreRelease =
    | Release                                   // `vM.m.p`
    | Pre(id: string)                        // `vM.m.p-id`
    | PreN(id: string, increment: string)    // `vM.m.p-id.N`

  /**
   * A parsed tag. The parts are kept as the text they were split from, since the source
   * interpolates that text verbatim and only converts it to a number for `+ 1`.
   */
  datatype SemanticTag = SemanticTag(major: string, minor: string, patch: string, pre: PreRelease)

  predicate IsSeparator(c: char) {
    c == '.' || c == '-'
  }

  /** The index of the first separator in `s`, or |s| when there is none. */
  function FirstSeparator(s: string): (k: nat)
    ensures k <= |s|
  {
    if |s| == 0 || IsSeparator(s[0]) then 0 else 1 + FirstSeparator(s[1..])
  }

  lemma {:induction false} FirstSeparatorIsFirst(s: string)
    ensures forall j :: 0 <= j < FirstSeparator(s) ==> !IsSeparator(s[j])
    ensures FirstSeparator(s) < |s| ==> IsSeparator(s[FirstSeparator(s)])
  {
    if |s| > 0 && !IsSeparator(s[0]) {
      FirstSeparatorIsFirst(s[1..]);
      assert forall j :: 1 <= j < FirstSeparator(s) ==> s[j] == s[1..][j - 1];
    }
  }

  /** A part that survives splitting unchanged: its first separator lies past its end. */
  predicate Atomic(part: string) {
    FirstSeparator(part) == |part|
  }

  lemma AtomicIff(part: string)
    ensures Atomic(part) <==> forall j :: 0 <= j < |part| ==> !IsSeparator(part[j])
  {
    FirstSeparatorIsFirst(part);
  }

  /** Behind an atomic prefix, the first separator is found where the rest has its first one. */
  lemma {:induction false} FirstSeparatorConcat(p: string, q: string)
    requires Atomic(p)
    ensures FirstSeparator(p + q) == |p| + FirstSeparator(q)
  {
    if |p| == 0 {
      assert p + q == q;
    } else {
      assert (p + q)[0] == p[0] && (p + q)[1..] == p[1..] + q;
      FirstSeparatorConcat(p[1..], q);
    }
  }

  /** `preg_split("#[.-]#", s)`: the pieces between separators, empty pieces included. */
  function Split(s: string): (parts: seq<string>)
    ensures |parts| >= 1
    decreases |s|
  {
    var k := FirstSeparator(s);
    if k == |s| then [s] else [s[..k]] + Split(s[k + 1..])
  }

  /** No part holds a separator. */
  lemma {:induction false} SplitPartsAtomic(s: string)
    ensures forall k :: 0 <= k < |Split(s)| ==> Atomic(Split(s)[k])
    decreases |s|
  {
    var k := FirstSeparator(s);
    FirstSeparatorIsFirst(s);
    AtomicIff(s[..k]);
    if k < |s| {
      SplitPartsAtomic(s[k + 1..]);
    } else {
      assert s[..k] == s;
    }
  }


  /** Number of separator characters; a split yields one more part than this. */
  function SeparatorCount(s: string): nat {
    if |s| == 0 then 0 else (if IsSeparator(s[0]) then 1 else 0) + SeparatorCount(s[1..])
  }

  lemma {:induction false} SeparatorCountPrefix(s: string, k: nat)
    requires k <= |s|
    requires forall j :: 0 <= j < k ==> !IsSeparator(s[j])
    ensures SeparatorCount(s) == SeparatorCount(s[k..])
  {
    if k > 0 {
      SeparatorCountPrefix(s[1..], k - 1);
      assert s[1..][k - 1..] == s[k..];
    }
  }

  /** Splitting yields exactly one part more than there are separators. */
  lemma {:induction false} SplitLength(s: string)
    ensures |Split(s)| == SeparatorCount(s) + 1
    decreases |s|
  {
    var k := FirstSeparator(s);
    FirstSeparatorIsFirst(s);
    SeparatorCountPrefix(s, k);
    if k < |s| {
      SplitLength(s[k + 1..]);
      assert s[k..][1..] == s[k + 1..];
    }
  }

  /** Joining the parts back with separators restores the input. */
  function Join(parts: seq<string>, seps: string): string
    requires |seps| == |parts| - 1
  {
    if |parts| == 1 then parts[0] else parts[0] + [seps[0]] + Join(parts[1..], seps[1..])
  }

  /** The separators of `s`, in order. */
  function Separators(s: string): (seps: string)
    ensures |seps| == SeparatorCount(s)
  {
    if |s| == 0 then [] else (if IsSeparator(s[0]) then [s[0]] else []) + Separators(s[1..])
  }

  lemma {:induction false} SeparatorsPrefix(s: string, k: nat)
    requires k <= |s|
    requires forall j :: 0 <= j < k ==> !IsSeparator(s[j])
    ensures Separators(s) == Separators(s[k..])
  {
    if k > 0 {
      SeparatorsPrefix(s[1..], k - 1);
      assert s[1..][k - 1..] == s[k..];
    }
  }

  /** `Split` loses nothing: the parts and the separators between them rebuild the input. */
  lemma {:induction false} SplitJoin(s: string)
    ensures |Separators(s)| == |Split(s)| - 1
    ensures Join(Split(s), Separators(s)) == s
    decreases |s|
  {
    SplitLength(s);
    var k := FirstSeparator(s);
    FirstSeparatorIsFirst(s);
    SeparatorsPrefix(s, k);
    if k < |s| {
      SplitJoin(s[k + 1..]);
      assert s[k..][1..] == s[k + 1..];
      assert s == s[..k] + [s[k]] + s[k + 1..];
    }
  }

  /**
   * `.` and `-` are interchangeable: two strings that differ only in which separator stands at
   * each position split into the same parts.
   */
  lemma {:induction false} SplitSeparatorsInterchangeable(a: string, b: string)
    requires |a| == |b|
    requires forall j :: 0 <= j < |a| ==> a[j] == b[j] || (IsSeparator(a[j]) && IsSeparator(b[j]))
    ensures Split(a) == Split(b)
    decreases |a|
  {
    var k := FirstSeparator(a);
    FirstSeparatorSame(a, b);
    assert a[..k] == b[..k];
    if k < |a| {
      var a', b' := a[k + 1..], b[k + 1..];
      assert forall j :: 0 <= j < |a'| ==> a'[j] == a[k + 1 + j] && b'[j] == b[k + 1 + j];
      SplitSeparatorsInterchangeable(a', b');
    } else {
      assert a == a[..k] && b == b[..k];
    }
  }

  /** Strings that agree up to the choice of separator have their first separator at one index. */
  lemma {:induction false} FirstSeparatorSame(a: string, b: string)
    requires |a| == |b|
    requires forall j :: 0 <= j < |a| ==> a[j] == b[j] || (IsSeparator(a[j]) && IsSeparator(b[j]))
    ensures FirstSeparator(a) == FirstSeparator(b)
    ensures forall j :: 0 <= j < FirstSeparator(a) ==> a[j] == b[j]
  {
    if |a| > 0 && !IsSeparator(a[0]) {
      assert a[0] == b[0];
      assert forall j :: 0 <= j < |a[1..]| ==> a[1..][j] == a[j + 1] && b[1..][j] == b[j + 1];
      FirstSeparatorSame(a[1..], b[1..]);
      forall j | 0 <= j < FirstSeparator(a)
        ensures a[j] == b[j]
      {
        if j > 0 {
          assert a[j] == a[1..][j - 1] && b[j] == b[1..][j - 1];
        }
      }
    }
  }

  /** PHP `substr($tag, 1)`: everything after the first character ("" for an empty tag). */
  function Body(tag: string): string {
    if |tag| == 0 then "" else tag[1..]
  }

  /** The tag split of `Deploy::production`: 3, 4 or 5 parts, otherwise "Unknown tag format". */
  function Parse(tag: string): (r: Result<SemanticTag>)
    ensures r.Ok? <==> 2 <= SeparatorCount(Body(tag)) <= 4
    ensures r.Err? ==> r.error == UnknownTagFormat(tag)
  {
    var parts := Split(Body(tag));
    SplitLength(Body(tag));
    if |parts| == 3 then Ok(SemanticTag(parts[0], parts[1], parts[2], Release))
    else if |parts| == 4 then Ok(SemanticTag(parts[0], parts[1], parts[2], Pre(parts[3])))
    else if |parts| == 5 then Ok(SemanticTag(parts[0], parts[1], parts[2], PreN(parts[3], parts[4])))
    else Err(UnknownTagFormat(tag))
  }

  /**
   * The parts land in order in major, minor and patch; a fourth part is the pre-release
   * identifier and a fifth its increment.
   */
  lemma ParseParts(tag: string)
    requires Parse(tag).Ok?
    ensures var parts, t := Split(Body(tag)), Parse(tag).value;
      && 3 <= |parts| <= 5
      && [t.major, t.minor, t.patch] == parts[..3]
      && (t.pre.Release? <==> |parts| == 3)
      && (t.pre.Pre? ==> [t.pre.id] == parts[3..])
      && (t.pre.PreN? ==> [t.pre.id, t.pre.increment] == parts[3..])
  {
    var parts := Split(Body(tag));
    SplitLength(Body(tag));
    if |parts| == 4 {
      assert parts[3..] == [parts[3]];
    } else if |parts| == 5 {
      assert parts[3..] == [parts[3], parts[4]];
    }
  }

  /**
   * Tags that differ only in which separator stands where (`v1.2.3-rc-1` and `v1.2.3-rc.1`) parse
   * to the same parts, or are both rejected.
   */
  lemma ParseSeparatorsInterchangeable(a: string, b: string)
    requires |a| == |b| > 0
    requires forall j :: 1 <= j < |a| ==> a[j] == b[j] || (IsSeparator(a[j]) && IsSeparator(b[j]))
    ensures Parse(a).Ok? <==> Parse(b).Ok?
    ensures Parse(a).Ok? ==> Parse(a).value == Parse(b).value
  {
    var x, y := Body(a), Body(b);
    assert forall j :: 0 <= j < |x| ==> x[j] == a[j + 1] && y[j] == b[j + 1];
    SplitSeparatorsInterchangeable(x, y);
  }

  /** The pre-release identifier, when the tag has four or five parts. */
  function PreId(t: SemanticTag): Option<string> {
    match t.pre
    case Release => None
    case Pre(l) => Some(l)
    case PreN(l, _) => Some(l)
  }

  /** A tag printed in the canonical `vM.m.p[-id[.N]]` shape. */
  function Format(t: SemanticTag): string {
    "v" + (t.major + ("." + (t.minor + ("." + (t.patch + PreSuffix(t.pre))))))
  }

  function PreSuffix(pre: PreRelease): string {
    match pre
    case Release => ""
    case Pre(l) => "-" + l
    case PreN(l, n) => "-" + (l + ("." + n))
  }

  predicate WellFormed(t: SemanticTag) {
    && Atomic(t.major) && Atomic(t.minor) && Atomic(t.patch)
    && match t.pre
       case Release => true
       case Pre(l) => Atomic(l)
       case PreN(l, n) => Atomic(l) && Atomic(n)
  }

  lemma SplitAtomic(p: string, rest: string, c: char)
    requires Atomic(p) && IsSeparator(c)
    ensures Split(p + ([c] + rest)) == [p] + Split(rest)
  {
    var s := p + ([c] + rest);
    FirstSeparatorConcat(p, [c] + rest);
    assert FirstSeparator([c] + rest) == 0;
    assert s[..|p|] == p;
    assert s[|p| + 1..] == rest;
  }

  lemma SplitAtomicLast(p: string)
    requires Atomic(p)
    ensures Split(p) == [p]
  {
  }

  lemma SplitRelease(x: string, y: string, z: string)
    requires Atomic(x) && Atomic(y) && Atomic(z)
    ensures Split(x + (['.'] + (y + (['.'] + z)))) == [x, y, z]
  {
    SplitAtomicLast(z);
    SplitAtomic(y, z, '.');
    SplitAtomic(x, y + (['.'] + z), '.');
  }

  /** `SplitAtomic` with the split of the rest already known. */
  lemma SplitCons(p: string, c: char, rest: string, tail: seq<string>)
    requires Atomic(p) && IsSeparator(c) && Split(rest) == tail
    ensures Split(p + ([c] + rest)) == [p] + tail
  {
    SplitAtomic(p, rest, c);
  }

  lemma SplitPre(x: string, y: string, z: string, l: string)
    requires Atomic(x) && Atomic(y) && Atomic(z) && Atomic(l)
    ensures Split(x + (['.'] + (y + (['.'] + (z + (['-'] + l)))))) == [x, y, z, l]
  {
    var r2 := z + (['-'] + l);
    var r1 := y + (['.'] + r2);
    SplitPair(z, l, '-');
    SplitCons(y, '.', r2, [z, l]);
    assert [y] + [z, l] == [y, z, l];
    SplitCons(x, '.', r1, [y, z, l]);
    assert [x] + [y, z, l] == [x, y, z, l];
  }

  lemma SplitPreN(x: string, y: string, z: string, l: string, n: string)
    requires Atomic(x) && Atomic(y) && Atomic(z) && Atomic(l) && Atomic(n)
    ensures Split(x + (['.'] + (y + (['.'] + (z + (['-'] + (l + (['.'] + n)))))))) == [x, y, z, l, n]
  {
    var r3 := l + (['.'] + n);
    var r2 := z + (['-'] + r3);
    var r1 := y + (['.'] + r2);
    SplitPair(l, n, '.');
    SplitCons(z, '-', r3, [l, n]);
    assert [z] + [l, n] == [z, l, n];
    SplitCons(y, '.', r2, [z, l, n]);
    assert [y] + [z, l, n] == [y, z, l, n];
    SplitCons(x, '.', r1, [y, z, l, n]);
    assert [x] + [y, z, l, n] == [x, y, z, l, n];
  }

  lemma SplitPair(l: string, n: string, c: char)
    requires Atomic(l) && Atomic(n) && IsSeparator(c)
    ensures Split(l + ([c] + n)) == [l, n]
  {
    SplitAtomicLast(n);
    SplitAtomic(l, n, c);
  }

  /** Printing a well-formed tag and parsing it back gives the same tag. */
  lemma ParseFormat(t: SemanticTag)
    requires WellFormed(t)
    ensures Parse(Format(t)) == Ok(t)
  {
    var f := Format(t);
    var rest := t.major + ("." + (t.minor + ("." + (t.patch + PreSuffix(t.pre)))));
    assert Body(f) == rest;
    match t.pre
    case Release =>
      assert t.patch + "" == t.patch;
      SplitRelease(t.major, t.minor, t.patch);
    case Pre(l) =>
      SplitPre(t.major, t.minor, t.patch, l);
    case PreN(l, n) =>
      SplitPreN(t.major, t.minor, t.patch, l, n);
  }
}
