/**
 * The tag incrementer of `Deploy::incrementTag`: the candidate next tags of a parsed release tag,
 * and the check of the chosen release type against them.
 */
module Releases {
  import opened Outcomes
  import opened Text
  import opened Tags

  /** The release types offered by the incrementer, in the order they are presented. */
  datatype ReleaseType = Major | Minor | Patch | RcMajor | RcMinor | Rc

  /** The key under which each release type appears in the candidate map. */
  function Key(r: ReleaseType): string {
    match r
    case Major => "major"
    case Minor => "minor"
    case Patch => "patch"
    case RcMajor => "rcmajor"
    case RcMinor => "rcminor"
    case Rc => "rc"
  }

  /** The release type a key names, if any. */
  function ReleaseTypeOf(key: string): (r: Option<ReleaseType>)
    ensures r.Some? ==> Key(r.value) == key
    ensures r.None? ==> forall rt :: Key(rt) != key
  {
    if key == "major" then Some(Major)
    else if key == "minor" then Some(Minor)
    else if key == "patch" then Some(Patch)
    else if key == "rcmajor" then Some(RcMajor)
    else if key == "rcminor" then Some(RcMinor)
    else if key == "rc" then Some(Rc)
    else None
  }

  /**
   * The parts the incrementer adds one to are decimal naturals. The explicit pre-release
   * increment is only read when the pre-release identifier is truthy.
   */
  predicate Numeric(t: SemanticTag) {
    && IsDigits(t.major) && IsDigits(t.minor) && IsDigits(t.patch)
    && (t.pre.PreN? && Truthy(t.pre.id) ==> IsDigits(t.pre.increment))
  }

  /** The `rc` candidate is offered exactly when the tag carries a truthy pre-release identifier. */
  predicate RcAvailable(t: SemanticTag) {
    match t.pre
    case Release => false
    case Pre(l) => Truthy(l)
    case PreN(l, _) => Truthy(l)
  }

  /** `$preIncrement`: the fifth part, or 1 when the tag has no such part. */
  function PreIncrement(t: SemanticTag): nat
    requires t.pre.PreN? ==> All(t.pre.increment, IsDigit)
  {
    match t.pre
    case PreN(_, n) => Val(n)
    case _ => 1
  }

  /** The numeric suffix of the `rc` candidate: `.(i+1)`, left off when `i + 1` is not above 1. */
  function RcSuffix(i: nat): string {
    if i + 1 > 1 then "." + Show(i + 1) else ""
  }

  /** The release types on offer, in presentation order. */
  function Offered(t: SemanticTag): seq<ReleaseType> {
    [Major, Minor, Patch, RcMajor, RcMinor] + if RcAvailable(t) then [Rc] else []
  }

  /** The `rc` entry is in the map exactly when the tag has a truthy pre-release identifier. */
  lemma RcOffered(t: SemanticTag)
    requires Numeric(t)
    ensures Rc in Candidates(t) <==> PreId(t).Some? && Truthy(PreId(t).value)
  {
    assert Rc in Offered(t) <==> RcAvailable(t);
  }

  /**
   * Without an explicit fifth part the increment is 1, so the next `rc` is `.2`; with one, the
   * increment is the value of that fifth part.
   */
  lemma PreIncrementOfParse(tag: string)
    requires Parse(tag).Ok? && Numeric(Parse(tag).value)
    requires Parse(tag).value.pre.PreN? ==> All(Parse(tag).value.pre.increment, IsDigit)
    ensures var parts := Split(Body(tag));
      PreIncrement(Parse(tag).value) == if |parts| == 5 then Val(parts[4]) else 1
  {
    ParseParts(tag);
    var parts, t := Split(Body(tag)), Parse(tag).value;
    if t.pre.PreN? {
      assert parts[3..][1] == parts[4];
    }
  }

  /** The text of the candidate for release type `r`, concatenated as the source does. */
  function CandidateText(t: SemanticTag, r: ReleaseType): (s: string)
    requires Numeric(t)
    requires r == Rc ==> RcAvailable(t)
    ensures |s| > 0 && s[0] == 'v'
  {
    var majorPlus := Show(Val(t.major) + 1);
    var minorPlus := Show(Val(t.minor) + 1);
    match r
    case Major => "v" + majorPlus + ".0.0"
    case Minor => "v" + t.major + "." + minorPlus + ".0"
    case Patch => "v" + t.major + "." + t.minor + "." + Show(Val(t.patch) + 1)
    case RcMajor => "v" + majorPlus + ".0.0-rc"
    case RcMinor => "v" + t.major + "." + minorPlus + ".0-rc"
    case Rc => "v" + t.major + "." + t.minor + "." + t.patch + "-rc" + RcSuffix(PreIncrement(t))
  }

  /**
   * The candidate map: the five version bumps always, and `rc` only for a tag with a truthy
   * pre-release identifier. `CandidateReparses` states what each entry holds.
   */
  function Candidates(t: SemanticTag): (c: map<ReleaseType, string>)
    requires Numeric(t)
    ensures forall r :: r in c <==> r != Rc || RcAvailable(t)
  {
    assert forall r :: r in Offered(t) <==> r != Rc || RcAvailable(t) by {
      assert Offered(t)[..5] == [Major, Minor, Patch, RcMajor, RcMinor];
    }
    map r | r in Offered(t) :: CandidateText(t, r)
  }

  /** The `isset($tag[$release])` check: the chosen entry, or "Unknown release type". */
  function SelectRelease(candidates: map<ReleaseType, string>, key: string): (r: Result<string>)
    ensures r.Ok? <==> exists rt :: rt in candidates && Key(rt) == key
    ensures r.Ok? ==> r.value == candidates[ReleaseTypeOf(key).value]
    ensures r.Err? ==> r.error == UnknownReleaseType(key)
  {
    match ReleaseTypeOf(key)
    case Some(rt) => if rt in candidates then Ok(candidates[rt]) else Err(UnknownReleaseType(key))
    case None => Err(UnknownReleaseType(key))
  }

  /** The key the release is chosen by: the release argument when truthy, else the user's pick. */
  function ChosenKey(release: string, picked: string): string {
    if Truthy(release) then release else picked
  }

  /** `incrementTag`: the chosen key checked against the candidate map. */
  function IncrementTag(t: SemanticTag, release: string, picked: string): (r: Result<string>)
    requires Numeric(t)
    ensures var key := ChosenKey(release, picked);
      && (r.Ok? <==> ReleaseTypeOf(key).Some? && ReleaseTypeOf(key).value in Offered(t))
      && (r.Ok? ==> r.value == Candidates(t)[ReleaseTypeOf(key).value] && |r.value| > 0 && r.value[0] == 'v')
      && (r.Err? ==> r.error == UnknownReleaseType(key))
  {
    SelectRelease(Candidates(t), ChosenKey(release, picked))
  }

  /** The user is asked only when no release type was given: a given one makes the pick irrelevant. */
  lemma ExplicitReleaseIgnoresPick(t: SemanticTag, release: string, picked: string, picked': string)
    requires Numeric(t) && Truthy(release)
    ensures IncrementTag(t, release, picked) == IncrementTag(t, release, picked')
  {
  }

  // ---------------------------------------------------------------------------
  // The candidates as structured tags
  // ---------------------------------------------------------------------------

  /** The next tag for each release type, as a parsed tag rather than as text. */
  function Next(t: SemanticTag, r: ReleaseType): SemanticTag
    requires Numeric(t)
    requires r == Rc ==> RcAvailable(t)
  {
    var majorPlus := Show(Val(t.major) + 1);
    var minorPlus := Show(Val(t.minor) + 1);
    match r
    case Major => SemanticTag(majorPlus, "0", "0", Release)
    case Minor => SemanticTag(t.major, minorPlus, "0", Release)
    case Patch => SemanticTag(t.major, t.minor, Show(Val(t.patch) + 1), Release)
    case RcMajor => SemanticTag(majorPlus, "0", "0", Pre("rc"))
    case RcMinor => SemanticTag(t.major, minorPlus, "0", Pre("rc"))
    case Rc =>
      var i := PreIncrement(t);
      SemanticTag(t.major, t.minor, t.patch, if i == 0 then Pre("rc") else PreN("rc", Show(i + 1)))
  }

  lemma DigitsAtomic(s: string)
    requires All(s, IsDigit)
    ensures Atomic(s)
  {
    AtomicIff(s);
  }

  lemma FormatRelease(x: string, y: string, z: string)
    ensures Format(SemanticTag(x, y, z, Release)) == "v" + x + "." + y + "." + z
  {
  }

  lemma FormatPre(x: string, y: string, z: string, l: string)
    ensures Format(SemanticTag(x, y, z, Pre(l))) == "v" + x + "." + y + "." + z + "-" + l
  {
  }

  lemma FormatPreN(x: string, y: string, z: string, l: string, n: string)
    ensures Format(SemanticTag(x, y, z, PreN(l, n))) == "v" + x + "." + y + "." + z + "-" + l + "." + n
  {
  }

  /** The `.0.0` suffixes of the major candidates as `Format` pieces, for `CandidateIsFormat`. */
  lemma ZeroZero(x: string)
    ensures "v" + x + ".0.0" == "v" + x + "." + "0" + "." + "0"
    ensures "v" + x + ".0.0-rc" == "v" + x + "." + "0" + "." + "0" + "-" + "rc"
  {
  }

  /** The `.0` suffixes of the minor candidates as `Format` pieces, for `CandidateIsFormat`. */
  lemma DotZero(x: string, y: string)
    ensures "v" + x + "." + y + ".0" == "v" + x + "." + y + "." + "0"
    ensures "v" + x + "." + y + ".0-rc" == "v" + x + "." + y + "." + "0" + "-" + "rc"
  {
  }

  /** The `-rc` suffix of the `rc` candidate as `Format` pieces, for `CandidateIsFormat`. */
  lemma RcTail(x: string, y: string, z: string, d: string)
    ensures "v" + x + "." + y + "." + z + "-rc" + "" == "v" + x + "." + y + "." + z + "-" + "rc"
    ensures "v" + x + "." + y + "." + z + "-rc" + ("." + d) == "v" + x + "." + y + "." + z + "-" + "rc" + "." + d
  {
  }

  /** Each candidate text is the printed form of the structured next tag. */
  lemma CandidateIsFormat(t: SemanticTag, r: ReleaseType)
    requires Numeric(t) && r in Offered(t)
    ensures CandidateText(t, r) == Format(Next(t, r))
  {
    var n := Next(t, r);
    match r
    case Major =>
      FormatRelease(n.major, "0", "0");
      ZeroZero(n.major);
    case Minor =>
      FormatRelease(n.major, n.minor, "0");
      DotZero(n.major, n.minor);
    case Patch =>
      FormatRelease(n.major, n.minor, n.patch);
    case RcMajor =>
      FormatPre(n.major, "0", "0", "rc");
      ZeroZero(n.major);
    case RcMinor =>
      FormatPre(n.major, n.minor, "0", "rc");
      DotZero(n.major, n.minor);
    case Rc =>
      var i := PreIncrement(t);
      RcTail(n.major, n.minor, n.patch, Show(i + 1));
      if i == 0 {
        FormatPre(n.major, n.minor, n.patch, "rc");
      } else {
        FormatPreN(n.major, n.minor, n.patch, "rc", Show(i + 1));
      }
  }

  /** Every candidate parses back to its structured next tag: 3 parts, or 4 or 5 for a pre-release. */
  lemma CandidateReparses(t: SemanticTag, r: ReleaseType)
    requires Numeric(t) && r in Offered(t)
    ensures Parse(Candidates(t)[r]) == Ok(Next(t, r))
    ensures r in {Major, Minor, Patch} ==> Next(t, r).pre == Release
    ensures r in {RcMajor, RcMinor} ==> Next(t, r).pre == Pre("rc")
  {
    CandidateIsFormat(t, r);
    NextWellFormed(t, r);
    ParseFormat(Next(t, r));
  }

  /** The next tag's parts are digit strings or `rc`, none holding a separator. */
  lemma NextWellFormed(t: SemanticTag, r: ReleaseType)
    requires Numeric(t) && r in Offered(t)
    ensures WellFormed(Next(t, r))
  {
    assert Atomic("rc") && Atomic("0");
    match r
    case Major => DigitsAtomic(Show(Val(t.major) + 1));
    case Minor =>
      DigitsAtomic(t.major);
      DigitsAtomic(Show(Val(t.minor) + 1));
    case Patch =>
      DigitsAtomic(t.major);
      DigitsAtomic(t.minor);
      DigitsAtomic(Show(Val(t.patch) + 1));
    case RcMajor => DigitsAtomic(Show(Val(t.major) + 1));
    case RcMinor =>
      DigitsAtomic(t.major);
      DigitsAtomic(Show(Val(t.minor) + 1));
    case Rc =>
      DigitsAtomic(t.major);
      DigitsAtomic(t.minor);
      DigitsAtomic(t.patch);
      DigitsAtomic(Show(PreIncrement(t) + 1));
  }

  // ---------------------------------------------------------------------------
  // Every candidate is a newer version
  // ---------------------------------------------------------------------------

  /** Tags whose every number, the explicit increment included, is a decimal natural. */
  predicate FullyNumeric(t: SemanticTag) {
    Numeric(t) && (t.pre.PreN? ==> IsDigits(t.pre.increment))
  }

  /**
   * Release order: by major, minor and patch; a pre-release comes before the release of the same
   * version, and pre-releases of one version are ordered by their increment. The pre-release
   * identifier is not compared: `v1.0.0-rc.6` counts as newer than `v1.0.0-zeta.5`, which the
   * precedence rules of Semantic Versioning 2.0.0 (section 11) rank the other way.
   */
  predicate Older(a: SemanticTag, b: SemanticTag)
    requires FullyNumeric(a) && FullyNumeric(b)
  {
    var am, an, ap := Val(a.major), Val(a.minor), Val(a.patch);
    var bm, bn, bp := Val(b.major), Val(b.minor), Val(b.patch);
    if am != bm then am < bm
    else if an != bn then an < bn
    else if ap != bp then ap < bp
    else if a.pre.Release? then false
    else if b.pre.Release? then true
    else PreIncrement(a) < PreIncrement(b)
  }

  /** Whatever release type is chosen, the new tag is strictly newer than the current one. */
  lemma CandidatesAreNewer(t: SemanticTag, r: ReleaseType)
    requires FullyNumeric(t) && r in Offered(t)
    ensures FullyNumeric(Next(t, r))
    ensures Older(t, Next(t, r))
  {
    match r
    case Major => MajorNewer(t, r);
    case RcMajor => MajorNewer(t, r);
    case Minor => MinorNewer(t, r);
    case RcMinor => MinorNewer(t, r);
    case Patch => PatchNewer(t);
    case Rc => RcNewer(t);
  }

  lemma MajorNewer(t: SemanticTag, r: ReleaseType)
    requires FullyNumeric(t) && (r == Major || r == RcMajor)
    ensures FullyNumeric(Next(t, r))
    ensures Older(t, Next(t, r))
  {
    ValZero();
    ValShow(Val(t.major) + 1);
  }

  lemma MinorNewer(t: SemanticTag, r: ReleaseType)
    requires FullyNumeric(t) && (r == Minor || r == RcMinor)
    ensures FullyNumeric(Next(t, r))
    ensures Older(t, Next(t, r))
  {
    ValZero();
    ValShow(Val(t.minor) + 1);
  }

  lemma PatchNewer(t: SemanticTag)
    requires FullyNumeric(t)
    ensures FullyNumeric(Next(t, Patch))
    ensures Older(t, Next(t, Patch))
  {
    ValShow(Val(t.patch) + 1);
  }

  lemma RcNewer(t: SemanticTag)
    requires FullyNumeric(t) && RcAvailable(t)
    ensures FullyNumeric(Next(t, Rc))
    ensures Older(t, Next(t, Rc))
  {
    var i, n := PreIncrement(t), Next(t, Rc);
    assert n.major == t.major && n.minor == t.minor && n.patch == t.patch;
    if i == 0 {
      assert n.pre == Pre("rc");
    } else {
      ValShow(i + 1);
      assert n.pre == PreN("rc", Show(i + 1));
      assert PreIncrement(n) == i + 1;
    }
  }

  lemma ValZero()
    ensures IsDigits("0") && Val("0") == 0
  {
    assert "0"[..0] == "";
  }

  /**
   * Successive `rc` releases count up: `-rc` (increment 1) is followed by `-rc.2`, `-rc.N` by
   * `-rc.(N+1)`, and only an explicit increment of 0 yields the bare `-rc`. The version numbers
   * are kept and the identifier becomes `rc` whatever it was.
   */
  lemma RcSequence(t: SemanticTag)
    requires Numeric(t) && RcAvailable(t)
    ensures var n := Next(t, Rc);
      && Parse(Candidates(t)[Rc]) == Ok(n)
      && n.major == t.major && n.minor == t.minor && n.patch == t.patch
      && (PreIncrement(t) == 0 ==> n.pre == Pre("rc"))
      && (PreIncrement(t) >= 1 ==> n.pre == PreN("rc", Show(PreIncrement(t) + 1)))
      && RcAvailable(n)
      && PreIncrement(n) == if PreIncrement(t) == 0 then 1 else PreIncrement(t) + 1
  {
    CandidateReparses(t, Rc);
    ValShow(PreIncrement(t) + 1);
  }

  // ---------------------------------------------------------------------------
  // Worked examples
  // ---------------------------------------------------------------------------

  lemma ParseRelease123()
    ensures Parse("v1.2.3") == Ok(SemanticTag("1", "2", "3", Release))
  {
    var t := SemanticTag("1", "2", "3", Release);
    assert WellFormed(t);
    ParseFormat(t);
    FormatRelease("1", "2", "3");
    assert "v" + "1" + "." + "2" + "." + "3" == "v1.2.3";
  }

  /** `v1.2.3` with release type `minor` becomes `v1.3.0`. */
  lemma MinorOfRelease()
    ensures IncrementTag(SemanticTag("1", "2", "3", Release), "minor", "") == Ok("v1.3.0")
  {
    var t := SemanticTag("1", "2", "3", Release);
    assert Val("2") == 2 by { assert "2"[..0] == ""; }
    assert Show(3) == "3";
    assert CandidateText(t, Minor) == "v1.3.0";
  }

  lemma ParseImplicitRc()
    ensures Parse("v2.0.0-rc") == Ok(SemanticTag("2", "0", "0", Pre("rc")))
  {
    var t := SemanticTag("2", "0", "0", Pre("rc"));
    assert WellFormed(t);
    ParseFormat(t);
    FormatPre("2", "0", "0", "rc");
    assert "v" + "2" + "." + "0" + "." + "0" + "-" + "rc" == "v2.0.0-rc";
  }

  /** `v2.0.0-rc` with release type `rc` becomes `v2.0.0-rc.2`. */
  lemma RcOfImplicitRc()
    ensures IncrementTag(SemanticTag("2", "0", "0", Pre("rc")), "rc", "") == Ok("v2.0.0-rc.2")
  {
    var t := SemanticTag("2", "0", "0", Pre("rc"));
    assert Show(2) == "2";
    assert RcSuffix(1) == ".2";
    assert CandidateText(t, Rc) == "v2.0.0-rc.2";
  }

  /** `v1.2.3-rc-1` is read as `v1.2.3-rc.1`. */
  lemma DashIncrement(a: string, b: string)
    requires a == "v1.2.3-rc-1" && b == "v1.2.3-rc.1"
    ensures Parse(a) == Parse(b) == Ok(SemanticTag("1", "2", "3", PreN("rc", "1")))
  {
    var t := SemanticTag("1", "2", "3", PreN("rc", "1"));
    assert WellFormed(t);
    ParseFormat(t);
    FormatPreN("1", "2", "3", "rc", "1");
    RcOneText();
    DashIncrementChars(a, b);
    ParseSeparatorsInterchangeable(a, b);
  }

  /** The text `v1.2.3-rc.1` as `Format` pieces, for `DashIncrement`. */
  lemma RcOneText()
    ensures "v" + "1" + "." + "2" + "." + "3" + "-" + "rc" + "." + "1" == "v1.2.3-rc.1"
  {
  }

  lemma DashIncrementChars(a: string, b: string)
    requires a == "v1.2.3-rc-1" && b == "v1.2.3-rc.1"
    ensures |a| == |b| > 0
    ensures forall j :: 1 <= j < |a| ==> a[j] == b[j] || (IsSeparator(a[j]) && IsSeparator(b[j]))
  {
    assert a == "v1.2.3-rc" + "-" + "1" && b == "v1.2.3-rc" + "." + "1";
  }

  lemma TwoPartTagRejected()
    ensures Parse("v1.2") == Err(UnknownTagFormat("v1.2"))
  {
    assert Body("v1.2") == "1.2";
    assert SeparatorCount("1.2") == 1 by {
      assert "1.2"[1..] == ".2";
      assert ".2"[1..] == "2";
      assert "2"[1..] == "";
    }
  }
}
