/**
 * Resolution of the placeholders in one command line (`parseTags` on a string): while the pattern
 * matches, look the leftmost match's name up among the `--set-<name>` options, fall back to its
 * default, and replace every occurrence of the matched text by the value.
 *
 * The source loops until the pattern stops matching, which need not happen (an option whose value
 * is the placeholder itself). The model allows at most `fuel` replacements and reports `OutOfFuel`
 * when the source loops forever, or needs more than `fuel` replacements on the line. A lookup
 * that fails ends the line with its own error at any fuel. `FuelMonotone` shows that fuel beyond
 * what suffices changes nothing, and `ResolveTerminates` gives a fuel that always suffices when no
 * option value brings a new `{` into the text.
 */
module Placeholders {
  import opened Outcomes
  import opened Text
  import opened Tokens

  /** `Deploy::TAG_PREFIX`: the placeholder `{name}` is fed by the option `--set-name`. */
  const TagPrefix: string := "set-"

  /** The command-line options that were given, by name (`--set-branch=x` is `"set-branch" := "x"`). */
  type Options = map<string, string>

  /**
   * The value for a match: the option `set-<name>` when it was given, otherwise the default group
   * when the placeholder has one (even an empty one, as in `{x|}`), otherwise an error.
   */
  function Lookup(opts: Options, tok: Token): (r: Result<string>)
    ensures r.Ok? <==> TagPrefix + tok.name in opts || tok.default.Some?
    ensures TagPrefix + tok.name in opts ==> r.value == opts[TagPrefix + tok.name]
    ensures TagPrefix + tok.name !in opts && tok.default.Some? ==> r.value == tok.default.value.value
    ensures r.Err? ==> r.error == MissingOption(tok.name)
  {
    var key := TagPrefix + tok.name;
    if key in opts then Ok(opts[key])
    else match tok.default
      case Some(d) => Ok(d.value)
      case None => Err(MissingOption(tok.name))
  }

  /** The errors resolving a line can end in. */
  predicate LineError(e: Error) {
    e.MissingOption? || e == OutOfFuel
  }

  /** What one pass of the loop body does with a line. */
  datatype Step = Done | Fail(error: Error) | Replaced(next: string)

  /**
   * One iteration: no match ends the loop; otherwise the leftmost match's value replaces every
   * occurrence of its text, or the lookup fails.
   */
  function StepLine(s: string, opts: Options): (r: Step)
    ensures r.Fail? ==> r.error.MissingOption?
  {
    match FindToken(s, 0)
    case None => Done
    case Some((_, tok)) =>
      match Lookup(opts, tok)
      case Err(e) => Fail(e)
      case Ok(v) => Replaced(ReplaceAll(s, TokenText(tok), v))
  }

  /** The loop stops exactly when the pattern no longer matches anywhere in the line. */
  lemma StepDone(s: string, opts: Options)
    ensures StepLine(s, opts).Done? <==> NoPlaceholder(s)
  {
    NoPlaceholderIff(s);
  }

  // ---------------------------------------------------------------------------
  // The loop, for any step
  // ---------------------------------------------------------------------------

  /**
   * `while (preg_match(...)) { ... }`: apply `step` until it reports `Done`, allowing at most
   * `fuel` replacements. A line is returned only once the step finds nothing more to do.
   */
  function Loop(step: string -> Step, s: string, fuel: nat): (r: Result<string>)
    ensures r.Ok? ==> step(r.value).Done?
    decreases fuel
  {
    match step(s)
    case Done => Ok(s)
    case Fail(e) => Err(e)
    case Replaced(next) => if fuel == 0 then Err(OutOfFuel) else Loop(step, next, fuel - 1)
  }

  /** Apart from running out of fuel, the loop fails only with an error some step reported. */
  lemma {:induction false} LoopFails(step: string -> Step, s: string, fuel: nat)
    ensures var r := Loop(step, s, fuel);
      r.Err? && r.error != OutOfFuel ==> exists x :: step(x) == Fail(r.error)
    decreases fuel
  {
    if fuel > 0 && step(s).Replaced? {
      LoopFails(step, step(s).next, fuel - 1);
    }
  }

  /** Fuel only bounds the loop: once it suffices, more fuel gives the same outcome. */
  lemma {:induction false} LoopFuelMonotone(step: string -> Step, s: string, fuel: nat, more: nat)
    requires Loop(step, s, fuel) != Err(OutOfFuel) && fuel <= more
    ensures Loop(step, s, more) == Loop(step, s, fuel)
    decreases fuel
  {
    if step(s).Replaced? {
      LoopFuelMonotone(step, step(s).next, fuel - 1, more - 1);
    }
  }

  /**
   * A measure that every replacement lowers bounds the number of iterations: that much fuel
   * never runs out (for a step that does not itself report running out).
   */
  lemma {:induction false} LoopTerminates(step: string -> Step, measure: string -> nat, s: string, fuel: nat)
    requires forall x :: step(x).Fail? ==> step(x).error != OutOfFuel
    requires forall x :: step(x).Replaced? ==> measure(step(x).next) < measure(x)
    requires measure(s) <= fuel
    ensures Loop(step, s, fuel) != Err(OutOfFuel)
    decreases fuel
  {
    match step(s)
    case Done =>
    case Fail(_) =>
    case Replaced(next) =>
      assert measure(next) < measure(s);
      LoopTerminates(step, measure, next, fuel - 1);
  }

  // ---------------------------------------------------------------------------
  // Resolving a line
  // ---------------------------------------------------------------------------

  /** The loop of `parseTags` over one line, allowed at most `fuel` substitutions. */
  function ResolveLine(s: string, opts: Options, fuel: nat): (r: Result<string>)
    ensures r.Ok? ==> NoPlaceholder(r.value)
    ensures r.Err? ==> LineError(r.error)
  {
    var step := x => StepLine(x, opts);
    var r := Loop(step, s, fuel);
    LoopFails(step, s, fuel);
    if r.Ok? then
      StepDone(r.value, opts);
      r
    else r
  }

  // ---------------------------------------------------------------------------
  // One step of the loop
  // ---------------------------------------------------------------------------

  /**
   * A step keeps the text before the leftmost match verbatim, puts the value in place of the
   * match, and replaces every later occurrence of the same text as well.
   */
  lemma LineStep(s: string, opts: Options, fuel: nat, i: nat, tok: Token, v: string)
    requires FindToken(s, 0) == Some((i, tok)) && fuel > 0 && Lookup(opts, tok) == Ok(v)
    ensures var t := TokenText(tok);
      && i + |t| <= |s| && s[i..i + |t|] == t
      && ResolveLine(s, opts, fuel)
         == ResolveLine(s[..i] + v + ReplaceAll(s[i + |t|..], t, v), opts, fuel - 1)
  {
    var t := TokenText(tok);
    StepReplaces(s, opts, i, tok, v);
    ResolveReplaced(s, opts, fuel);
  }

  /** A replacing step keeps the text before the match and replaces from the match onwards. */
  lemma StepReplaces(s: string, opts: Options, i: nat, tok: Token, v: string)
    requires FindToken(s, 0) == Some((i, tok)) && Lookup(opts, tok) == Ok(v)
    ensures var t := TokenText(tok);
      && i + |t| <= |s| && s[i..i + |t|] == t
      && StepLine(s, opts) == Replaced(s[..i] + v + ReplaceAll(s[i + |t|..], t, v))
  {
    StepReplacesAll(s, opts, i, tok, v);
    LeftmostReplaced(s, i, tok, v);
  }

  /** A replacing step replaces every occurrence of the matched text. */
  lemma StepReplacesAll(s: string, opts: Options, i: nat, tok: Token, v: string)
    requires FindToken(s, 0) == Some((i, tok)) && Lookup(opts, tok) == Ok(v)
    ensures StepLine(s, opts) == Replaced(ReplaceAll(s, TokenText(tok), v))
  {
  }

  /** Replacing from the leftmost match keeps the text before it. */
  lemma LeftmostReplaced(s: string, i: nat, tok: Token, v: string)
    requires FindToken(s, 0) == Some((i, tok))
    ensures var t := TokenText(tok);
      && i + |t| <= |s| && s[i..i + |t|] == t
      && ReplaceAll(s, t, v) == s[..i] + v + ReplaceAll(s[i + |t|..], t, v)
  {
    FindTokenLeftmost(s, i, tok);
    ReplaceAllLeftmost(s, TokenText(tok), v, i);
  }

  /** With fuel left, the loop goes on with the replaced line. */
  lemma ResolveReplaced(s: string, opts: Options, fuel: nat)
    requires fuel > 0
    ensures StepLine(s, opts).Replaced? ==>
      ResolveLine(s, opts, fuel) == ResolveLine(StepLine(s, opts).next, opts, fuel - 1)
  {
  }

  /** An option that was not given and has no default fails the line at once. */
  lemma MissingFails(s: string, opts: Options, fuel: nat, i: nat, tok: Token)
    requires FindToken(s, 0) == Some((i, tok))
    requires TagPrefix + tok.name !in opts && tok.default.None?
    ensures ResolveLine(s, opts, fuel) == Err(MissingOption(tok.name))
  {
  }

  // ---------------------------------------------------------------------------
  // Idempotence and the fuel bound
  // ---------------------------------------------------------------------------

  /** A line comes back unchanged exactly when it holds no placeholder. */
  lemma UnchangedIff(s: string, opts: Options, fuel: nat)
    ensures ResolveLine(s, opts, fuel) == Ok(s) <==> NoPlaceholder(s)
  {
    NoPlaceholderIff(s);
  }

  /** Resolving a resolved line again changes nothing. */
  lemma ResolveIdempotent(s: string, opts: Options, fuel: nat, fuel': nat)
    requires ResolveLine(s, opts, fuel).Ok?
    ensures var r := ResolveLine(s, opts, fuel).value; ResolveLine(r, opts, fuel') == Ok(r)
  {
    var r := ResolveLine(s, opts, fuel).value;
    UnchangedIff(r, opts, fuel');
  }

  /** Fuel only bounds the loop: once it suffices, more fuel gives the same outcome. */
  lemma FuelMonotone(s: string, opts: Options, fuel: nat, more: nat)
    requires ResolveLine(s, opts, fuel) != Err(OutOfFuel) && fuel <= more
    ensures ResolveLine(s, opts, more) == ResolveLine(s, opts, fuel)
  {
    LoopFuelMonotone(x => StepLine(x, opts), s, fuel, more);
  }

  /** The matched text has more `{` than any default it carries. */
  lemma DefaultFewerBraces(tok: Token)
    requires tok.default.Some?
    ensures Count(tok.default.value.value, '{') < Count(TokenText(tok), '{')
  {
    var p := tok.default.value;
    CountAppend(p.before + "|" + p.after, p.value, '{');
    CountAppend("{" + tok.lead + tok.name, DefaultText(tok.default), '{');
    CountAppend("{" + tok.lead + tok.name + DefaultText(tok.default), tok.trail, '{');
    CountAppend("{" + tok.lead + tok.name + DefaultText(tok.default) + tok.trail, "}", '{');
    CountAppend("{", tok.lead + tok.name, '{');
    assert "{" + tok.lead + tok.name == "{" + (tok.lead + tok.name);
  }

  /** No option value contains `{`, so substituting one never forms a new placeholder opening. */
  predicate BraceFree(opts: Options) {
    forall k :: k in opts ==> Count(opts[k], '{') == 0
  }

  /** Under `BraceFree`, a step that is not done sees a `{`, and a replacement removes one. */
  lemma StepLowersBraces(s: string, opts: Options)
    requires BraceFree(opts)
    ensures !StepLine(s, opts).Done? ==> Count(s, '{') > 0
    ensures StepLine(s, opts).Replaced? ==> Count(StepLine(s, opts).next, '{') < Count(s, '{')
  {
    match FindToken(s, 0)
    case None =>
    case Some((i, tok)) =>
      FindTokenSome(s, 0, i, tok);
      assert s[i] == '{';
      CountAt(s, i, '{');
      match Lookup(opts, tok)
      case Err(_) =>
      case Ok(v) =>
        var t := TokenText(tok);
        FindTokenLeftmost(s, i, tok);
        assert Occurs(t, s);
        if TagPrefix + tok.name in opts {
          CountAt(t, 0, '{');
        } else {
          DefaultFewerBraces(tok);
        }
        ReplaceAllCount(s, t, v, '{');
  }

  /**
   * When no option value contains `{`, every step removes at least one `{`, so as many steps as
   * the line has `{` always suffice: the source's loop terminates.
   */
  lemma ResolveTerminates(s: string, opts: Options, fuel: nat)
    requires BraceFree(opts) && Count(s, '{') <= fuel
    ensures ResolveLine(s, opts, fuel) != Err(OutOfFuel)
  {
    forall x {
      StepLowersBraces(x, opts);
    }
    LoopTerminates(x => StepLine(x, opts), x => Count(x, '{'), s, fuel);
  }

  // ---------------------------------------------------------------------------
  // Lines with one placeholder
  // ---------------------------------------------------------------------------

  /** A line without `{` holds no placeholder and is returned as it is. */
  lemma ResolveNoBrace(s: string, opts: Options, fuel: nat)
    requires Lacks(s, '{')
    ensures ResolveLine(s, opts, fuel) == Ok(s)
  {
    FindTokenNoBrace(s);
    StepDone(s, opts);
    UnchangedIff(s, opts, fuel);
  }

  /** The value a plain placeholder `{n|d}` or `{n}` takes. */
  function PlainValue(opts: Options, n: string, d: Option<string>): Result<string> {
    if TagPrefix + n in opts then Ok(opts[TagPrefix + n])
    else if d.Some? then Ok(d.value)
    else Err(MissingOption(n))
  }

  function PlainText(n: string, d: Option<string>): string {
    if d.Some? then "{" + (n + "|" + d.value) + "}" else "{" + n + "}"
  }

  lemma PlainToken(n: string, d: Option<string>)
    requires |n| > 0 && All(n, IsPlain) && (d.Some? ==> All(d.value, IsPlain))
    ensures var c := if d.Some? then n + "|" + d.value else n;
      var tok := Token("", n, if d.Some? then Some(DefaultPart("", "", d.value)) else None, "");
      && Lacks(c, '}') && BodyToken(c) == Some(tok) && TokenText(tok) == "{" + c + "}"
      && PlainText(n, d) == TokenText(tok)
  {
    if d.Some? {
      PlainTokenDefault(n, d.value);
    } else {
      PlainTokenName(n);
    }
  }

  lemma PlainTokenName(n: string)
    requires |n| > 0 && All(n, IsPlain)
    ensures var tok := Token("", n, None, "");
      && Lacks(n, '}') && BodyToken(n) == Some(tok) && TokenText(tok) == "{" + n + "}"
      && PlainText(n, None) == TokenText(tok)
  {
    PlainBody(n, "");
    var tok := Token("", n, None, "");
    assert TokenText(tok) == "{" + "" + n + "" + "" + "}";
  }

  lemma PlainTokenDefault(n: string, d: string)
    requires |n| > 0 && All(n, IsPlain) && All(d, IsPlain)
    ensures var tok := Token("", n, Some(DefaultPart("", "", d)), "");
      && Lacks(n + "|" + d, '}') && BodyToken(n + "|" + d) == Some(tok)
      && TokenText(tok) == "{" + (n + "|" + d) + "}" && PlainText(n, Some(d)) == TokenText(tok)
  {
    PlainBody(n, d);
    LacksConcat(n, "|", '}');
    LacksConcat(n + "|", d, '}');
    DefaultTokenText(n, d);
  }

  lemma DefaultTokenText(n: string, d: string)
    ensures var tok := Token("", n, Some(DefaultPart("", "", d)), "");
      TokenText(tok) == "{" + (n + "|" + d) + "}" && PlainText(n, Some(d)) == TokenText(tok)
  {
    var tok := Token("", n, Some(DefaultPart("", "", d)), "");
    assert DefaultText(tok.default) == "|" + d;
    assert TokenText(tok) == "{" + n + ("|" + d) + "}";
  }

  /** One step on `p + t + r`, where `t` is the leftmost match and does not occur again in `r`. */
  lemma StepSingle(p: string, r: string, opts: Options, fuel: nat, tok: Token, v: string)
    requires Lacks(p, '{') && !Occurs(TokenText(tok), r) && fuel > 0
    requires FindToken(p + TokenText(tok) + r, 0) == Some((|p|, tok)) && Lookup(opts, tok) == Ok(v)
    ensures ResolveLine(p + TokenText(tok) + r, opts, fuel) == ResolveLine(p + v + r, opts, fuel - 1)
  {
    var t := TokenText(tok);
    var s := p + t + r;
    LineStep(s, opts, fuel, |p|, tok, v);
    assert s[..|p|] == p && s[|p| + |t|..] == r;
    ReplaceAllAbsent(r, t, v);
  }

  /** The match `{n}` or `{n|d}` makes when written without spaces. */
  function PlainTok(n: string, d: Option<string>): Token {
    Token("", n, if d.Some? then Some(DefaultPart("", "", d.value)) else None, "")
  }

  /** After a `{`-free prefix, a plain placeholder is the leftmost match, and looks up as `PlainValue`. */
  lemma PlainFound(p: string, n: string, d: Option<string>, r: string, opts: Options)
    requires Lacks(p, '{')
    requires |n| > 0 && All(n, IsPlain) && (d.Some? ==> All(d.value, IsPlain))
    ensures PlainText(n, d) == TokenText(PlainTok(n, d))
    ensures FindToken(p + PlainText(n, d) + r, 0) == Some((|p|, PlainTok(n, d)))
    ensures Lookup(opts, PlainTok(n, d)) == PlainValue(opts, n, d)
  {
    var c := if d.Some? then n + "|" + d.value else n;
    PlainToken(n, d);
    FindTokenBraced(p, c, r);
    BracedAssoc(p, c, r);
  }

  lemma BracedAssoc(p: string, c: string, r: string)
    ensures p + "{" + c + "}" + r == p + ("{" + c + "}") + r
  {
  }

  /**
   * The first placeholder of a line, written without spaces after a `{`-free prefix, is replaced
   * by the option's value or else its default, once its text does not recur later in the line.
   */
  lemma ResolveFirst(p: string, n: string, d: Option<string>, r: string, opts: Options, fuel: nat)
    requires Lacks(p, '{') && !Occurs(PlainText(n, d), r) && fuel > 0
    requires |n| > 0 && All(n, IsPlain) && (d.Some? ==> All(d.value, IsPlain))
    requires PlainValue(opts, n, d).Ok?
    ensures ResolveLine(p + PlainText(n, d) + r, opts, fuel)
      == ResolveLine(p + PlainValue(opts, n, d).value + r, opts, fuel - 1)
  {
    PlainFound(p, n, d, r, opts);
    StepSingle(p, r, opts, fuel, PlainTok(n, d), PlainValue(opts, n, d).value);
  }

  /**
   * A line holding one placeholder written without spaces, with no other `{` around it, resolves
   * in one step to the option's value, else the default, else fails on the missing option.
   */
  lemma ResolveSingle(p: string, n: string, d: Option<string>, r: string, opts: Options, fuel: nat)
    requires Lacks(p, '{') && Lacks(r, '{') && fuel > 0
    requires |n| > 0 && All(n, IsPlain) && (d.Some? ==> All(d.value, IsPlain))
    requires PlainValue(opts, n, d).Ok? ==> Lacks(PlainValue(opts, n, d).value, '{')
    ensures ResolveLine(p + PlainText(n, d) + r, opts, fuel)
      == if PlainValue(opts, n, d).Ok? then Ok(p + PlainValue(opts, n, d).value + r)
         else Err(MissingOption(n))
  {
    PlainFound(p, n, d, r, opts);
    if PlainValue(opts, n, d).Ok? {
      var v := PlainValue(opts, n, d).value;
      LacksNotOccurs(PlainText(n, d), r);
      ResolveFirst(p, n, d, r, opts, fuel);
      LacksConcat(p, v, '{');
      LacksConcat(p + v, r, '{');
      ResolveNoBrace(p + v + r, opts, fuel - 1);
    } else {
      MissingFails(p + PlainText(n, d) + r, opts, fuel, |p|, PlainTok(n, d));
    }
  }

  /**
   * A line holding two placeholders written without spaces, with no other `{` around them,
   * resolves in two steps, first placeholder first.
   */
  lemma ResolveTwo(p: string, n: string, d: Option<string>, m: string, n': string, d': Option<string>,
                   r: string, opts: Options, fuel: nat)
    requires Lacks(p, '{') && Lacks(m, '{') && Lacks(r, '{') && fuel >= 2
    requires |n| > 0 && All(n, IsPlain) && (d.Some? ==> All(d.value, IsPlain))
    requires |n'| > 0 && All(n', IsPlain) && (d'.Some? ==> All(d'.value, IsPlain))
    requires !Occurs(PlainText(n, d), m + PlainText(n', d') + r)
    requires PlainValue(opts, n, d).Ok? && Lacks(PlainValue(opts, n, d).value, '{')
    requires PlainValue(opts, n', d').Ok? ==> Lacks(PlainValue(opts, n', d').value, '{')
    ensures ResolveLine(p + PlainText(n, d) + (m + PlainText(n', d') + r), opts, fuel)
      == if PlainValue(opts, n', d').Ok?
         then Ok(p + PlainValue(opts, n, d).value + m + PlainValue(opts, n', d').value + r)
         else Err(MissingOption(n'))
  {
    var v := PlainValue(opts, n, d).value;
    ResolveFirst(p, n, d, m + PlainText(n', d') + r, opts, fuel);
    LacksConcat(p, v, '{');
    LacksConcat(p + v, m, '{');
    SecondPlaceholderAssoc(p + v, m, PlainText(n', d'), r);
    ResolveSingle(p + v + m, n', d', r, opts, fuel - 1);
  }

  /** The line after the first replacement, regrouped around the second placeholder. */
  lemma SecondPlaceholderAssoc(a: string, m: string, t: string, r: string)
    ensures a + (m + t + r) == a + m + t + r
  {
  }

  // ---------------------------------------------------------------------------
  // Lines of the shipped configuration
  // ---------------------------------------------------------------------------

  lemma FetchParts()
    ensures Lacks("git fetch ", '{') && All("remote", IsPlain) && All("origin", IsPlain)
    ensures Lacks("origin", '{') && Lacks("", '{')
    ensures "git fetch " + PlainText("remote", Some("origin")) + "" == "git fetch {remote|origin}"
    ensures "git fetch " + PlainText("remote", None) + "" == "git fetch {remote}"
    ensures "git fetch " + "origin" + "" == "git fetch origin"
  {
    FetchChars();
    FetchDefaultText();
    FetchPlainText();
  }

  /** Character facts about the literals of the fetch line, for `FetchParts`. */
  lemma FetchChars()
    ensures Lacks("git fetch ", '{') && All("remote", IsPlain) && All("origin", IsPlain)
    ensures Lacks("origin", '{') && Lacks("", '{')
  {
  }

  /** The fetch line with `{remote|origin}` spelled out as pieces, for `FetchParts`. */
  lemma FetchDefaultText()
    ensures "git fetch " + PlainText("remote", Some("origin")) + "" == "git fetch {remote|origin}"
  {
    assert PlainText("remote", Some("origin")) == "{remote|origin}";
  }

  /** The fetch line with `{remote}`, and its resolved form, as pieces, for `FetchParts`. */
  lemma FetchPlainText()
    ensures "git fetch " + PlainText("remote", None) + "" == "git fetch {remote}"
    ensures "git fetch " + "origin" + "" == "git fetch origin"
  {
    assert PlainText("remote", None) == "{remote}";
  }

  /** With no `--set-remote`, the default of `{remote|origin}` is used. */
  lemma FetchDefault()
    ensures ResolveLine("git fetch {remote|origin}", map[], 1) == Ok("git fetch origin")
  {
    FetchParts();
    ResolveSingle("git fetch ", "remote", Some("origin"), "", map[], 1);
  }

  lemma CheckoutParts()
    ensures Lacks("git checkout -f ", '{') && All("branch", IsPlain) && All("master", IsPlain)
    ensures Lacks("develop", '{') && Lacks("", '{')
    ensures "git checkout -f " + PlainText("branch", Some("master")) + "" == "git checkout -f {branch|master}"
    ensures "git checkout -f " + "develop" + "" == "git checkout -f develop"
    ensures TagPrefix + "branch" == "set-branch"
  {
    assert PlainText("branch", Some("master")) == "{branch|master}";
  }

  /** `--set-branch=develop` takes precedence over the default of `{branch|master}`. */
  lemma CheckoutOption()
    ensures ResolveLine("git checkout -f {branch|master}", map["set-branch" := "develop"], 1)
      == Ok("git checkout -f develop")
  {
    CheckoutParts();
    ResolveSingle("git checkout -f ", "branch", Some("master"), "", map["set-branch" := "develop"], 1);
  }

  /** An empty default still counts as a default: `{args|}` resolves to nothing. */
  lemma EmptyDefault()
    ensures ResolveLine("composer install {args|}", map[], 1) == Ok("composer install ")
  {
    assert Lacks("composer install ", '{') && All("args", IsPlain) && All("", IsPlain) && Lacks("", '{');
    assert "composer install " + PlainText("args", Some("")) + "" == "composer install {args|}";
    assert "composer install " + "" + "" == "composer install ";
    ResolveSingle("composer install ", "args", Some(""), "", map[], 1);
  }

  /** A placeholder with no default and no option fails the line. */
  lemma MissingRemote()
    ensures ResolveLine("git fetch {remote}", map[], 1) == Err(MissingOption("remote"))
  {
    FetchParts();
    ResolveSingle("git fetch ", "remote", None, "", map[], 1);
  }

  lemma ComposerText()
    ensures "composer install " + PlainText("composer-args", Some("--no-dev")) + ""
      == "composer install {composer-args|--no-dev}"
    ensures "composer install " + "--no-dev" + "" == "composer install --no-dev"
  {
    ComposerPlaceholder();
  }

  lemma ComposerPlaceholder()
    ensures PlainText("composer-args", Some("--no-dev")) == "{composer-args|--no-dev}"
  {
    var body := "composer-args" + "|" + "--no-dev";
    assert body == "composer-args|--no-dev";
    assert "{" + body + "}" == "{composer-args|--no-dev}";
  }

  /** The shipped `composer` command without options installs without development packages. */
  lemma ComposerDefault()
    ensures ResolveLine("composer install {composer-args|--no-dev}", map[], 1)
      == Ok("composer install --no-dev")
  {
    assert Lacks("composer install ", '{') && Lacks("", '{') && Lacks("--no-dev", '{');
    assert All("composer-args", IsPlain) && All("--no-dev", IsPlain);
    ComposerText();
    ResolveSingle("composer install ", "composer-args", Some("--no-dev"), "", map[], 1);
  }

  lemma PullNoRepeat()
    ensures !Occurs("{remote|origin}", " {branch|master}")
  {
    var t, r := "{remote|origin}", " {branch|master}";
    forall i | 0 <= i <= |r|
      ensures !OccursAt(t, r, i)
    {
      if i + |t| <= |r| {
        assert r[i..i + |t|][1] == r[i + 1];
      }
    }
  }

  lemma PullSeparate()
    ensures !Occurs(PlainText("remote", Some("origin")), " " + PlainText("branch", Some("master")) + "")
  {
    PullNoRepeat();
    assert PlainText("remote", Some("origin")) == "{remote|origin}";
    assert " " + PlainText("branch", Some("master")) + "" == " {branch|master}";
  }

  /** The two placeholders of the pull line spelled out, for `PullText`. */
  lemma PullPlaceholders()
    ensures PlainText("remote", Some("origin")) == "{remote|origin}"
    ensures PlainText("branch", Some("master")) == "{branch|master}"
  {
  }

  lemma PullText()
    ensures "git pull -f " + PlainText("remote", Some("origin"))
        + (" " + PlainText("branch", Some("master")) + "")
      == "git pull -f {remote|origin} {branch|master}"
    ensures "git pull -f " + "origin" + " " + "master" + "" == "git pull -f origin master"
  {
    PullPlaceholders();
    assert "git pull -f " + "{remote|origin}" + (" " + "{branch|master}" + "")
      == "git pull -f {remote|origin} {branch|master}";
  }

  /** Of two placeholders, each is replaced in turn by its default. */
  lemma PullDefaults()
    ensures ResolveLine("git pull -f {remote|origin} {branch|master}", map[], 2)
      == Ok("git pull -f origin master")
  {
    assert Lacks("git pull -f ", '{') && Lacks(" ", '{') && Lacks("", '{');
    assert All("remote", IsPlain) && All("origin", IsPlain) && All("branch", IsPlain) && All("master", IsPlain);
    assert Lacks("origin", '{') && Lacks("master", '{');
    PullSeparate();
    PullText();
    ResolveTwo("git pull -f ", "remote", Some("origin"), " ", "branch", Some("master"), "", map[], 2);
  }
}
