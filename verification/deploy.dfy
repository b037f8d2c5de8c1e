/**
 * The deploy command itself (`Deploy::fire`): tag a production deploy, push, then run the
 * configured commands on the remote. Every process the command starts is modelled as a request it
 * emits (`Effect`), and every answer it reads back (the `git describe` output, exit codes, the
 * user's pick, the `--set-*` options) as an input.
 */
module Deploy {
  import opened Outcomes
  import opened Text
  import opened Tags
  import opened Releases
  import opened Tokens
  import opened Placeholders
  import opened Templates

  /** The configuration the command reads. */
  datatype Config = Config(
    push: bool,                    // `vdeploy::config.push`
    productionEnabled: bool,       // `vdeploy::config.production.enabled`
    productionName: string,        // `vdeploy::config.production.name`
    commands: seq<Template>,       // `vdeploy::config.commands`, in order
    roots: map<string, string>)    // `remote.connections.<remote>.root`

  /** The command-line arguments: the remote to deploy to and the optional release type. */
  datatype Invocation = Invocation(remote: string, release: string)

  /** What the outside world answers. */
  datatype Environment = Environment(
    described: string,    // `git describe --tags --match 'v[0-9]*'`, trimmed
    nearest: string,      // the same with `--abbrev=0`: the nearest tag, trimmed
    picked: string,       // the release type the user picks when none was given
    tagExit: int,         // exit code of `git tag <new>`
    pushExit: int,        // exit code of `git push`
    pushTagsExit: int,    // exit code of `git push --tags`
    options: Options,     // the `--set-*` options
    fuel: nat)            // bound on substitutions per line

  /** A process the command starts. */
  datatype Effect =
    | GitTag(name: string)
    | GitPush
    | GitPushTags
    | RemoteRun(remote: string, commands: seq<Template>)

  /** The requests a step (or the whole command) emitted, and the error it stopped with, if any. */
  datatype Run = Run(effects: seq<Effect>, failure: Option<Error>)

  predicate Succeeded(r: Run) {
    r.failure.None?
  }

  // ---------------------------------------------------------------------------
  // production()
  // ---------------------------------------------------------------------------

  /**
   * Whether `production` goes on to tag: it is enabled, the remote is the production remote, and
   * the deployed commit is not itself tagged (the long and short describe outputs differ).
   */
  predicate Tagging(c: Config, inv: Invocation, env: Environment) {
    c.productionEnabled && inv.remote == c.productionName && env.described != env.nearest
  }

  /** A tag the incrementer can do arithmetic on, if it parses at all. */
  predicate NumericTag(tag: string) {
    Parse(tag).Ok? ==> Numeric(Parse(tag).value)
  }

  /**
   * `production()`: when tagging, parse the nearest tag, choose the next one, and create it. The
   * new tag is created only once parsing and the release-type check have succeeded.
   */
  function Production(c: Config, inv: Invocation, env: Environment): (r: Run)
    requires Tagging(c, inv, env) ==> NumericTag(env.nearest)
    ensures !Tagging(c, inv, env) ==> r == Run([], None)
    ensures |r.effects| <= 1 && forall e :: e in r.effects ==> e.GitTag? && Rank(e) == 0
    ensures r.failure.Some? ==> Tagging(c, inv, env) && (r.effects == [] <==> !r.failure.value.GitTagFailed?)
    ensures Succeeded(r) && Tagging(c, inv, env) ==> |r.effects| == 1 && env.tagExit == 0
    ensures r.effects != [] ==>
      && Parse(env.nearest).Ok?
      && IncrementTag(Parse(env.nearest).value, inv.release, env.picked).Ok?
      && r.effects == [GitTag(IncrementTag(Parse(env.nearest).value, inv.release, env.picked).value)]
    ensures Tagging(c, inv, env) && Parse(env.nearest).Err? ==> r == Run([], Some(Parse(env.nearest).error))
    ensures Tagging(c, inv, env) && Parse(env.nearest).Ok? ==>
      var next := IncrementTag(Parse(env.nearest).value, inv.release, env.picked);
      && (next.Err? ==> r == Run([], Some(next.error)))
      && (next.Ok? ==> r.effects == [GitTag(next.value)] && (Succeeded(r) <==> env.tagExit == 0))
  {
    if !Tagging(c, inv, env) then Run([], None)
    else
      match Parse(env.nearest)
      case Err(e) => Run([], Some(e))
      case Ok(t) =>
        match IncrementTag(t, inv.release, env.picked)
        case Err(e) => Run([], Some(e))
        case Ok(newTag) =>
          Run([GitTag(newTag)], if env.tagExit != 0 then Some(GitTagFailed(newTag)) else None)
  }

  // ---------------------------------------------------------------------------
  // push()
  // ---------------------------------------------------------------------------

  /** `push()`: when enabled, `git push` and then, only if that exits 0, `git push --tags`. */
  function Push(c: Config, env: Environment): (r: Run)
    ensures !c.push ==> r == Run([], None)
    ensures c.push ==> |r.effects| >= 1 && r.effects[0] == GitPush
    ensures GitPushTags in r.effects <==> c.push && env.pushExit == 0
    ensures r.failure == Some(GitPushFailed) <==> c.push && env.pushExit != 0
    ensures r.failure == Some(GitPushTagsFailed) <==> c.push && env.pushExit == 0 && env.pushTagsExit != 0
    ensures r.failure.Some? ==> r.failure == Some(GitPushFailed) || r.failure == Some(GitPushTagsFailed)
    ensures InOrder(r.effects) && forall e :: e in r.effects ==> 1 <= Rank(e) <= 2
  {
    if !c.push then Run([], None)
    else if env.pushExit != 0 then Run([GitPush], Some(GitPushFailed))
    else Run([GitPush, GitPushTags], if env.pushTagsExit != 0 then Some(GitPushTagsFailed) else None)
  }

  // ---------------------------------------------------------------------------
  // runCommands()
  // ---------------------------------------------------------------------------

  /** PHP truthiness of a command entry: a non-empty array, or a line other than "" and "0". */
  predicate Kept(t: Template) {
    match t
    case Leaf(s) => Truthy(s)
    case Seq(items) => |items| > 0
  }

  /** `array_filter`: the truthy entries, in their order (nested arrays are not filtered). */
  function Filter(s: seq<Template>): (r: seq<Template>)
    ensures |r| <= |s|
    ensures forall i :: 0 <= i < |r| ==> Kept(r[i])
  {
    if |s| == 0 then []
    else (if Kept(s[0]) then [s[0]] else []) + Filter(s[1..])
  }

  /** The root directory configured for a remote; a missing one prints as "" after `cd `. */
  function Root(c: Config, remote: string): string {
    if remote in c.roots then c.roots[remote] else ""
  }

  /** The command list before resolution: `cd <root>` followed by the configured commands, filtered. */
  function Commands(c: Config, remote: string): seq<Template> {
    Filter([Leaf("cd " + Root(c, remote))] + c.commands)
  }

  /**
   * `runCommands()`: resolve the placeholders of the whole list, and only when that succeeds hand
   * the list to the remote in one call.
   */
  function RunCommands(c: Config, inv: Invocation, env: Environment): (r: Run)
    ensures Succeeded(r) <==> ResolveAll(Commands(c, inv.remote), env.options, env.fuel).Ok?
    ensures Succeeded(r) ==>
      && r.effects == [RemoteRun(inv.remote, ResolveAll(Commands(c, inv.remote), env.options, env.fuel).value)]
      && |r.effects[0].commands| == |Commands(c, inv.remote)|
      && forall i :: 0 <= i < |r.effects[0].commands| ==> Clean(r.effects[0].commands[i])
    ensures r.failure.Some? ==> r.effects == [] && LineError(r.failure.value)
    ensures r.failure.Some? ==> r.failure.value == ResolveAll(Commands(c, inv.remote), env.options, env.fuel).error
    ensures |r.effects| <= 1 && forall e :: e in r.effects ==> Rank(e) == 3
  {
    match ResolveAll(Commands(c, inv.remote), env.options, env.fuel)
    case Err(e) => Run([], Some(e))
    case Ok(resolved) =>
      assert forall i :: 0 <= i < |resolved| ==> Clean(resolved[i]);
      Run([RemoteRun(inv.remote, resolved)], None)
  }

  // ---------------------------------------------------------------------------
  // fire()
  // ---------------------------------------------------------------------------

  /**
   * Three steps run one after the other: a step's requests and outcome count only when every
   * step before it succeeded.
   */
  function Chain(p: Run, q: Run, s: Run): (r: Run)
    ensures Succeeded(r) <==> Succeeded(p) && Succeeded(q) && Succeeded(s)
    ensures p.failure.Some? ==> r == p
    ensures Succeeded(p) && q.failure.Some? ==> r == Run(p.effects + q.effects, q.failure)
    ensures Succeeded(p) && Succeeded(q) ==> r == Run(p.effects + q.effects + s.effects, s.failure)
  {
    if p.failure.Some? then p
    else if q.failure.Some? then Run(p.effects + q.effects, q.failure)
    else Run(p.effects + q.effects + s.effects, s.failure)
  }

  /** `fire()`: production, then push, then the remote commands, stopping at the first failure. */
  function Fire(c: Config, inv: Invocation, env: Environment): Run
    requires Tagging(c, inv, env) ==> NumericTag(env.nearest)
  {
    Chain(Production(c, inv, env), Push(c, env), RunCommands(c, inv, env))
  }

  /** The process exit status: 1 when a step failed, 0 (PHP's `null` return) otherwise. */
  function ExitCode(r: Run): (code: int)
    ensures code == 0 <==> Succeeded(r)
    ensures code == 0 || code == 1
  {
    if r.failure.Some? then 1 else 0
  }

  // ---------------------------------------------------------------------------
  // The command list
  // ---------------------------------------------------------------------------

  /** Filtering distributes over concatenation: kept entries stay in their relative order. */
  lemma {:induction false} FilterConcat(a: seq<Template>, b: seq<Template>)
    ensures Filter(a + b) == Filter(a) + Filter(b)
    decreases |a|
  {
    if |a| == 0 {
      assert a + b == b;
    } else {
      assert (a + b)[0] == a[0] && (a + b)[1..] == a[1..] + b;
      FilterConcat(a[1..], b);
    }
  }

  /** An entry survives filtering exactly when it is in the list and truthy. */
  lemma {:induction false} FilterMembers(s: seq<Template>, x: Template)
    ensures x in Filter(s) <==> x in s && Kept(x)
    decreases |s|
  {
    if |s| > 0 {
      FilterMembers(s[1..], x);
      assert s == [s[0]] + s[1..];
    }
  }

  /** Filtering leaves a list alone exactly when every entry is truthy. */
  lemma {:induction false} FilterUnchanged(s: seq<Template>)
    ensures Filter(s) == s <==> forall i :: 0 <= i < |s| ==> Kept(s[i])
    decreases |s|
  {
    if |s| > 0 {
      FilterUnchanged(s[1..]);
      if forall i :: 0 <= i < |s| ==> Kept(s[i]) {
        assert forall i :: 0 <= i < |s[1..]| ==> Kept(s[1..][i]) by {
          forall i | 0 <= i < |s[1..]|
            ensures Kept(s[1..][i])
          {
            assert s[1..][i] == s[i + 1];
          }
        }
        assert [s[0]] + s[1..] == s;
      }
    }
  }

  /** The list opens with `cd <root>`, followed by the truthy configured commands in their order. */
  lemma CommandList(c: Config, remote: string)
    ensures Commands(c, remote) == [Leaf("cd " + Root(c, remote))] + Filter(c.commands)
  {
    var cd := Leaf("cd " + Root(c, remote));
    assert Kept(cd);
    FilterConcat([cd], c.commands);
    assert [cd][1..] == [];
  }

  // ---------------------------------------------------------------------------
  // Properties of the whole command
  // ---------------------------------------------------------------------------

  /** A failed production step ends the command: nothing is pushed and nothing runs remotely. */
  lemma ProductionFailureStops(c: Config, inv: Invocation, env: Environment)
    requires Tagging(c, inv, env) ==> NumericTag(env.nearest)
    requires Production(c, inv, env).failure.Some?
    ensures Fire(c, inv, env) == Production(c, inv, env)
    ensures forall e :: e in Fire(c, inv, env).effects ==> e.GitTag?
    ensures ExitCode(Fire(c, inv, env)) == 1
  {
  }

  /** A nearest tag that does not split into 3, 4 or 5 parts fails the command before anything is tagged. */
  lemma UnknownTagFormatCreatesNoTag(c: Config, inv: Invocation, env: Environment)
    requires Tagging(c, inv, env) && Parse(env.nearest).Err?
    ensures Fire(c, inv, env) == Run([], Some(UnknownTagFormat(env.nearest)))
  {
  }

  /** A release type that names no candidate fails the command before anything is tagged. */
  lemma UnknownReleaseTypeCreatesNoTag(c: Config, inv: Invocation, env: Environment)
    requires Tagging(c, inv, env) && NumericTag(env.nearest) && Parse(env.nearest).Ok?
    requires var key := ChosenKey(inv.release, env.picked);
      ReleaseTypeOf(key).None? || ReleaseTypeOf(key).value !in Offered(Parse(env.nearest).value)
    ensures Fire(c, inv, env) == Run([], Some(UnknownReleaseType(ChosenKey(inv.release, env.picked))))
  {
  }

  /** A failed `git push` ends the command: no `git push --tags` and no remote run follow. */
  lemma PushFailureStops(c: Config, inv: Invocation, env: Environment)
    requires Tagging(c, inv, env) ==> NumericTag(env.nearest)
    requires Succeeded(Production(c, inv, env)) && c.push && env.pushExit != 0
    ensures Fire(c, inv, env).failure == Some(GitPushFailed)
    ensures Fire(c, inv, env).effects == Production(c, inv, env).effects + [GitPush]
    ensures GitPushTags !in Fire(c, inv, env).effects
    ensures forall e :: e in Fire(c, inv, env).effects ==> !e.RemoteRun?
  {
  }

  /** A failed `git push --tags` ends the command before the remote run. */
  lemma PushTagsFailureStops(c: Config, inv: Invocation, env: Environment)
    requires Tagging(c, inv, env) ==> NumericTag(env.nearest)
    requires Succeeded(Production(c, inv, env)) && c.push && env.pushExit == 0 && env.pushTagsExit != 0
    ensures Fire(c, inv, env).failure == Some(GitPushTagsFailed)
    ensures Fire(c, inv, env).effects == Production(c, inv, env).effects + [GitPush, GitPushTags]
    ensures forall e :: e in Fire(c, inv, env).effects ==> !e.RemoteRun?
  {
  }

  /**
   * With production tagging disabled, on another remote, or on a commit that already carries a
   * tag, no tag is created and the command goes straight on to pushing.
   */
  lemma SkipDoesNotTag(c: Config, inv: Invocation, env: Environment)
    requires !Tagging(c, inv, env)
    ensures forall e :: e in Fire(c, inv, env).effects ==> !e.GitTag?
    ensures Succeeded(Fire(c, inv, env)) || Fire(c, inv, env).failure == Push(c, env).failure
      || Fire(c, inv, env).failure == RunCommands(c, inv, env).failure
  {
  }

  /**
   * `n` is the candidate of the release type `key` names for `t`: it parses back to the
   * structured next tag, which is newer than `t` when every part of `t` is decimal (the release
   * order is not defined otherwise).
   */
  predicate IsNextTag(t: SemanticTag, key: string, n: string)
    requires Numeric(t)
  {
    if ReleaseTypeOf(key).None? || ReleaseTypeOf(key).value !in Offered(t) then false
    else
      var r := ReleaseTypeOf(key).value;
      var older := if FullyNumeric(t) then CandidatesAreNewer(t, r); Older(t, Next(t, r)) else true;
      n == Candidates(t)[r] && Parse(n) == Ok(Next(t, r)) && older
  }

  /** The tag that is created is the next tag of the chosen release type. */
  lemma CreatedTag(c: Config, inv: Invocation, env: Environment, n: string)
    requires Tagging(c, inv, env) ==> NumericTag(env.nearest)
    ensures GitTag(n) in Fire(c, inv, env).effects ==>
              Tagging(c, inv, env) && Parse(env.nearest).Ok? &&
              IsNextTag(Parse(env.nearest).value, ChosenKey(inv.release, env.picked), n)
  {
    if GitTag(n) in Fire(c, inv, env).effects {
      var t := Parse(env.nearest).value;
      var rt := ReleaseTypeOf(ChosenKey(inv.release, env.picked)).value;
      assert GitTag(n) in Production(c, inv, env).effects;
      assert n == IncrementTag(t, inv.release, env.picked).value;
      CandidateReparses(t, rt);
      if FullyNumeric(t) {
        CandidatesAreNewer(t, rt);
      }
    }
  }

  /** The order of the requests: tag, push, push of the tags, remote run. */
  function Rank(e: Effect): nat {
    match e
    case GitTag(_) => 0
    case GitPush => 1
    case GitPushTags => 2
    case RemoteRun(_, _) => 3
  }

  predicate InOrder(effects: seq<Effect>) {
    forall i, j :: 0 <= i < j < |effects| ==> Rank(effects[i]) < Rank(effects[j])
  }

  lemma InOrderConcat(a: seq<Effect>, b: seq<Effect>)
    requires InOrder(a) && InOrder(b)
    requires forall x, y :: x in a && y in b ==> Rank(x) < Rank(y)
    ensures InOrder(a + b)
  {
    forall i, j | 0 <= i < j < |a + b|
      ensures Rank((a + b)[i]) < Rank((a + b)[j])
    {
      if j < |a| {
      } else if i >= |a| {
        assert (a + b)[i] == b[i - |a|] && (a + b)[j] == b[j - |a|];
      } else {
        assert (a + b)[i] in a && (a + b)[j] in b;
      }
    }
  }

  /** Chaining a tagging step, a pushing step and a remote step keeps their requests in that order. */
  lemma ChainInOrder(p: Run, q: Run, s: Run)
    requires |p.effects| <= 1 && forall x :: x in p.effects ==> Rank(x) == 0
    requires InOrder(q.effects) && forall x :: x in q.effects ==> 1 <= Rank(x) <= 2
    requires |s.effects| <= 1 && forall x :: x in s.effects ==> Rank(x) == 3
    ensures InOrder(Chain(p, q, s).effects)
  {
    if p.failure.None? {
      InOrderConcat(p.effects, q.effects);
      if q.failure.None? {
        InOrderConcat(p.effects + q.effects, s.effects);
      }
    }
  }

  /** Every run issues each kind of request at most once, in the order of the steps. */
  lemma FireInOrder(c: Config, inv: Invocation, env: Environment)
    requires Tagging(c, inv, env) ==> NumericTag(env.nearest)
    ensures InOrder(Fire(c, inv, env).effects)
  {
    ChainInOrder(Production(c, inv, env), Push(c, env), RunCommands(c, inv, env));
  }

  /**
   * A chain whose first two steps never run anything remotely, and whose last step succeeds with
   * exactly one remote run and fails with no request, succeeds exactly when a remote run comes last.
   */
  lemma ChainSucceeds(p: Run, q: Run, s: Run)
    requires forall x :: x in p.effects + q.effects ==> !x.RemoteRun?
    requires Succeeded(s) ==> |s.effects| == 1 && s.effects[0].RemoteRun?
    requires s.failure.Some? ==> s.effects == []
    ensures var r := Chain(p, q, s);
      Succeeded(r) <==> |r.effects| > 0 && r.effects[|r.effects| - 1].RemoteRun?
    ensures var r := Chain(p, q, s);
      Succeeded(r) ==> r.effects[|r.effects| - 1] == s.effects[0]
  {
    var r := Chain(p, q, s);
    if !Succeeded(r) && |r.effects| > 0 {
      if p.failure.None? && q.failure.None? {
        assert r.effects == p.effects + q.effects + [];
      }
      assert r.effects[|r.effects| - 1] in p.effects + q.effects;
    }
  }

  /**
   * The command succeeds exactly when its last request is a remote run, and that run is of the
   * resolved command list.
   */
  lemma SuccessIffRemoteRun(c: Config, inv: Invocation, env: Environment)
    requires Tagging(c, inv, env) ==> NumericTag(env.nearest)
    ensures var r := Fire(c, inv, env);
      Succeeded(r) <==> |r.effects| > 0 && r.effects[|r.effects| - 1].RemoteRun?
    ensures var r := Fire(c, inv, env);
      var resolved := ResolveAll(Commands(c, inv.remote), env.options, env.fuel);
      Succeeded(r) ==> resolved.Ok? && r.effects[|r.effects| - 1] == RemoteRun(inv.remote, resolved.value)
  {
    var p, q, s := Production(c, inv, env), Push(c, env), RunCommands(c, inv, env);
    NoRemoteRunBeforeCommands(c, inv, env);
    ChainSucceeds(p, q, s);
  }

  /** Tagging and pushing never ask for a remote run. */
  lemma NoRemoteRunBeforeCommands(c: Config, inv: Invocation, env: Environment)
    requires Tagging(c, inv, env) ==> NumericTag(env.nearest)
    ensures forall x :: x in Production(c, inv, env).effects + Push(c, env).effects ==> !x.RemoteRun?
  {
    var p, q := Production(c, inv, env), Push(c, env);
    forall x | x in p.effects + q.effects
      ensures !x.RemoteRun?
    {
      if x !in p.effects {
        assert x in q.effects;
      }
    }
  }

  /**
   * The fuel bound only stands in for the source's unbounded loop: a run that did not stop for
   * lack of fuel is the same run with any larger bound.
   */
  lemma FireFuelMonotone(c: Config, inv: Invocation, env: Environment, more: nat)
    requires Tagging(c, inv, env) ==> NumericTag(env.nearest)
    requires Fire(c, inv, env).failure != Some(OutOfFuel) && env.fuel <= more
    ensures Fire(c, inv, env.(fuel := more)) == Fire(c, inv, env)
  {
    var env' := env.(fuel := more);
    assert Production(c, inv, env') == Production(c, inv, env);
    assert Push(c, env') == Push(c, env);
    var items := Commands(c, inv.remote);
    if Succeeded(Production(c, inv, env)) && Succeeded(Push(c, env)) {
      ResolveAllFuelMonotone(items, env.options, env.fuel, more);
    }
  }

  // ---------------------------------------------------------------------------
  // The shipped configuration
  // ---------------------------------------------------------------------------

  /** The commands of the shipped configuration, in their order. */
  function ShippedCommands(): seq<Template> {
    [ Leaf("php artisan down"),
      Leaf("git checkout -f {branch|master}"),
      Leaf("git fetch {remote|origin}"),
      Leaf("git fetch {remote|origin} --tags"),
      Leaf("git pull -f {remote|origin} {branch|master}"),
      Leaf("composer install {composer-args|--no-dev}"),
      Leaf("php artisan up"),
      Leaf("php artisan queue:restart") ]
  }

  /** The shipped configuration: push and production tagging on, production remote `production`. */
  function ShippedConfig(roots: map<string, string>): Config {
    Config(true, true, "production", ShippedCommands(), roots)
  }

  /** None of the shipped commands is blank, so all of them run, after `cd <root>`. */
  lemma ShippedCommandList(roots: map<string, string>, remote: string)
    ensures Commands(ShippedConfig(roots), remote)
      == [Leaf("cd " + Root(ShippedConfig(roots), remote))] + ShippedCommands()
  {
    CommandList(ShippedConfig(roots), remote);
    ShippedKept();
    FilterUnchanged(ShippedCommands());
  }

  lemma ShippedKept()
    ensures forall i :: 0 <= i < |ShippedCommands()| ==> Kept(ShippedCommands()[i])
  {
  }

  /** A command blanked out in the configuration is dropped; the others keep their order. */
  lemma BlankedCommandDropped(a: seq<Template>, b: seq<Template>)
    ensures Filter(a + [Leaf("")] + b) == Filter(a) + Filter(b)
  {
    FilterConcat(a + [Leaf("")], b);
    FilterConcat(a, [Leaf("")]);
    assert [Leaf("")][1..] == [];
    assert Filter([Leaf("")]) == [];
    assert Filter(a) + [] == Filter(a);
  }

  /**
   * Deploying an untagged commit to production as a `minor` release, when the nearest tag parses
   * as 1.2.3 (as `v1.2.3` does), tags `v1.3.0`.
   */
  lemma TagMinorRelease(roots: map<string, string>, env: Environment)
    requires Parse(env.nearest) == Ok(SemanticTag("1", "2", "3", Release))
    requires env.described != env.nearest && env.tagExit == 0
    ensures Numeric(Parse(env.nearest).value)
    ensures Production(ShippedConfig(roots), Invocation("production", "minor"), env) == Run([GitTag("v1.3.0")], None)
  {
    MinorOfRelease();
    ExplicitReleaseIgnoresPick(SemanticTag("1", "2", "3", Release), "minor", env.picked, "");
  }
}
