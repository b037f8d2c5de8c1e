/**
 * `parseTags` on the configured commands: a command is a line or an array of commands, arrays
 * are walked in order, and the first line that fails stops the walk.
 */
module Templates {
  import opened Outcomes
  import opened Text
  import opened Tokens
  import opened Placeholders

  /** A configured command: one line, or an array of commands (PHP arrays may nest). */
  datatype Template = Leaf(command: string) | Seq(items: seq<Template>)

  /** Every line in the tree is free of placeholders. */
  ghost predicate Clean(t: Template) {
    match t
    case Leaf(s) => NoPlaceholder(s)
    case Seq(items) => forall i :: 0 <= i < |items| ==> Clean(items[i])
  }

  /** `u` has the structure of `t`: arrays of the same lengths in the same places. */
  predicate SameShape(t: Template, u: Template) {
    match (t, u)
    case (Leaf(_), Leaf(_)) => true
    case (Seq(a), Seq(b)) => |a| == |b| && forall i :: 0 <= i < |a| ==> SameShape(a[i], b[i])
    case _ => false
  }

  /** `parseTags(&$command)`: resolve a line, or every element of an array in order. */
  function Resolve(t: Template, opts: Options, fuel: nat): (r: Result<Template>)
    ensures r.Ok? ==> SameShape(t, r.value) && Clean(r.value)
    ensures r.Err? ==> LineError(r.error)
    decreases t, 1
  {
    match t
    case Leaf(s) =>
      var line :- ResolveLine(s, opts, fuel);
      Ok(Leaf(line))
    case Seq(items) =>
      var resolved :- ResolveAll(items, opts, fuel);
      Ok(Seq(resolved))
  }

  /** The `foreach` of `parseTags`: the first element that fails ends the loop with its error. */
  function ResolveAll(items: seq<Template>, opts: Options, fuel: nat): (r: Result<seq<Template>>)
    ensures r.Ok? ==>
      && |r.value| == |items|
      && forall i :: 0 <= i < |items| ==> Resolve(items[i], opts, fuel) == Ok(r.value[i])
    ensures r.Err? ==> LineError(r.error)
    decreases items, 0
  {
    if |items| == 0 then Ok([])
    else
      var first :- Resolve(items[0], opts, fuel);
      var rest :- ResolveAll(items[1..], opts, fuel);
      Ok([first] + rest)
  }

  // ---------------------------------------------------------------------------
  // Order and short-circuit
  // ---------------------------------------------------------------------------

  /** Resolving `a + b` resolves `a` first and looks at `b` only when all of `a` succeeded. */
  lemma {:induction false} ResolveAllConcat(a: seq<Template>, b: seq<Template>, opts: Options, fuel: nat)
    ensures ResolveAll(a + b, opts, fuel)
      == match ResolveAll(a, opts, fuel)
         case Err(e) => Err(e)
         case Ok(x) =>
           match ResolveAll(b, opts, fuel)
           case Err(e) => Err(e)
           case Ok(y) => Ok(x + y)
    decreases a
  {
    if |a| == 0 {
      assert a + b == b;
      if ResolveAll(b, opts, fuel).Ok? {
        assert [] + ResolveAll(b, opts, fuel).value == ResolveAll(b, opts, fuel).value;
      }
    } else {
      assert (a + b)[0] == a[0] && (a + b)[1..] == a[1..] + b;
      ResolveAllConcat(a[1..], b, opts, fuel);
      match Resolve(a[0], opts, fuel)
      case Err(_) =>
      case Ok(f) =>
        match ResolveAll(a[1..], opts, fuel)
        case Err(_) =>
        case Ok(x) =>
          match ResolveAll(b, opts, fuel)
          case Err(_) =>
          case Ok(y) =>
            assert [f] + (x + y) == [f] + x + y;
    }
  }

  /** Once an element fails, later siblings are never examined: the outcome ignores them. */
  lemma ShortCircuit(a: seq<Template>, b: seq<Template>, opts: Options, fuel: nat)
    requires ResolveAll(a, opts, fuel).Err?
    ensures ResolveAll(a + b, opts, fuel) == ResolveAll(a, opts, fuel)
  {
    ResolveAllConcat(a, b, opts, fuel);
  }

  /** An array resolves exactly when each of its elements does. */
  lemma {:induction false} ResolveAllOkIff(items: seq<Template>, opts: Options, fuel: nat)
    ensures ResolveAll(items, opts, fuel).Ok? <==>
      forall i :: 0 <= i < |items| ==> Resolve(items[i], opts, fuel).Ok?
    decreases items
  {
    if |items| > 0 {
      ResolveAllOkIff(items[1..], opts, fuel);
      if forall i :: 0 <= i < |items| ==> Resolve(items[i], opts, fuel).Ok? {
        forall i | 0 <= i < |items[1..]|
          ensures Resolve(items[1..][i], opts, fuel).Ok?
        {
          assert items[1..][i] == items[i + 1];
        }
      }
    }
  }

  /** Element `k` is the first to fail, with error `e`. */
  predicate FailsFirstAt(items: seq<Template>, opts: Options, fuel: nat, k: int, e: Error) {
    && 0 <= k < |items|
    && (forall j :: 0 <= j < k ==> Resolve(items[j], opts, fuel).Ok?)
    && Resolve(items[k], opts, fuel) == Err(e)
  }

  /**
   * When an array fails, the error is that of its first failing element, every element before
   * it having resolved.
   */
  lemma {:induction false} FirstFailure(items: seq<Template>, opts: Options, fuel: nat)
    ensures ResolveAll(items, opts, fuel).Err? ==>
      exists k :: FailsFirstAt(items, opts, fuel, k, ResolveAll(items, opts, fuel).error)
    decreases items
  {
    var r := ResolveAll(items, opts, fuel);
    if r.Err? {
      match Resolve(items[0], opts, fuel)
      case Err(e) =>
        assert Resolve(items[0], opts, fuel) == Err(r.error);
        assert FailsFirstAt(items, opts, fuel, 0, r.error);
      case Ok(_) =>
        var rest := items[1..];
        assert ResolveAll(rest, opts, fuel) == r;
        FirstFailure(rest, opts, fuel);
        var k :| FailsFirstAt(rest, opts, fuel, k, r.error);
        forall j | 0 <= j < k + 1
          ensures Resolve(items[j], opts, fuel).Ok?
        {
          if j > 0 {
            assert items[j] == rest[j - 1];
          }
        }
        assert items[k + 1] == rest[k];
        assert FailsFirstAt(items, opts, fuel, k + 1, r.error);
    }
  }

  // ---------------------------------------------------------------------------
  // Idempotence
  // ---------------------------------------------------------------------------

  /** A tree is returned unchanged exactly when none of its lines holds a placeholder. */
  lemma {:induction false} ResolveUnchanged(t: Template, opts: Options, fuel: nat)
    ensures Resolve(t, opts, fuel) == Ok(t) <==> Clean(t)
    decreases t, 1
  {
    match t
    case Leaf(s) =>
      UnchangedIff(s, opts, fuel);
    case Seq(items) =>
      ResolveAllUnchanged(items, opts, fuel);
  }

  lemma {:induction false} ResolveAllUnchanged(items: seq<Template>, opts: Options, fuel: nat)
    ensures ResolveAll(items, opts, fuel) == Ok(items) <==>
      forall i :: 0 <= i < |items| ==> Clean(items[i])
    decreases items, 0
  {
    if |items| > 0 {
      ResolveUnchanged(items[0], opts, fuel);
      ResolveAllUnchanged(items[1..], opts, fuel);
      if forall i :: 0 <= i < |items| ==> Clean(items[i]) {
        assert forall i :: 0 <= i < |items[1..]| ==> Clean(items[1..][i]) by {
          forall i | 0 <= i < |items[1..]|
            ensures Clean(items[1..][i])
          {
            assert items[1..][i] == items[i + 1];
          }
        }
        assert [items[0]] + items[1..] == items;
      }
      if ResolveAll(items, opts, fuel) == Ok(items) {
        forall i | 0 <= i < |items|
          ensures Clean(items[i])
        {
          ResolveUnchanged(items[i], opts, fuel);
        }
      }
    }
  }

  /** Resolving a resolved tree again changes nothing. */
  lemma Idempotent(t: Template, opts: Options, fuel: nat, fuel': nat)
    requires Resolve(t, opts, fuel).Ok?
    ensures Resolve(Resolve(t, opts, fuel).value, opts, fuel') == Resolve(t, opts, fuel)
  {
    ResolveUnchanged(Resolve(t, opts, fuel).value, opts, fuel');
  }

  // ---------------------------------------------------------------------------
  // Fuel
  // ---------------------------------------------------------------------------

  /** Fuel only bounds each line's loop: once a tree resolves without running out, more fuel changes nothing. */
  lemma {:induction false} ResolveFuelMonotone(t: Template, opts: Options, fuel: nat, more: nat)
    requires Resolve(t, opts, fuel) != Err(OutOfFuel) && fuel <= more
    ensures Resolve(t, opts, more) == Resolve(t, opts, fuel)
    decreases t, 1
  {
    match t
    case Leaf(s) =>
      FuelMonotone(s, opts, fuel, more);
    case Seq(items) =>
      ResolveAllFuelMonotone(items, opts, fuel, more);
  }

  lemma {:induction false} ResolveAllFuelMonotone(items: seq<Template>, opts: Options, fuel: nat, more: nat)
    requires ResolveAll(items, opts, fuel) != Err(OutOfFuel) && fuel <= more
    ensures ResolveAll(items, opts, more) == ResolveAll(items, opts, fuel)
    decreases items, 0
  {
    if |items| > 0 {
      ResolveFuelMonotone(items[0], opts, fuel, more);
      if Resolve(items[0], opts, fuel).Ok? {
        ResolveAllFuelMonotone(items[1..], opts, fuel, more);
      }
    }
  }

  /** The most `{` any line of the tree holds. */
  function MaxBraces(t: Template): nat
    decreases t, 1
  {
    match t
    case Leaf(s) => Count(s, '{')
    case Seq(items) => MaxBracesAll(items)
  }

  function MaxBracesAll(items: seq<Template>): nat
    decreases items, 0
  {
    if |items| == 0 then 0
    else
      var first, rest := MaxBraces(items[0]), MaxBracesAll(items[1..]);
      if first < rest then rest else first
  }

  /**
   * When no option value contains `{`, fuel as large as the most `{` on any line never runs out,
   * so the walk ends as the source's does.
   */
  lemma {:induction false} ResolveEnoughFuel(t: Template, opts: Options, fuel: nat)
    requires BraceFree(opts) && MaxBraces(t) <= fuel
    ensures Resolve(t, opts, fuel) != Err(OutOfFuel)
    decreases t, 1
  {
    match t
    case Leaf(s) =>
      ResolveTerminates(s, opts, fuel);
    case Seq(items) =>
      ResolveAllEnoughFuel(items, opts, fuel);
  }

  lemma {:induction false} ResolveAllEnoughFuel(items: seq<Template>, opts: Options, fuel: nat)
    requires BraceFree(opts) && MaxBracesAll(items) <= fuel
    ensures ResolveAll(items, opts, fuel) != Err(OutOfFuel)
    decreases items, 0
  {
    if |items| > 0 {
      ResolveEnoughFuel(items[0], opts, fuel);
      ResolveAllEnoughFuel(items[1..], opts, fuel);
    }
  }

  /** With such options the outcome is the same for every fuel that suffices. */
  lemma FuelIrrelevant(t: Template, opts: Options, fuel: nat)
    requires BraceFree(opts) && MaxBraces(t) <= fuel
    ensures Resolve(t, opts, fuel) == Resolve(t, opts, MaxBraces(t))
  {
    ResolveEnoughFuel(t, opts, MaxBraces(t));
    ResolveFuelMonotone(t, opts, MaxBraces(t), fuel);
  }

  // ---------------------------------------------------------------------------
  // Examples
  // ---------------------------------------------------------------------------

  /** A command missing its option stops the walk, whatever commands follow it. */
  lemma MissingStopsWalk(rest: seq<Template>)
    ensures ResolveAll([Leaf("git fetch {remote}")] + rest, map[], 1) == Err(MissingOption("remote"))
  {
    MissingRemote();
    assert ResolveAll([Leaf("git fetch {remote}")], map[], 1) == Err(MissingOption("remote"));
    ShortCircuit([Leaf("git fetch {remote}")], rest, map[], 1);
  }

  /** A one-element array resolves as its element does. */
  lemma ResolveAllOne(t: Template, opts: Options, fuel: nat)
    ensures ResolveAll([t], opts, fuel)
      == match Resolve(t, opts, fuel) case Err(e) => Err(e) case Ok(u) => Ok([u])
  {
    assert [t][0] == t && [t][1..] == [];
    if Resolve(t, opts, fuel).Ok? {
      assert [Resolve(t, opts, fuel).value] + [] == [Resolve(t, opts, fuel).value];
    }
  }

  /** Nested arrays are resolved in place: each line is replaced by its own resolution. */
  lemma NestedArray(a: string, b: string, opts: Options, fuel: nat)
    requires ResolveLine(a, opts, fuel).Ok? && ResolveLine(b, opts, fuel).Ok?
    ensures var a', b' := ResolveLine(a, opts, fuel).value, ResolveLine(b, opts, fuel).value;
      Resolve(Seq([Leaf(a), Seq([Leaf(b)])]), opts, fuel) == Ok(Seq([Leaf(a'), Seq([Leaf(b')])]))
  {
    var a', b' := ResolveLine(a, opts, fuel).value, ResolveLine(b, opts, fuel).value;
    ResolveAllOne(Leaf(b), opts, fuel);
    ResolveAllOne(Seq([Leaf(b)]), opts, fuel);
    ResolveAllOne(Leaf(a), opts, fuel);
    ResolveAllConcat([Leaf(a)], [Seq([Leaf(b)])], opts, fuel);
    assert [Leaf(a)] + [Seq([Leaf(b)])] == [Leaf(a), Seq([Leaf(b)])];
    assert [Leaf(a')] + [Seq([Leaf(b')])] == [Leaf(a'), Seq([Leaf(b')])];
  }
}
