/** Running a plan unit by unit, with the store handed on
    (fabric/services/apply.py, fabric/services/unit.py), against one controller
    that runs all its steps (deployer/lifecycle.py). What an operation does to
    the world is a parameter. */
module UnitRuns {
  import opened Common
  import opened JsonValues
  import opened Steps
  import opened Plans

  /** What one operation does on creation: the world, the store with what it
      captured, and whether it succeeded. */
  datatype Ran<W> = Ran(world: W, store: Store, ok: bool)

  /** What a controller does: resolve the operation from its store, then run it;
      the first failure ends the run. */
  function RunSteps<W>(run: (W, Store, Operation) -> Ran<W>, w: W, store: Store, steps: seq<Step>, host: string): Ran<W>
    decreases |steps|
  {
    if steps == [] then Ran(w, store, true)
    else
      var r := run(w, store, Resolve(ToOperation(steps[0], host), store));
      if r.ok then RunSteps(run, r.world, r.store, steps[1..], host) else r
  }

  /** The scopes every other one needs. */
  predicate Foundation(scope: string) {
    scope == "configure" || scope == "cluster" || scope == ""
  }

  /** What a creation cannot run any more: everything, once the foundation
      failed, and the rest of every scope that failed. */
  datatype Failed = Failed(foundation: bool, scopes: set<string>) {
    function Add(u: Unit): Failed {
      if Foundation(u.scope) then Failed(true, scopes) else Failed(foundation, scopes + {u.scope})
    }

    predicate Blocks(u: Unit) {
      foundation || u.scope in scopes
    }
  }

  const NONE_FAILED := Failed(false, {})

  /** What is reported of a unit. */
  datatype UnitState = UnitDone | UnitFailed | UnitSkipped

  datatype Applied<W> = Applied(world: W, store: Store, failed: Failed, results: seq<UnitState>)

  /** The apply task: one unit after the other, the store of each handed to the
      next, and what needs a failed unit skipped. */
  function RunUnits<W>(run: (W, Store, Operation) -> Ran<W>, w: W, store: Store, units: seq<Unit>, failed: Failed,
      host: string): Applied<W>
    decreases |units|
  {
    if units == [] then Applied(w, store, failed, [])
    else if failed.Blocks(units[0]) then
      var rest := RunUnits(run, w, store, units[1..], failed, host);
      rest.(results := [UnitSkipped] + rest.results)
    else
      var r := RunSteps(run, w, store, units[0].steps, host);
      var rest := RunUnits(run, r.world, r.store, units[1..], if r.ok then failed else failed.Add(units[0]), host);
      rest.(results := [if r.ok then UnitDone else UnitFailed] + rest.results)
  }

  method ApplyUnits<W>(run: (W, Store, Operation) -> Ran<W>, w: W, store: Store, units: seq<Unit>, host: string)
      returns (applied: Applied<W>)
    ensures applied == RunUnits(run, w, store, units, NONE_FAILED, host)
  {
    applied := Applied(w, store, NONE_FAILED, []);
    for i := 0 to |units|
      invariant var rest := RunUnits(run, applied.world, applied.store, units[i..], applied.failed, host);
                RunUnits(run, w, store, units, NONE_FAILED, host) ==
                rest.(results := applied.results + rest.results)
    {
      assert units[i..][1..] == units[i + 1..];
      ghost var before := applied;
      if applied.failed.Blocks(units[i]) {
        applied := applied.(results := applied.results + [UnitSkipped]);
      } else {
        var r := RunSteps(run, applied.world, applied.store, units[i].steps, host);
        applied := Applied(r.world, r.store, if r.ok then applied.failed else applied.failed.Add(units[i]),
                           applied.results + [if r.ok then UnitDone else UnitFailed]);
      }
      AppendAssociates(before.results, [applied.results[|before.results|]],
        RunUnits(run, applied.world, applied.store, units[i + 1..], applied.failed, host).results);
    }
  }

  // ---------------------------------------------------------------------
  // What is skipped
  // ---------------------------------------------------------------------

  /** A failure in the first scope keeps a unit of the second from running. */
  predicate Stops(failed: string, scope: string) {
    failed in {"configure", "cluster", ""} || failed == scope
  }

  lemma {:induction false} SkippedFrom<W>(run: (W, Store, Operation) -> Ran<W>, w: W, store: Store, units: seq<Unit>,
      failed: Failed, host: string, i: nat)
    requires i < |units|
    ensures var results := RunUnits(run, w, store, units, failed, host).results;
            && |results| == |units|
            && (results[i] == UnitSkipped <==>
                  || failed.Blocks(units[i])
                  || exists j | 0 <= j < i :: results[j] == UnitFailed && Stops(units[j].scope, units[i].scope))
    decreases |units|
  {
    var results := RunUnits(run, w, store, units, failed, host).results;
    if failed.Blocks(units[0]) {
      var rest := RunUnits(run, w, store, units[1..], failed, host).results;
      assert results == [UnitSkipped] + rest;
      if i > 0 {
        SkippedFrom(run, w, store, units[1..], failed, host, i - 1);
        OneEarlierUnit(units, results, i);
      } else if |units| > 1 {
        SkippedFrom(run, w, store, units[1..], failed, host, 0);
      }
    } else {
      var r := RunSteps(run, w, store, units[0].steps, host);
      var failed' := if r.ok then failed else failed.Add(units[0]);
      var rest := RunUnits(run, r.world, r.store, units[1..], failed', host).results;
      assert results == [if r.ok then UnitDone else UnitFailed] + rest;
      if i > 0 {
        SkippedFrom(run, r.world, r.store, units[1..], failed', host, i - 1);
        OneEarlierUnit(units, results, i);
      } else if |units| > 1 {
        SkippedFrom(run, r.world, r.store, units[1..], failed', host, 0);
      }
    }
  }

  lemma OneEarlierUnit(units: seq<Unit>, results: seq<UnitState>, i: nat)
    requires 0 < i < |units| == |results|
    ensures (exists j | 0 <= j < i :: results[j] == UnitFailed && Stops(units[j].scope, units[i].scope)) <==>
            || (results[0] == UnitFailed && Stops(units[0].scope, units[i].scope))
            || exists j | 0 <= j < i - 1 ::
                 results[1..][j] == UnitFailed && Stops(units[1..][j].scope, units[1..][i - 1].scope)
  {
    forall j | 0 <= j < i - 1 ensures results[1..][j] == results[j + 1] && units[1..][j] == units[j + 1] {
    }
    if j :| 0 < j < i && results[j] == UnitFailed && Stops(units[j].scope, units[i].scope) {
      assert results[1..][j - 1] == UnitFailed;
    }
    if j :| 0 <= j < i - 1 && results[1..][j] == UnitFailed && Stops(units[1..][j].scope, units[1..][i - 1].scope) {
      assert results[j + 1] == UnitFailed && Stops(units[j + 1].scope, units[i].scope);
    }
  }

  /** Over any scopes and failures: a unit is skipped exactly when a unit before
      it ran and failed, in the foundation or in the unit's own scope. Other
      scopes go on. */
  lemma SkippedIff<W>(run: (W, Store, Operation) -> Ran<W>, w: W, store: Store, units: seq<Unit>, host: string, i: nat)
    requires i < |units|
    ensures var results := RunUnits(run, w, store, units, NONE_FAILED, host).results;
            && |results| == |units|
            && (results[i] == UnitSkipped <==>
                  exists j | 0 <= j < i ::
                    results[j] == UnitFailed
                    && (units[j].scope in {"configure", "cluster", ""} || units[j].scope == units[i].scope))
  {
    SkippedFrom(run, w, store, units, NONE_FAILED, host, i);
    var results := RunUnits(run, w, store, units, NONE_FAILED, host).results;
    assert forall j | 0 <= j < i ::
        Stops(units[j].scope, units[i].scope) <==>
        units[j].scope in {"configure", "cluster", ""} || units[j].scope == units[i].scope;
  }

  /** `states` are world and store before each unit and at the end: a unit that
      was skipped changes neither, any other runs its steps from there, and is
      done or failed as they are. */
  ghost predicate Unrolls<W(!new)>(run: (W, Store, Operation) -> Ran<W>, units: seq<Unit>, host: string,
      results: seq<UnitState>, states: seq<(W, Store)>) {
    && |results| == |units| && |states| == |units| + 1
    && forall i | 0 <= i < |units| :: UnitTurn(run, states[i], units[i], host, results[i], states[i + 1])
  }

  ghost predicate UnitTurn<W(!new)>(run: (W, Store, Operation) -> Ran<W>, before: (W, Store), u: Unit, host: string,
      result: UnitState, after: (W, Store)) {
    if result == UnitSkipped then after == before
    else
      var r := RunSteps(run, before.0, before.1, u.steps, host);
      after == (r.world, r.store) && result == if r.ok then UnitDone else UnitFailed
  }

  lemma UnrollsOneEarlier<W(!new)>(run: (W, Store, Operation) -> Ran<W>, units: seq<Unit>, host: string,
      result: UnitState, results: seq<UnitState>, before: (W, Store), states: seq<(W, Store)>)
    requires units != [] && Unrolls(run, units[1..], host, results, states)
    requires UnitTurn(run, before, units[0], host, result, states[0])
    ensures Unrolls(run, units, host, [result] + results, [before] + states)
  {
    forall i | 0 <= i < |units|
      ensures UnitTurn(run, ([before] + states)[i], units[i], host, ([result] + results)[i], ([before] + states)[i + 1])
    {
      if i > 0 {
        assert units[1..][i - 1] == units[i];
      }
    }
  }

  lemma {:induction false} UnitsUnroll<W(!new)>(run: (W, Store, Operation) -> Ran<W>, w: W, store: Store,
      units: seq<Unit>, failed: Failed, host: string)
      returns (states: seq<(W, Store)>)
    ensures var cut := RunUnits(run, w, store, units, failed, host);
            && Unrolls(run, units, host, cut.results, states)
            && states[0] == (w, store) && states[|units|] == (cut.world, cut.store)
    decreases |units|
  {
    if units == [] {
      states := [(w, store)];
    } else {
      var results := RunUnits(run, w, store, units, failed, host).results;
      var rest;
      if failed.Blocks(units[0]) {
        rest := UnitsUnroll(run, w, store, units[1..], failed, host);
      } else {
        var r := RunSteps(run, w, store, units[0].steps, host);
        var failed' := if r.ok then failed else failed.Add(units[0]);
        rest := UnitsUnroll(run, r.world, r.store, units[1..], failed', host);
      }
      assert results == [results[0]] + results[1..];
      UnrollsOneEarlier(run, units, host, results[0], results[1..], (w, store), rest);
      states := [(w, store)] + rest;
    }
  }

  /** World and store are those of the units that were not skipped, run in order. */
  lemma KeptUnitsRunInOrder<W(!new)>(run: (W, Store, Operation) -> Ran<W>, w: W, store: Store, units: seq<Unit>,
      host: string)
      returns (states: seq<(W, Store)>)
    ensures var cut := RunUnits(run, w, store, units, NONE_FAILED, host);
            && Unrolls(run, units, host, cut.results, states)
            && states[0] == (w, store) && states[|units|] == (cut.world, cut.store)
  {
    states := UnitsUnroll(run, w, store, units, NONE_FAILED, host);
  }

  // ---------------------------------------------------------------------
  // Inside a unit
  // ---------------------------------------------------------------------

  /** `states` are world and store before each step that ran and after the last:
      each step resolves its operation from the store the one before left, and
      the run goes on to the end or to the first failure. */
  ghost predicate StepsUnroll<W(!new)>(run: (W, Store, Operation) -> Ran<W>, steps: seq<Step>, host: string,
      states: seq<(W, Store)>, ok: bool) {
    && 0 < |states| <= |steps| + 1 && (ok ==> |states| == |steps| + 1) && (!ok ==> |states| > 1)
    && forall i | 0 <= i < |states| - 1 ::
         StepTurn(run, states[i], steps[i], host, states[i + 1], ok || i < |states| - 2)
  }

  ghost predicate StepTurn<W(!new)>(run: (W, Store, Operation) -> Ran<W>, before: (W, Store), step: Step, host: string,
      after: (W, Store), ok: bool) {
    run(before.0, before.1, Resolve(ToOperation(step, host), before.1)) == Ran(after.0, after.1, ok)
  }

  lemma StepsOneEarlier<W(!new)>(run: (W, Store, Operation) -> Ran<W>, steps: seq<Step>, host: string,
      before: (W, Store), states: seq<(W, Store)>, ok: bool)
    requires steps != [] && StepsUnroll(run, steps[1..], host, states, ok)
    requires StepTurn(run, before, steps[0], host, states[0], true)
    ensures StepsUnroll(run, steps, host, [before] + states, ok)
  {
    var all := [before] + states;
    forall i | 0 <= i < |all| - 1 ensures StepTurn(run, all[i], steps[i], host, all[i + 1], ok || i < |all| - 2) {
      if i > 0 {
        assert steps[1..][i - 1] == steps[i];
      }
    }
  }

  /** A unit's steps run in order, each on what the one before left, up to the
      first that fails. */
  lemma {:induction false} StepsRunInOrder<W(!new)>(run: (W, Store, Operation) -> Ran<W>, w: W, store: Store,
      steps: seq<Step>, host: string)
      returns (states: seq<(W, Store)>)
    ensures var r := RunSteps(run, w, store, steps, host);
            && StepsUnroll(run, steps, host, states, r.ok)
            && states[0] == (w, store) && states[|states| - 1] == (r.world, r.store)
    decreases |steps|
  {
    if steps == [] {
      states := [(w, store)];
    } else {
      var r := run(w, store, Resolve(ToOperation(steps[0], host), store));
      if r.ok {
        var rest := StepsRunInOrder(run, r.world, r.store, steps[1..], host);
        StepsOneEarlier(run, steps, host, (w, store), rest, RunSteps(run, r.world, r.store, steps[1..], host).ok);
        states := [(w, store)] + rest;
      } else {
        states := [(w, store), (r.world, r.store)];
      }
    }
  }

  function ConcatSteps(units: seq<Unit>): seq<Step> {
    if units == [] then [] else units[0].steps + ConcatSteps(units[1..])
  }

  lemma {:induction false} ConcatAppends(units: seq<Unit>, u: Unit)
    ensures ConcatSteps(units + [u]) == ConcatSteps(units) + u.steps
  {
    if units == [] {
      assert [u][1..] == [] && [] + [u] == [u];
    } else {
      assert (units + [u])[1..] == units[1..] + [u];
      ConcatAppends(units[1..], u);
    }
  }

  /** The same concatenation the plan speaks of. */
  lemma {:induction false} ConcatIsStepsOf(units: seq<Unit>)
    ensures ConcatSteps(units) == StepsOf(units)
  {
    if units != [] {
      ConcatIsStepsOf(units[..|units| - 1]);
      assert units == units[..|units| - 1] + [units[|units| - 1]];
      ConcatAppends(units[..|units| - 1], units[|units| - 1]);
    }
  }

  /** A controller run splits at any point. */
  lemma {:induction false} RunSplits<W>(run: (W, Store, Operation) -> Ran<W>, w: W, store: Store, x: seq<Step>,
      y: seq<Step>, host: string)
    ensures var r := RunSteps(run, w, store, x, host);
            RunSteps(run, w, store, x + y, host) == if r.ok then RunSteps(run, r.world, r.store, y, host) else r
    decreases |x|
  {
    if x == [] {
      assert x + y == y;
    } else {
      assert (x + y)[1..] == x[1..] + y;
      var r := run(w, store, Resolve(ToOperation(x[0], host), store));
      if r.ok {
        RunSplits(run, r.world, r.store, x[1..], y, host);
      }
    }
  }

  /** Every unit needs all the units before it: they are of one scope, or the
      earlier ones of the foundation. */
  ghost predicate EachNeedsEarlier(units: seq<Unit>) {
    forall i, j | 0 <= i < j < |units| :: Foundation(units[i].scope) || units[i].scope == units[j].scope
  }

  lemma {:induction false} AllBlocked<W>(run: (W, Store, Operation) -> Ran<W>, w: W, store: Store, units: seq<Unit>,
      failed: Failed, host: string)
    requires forall u | u in units :: failed.Blocks(u)
    ensures var cut := RunUnits(run, w, store, units, failed, host);
            cut.world == w && cut.store == store && cut.failed == failed
    decreases |units|
  {
    if units != [] {
      AllBlocked(run, w, store, units[1..], failed, host);
    }
  }

  /** Cutting into units changes nothing: where every unit needs the ones before
      it, running unit by unit, skipping what a failure blocks, does to world and
      store what one controller run over all the steps does, failures included. */
  lemma {:induction false} UnitsRunAsOne<W>(run: (W, Store, Operation) -> Ran<W>, w: W, store: Store,
      units: seq<Unit>, host: string)
    requires EachNeedsEarlier(units)
    ensures var one := RunSteps(run, w, store, ConcatSteps(units), host);
            var cut := RunUnits(run, w, store, units, NONE_FAILED, host);
            cut.world == one.world && cut.store == one.store && (cut.failed == NONE_FAILED <==> one.ok)
    decreases |units|
  {
    if units != [] {
      var u, rest := units[0], units[1..];
      var r := RunSteps(run, w, store, u.steps, host);
      RunSplits(run, w, store, u.steps, ConcatSteps(rest), host);
      if r.ok {
        UnitsRunAsOne(run, r.world, r.store, rest, host);
      } else {
        var failed := NONE_FAILED.Add(u);
        assert failed != NONE_FAILED by {
          assert u.scope in failed.scopes || failed.foundation;
        }
        forall x | x in rest ensures failed.Blocks(x) {
          var i :| 0 <= i < |rest| && rest[i] == x;
          assert units[i + 1] == x;
        }
        AllBlocked(run, r.world, r.store, rest, failed, host);
      }
    }
  }

  /** Over several scopes the same holds whenever the controller run succeeds:
      then no unit fails and none is skipped. */
  lemma {:induction false} SuccessfulUnitsRunAsOne<W>(run: (W, Store, Operation) -> Ran<W>, w: W, store: Store,
      units: seq<Unit>, host: string)
    ensures var one := RunSteps(run, w, store, ConcatSteps(units), host);
            var cut := RunUnits(run, w, store, units, NONE_FAILED, host);
            one.ok ==>
              && cut.world == one.world && cut.store == one.store && cut.failed == NONE_FAILED
              && |cut.results| == |units| && forall i | 0 <= i < |units| :: cut.results[i] == UnitDone
    decreases |units|
  {
    if units != [] {
      var r := RunSteps(run, w, store, units[0].steps, host);
      RunSplits(run, w, store, units[0].steps, ConcatSteps(units[1..]), host);
      if r.ok {
        SuccessfulUnitsRunAsOne(run, r.world, r.store, units[1..], host);
      }
    }
  }

  // ---------------------------------------------------------------------
  // Deleting
  // ---------------------------------------------------------------------

  function Reversed<T>(s: seq<T>): seq<T> {
    if s == [] then [] else Reversed(s[1..]) + [s[0]]
  }

  lemma {:induction false} ReversedAppends<T>(x: seq<T>, y: seq<T>)
    ensures Reversed(x + y) == Reversed(y) + Reversed(x)
  {
    if x == [] {
      assert x + y == y;
    } else {
      assert (x + y)[1..] == x[1..] + y;
      ReversedAppends(x[1..], y);
    }
  }

  function Rewound(u: Unit): Unit {
    u.(steps := Reversed(u.steps))
  }

  function RewoundAll(units: seq<Unit>): seq<Unit> {
    if units == [] then [] else [Rewound(units[0])] + RewoundAll(units[1..])
  }

  lemma {:induction false} RewoundAppends(units: seq<Unit>, u: Unit)
    ensures RewoundAll(units + [u]) == RewoundAll(units) + [Rewound(u)]
  {
    if units == [] {
      assert [u][1..] == [] && [] + [u] == [u];
    } else {
      assert (units + [u])[1..] == units[1..] + [u];
      RewoundAppends(units[1..], u);
    }
  }

  /** The units reversed and the steps of each reversed are the whole queue
      reversed. */
  lemma {:induction false} ReversalAgrees(units: seq<Unit>)
    ensures ConcatSteps(RewoundAll(Reversed(units))) == Reversed(ConcatSteps(units))
  {
    if units != [] {
      ReversalAgrees(units[1..]);
      RewoundAppends(Reversed(units[1..]), units[0]);
      ConcatAppends(RewoundAll(Reversed(units[1..])), Rewound(units[0]));
      ReversedAppends(units[0].steps, ConcatSteps(units[1..]));
    }
  }

  /** Best effort: every operation is tried, in this order. */
  function DeleteSteps<W>(delete: (W, Operation) -> W, w: W, store: Store, steps: seq<Step>, host: string): W
    decreases |steps|
  {
    if steps == [] then w
    else DeleteSteps(delete, delete(w, Resolve(ToOperation(steps[0], host), store)), store, steps[1..], host)
  }

  /** The apply task deleting: the units it is given, none skipped, the steps of
      each reversed by its executor. */
  function DeleteUnits<W>(delete: (W, Operation) -> W, w: W, store: Store, units: seq<Unit>, host: string): W
    decreases |units|
  {
    if units == [] then w
    else DeleteUnits(delete, DeleteSteps(delete, w, store, Reversed(units[0].steps), host), store, units[1..], host)
  }

  lemma {:induction false} DeleteSplits<W>(delete: (W, Operation) -> W, w: W, store: Store, x: seq<Step>,
      y: seq<Step>, host: string)
    ensures DeleteSteps(delete, w, store, x + y, host) ==
            DeleteSteps(delete, DeleteSteps(delete, w, store, x, host), store, y, host)
    decreases |x|
  {
    if x == [] {
      assert x + y == y;
    } else {
      assert (x + y)[1..] == x[1..] + y;
      DeleteSplits(delete, delete(w, Resolve(ToOperation(x[0], host), store)), store, x[1..], y, host);
    }
  }

  lemma {:induction false} DeleteUnitsInOrder<W>(delete: (W, Operation) -> W, w: W, store: Store, units: seq<Unit>,
      host: string)
    ensures DeleteUnits(delete, w, store, units, host) ==
            DeleteSteps(delete, w, store, ConcatSteps(RewoundAll(units)), host)
    decreases |units|
  {
    if units != [] {
      var steps := Reversed(units[0].steps);
      DeleteSplits(delete, w, store, steps, ConcatSteps(RewoundAll(units[1..])), host);
      DeleteUnitsInOrder(delete, DeleteSteps(delete, w, store, steps, host), store, units[1..], host);
    }
  }

  /** Deleting unit by unit, rewound, is deleting the reversed queue. */
  lemma UnitsDeleteAsOne<W>(delete: (W, Operation) -> W, w: W, store: Store, units: seq<Unit>, host: string)
    ensures DeleteUnits(delete, w, store, Reversed(units), host)
         == DeleteSteps(delete, w, store, Reversed(ConcatSteps(units)), host)
  {
    DeleteUnitsInOrder(delete, w, store, Reversed(units), host);
    ReversalAgrees(units);
  }

  ghost predicate OneScope(p: Plan) {
    forall i | 0 <= i < |p.units| :: p.units[i].scope == p.scope
  }

  lemma AddingKeepsScope(p: Plan, unit: Option<nat>, op: Operation)
    requires OneScope(p) && AddTo(p, unit, op).Success?
    ensures OneScope(AddTo(p, unit, op).value)
  {
  }

  lemma DeclaringKeepsScope(p: Plan, d: Declaration)
    requires OneScope(p) && Declare(p, d).Success?
    ensures OneScope(Declare(p, d).value)
  {
    var (q, what) := Declared(p, d).value;
    assert OneScope(q);
    if what.Some? {
      AddingKeepsScope(q, what.value.0, what.value.1);
    }
  }

  /** All units of a plan are of its scope. */
  lemma {:induction false} UnitsShareScope(p: Plan, ds: seq<Declaration>)
    requires OneScope(p) && DeclareAll(p, ds).Success?
    ensures OneScope(DeclareAll(p, ds).value)
  {
    if ds != [] {
      UnitsShareScope(p, ds[..|ds| - 1]);
      DeclaringKeepsScope(DeclareAll(p, ds[..|ds| - 1]).value, ds[|ds| - 1]);
    }
  }

  /** A scope's plan run unit by unit does what its declarations, run in order
      by one controller, do. */
  lemma PlanRunsAsDeclared<W>(run: (W, Store, Operation) -> Ran<W>, w: W, store: Store, scope: string,
      ds: seq<Declaration>, host: string)
    requires DeclareAll(Plan(scope, [], map[], map[]), ds).Success?
    ensures var start := Plan(scope, [], map[], map[]);
            var one := RunSteps(run, w, store, AddedBy(start, ds), host);
            var cut := RunUnits(run, w, store, DeclareAll(start, ds).value.units, NONE_FAILED, host);
            cut.world == one.world && cut.store == one.store && (cut.failed == NONE_FAILED <==> one.ok)
  {
    var start := Plan(scope, [], map[], map[]);
    var units := DeclareAll(start, ds).value.units;
    CuttingKeepsOrder(start, ds);
    ConcatIsStepsOf(units);
    assert StepsOf(units) == AddedBy(start, ds);
    UnitsShareScope(start, ds);
    UnitsRunAsOne(run, w, store, units, host);
  }

  // ---------------------------------------------------------------------
  // Without serializing
  // ---------------------------------------------------------------------

  /** The same controller on operations that were never serialized. */
  function RunOps<W>(run: (W, Store, Operation) -> Ran<W>, w: W, store: Store, ops: seq<Operation>): Ran<W>
    decreases |ops|
  {
    if ops == [] then Ran(w, store, true)
    else
      var r := run(w, store, Resolve(ops[0], store));
      if r.ok then RunOps(run, r.world, r.store, ops[1..]) else r
  }

  /** The operation a declaration adds, its variables filled in, on `host`. */
  function OpAdded(p: Plan, d: Declaration, host: string): seq<Operation> {
    var what := Declared(p, d);
    if what.Failure? || what.value.1.None? then []
    else
      var filled := Fill(what.value.1.value.1, what.value.0);
      if filled.Success? then [OnHost(filled.value, host)] else []
  }

  /** The operations of an accepted sequence of declarations, in order. */
  function OpsAddedBy(p: Plan, ds: seq<Declaration>, host: string): seq<Operation> {
    if ds == [] then []
    else
      var before := DeclareAll(p, ds[..|ds| - 1]);
      OpsAddedBy(p, ds[..|ds| - 1], host) + if before.Success? then OpAdded(before.value, ds[|ds| - 1], host) else []
  }

  function Loaded(steps: seq<Step>, host: string): seq<Operation> {
    seq(|steps|, i requires 0 <= i < |steps| => ToOperation(steps[i], host))
  }

  lemma {:induction false} LoadedRuns<W>(run: (W, Store, Operation) -> Ran<W>, w: W, store: Store, steps: seq<Step>,
      host: string)
    ensures RunSteps(run, w, store, steps, host) == RunOps(run, w, store, Loaded(steps, host))
    decreases |steps|
  {
    if steps != [] {
      assert Loaded(steps, host)[1..] == Loaded(steps[1..], host);
      var r := run(w, store, Resolve(ToOperation(steps[0], host), store));
      if r.ok {
        LoadedRuns(run, r.world, r.store, steps[1..], host);
      }
    }
  }

  /** A declared field has no literal "$ref" key once its variables are filled. */
  lemma {:induction false} FilledIsClean(v: Value, p: Plan)
    requires DeclaredField(v) && FillValue(v, p).Some?
    ensures NoLiteralRef(FillValue(v, p).value)
    decreases v
  {
    match v
    case List(items) =>
      var filled := FillValue(v, p).value;
      forall i | 0 <= i < |items| ensures NoLiteralRef(filled.items[i]) {
        FilledIsClean(items[i], p);
      }
    case Dict(entries) =>
      var filled := FillValue(v, p).value;
      forall k | k in entries ensures NoLiteralRef(filled.entries[k]) {
        FilledIsClean(entries[k], p);
      }
    case _ =>
  }

  lemma FilledOpIsClean(op: Operation, p: Plan)
    requires DeclaredOp(op) && Fill(op, p).Success?
    ensures CleanFields(Fill(op, p).value)
  {
    if op.Primitive? {
      var filled := Fill(op, p).value.nodes;
      AllGivesEach(n => FillNode(n, p), op.nodes);
      forall i | 0 <= i < |filled| ensures NoLiteralRef(filled[i].fields) {
        assert FillNode(op.nodes[i], p) == Success(filled[i]) && op.nodes[i] in op.nodes;
        FilledIsClean(op.nodes[i].fields, p);
      }
    }
  }

  /** The step a declaration adds loads as the operation it declares. */
  lemma AddedLoads(p: Plan, d: Declaration, host: string)
    requires WrittenSo(d) && Declare(p, d).Success?
    ensures Loaded(Added(p, d), host) == OpAdded(p, d, host)
  {
    var (q, what) := Declared(p, d).value;
    if what.Some? {
      var op := what.value.1;
      AddToAddsLast(q, what.value.0, op);
      StepRoundTrip(Fill(op, q).value, host);
      if !d.LinkNetns? {
        FilledOpIsClean(op, q);
      }
    }
  }

  lemma {:induction false} AddedAllLoad(p: Plan, ds: seq<Declaration>, host: string)
    requires (forall d | d in ds :: WrittenSo(d)) && DeclareAll(p, ds).Success?
    ensures Loaded(AddedBy(p, ds), host) == OpsAddedBy(p, ds, host)
  {
    if ds != [] {
      var before := ds[..|ds| - 1];
      var last := ds[|ds| - 1];
      AddedAllLoad(p, before, host);
      AddedLoads(DeclareAll(p, before).value, last, host);
      LoadedAppends(AddedBy(p, before), Added(DeclareAll(p, before).value, last), host);
    }
  }

  lemma LoadedAppends(x: seq<Step>, y: seq<Step>, host: string)
    ensures Loaded(x + y, host) == Loaded(x, host) + Loaded(y, host)
  {
  }

  /** Cutting and serializing change nothing: a scope's plan, run unit by unit
      from its serialized steps, does what one controller does with the declared
      operations themselves. */
  lemma PlanRunsItsOperations<W>(run: (W, Store, Operation) -> Ran<W>, w: W, store: Store, scope: string,
      ds: seq<Declaration>, host: string)
    requires DeclareAll(Plan(scope, [], map[], map[]), ds).Success? && forall d | d in ds :: WrittenSo(d)
    ensures var start := Plan(scope, [], map[], map[]);
            var one := RunOps(run, w, store, OpsAddedBy(start, ds, host));
            var cut := RunUnits(run, w, store, DeclareAll(start, ds).value.units, NONE_FAILED, host);
            cut.world == one.world && cut.store == one.store && (cut.failed == NONE_FAILED <==> one.ok)
  {
    var start := Plan(scope, [], map[], map[]);
    PlanRunsAsDeclared(run, w, store, scope, ds, host);
    LoadedRuns(run, w, store, AddedBy(start, ds), host);
    AddedAllLoad(start, ds, host);
  }

  // ---------------------------------------------------------------------
  // Deleting, without serializing
  // ---------------------------------------------------------------------

  /** The same controller deleting: every operation, last first. */
  function DeleteOps<W>(delete: (W, Operation) -> W, w: W, store: Store, ops: seq<Operation>): W
    decreases |ops|
  {
    if ops == [] then w
    else DeleteOps(delete, delete(w, Resolve(ops[|ops| - 1], store)), store, ops[..|ops| - 1])
  }

  lemma {:induction false} ReversedAt<T>(s: seq<T>, k: nat)
    requires k < |s|
    ensures |Reversed(s)| == |s| && Reversed(s)[k] == s[|s| - 1 - k]
  {
    if |s| > 1 {
      ReversedAt(s[1..], if k < |s| - 1 then k else 0);
    }
  }

  lemma ReversedLast<T>(s: seq<T>)
    requires s != []
    ensures Reversed(s) == [s[|s| - 1]] + Reversed(s[..|s| - 1])
  {
    assert s == s[..|s| - 1] + [s[|s| - 1]];
    ReversedAppends(s[..|s| - 1], [s[|s| - 1]]);
    assert Reversed([s[|s| - 1]]) == [s[|s| - 1]];
  }

  lemma {:induction false} LoadedDeletes<W>(delete: (W, Operation) -> W, w: W, store: Store, steps: seq<Step>,
      host: string)
    ensures DeleteSteps(delete, w, store, Reversed(steps), host) == DeleteOps(delete, w, store, Loaded(steps, host))
    decreases |steps|
  {
    if steps != [] {
      var n := |steps| - 1;
      ReversedLast(steps);
      var next := delete(w, Resolve(ToOperation(steps[n], host), store));
      assert ([steps[n]] + Reversed(steps[..n]))[1..] == Reversed(steps[..n]);
      LoadedDeletes(delete, next, store, steps[..n], host);
      assert Loaded(steps, host)[..n] == Loaded(steps[..n], host);
    }
  }

  /** A scope's plan, deleted unit by unit from its serialized steps, deletes the
      declared operations themselves, last first. */
  lemma PlanDeletesItsOperations<W>(delete: (W, Operation) -> W, w: W, store: Store, scope: string,
      ds: seq<Declaration>, host: string)
    requires DeclareAll(Plan(scope, [], map[], map[]), ds).Success? && forall d | d in ds :: WrittenSo(d)
    ensures var start := Plan(scope, [], map[], map[]);
            DeleteUnits(delete, w, store, Reversed(DeclareAll(start, ds).value.units), host) ==
            DeleteOps(delete, w, store, OpsAddedBy(start, ds, host))
  {
    var start := Plan(scope, [], map[], map[]);
    var units := DeclareAll(start, ds).value.units;
    UnitsDeleteAsOne(delete, w, store, units, host);
    CuttingKeepsOrder(start, ds);
    ConcatIsStepsOf(units);
    assert StepsOf(units) == AddedBy(start, ds);
    LoadedDeletes(delete, w, store, AddedBy(start, ds), host);
    AddedAllLoad(start, ds, host);
  }

  /** One controller deletes every operation, the last one first, each resolved
      from the one store. */
  lemma {:induction false} EveryOperationIsDeleted<W>(delete: (W, Operation) -> W, w: W, store: Store,
      ops: seq<Operation>)
      returns (states: seq<W>)
    ensures |states| == |ops| + 1 && states[|ops|] == w && states[0] == DeleteOps(delete, w, store, ops)
    ensures forall i | 0 <= i < |ops| :: states[i] == delete(states[i + 1], Resolve(ops[i], store))
    decreases |ops|
  {
    if ops == [] {
      states := [w];
    } else {
      var last := |ops| - 1;
      var rest := EveryOperationIsDeleted(delete, delete(w, Resolve(ops[last], store)), store, ops[..last]);
      states := rest + [w];
    }
  }
}
