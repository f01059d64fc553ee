/**
 The two bounded loops that decide whether a generated blueprint may be published:
 verified repair against the scenario runner, and the attempt loop around it.
 The repairer, the compiler, the runner and the model are parameters.
 */
module Generation {
  import opened Values

  datatype Diagnostic = Diagnostic(code: string, error: bool, message: string)

  datatype Diagnosis = Diagnosis(items: seq<Diagnostic>, publishable: bool)

  datatype ScenarioResult = ScenarioResult(test: string, passed: bool)

  datatype Repair<B> = Repair(blueprint: B, changes: seq<string>, decisions: seq<string>)

  /** A review of warnings answers some of them in the blueprint and may leave questions. */
  datatype Review<B> = Review(blueprint: B, changes: seq<string>, decisions: seq<string>, requests: seq<string>)

  /** The deterministic services the loops lean on; `validateFor` compiles against the description too. */
  datatype Bench<!B> = Bench(
    repair: (B, seq<ScenarioResult>) -> Repair<B>,
    review: Option<B -> Review<B>>,
    validate: B -> Diagnosis,
    validateFor: B -> Diagnosis,
    tests: B -> nat,
    assumes: B -> bool)

  /** The scenario runner: what the n-th run of a blueprint reports. */
  type Runner<!B> = (nat, B) -> seq<ScenarioResult>

  const MAX_RUNS := 3

  predicate AllPassed(results: seq<ScenarioResult>) {
    forall r :: r in results ==> r.passed
  }

  function Failing(results: seq<ScenarioResult>): (failing: seq<ScenarioResult>)
    ensures failing == [] <==> AllPassed(results)
    ensures forall r :: r in failing <==> r in results && !r.passed
  {
    if results == [] then []
    else
      assert results == [results[0]] + results[1..];
      (if results[0].passed then [] else [results[0]]) + Failing(results[1..])
  }

  // -------------------------------------------------------- verified repair

  datatype Verified<B> = Verified(
    blueprint: B, changes: seq<string>, scenarios: seq<ScenarioResult>, decisions: seq<string>, requests: seq<string>,
    diagnosis: Diagnosis, runs: nat, ready: bool)

  /** Nothing is open that a run would have to be repeated for. */
  predicate Testable<B>(bench: Bench<B>, repair: Repair<B>, review: Review<B>) {
    bench.validate(repair.blueprint).publishable && repair.decisions == [] && review.decisions == [] && review.requests == []
  }

  function Reviewed<B>(bench: Bench<B>, repair: Repair<B>): Review<B> {
    if bench.review.Some? then bench.review.value(repair.blueprint) else Review(repair.blueprint, [], [], [])
  }

  predicate Ready<B>(bench: Bench<B>, repair: Repair<B>, review: Review<B>, scenarios: seq<ScenarioResult>) {
    && Testable(bench, repair, review)
    && bench.tests(repair.blueprint) > 0
    && |scenarios| == bench.tests(repair.blueprint)
    && AllPassed(scenarios)
  }

  /** At most three runs, and ready only on a clean run of exactly the blueprint returned. */
  ghost predicate Sound<B>(bench: Bench<B>, run: Runner<B>, v: Verified<B>) {
    && v.runs <= 3
    && v.diagnosis == bench.validate(v.blueprint)
    && (v.ready ==>
          && v.runs > 0 && v.scenarios == run(v.runs - 1, v.blueprint)
          && AllPassed(v.scenarios) && |v.scenarios| == bench.tests(v.blueprint) > 0
          && bench.validate(v.blueprint).publishable && v.decisions == [] && v.requests == [])
  }

  /**
   Runs the scenarios at most three times, repairing between runs. A result is
   ready only for exactly the blueprint returned.
   */
  method VerifiedRepair<B>(bench: Bench<B>, run: Runner<B>, input: B) returns (v: Verified<B>)
    ensures Sound(bench, run, v)
    ensures var first := bench.repair(input, []);
            var review := Reviewed(bench, first);
            var start := first.(blueprint := review.blueprint);
            && (!Testable(bench, start, review) ==> v.runs == 0 && !v.ready && v.blueprint == start.blueprint)
            && (Testable(bench, start, review) && AllPassed(run(0, start.blueprint)) ==>
                  v.runs == 1 && v.blueprint == start.blueprint && v.changes == first.changes + review.changes
                  && (v.ready <==> |run(0, start.blueprint)| == bench.tests(start.blueprint) > 0))
    ensures v == Verify(bench, run, input)
  {
    hide Sound, Failing;
    var repair := bench.repair(input, []);
    var review := Review(repair.blueprint, [], [], []);
    if bench.review.Some? {
      review := bench.review.value(repair.blueprint);
    }
    repair := repair.(blueprint := review.blueprint);
    var changes := repair.changes + review.changes;
    var scenarios: seq<ScenarioResult> := [];
    ghost var goal := Rounds(bench, run, repair, review, changes, [], 0);
    var round := 0;
    var stopped := false;
    while round < 3 && !stopped && Testable(bench, repair, review)
      invariant round <= 3
      invariant !stopped ==> Rounds(bench, run, repair, review, changes, scenarios, round) == goal
      invariant stopped ==> goal == Close(bench, repair, review, changes, scenarios, round)
      invariant round == 3 ==> stopped
      invariant round == 0 ==> repair == bench.repair(input, []).(blueprint := review.blueprint) && scenarios == []
      invariant scenarios == [] || round > 0
      decreases 3 - round, !stopped
    {
      scenarios := run(round, repair.blueprint);
      round := round + 1;
      if AllPassed(scenarios) {
        stopped := true;
      } else {
        var next := bench.repair(repair.blueprint, Failing(scenarios));
        if next.changes == [] || round == 3 {
          stopped := true;
        } else {
          repair := next;
          changes := changes + next.changes;
        }
      }
    }
    v := Close(bench, repair, review, changes, scenarios, round);
    VerifyIsSound(bench, run, input);
  }

  function Close<B>(
      bench: Bench<B>, repair: Repair<B>, review: Review<B>, changes: seq<string>, scenarios: seq<ScenarioResult>, runs: nat)
    : Verified<B>
  {
    Verified(repair.blueprint, changes, scenarios, repair.decisions + review.decisions, review.requests,
             bench.validate(repair.blueprint), runs, Ready(bench, repair, review, scenarios))
  }

  /** The loop from round `round` on, as a recursion. */
  function Rounds<B>(
      bench: Bench<B>, run: Runner<B>, repair: Repair<B>, review: Review<B>, changes: seq<string>,
      scenarios: seq<ScenarioResult>, round: nat): Verified<B>
    decreases MAX_RUNS - round
  {
    if round >= MAX_RUNS || !Testable(bench, repair, review) then Close(bench, repair, review, changes, scenarios, round)
    else
      var results := run(round, repair.blueprint);
      var next := bench.repair(repair.blueprint, Failing(results));
      if AllPassed(results) || next.changes == [] || round == MAX_RUNS - 1 then
        Close(bench, repair, review, changes, results, round + 1)
      else Rounds(bench, run, next, review, changes + next.changes, results, round + 1)
  }

  function Verify<B>(bench: Bench<B>, run: Runner<B>, input: B): Verified<B> {
    var first := bench.repair(input, []);
    var review := Reviewed(bench, first);
    Rounds(bench, run, first.(blueprint := review.blueprint), review, first.changes + review.changes, [], 0)
  }

  lemma CloseIsSound<B>(
      bench: Bench<B>, run: Runner<B>, repair: Repair<B>, review: Review<B>, changes: seq<string>,
      scenarios: seq<ScenarioResult>, runs: nat)
    requires runs <= MAX_RUNS
    requires || scenarios == [] || !AllPassed(scenarios)
             || (runs > 0 && scenarios == run(runs - 1, repair.blueprint))
    ensures Sound(bench, run, Close(bench, repair, review, changes, scenarios, runs))
  {
  }

  lemma {:induction false} RoundsAreSound<B>(
      bench: Bench<B>, run: Runner<B>, repair: Repair<B>, review: Review<B>, changes: seq<string>,
      scenarios: seq<ScenarioResult>, round: nat)
    requires round < MAX_RUNS
    requires scenarios == [] || !AllPassed(scenarios)
    ensures Sound(bench, run, Rounds(bench, run, repair, review, changes, scenarios, round))
    decreases MAX_RUNS - round
  {
    hide Sound, Close, Testable, AllPassed;
    if Testable(bench, repair, review) {
      var results := run(round, repair.blueprint);
      var next := bench.repair(repair.blueprint, Failing(results));
      if AllPassed(results) || next.changes == [] || round == MAX_RUNS - 1 {
        CloseIsSound(bench, run, repair, review, changes, results, round + 1);
      } else {
        RoundsAreSound(bench, run, next, review, changes + next.changes, results, round + 1);
      }
    } else {
      CloseIsSound(bench, run, repair, review, changes, scenarios, round);
    }
  }

  lemma VerifyIsSound<B>(bench: Bench<B>, run: Runner<B>, input: B)
    ensures Sound(bench, run, Verify(bench, run, input))
  {
    hide Sound, Rounds;
    var first := bench.repair(input, []);
    var review := Reviewed(bench, first);
    RoundsAreSound(bench, run, first.(blueprint := review.blueprint), review, first.changes + review.changes, [], 0);
  }

  // ---------------------------------------------------------- the attempt loop

  datatype Decision = Publishable | Blocked | Unparseable | Declined

  /** A model reply, after the schema has looked at it. */
  datatype Reply<B> = Refusal(why: string) | Shapeless(issues: seq<string>) | Shaped(blueprint: B)

  /** One entry of the audit. */
  datatype Attempt = Attempt(number: nat, shapeOk: bool, errors: nat)

  datatype Draft<B> = Draft(blueprint: B, errors: nat)

  datatype Generated<B> = Generated(
    decision: Decision, blueprint: Option<B>, reviewable: Option<Draft<B>>, editable: Option<Draft<B>>,
    attempts: seq<Attempt>)

  const NO_ASSUMPTIONS := Diagnostic("BLD003", true, "This blueprint declares no assumptions.")

  function Errors(items: seq<Diagnostic>): seq<Diagnostic> {
    if items == [] then [] else (if items[0].error then [items[0]] else []) + Errors(items[1..])
  }

  /** The compiler's errors, and one for declaring no assumptions. */
  function CandidateErrors<B>(bench: Bench<B>, candidate: B): nat {
    |Errors(bench.validateFor(candidate).items + if bench.assumes(candidate) then [] else [NO_ASSUMPTIONS])|
  }

  predicate CompileClean<B>(bench: Bench<B>, candidate: B) {
    bench.validateFor(candidate).publishable && CandidateErrors(bench, candidate) == 0
  }

  /** What becomes of attempt `n`. */
  datatype Judgement<B> =
    | Stopped
    | NoShape
    | Broken(candidate: B, errors: nat)
    | Unverified(verified: Verified<B>)
    | Good(candidate: B)

  /**
   The three gates, in order. `runs` gives the scenario runner of each attempt,
   when there is a pool to run on.
   */
  function Judge<B>(bench: Bench<B>, model: nat -> Reply<B>, runs: Option<nat -> Runner<B>>, n: nat): Judgement<B> {
    match model(n)
    case Refusal(_) => Stopped
    case Shapeless(_) => NoShape
    case Shaped(parsed) =>
      var candidate := bench.repair(parsed, []).blueprint;
      if !CompileClean(bench, candidate) then Broken(candidate, CandidateErrors(bench, candidate))
      else if runs.None? then Good(candidate)
      else
        var v := Verify(bench, runs.value(n), candidate);
        if v.ready then Good(v.blueprint) else Unverified(v)
  }

  predicate Ends<B>(j: Judgement<B>) {
    j.Stopped? || j.Good?
  }

  /** What the audit says of an attempt judged so. */
  function Recorded<B>(n: nat, j: Judgement<B>): Attempt {
    match j
    case Stopped => Attempt(n, false, 0)
    case NoShape => Attempt(n, false, 0)
    case Broken(_, errors) => Attempt(n, true, errors)
    case Unverified(_) => Attempt(n, true, 0)
    case Good(_) => Attempt(n, true, 0)
  }

  function DecisionOf<B>(j: Judgement<B>): Decision {
    match j
    case Stopped => Declined
    case NoShape => Unparseable
    case Broken(_, _) => Blocked
    case Unverified(_) => Blocked
    case Good(_) => Publishable
  }

  /** The draft offered for editing has the fewest errors of the failing shape-valid attempts. */
  ghost predicate BestEditable<B>(
      bench: Bench<B>, model: nat -> Reply<B>, runs: Option<nat -> Runner<B>>, made: nat, best: Option<Draft<B>>)
  {
    && (best.Some? ==>
          best.value.errors > 0
          && exists n :: 1 <= n <= made && Judge(bench, model, runs, n) == Broken(best.value.blueprint, best.value.errors))
    && (forall n {:trigger Judge(bench, model, runs, n)} :: 1 <= n <= made && Judge(bench, model, runs, n).Broken? ==>
          var errors := Judge(bench, model, runs, n).errors;
          errors > 0 ==> best.Some? && best.value.errors <= errors)
  }

  /** The draft offered for review fails the fewest scenarios of the compiling attempts. */
  ghost predicate BestReviewable<B>(
      bench: Bench<B>, model: nat -> Reply<B>, runs: Option<nat -> Runner<B>>, made: nat, best: Option<Draft<B>>)
  {
    && (best.Some? ==>
          exists n :: 1 <= n <= made && Judge(bench, model, runs, n).Unverified?
                      && Judge(bench, model, runs, n).verified.blueprint == best.value.blueprint
                      && |Failing(Judge(bench, model, runs, n).verified.scenarios)| == best.value.errors)
    && (forall n {:trigger Judge(bench, model, runs, n)} :: 1 <= n <= made && Judge(bench, model, runs, n).Unverified? ==>
          best.Some? && best.value.errors <= |Failing(Judge(bench, model, runs, n).verified.scenarios)|)
  }

  /**
   At most `maxRepairs + 1` model calls, stopping at the first refusal or success.
   A blueprint comes back exactly when the decision is to publish, and then it is the
   last attempt's: compile-clean, and with a pool verified ready. Otherwise the best
   failing draft is offered.
   */
  method GenerateBlueprint<B>(bench: Bench<B>, model: nat -> Reply<B>, runs: Option<nat -> Runner<B>>, maxRepairs: int)
    returns (g: Generated<B>)
    ensures |g.attempts| <= (if maxRepairs >= 0 then maxRepairs + 1 else 0)
    ensures forall n :: 1 <= n <= |g.attempts| ==> g.attempts[n - 1] == Recorded(n, Judge(bench, model, runs, n))
    ensures forall n {:trigger Judge(bench, model, runs, n)} :: 1 <= n < |g.attempts| ==> !Ends(Judge(bench, model, runs, n))
    ensures |g.attempts| < maxRepairs + 1 ==> |g.attempts| > 0 && Ends(Judge(bench, model, runs, |g.attempts|))
    ensures g.decision == if g.attempts == [] then Unparseable else DecisionOf(Judge(bench, model, runs, |g.attempts|))
    ensures g.decision == Publishable <==> g.blueprint.Some?
    ensures g.blueprint.Some? ==> Judge(bench, model, runs, |g.attempts|) == Good(g.blueprint.value)
    ensures g.decision == Publishable ==> g.reviewable.None? && g.editable.None?
    ensures g.decision != Publishable ==> BestReviewable(bench, model, runs, |g.attempts|, g.reviewable)
    ensures g.decision != Publishable && g.reviewable.None? ==> BestEditable(bench, model, runs, |g.attempts|, g.editable)
    ensures g.reviewable.Some? ==> g.editable.None?
  {
    hide Judge, BestEditable, BestReviewable;
    var attempts: seq<Attempt> := [];
    var decision := Unparseable;
    var blueprint: Option<B> := None;
    var reviewable: Option<Draft<B>> := None;
    var editable: Option<Draft<B>> := None;
    var done := false;
    NothingOffered(bench, model, runs);
    while |attempts| < maxRepairs + 1 && !done
      invariant |attempts| <= (if maxRepairs >= 0 then maxRepairs + 1 else 0)
      invariant forall n :: 1 <= n <= |attempts| ==> attempts[n - 1] == Recorded(n, Judge(bench, model, runs, n))
      invariant forall n {:trigger Judge(bench, model, runs, n)} ::
                  1 <= n < |attempts| || (n == |attempts| > 0 && !done) ==> !Ends(Judge(bench, model, runs, n))
      invariant done ==> |attempts| > 0 && Ends(Judge(bench, model, runs, |attempts|))
      invariant decision == if attempts == [] then Unparseable else DecisionOf(Judge(bench, model, runs, |attempts|))
      invariant decision == Publishable ==> blueprint.Some? && Judge(bench, model, runs, |attempts|) == Good(blueprint.value)
      invariant BestReviewable(bench, model, runs, |attempts|, reviewable)
      invariant BestEditable(bench, model, runs, |attempts|, editable)
      decreases maxRepairs - |attempts|, !done
    {
      var n := |attempts| + 1;
      var judged := MakeAttempt(bench, model, runs, n);
      BetterEditable(bench, model, runs, n, editable);
      BetterReviewable(bench, model, runs, n, reviewable);
      attempts := attempts + [Attempt(n, !judged.Stopped? && !judged.NoShape?, if judged.Broken? then judged.errors else 0)];
      match judged {
        case Stopped =>
          decision := Declined;
          done := true;
        case NoShape =>
          decision := Unparseable;
        case Broken(candidate, errors) =>
          if errors > 0 && (editable.None? || errors < editable.value.errors) {
            editable := Some(Draft(candidate, errors));
          }
          if bench.validateFor(candidate).publishable {
            blueprint := Some(candidate);
          }
          decision := Blocked;
        case Unverified(v) =>
          blueprint := Some(v.blueprint);
          var failing := |Failing(v.scenarios)|;
          if reviewable.None? || failing < reviewable.value.errors {
            reviewable := Some(Draft(v.blueprint, failing));
          }
          decision := Blocked;
        case Good(b) =>
          blueprint := Some(b);
          decision := Publishable;
          done := true;
      }
    }
    g := Generated(
      decision,
      if decision == Publishable then blueprint else None,
      if decision == Publishable then None else reviewable,
      if decision == Publishable || reviewable.Some? then None else editable,
      attempts);
  }

  /** One model call taken through the gates. */
  method MakeAttempt<B>(bench: Bench<B>, model: nat -> Reply<B>, runs: Option<nat -> Runner<B>>, n: nat)
    returns (j: Judgement<B>)
    ensures j == Judge(bench, model, runs, n)
  {
    hide Verify, CandidateErrors, Errors;
    match model(n) {
      case Refusal(_) =>
        return Stopped;
      case Shapeless(_) =>
        return NoShape;
      case Shaped(parsed) =>
        var candidate := bench.repair(parsed, []).blueprint;
        var errors := CountErrors(bench.validateFor(candidate).items);
        if !bench.assumes(candidate) {
          errors := errors + 1;
        }
        CandidateErrorsAre(bench, candidate);
        if !bench.validateFor(candidate).publishable || errors > 0 {
          return Broken(candidate, errors);
        }
        if runs.None? {
          return Good(candidate);
        }
        var v := VerifiedRepair(bench, runs.value(n), candidate);
        return if v.ready then Good(v.blueprint) else Unverified(v);
    }
  }

  method CountErrors(items: seq<Diagnostic>) returns (n: nat)
    ensures n == |Errors(items)|
  {
    n := 0;
    for i := 0 to |items|
      invariant n + |Errors(items[i..])| == |Errors(items)|
    {
      assert items[i..][0] == items[i] && items[i..][1..] == items[i + 1..];
      if items[i].error {
        n := n + 1;
      }
    }
  }

  lemma CandidateErrorsAre<B>(bench: Bench<B>, candidate: B)
    ensures CandidateErrors(bench, candidate)
            == |Errors(bench.validateFor(candidate).items)| + if bench.assumes(candidate) then 0 else 1
  {
    var items := bench.validateFor(candidate).items;
    assert items + [] == items;
    ErrorsAppend(items, NO_ASSUMPTIONS);
  }

  lemma {:induction false} ErrorsAppend(items: seq<Diagnostic>, d: Diagnostic)
    ensures |Errors(items + [d])| == |Errors(items)| + if d.error then 1 else 0
  {
    if items == [] {
      assert [d][1..] == [] && items + [d] == [d];
    } else {
      assert (items + [d])[0] == items[0] && (items + [d])[1..] == items[1..] + [d];
      ErrorsAppend(items[1..], d);
    }
  }

  lemma NothingOffered<B>(bench: Bench<B>, model: nat -> Reply<B>, runs: Option<nat -> Runner<B>>)
    ensures BestEditable(bench, model, runs, 0, None) && BestReviewable(bench, model, runs, 0, None)
  {
    hide Judge;
  }

  lemma BetterEditable<B>(
      bench: Bench<B>, model: nat -> Reply<B>, runs: Option<nat -> Runner<B>>, n: nat, best: Option<Draft<B>>)
    requires n > 0 && BestEditable(bench, model, runs, n - 1, best)
    ensures var j := Judge(bench, model, runs, n);
            var better := j.Broken? && j.errors > 0 && (best.None? || j.errors < best.value.errors);
            BestEditable(bench, model, runs, n, if better then Some(Draft(j.candidate, j.errors)) else best)
  {
    hide Judge;
  }

  lemma BetterReviewable<B>(
      bench: Bench<B>, model: nat -> Reply<B>, runs: Option<nat -> Runner<B>>, n: nat, best: Option<Draft<B>>)
    requires n > 0 && BestReviewable(bench, model, runs, n - 1, best)
    ensures var j := Judge(bench, model, runs, n);
            var failing := if j.Unverified? then |Failing(j.verified.scenarios)| else 0;
            var better := j.Unverified? && (best.None? || failing < best.value.errors);
            BestReviewable(bench, model, runs, n, if better then Some(Draft(j.verified.blueprint, failing)) else best)
  {
    hide Judge;
  }

  /**
   What is published comes of a candidate that compiled clean against the description
   and, with a pool, compiles as it is and passed every one of its scenarios.
   */
  lemma PublishedIsProven<B>(bench: Bench<B>, model: nat -> Reply<B>, runs: Option<nat -> Runner<B>>, n: nat, b: B)
    requires Judge(bench, model, runs, n) == Good(b)
    ensures model(n).Shaped?
    ensures var candidate := bench.repair(model(n).blueprint, []).blueprint;
            && CompileClean(bench, candidate) && bench.assumes(candidate)
            && (runs.None? ==> b == candidate)
            && (runs.Some? ==>
                  bench.validate(b).publishable
                  && exists round :: 0 <= round < 3 && AllPassed(runs.value(n)(round, b))
                                     && |runs.value(n)(round, b)| == bench.tests(b) > 0)
  {
    hide Rounds;
    var candidate := bench.repair(model(n).blueprint, []).blueprint;
    var items := bench.validateFor(candidate).items;
    if !bench.assumes(candidate) {
      ErrorsSeen(items + [NO_ASSUMPTIONS], NO_ASSUMPTIONS);
    }
    if runs.Some? {
      VerifyIsSound(bench, runs.value(n), candidate);
      var v := Verify(bench, runs.value(n), candidate);
      assert v.scenarios == runs.value(n)(v.runs - 1, b);
    }
  }

  lemma {:induction false} ErrorsSeen(items: seq<Diagnostic>, d: Diagnostic)
    requires d in items && d.error
    ensures Errors(items) != []
  {
    if items[0] != d {
      ErrorsSeen(items[1..], d);
    }
  }

  // -------------------------------------------- what verified repair may return

  predicate AllFailed(results: seq<ScenarioResult>) {
    results != [] && forall r :: r in results ==> !r.passed
  }

  lemma {:induction false} FailingFailed(results: seq<ScenarioResult>)
    ensures forall r :: r in Failing(results) ==> !r.passed
    ensures AllFailed(results) ==> Failing(results) == results
  {
    if results != [] {
      assert results == [results[0]] + results[1..];
      assert AllFailed(results) ==> results[0] in results;
      FailingFailed(results[1..]);
    }
  }

  /** From round `round` on, some scenario runs make `b` the blueprint returned as ready. */
  ghost predicate Attains<B>(bench: Bench<B>, review: Review<B>, repair: Repair<B>, round: nat, b: B)
    decreases MAX_RUNS - round
  {
    && round < MAX_RUNS
    && Testable(bench, repair, review)
    && ((repair.blueprint == b && bench.tests(b) > 0)
        || exists failing :: Goes(bench, review, repair, round, b, failing))
  }

  /** These failures send `repair` into another round, from which `b` can be attained. */
  ghost predicate Goes<B>(
      bench: Bench<B>, review: Review<B>, repair: Repair<B>, round: nat, b: B, failing: seq<ScenarioResult>)
    requires round < MAX_RUNS
    decreases MAX_RUNS - round, 0
  {
    AllFailed(failing)
    && var next := bench.repair(repair.blueprint, failing);
       next.changes != [] && round < MAX_RUNS - 1 && Attains(bench, review, next, round + 1, b)
  }

  lemma {:induction false} ReadyIsAttained<B>(
      bench: Bench<B>, run: Runner<B>, repair: Repair<B>, review: Review<B>, changes: seq<string>,
      scenarios: seq<ScenarioResult>, round: nat)
    requires round < MAX_RUNS
    requires Rounds(bench, run, repair, review, changes, scenarios, round).ready
    ensures Attains(bench, review, repair, round, Rounds(bench, run, repair, review, changes, scenarios, round).blueprint)
    decreases MAX_RUNS - round
  {
    hide Testable;
    var results := run(round, repair.blueprint);
    var failing := Failing(results);
    var next := bench.repair(repair.blueprint, failing);
    if !(AllPassed(results) || next.changes == [] || round == MAX_RUNS - 1) {
      ReadyIsAttained(bench, run, next, review, changes + next.changes, results, round + 1);
      FailingFailed(results);
      assert Goes(bench, review, repair, round,
                  Rounds(bench, run, next, review, changes + next.changes, results, round + 1).blueprint, failing);
    }
  }

  function Passes(n: nat): (results: seq<ScenarioResult>)
    ensures |results| == n && AllPassed(results)
  {
    seq(n, _ => ScenarioResult("scenario", true))
  }

  lemma {:induction false} AttainedIsReady<B>(
      bench: Bench<B>, repair: Repair<B>, review: Review<B>, changes: seq<string>, scenarios: seq<ScenarioResult>,
      round: nat, b: B)
    returns (run: Runner<B>)
    requires Attains(bench, review, repair, round, b)
    ensures var v := Rounds(bench, run, repair, review, changes, scenarios, round); v.ready && v.blueprint == b
    decreases MAX_RUNS - round
  {
    hide Testable, Rounds;
    if repair.blueprint == b && bench.tests(b) > 0 {
      run := (n: nat, x: B) => Passes(bench.tests(b));
      PassingRound(bench, run, repair, review, changes, scenarios, round);
    } else {
      var failing :| Goes(bench, review, repair, round, b, failing);
      var next := bench.repair(repair.blueprint, failing);
      var later := AttainedIsReady(bench, next, review, changes + next.changes, failing, round + 1, b);
      run := (n: nat, x: B) => if n == round then failing else later(n, x);
      LaterRuns(bench, run, later, next, review, changes + next.changes, failing, round + 1);
      FailingRound(bench, run, repair, review, changes, scenarios, round, failing);
    }
  }

  lemma PassingRound<B>(
      bench: Bench<B>, run: Runner<B>, repair: Repair<B>, review: Review<B>, changes: seq<string>,
      scenarios: seq<ScenarioResult>, round: nat)
    requires round < MAX_RUNS && Testable(bench, repair, review) && bench.tests(repair.blueprint) > 0
    requires run(round, repair.blueprint) == Passes(bench.tests(repair.blueprint))
    ensures var v := Rounds(bench, run, repair, review, changes, scenarios, round); v.ready && v.blueprint == repair.blueprint
  {
    hide Testable, Passes;
  }

  lemma FailingRound<B>(
      bench: Bench<B>, run: Runner<B>, repair: Repair<B>, review: Review<B>, changes: seq<string>,
      scenarios: seq<ScenarioResult>, round: nat, failing: seq<ScenarioResult>)
    requires round < MAX_RUNS - 1 && Testable(bench, repair, review) && AllFailed(failing)
    requires run(round, repair.blueprint) == failing && bench.repair(repair.blueprint, failing).changes != []
    ensures var next := bench.repair(repair.blueprint, failing);
            Rounds(bench, run, repair, review, changes, scenarios, round)
            == Rounds(bench, run, next, review, changes + next.changes, failing, round + 1)
  {
    FailingFailed(failing);
    assert failing[0] in failing;
    hide Testable, Close;
  }

  /** The rounds look only at the runs that are theirs. */
  lemma {:induction false} LaterRuns<B>(
      bench: Bench<B>, run: Runner<B>, other: Runner<B>, repair: Repair<B>, review: Review<B>, changes: seq<string>,
      scenarios: seq<ScenarioResult>, round: nat)
    requires forall n: nat, x :: n >= round ==> run(n, x) == other(n, x)
    ensures Rounds(bench, run, repair, review, changes, scenarios, round)
            == Rounds(bench, other, repair, review, changes, scenarios, round)
    decreases MAX_RUNS - round
  {
    hide Testable, Close;
    if round < MAX_RUNS && Testable(bench, repair, review) {
      var results := run(round, repair.blueprint);
      var next := bench.repair(repair.blueprint, Failing(results));
      if round < MAX_RUNS - 1 {
        LaterRuns(bench, run, other, next, review, changes + next.changes, results, round + 1);
      }
    }
  }

  /** What verified repair of a candidate can return as ready. */
  ghost predicate Returns<B>(bench: Bench<B>, candidate: B, b: B) {
    var first := bench.repair(candidate, []);
    var review := Reviewed(bench, first);
    Attains(bench, review, first.(blueprint := review.blueprint), 0, b)
  }

  /** What can be published of a parsed reply, over all scenario runs, is what its candidate can return. */
  lemma PublishedExactly<B>(bench: Bench<B>, model: nat -> Reply<B>, n: nat, b: B)
    requires model(n).Shaped?
    ensures var candidate := bench.repair(model(n).blueprint, []).blueprint;
            (exists runs :: Judge(bench, model, Some(runs), n) == Good(b)) <==>
              CompileClean(bench, candidate) && Returns(bench, candidate, b)
  {
    hide Rounds, Attains, CompileClean, Reviewed;
    var candidate := bench.repair(model(n).blueprint, []).blueprint;
    var first := bench.repair(candidate, []);
    var review := Reviewed(bench, first);
    var (start, changes) := (first.(blueprint := review.blueprint), first.changes + review.changes);
    if runs :| Judge(bench, model, Some(runs), n) == Good(b) {
      ReadyIsAttained(bench, runs(n), start, review, changes, [], 0);
    }
    if CompileClean(bench, candidate) && Returns(bench, candidate, b) {
      var run := AttainedIsReady(bench, start, review, changes, [], 0, b);
      var runs := (k: nat) => run;
      assert Judge(bench, model, Some(runs), n) == Good(b);
    }
  }

  // ------------------------------------------------------------ the description

  ghost predicate FitsWhenPublished<B(!new)>(bench: Bench<B>) {
    forall model: nat -> Reply<B>, runs: Option<nat -> Runner<B>>, n: nat, b: B ::
      Judge(bench, model, runs, n) == Good(b) ==> bench.validateFor(b).publishable
  }

  /** Whatever verified repair can return of a candidate that compiles against the description compiles too. */
  ghost predicate RepairKeepsFit<B(!new)>(bench: Bench<B>) {
    forall parsed: B, b: B ::
      CompileClean(bench, bench.repair(parsed, []).blueprint) && Returns(bench, bench.repair(parsed, []).blueprint, b) ==>
        bench.validateFor(b).publishable
  }

  /** Every published blueprint compiles against the description, if and only if every chain of repairs keeps that. */
  lemma FitsExactly<B(!new)>(bench: Bench<B>)
    ensures FitsWhenPublished(bench) <==> RepairKeepsFit(bench)
  {
    hide Judge, Returns;
    if RepairKeepsFit(bench) {
      forall model: nat -> Reply<B>, runs: Option<nat -> Runner<B>>, n: nat, b: B | Judge(bench, model, runs, n) == Good(b)
        ensures bench.validateFor(b).publishable
      {
        PublishedIsProven(bench, model, runs, n, b);
        if runs.Some? {
          assert Judge(bench, model, Some(runs.value), n) == Good(b);
          PublishedExactly(bench, model, n, b);
        }
      }
    }
    if FitsWhenPublished(bench) {
      forall parsed: B, b: B
        | CompileClean(bench, bench.repair(parsed, []).blueprint) && Returns(bench, bench.repair(parsed, []).blueprint, b)
        ensures bench.validateFor(b).publishable
      {
        var model := (n: nat) => Shaped(parsed);
        PublishedExactly(bench, model, 0, b);
        var runs :| Judge(bench, model, Some(runs), 0) == Good(b);
      }
    }
  }

  /** It is enough that no single repair and no review takes a blueprint that compiles against it to one that does not. */
  lemma SteadyRepairsFit<B(!new)>(bench: Bench<B>)
    requires forall b: B, failing :: bench.validateFor(b).publishable ==>
                                  bench.validateFor(bench.repair(b, failing).blueprint).publishable
    requires bench.review.Some? ==> forall b: B :: bench.validateFor(b).publishable ==>
                                      bench.validateFor(bench.review.value(b).blueprint).publishable
    ensures FitsWhenPublished(bench)
  {
    FitsExactly(bench);
    hide FitsWhenPublished, Attains;
    forall parsed: B, b: B
      | CompileClean(bench, bench.repair(parsed, []).blueprint) && Returns(bench, bench.repair(parsed, []).blueprint, b)
      ensures bench.validateFor(b).publishable
    {
      var first := bench.repair(bench.repair(parsed, []).blueprint, []);
      var review := Reviewed(bench, first);
      SteadyAttains(bench, review, first.(blueprint := review.blueprint), 0, b);
    }
  }

  lemma {:induction false} SteadyAttains<B(!new)>(bench: Bench<B>, review: Review<B>, repair: Repair<B>, round: nat, b: B)
    requires forall b: B, failing :: bench.validateFor(b).publishable ==>
                                  bench.validateFor(bench.repair(b, failing).blueprint).publishable
    requires bench.validateFor(repair.blueprint).publishable && Attains(bench, review, repair, round, b)
    ensures bench.validateFor(b).publishable
    decreases MAX_RUNS - round
  {
    hide Testable;
    if !(repair.blueprint == b && bench.tests(b) > 0) {
      var failing :| Goes(bench, review, repair, round, b, failing);
      SteadyAttains(bench, review, bench.repair(repair.blueprint, failing), round + 1, b);
    }
  }
}
