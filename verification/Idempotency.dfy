/**
 The stored-response protocol for mutations: look the key up, run, then store
 unless somebody else has. Callers interleave at the lookup, the run and the store.
 */
module Idempotency {
  import opened Values

  datatype Reply = Reply(status: int, body: string)

  datatype Stored = Stored(requestHash: string, reply: Reply)

  datatype Outcome = Fresh(reply: Reply) | Replayed(reply: Reply) | Conflict | Failed

  /** Where one caller is: not looked up yet, found nothing, has run, or has its answer. */
  datatype Phase = Waiting | Missed | Ran(reply: Reply) | Finished(outcome: Outcome)

  /** A caller using the shared key, with the hash of its own body. */
  datatype Caller = Caller(hash: string, phase: Phase)

  /** The row under one tenant and key, and everybody using it. */
  datatype State = State(row: Option<Stored>, callers: seq<Caller>)

  datatype Step =
    | Arrive(hash: string)
    | Lookup(caller: nat)
    | Execute(caller: nat, result: Option<Reply>)
    | Store(caller: nat)

  // ----------------------------------------------------------- one request

  /** What a lookup tells the caller; nothing when it must run. */
  function Answer(row: Option<Stored>, hash: string): Option<Outcome> {
    match row
    case None => None
    case Some(s) => Some(if s.requestHash == hash then Replayed(s.reply) else Conflict)
  }

  /** `insert … on conflict do nothing`. */
  function Inserted(row: Option<Stored>, s: Stored): Option<Stored> {
    if row.Some? then row else Some(s)
  }

  /** The table of stored responses, by tenant and key. */
  class Ledger {
    var rows: map<(string, string), Stored>

    constructor ()
      ensures rows == map[]
    {
      rows := map[];
    }

    function Row(tenant: string, key: string): Option<Stored>
      reads this
    {
      if (tenant, key) in rows then Some(rows[(tenant, key)]) else None
    }

    method Find(tenant: string, key: string, hash: string) returns (answer: Option<Outcome>)
      ensures answer == Answer(Row(tenant, key), hash)
    {
      if (tenant, key) !in rows {
        return None;
      }
      var existing := rows[(tenant, key)];
      if existing.requestHash != hash {
        return Some(Conflict);
      }
      return Some(Replayed(existing.reply));
    }

    method Keep(tenant: string, key: string, s: Stored)
      modifies this
      ensures Row(tenant, key) == Inserted(old(Row(tenant, key)), s)
      ensures forall t, k :: (t, k) != (tenant, key) ==> Row(t, k) == old(Row(t, k))
    {
      if (tenant, key) !in rows {
        rows := rows[(tenant, key) := s];
      }
    }

    /** One request alone; `result` is what running it would give, or nothing when it throws. */
    method WithIdempotency(tenant: string, key: string, hash: string, result: Option<Reply>)
      returns (outcome: Option<Outcome>)
      modifies this
      ensures outcome.None? <==> |key| > 255
      ensures outcome.None? || key == "" ==> rows == old(rows)
      ensures key == "" ==> outcome == Some(if result.Some? then Fresh(result.value) else Failed)
      ensures 0 < |key| <= 255 ==>
                var before := old(Row(tenant, key));
                && outcome == Some(if before.Some? then Answer(before, hash).value
                                   else if result.Some? then Fresh(result.value) else Failed)
                && Row(tenant, key) == (if before.None? && result.Some? then Some(Stored(hash, result.value)) else before)
    {
      if key == "" {
        return Some(if result.Some? then Fresh(result.value) else Failed);
      }
      if |key| > 255 {
        return None;
      }
      var answer := Find(tenant, key, hash);
      if answer.Some? {
        return answer;
      }
      if result.None? {
        return Some(Failed);
      }
      Keep(tenant, key, Stored(hash, result.value));
      return Some(Fresh(result.value));
    }
  }

  // ------------------------------------------------------------ interleaving

  predicate Enabled(s: State, step: Step) {
    match step
    case Arrive(_) => true
    case Lookup(i) => i < |s.callers| && s.callers[i].phase == Waiting
    case Execute(i, _) => i < |s.callers| && s.callers[i].phase == Missed
    case Store(i) => i < |s.callers| && s.callers[i].phase.Ran?
  }

  function Move(s: State, i: nat, phase: Phase): State
    requires i < |s.callers|
  {
    s.(callers := s.callers[i := s.callers[i].(phase := phase)])
  }

  function Next(s: State, step: Step): State
    requires Enabled(s, step)
  {
    match step
    case Arrive(hash) => s.(callers := s.callers + [Caller(hash, Waiting)])
    case Lookup(i) =>
      (match Answer(s.row, s.callers[i].hash)
       case None => Move(s, i, Missed)
       case Some(outcome) => Move(s, i, Finished(outcome)))
    case Execute(i, result) => Move(s, i, if result.Some? then Ran(result.value) else Finished(Failed))
    case Store(i) =>
      var c := s.callers[i];
      Move(s, i, Finished(Fresh(c.phase.reply))).(row := Inserted(s.row, Stored(c.hash, c.phase.reply)))
  }

  const START := State(None, [])

  predicate Joined(s: State, step: Step, t: State) {
    Enabled(s, step) && t == Next(s, step)
  }

  /** The states of a history: consecutive ones are joined by its steps. */
  ghost predicate History(states: seq<State>, steps: seq<Step>) {
    && |states| == |steps| + 1
    && states[0] == START
    && forall k :: 0 <= k < |steps| ==> Joined(states[k], steps[k], states[k + 1])
  }

  /** The row, once there, came from a caller with its hash, which got the same reply. */
  ghost predicate RowHasAuthor(s: State) {
    s.row.Some? ==>
      exists c :: c in s.callers && c.hash == s.row.value.requestHash && c.phase == Finished(Fresh(s.row.value.reply))
  }

  /** A finished lookup said what the row says. */
  ghost predicate AnswersMatch(s: State) {
    forall c :: c in s.callers && c.phase.Finished? && (c.phase.outcome.Replayed? || c.phase.outcome.Conflict?) ==>
                  s.row.Some? && Answer(s.row, c.hash) == Some(c.phase.outcome)
  }

  lemma NextKeeps(s: State, step: Step)
    requires Enabled(s, step) && RowHasAuthor(s) && AnswersMatch(s)
    ensures RowHasAuthor(Next(s, step)) && AnswersMatch(Next(s, step))
    ensures s.row.Some? ==> Next(s, step).row == s.row
  {
    var t := Next(s, step);
    match step {
      case Arrive(_) =>
        assert forall c :: c in s.callers ==> c in t.callers;
      case Lookup(i) => MoveKeeps(s, t, i);
      case Execute(i, _) => MoveKeeps(s, t, i);
      case Store(i) =>
        MoveKeeps(s, t, i);
        assert t.callers[i] in t.callers;
    }
  }

  /** Moving one caller that has no answer yet leaves the finished ones in place. */
  lemma MoveKeeps(s: State, t: State, i: nat)
    requires i < |s.callers| && !s.callers[i].phase.Finished?
    requires |t.callers| == |s.callers| && t.callers == s.callers[i := t.callers[i]]
    ensures forall c :: c in s.callers && c.phase.Finished? ==> c in t.callers
  {
    forall c | c in s.callers && c.phase.Finished? ensures c in t.callers {
      var j :| 0 <= j < |s.callers| && s.callers[j] == c;
      assert t.callers[j] == c;
    }
  }

  lemma {:induction false} HistoryKeeps(states: seq<State>, steps: seq<Step>, k: nat)
    requires History(states, steps) && k < |states|
    ensures RowHasAuthor(states[k]) && AnswersMatch(states[k])
  {
    hide Next, Enabled, RowHasAuthor, AnswersMatch;
    if k == 0 {
      StartIsGood();
    } else {
      HistoryKeeps(states, steps, k - 1);
      assert Joined(states[k - 1], steps[k - 1], states[k - 1 + 1]);
      NextKeeps(states[k - 1], steps[k - 1]);
    }
  }

  lemma StartIsGood()
    ensures RowHasAuthor(START) && AnswersMatch(START)
  {
  }

  /** The stored response is written at most once and never changes. */
  lemma {:induction false} RowIsWrittenOnce(states: seq<State>, steps: seq<Step>, j: nat, k: nat)
    requires History(states, steps) && j <= k < |states| && states[j].row.Some?
    ensures states[k].row == states[j].row
    decreases k
  {
    hide Next, Enabled;
    if j < k {
      RowIsWrittenOnce(states, steps, j, k - 1);
      HistoryKeeps(states, steps, k - 1);
      assert Joined(states[k - 1], steps[k - 1], states[k - 1 + 1]);
      NextKeeps(states[k - 1], steps[k - 1]);
    }
  }

  /** Every lookup after the write replays it, or conflicts, according to its own hash. */
  lemma LookupAfterWrite(states: seq<State>, steps: seq<Step>, j: nat, k: nat)
    requires History(states, steps) && j <= k < |steps| && states[j].row.Some? && steps[k].Lookup?
    ensures var (i, row) := (steps[k].caller, states[j].row.value);
            i < |states[k].callers|
            && states[k + 1].callers[i].phase
               == Finished(if states[k].callers[i].hash == row.requestHash then Replayed(row.reply) else Conflict)
  {
    RowIsWrittenOnce(states, steps, j, k);
    assert Joined(states[k], steps[k], states[k + 1]);
  }

  /** Any answer read from the store is the stored response of a caller with the same body. */
  lemma ReplaysAreHonest(states: seq<State>, steps: seq<Step>, k: nat, c: Caller, reply: Reply)
    requires History(states, steps) && k < |states|
    requires c in states[k].callers && c.phase == Finished(Replayed(reply))
    ensures exists d :: d in states[k].callers && d.hash == c.hash && d.phase == Finished(Fresh(reply))
  {
    HistoryKeeps(states, steps, k);
  }

  // -------------------------------------------------------------- sequential

  predicate InFlight(c: Caller) {
    c.phase.Missed? || c.phase.Ran?
  }

  function CountFresh(callers: seq<Caller>): nat {
    if callers == [] then 0
    else CountFresh(callers[..|callers| - 1]) + if callers[|callers| - 1].phase.Finished? && callers[|callers| - 1].phase.outcome.Fresh? then 1 else 0
  }

  lemma {:induction false} CountFreshMoves(callers: seq<Caller>, i: nat, phase: Phase)
    requires i < |callers| && !callers[i].phase.Finished?
    ensures CountFresh(callers[i := callers[i].(phase := phase)])
            == CountFresh(callers) + if phase.Finished? && phase.outcome.Fresh? then 1 else 0
  {
    var n := |callers| - 1;
    var after := callers[i := callers[i].(phase := phase)];
    if i == n {
      assert after[..n] == callers[..n];
    } else {
      assert after[..n] == callers[..n][i := callers[i].(phase := phase)];
      CountFreshMoves(callers[..n], i, phase);
    }
  }

  /** Nobody looks the key up while somebody else is between lookup and store. */
  ghost predicate Sequential(states: seq<State>, steps: seq<Step>) {
    forall k :: 0 <= k < |steps| && k < |states| && steps[k].Lookup? ==> forall c :: c in states[k].callers ==> !InFlight(c)
  }

  ghost predicate OneAtATime(s: State) {
    && (forall i, j :: 0 <= i < j < |s.callers| ==> !(InFlight(s.callers[i]) && InFlight(s.callers[j])))
    && (s.row.None? ==> CountFresh(s.callers) == 0)
    && (s.row.Some? ==> CountFresh(s.callers) == 1 && forall c :: c in s.callers ==> !InFlight(c))
  }

  lemma NextStaysSequential(s: State, step: Step)
    requires Enabled(s, step) && OneAtATime(s)
    requires step.Lookup? ==> forall c :: c in s.callers ==> !InFlight(c)
    ensures OneAtATime(Next(s, step))
  {
    hide CountFresh;
    var t := Next(s, step);
    match step {
      case Arrive(hash) =>
        ArriveCounts(s.callers, hash);
      case Lookup(i) => CountFreshMoves(s.callers, i, t.callers[i].phase);
      case Execute(i, _) =>
        CountFreshMoves(s.callers, i, t.callers[i].phase);
        assert s.callers[i] in s.callers;
      case Store(i) =>
        CountFreshMoves(s.callers, i, t.callers[i].phase);
        assert s.callers[i] in s.callers;
    }
  }

  lemma ArriveCounts(callers: seq<Caller>, hash: string)
    ensures CountFresh(callers + [Caller(hash, Waiting)]) == CountFresh(callers)
  {
    assert (callers + [Caller(hash, Waiting)])[..|callers|] == callers;
  }

  /** In a sequential history at most one run completes. */
  lemma {:induction false} SequentialRunsOnce(states: seq<State>, steps: seq<Step>, k: nat)
    requires History(states, steps) && Sequential(states, steps) && k < |states|
    ensures OneAtATime(states[k]) && CountFresh(states[k].callers) <= 1
  {
    hide Next, Enabled, OneAtATime, InFlight;
    if k == 0 {
      assert OneAtATime(START) by { StartIsSequential(); }
    } else {
      SequentialRunsOnce(states, steps, k - 1);
      assert Joined(states[k - 1], steps[k - 1], states[k - 1 + 1]);
      NextStaysSequential(states[k - 1], steps[k - 1]);
    }
    AtMostOne(states[k]);
  }

  lemma StartIsSequential()
    ensures OneAtATime(START)
  {
  }

  lemma AtMostOne(s: State)
    requires OneAtATime(s)
    ensures CountFresh(s.callers) <= 1
  {
  }

  lemma Extend(states: seq<State>, steps: seq<Step>, step: Step) returns (longer: seq<State>)
    requires History(states, steps) && Enabled(states[|states| - 1], step)
    ensures longer == states + [Next(states[|states| - 1], step)] && History(longer, steps + [step])
  {
    hide Next, Enabled;
    longer := states + [Next(states[|states| - 1], step)];
    forall k | 0 <= k < |steps + [step]| ensures Joined(longer[k], (steps + [step])[k], longer[k + 1]) {
      if k < |steps| {
        assert Joined(states[k], steps[k], states[k + 1]);
      }
    }
  }

  /** Without that, two callers can both run; the store still keeps one answer. */
  lemma TwoMayRun(hash: string, a: Reply, b: Reply) returns (states: seq<State>, steps: seq<Step>)
    ensures History(states, steps)
    ensures CountFresh(states[|states| - 1].callers) == 2
    ensures states[|states| - 1].row == Some(Stored(hash, a))
  {
    hide History, CountFresh;
    states, steps := TwoWaiting(hash);
    states := Extend(states, steps, Lookup(0));
    steps := steps + [Lookup(0)];
    states := Extend(states, steps, Lookup(1));
    steps := steps + [Lookup(1)];
    states := Extend(states, steps, Execute(0, Some(a)));
    steps := steps + [Execute(0, Some(a))];
    states := Extend(states, steps, Execute(1, Some(b)));
    steps := steps + [Execute(1, Some(b))];
    states := Extend(states, steps, Store(0));
    steps := steps + [Store(0)];
    states := Extend(states, steps, Store(1));
    steps := steps + [Store(1)];
    BothFresh(hash, a, b);
    assert states[|states| - 1].callers == [Caller(hash, Finished(Fresh(a))), Caller(hash, Finished(Fresh(b)))];
  }

  lemma TwoWaiting(hash: string) returns (states: seq<State>, steps: seq<Step>)
    ensures History(states, steps)
    ensures states[|states| - 1] == State(None, [Caller(hash, Waiting), Caller(hash, Waiting)])
  {
    states, steps := [START], [];
    states := Extend(states, steps, Arrive(hash));
    steps := steps + [Arrive(hash)];
    states := Extend(states, steps, Arrive(hash));
    steps := steps + [Arrive(hash)];
  }

  lemma BothFresh(hash: string, a: Reply, b: Reply)
    ensures CountFresh([Caller(hash, Finished(Fresh(a))), Caller(hash, Finished(Fresh(b)))]) == 2
  {
    var (c, d) := (Caller(hash, Finished(Fresh(a))), Caller(hash, Finished(Fresh(b))));
    assert [c, d][..1] == [c] && [c][..0] == [];
    assert CountFresh([c]) == 1;
  }

  // ------------------------------------------------- when one run is all there is

  /** The steps can follow from the state, one after another. */
  predicate Possible(s: State, steps: seq<Step>)
    decreases steps
  {
    steps == [] || (Enabled(s, steps[0]) && Possible(Next(s, steps[0]), steps[1..]))
  }

  function After(s: State, steps: seq<Step>): State
    requires Possible(s, steps)
    decreases steps
  {
    if steps == [] then s else After(Next(s, steps[0]), steps[1..])
  }

  predicate NoLookup(steps: seq<Step>) {
    forall step :: step in steps ==> !step.Lookup?
  }

  /** Runs that completed, and runs that still may. */
  function Stake(p: Phase): nat {
    if p.Missed? || p.Ran? || (p.Finished? && p.outcome.Fresh?) then 1 else 0
  }

  /** Steps a caller between lookup and store has before it. */
  function Ahead(p: Phase): nat {
    if p.Missed? then 2 else if p.Ran? then 1 else 0
  }

  function Total(weight: Phase -> nat, callers: seq<Caller>): nat {
    if callers == [] then 0
    else Total(weight, callers[..|callers| - 1]) + weight(callers[|callers| - 1].phase)
  }

  lemma {:induction false} TotalMoves(weight: Phase -> nat, callers: seq<Caller>, i: nat, phase: Phase)
    requires i < |callers|
    ensures Total(weight, callers[i := callers[i].(phase := phase)])
            == Total(weight, callers) - weight(callers[i].phase) + weight(phase)
    ensures weight(callers[i].phase) <= Total(weight, callers)
  {
    var n := |callers| - 1;
    var after := callers[i := callers[i].(phase := phase)];
    if i == n {
      assert after[..n] == callers[..n];
    } else {
      assert after[..n] == callers[..n][i := callers[i].(phase := phase)];
      TotalMoves(weight, callers[..n], i, phase);
    }
  }

  lemma TotalArrives(weight: Phase -> nat, callers: seq<Caller>, hash: string)
    ensures Total(weight, callers + [Caller(hash, Waiting)]) == Total(weight, callers) + weight(Waiting)
  {
    assert (callers + [Caller(hash, Waiting)])[..|callers|] == callers;
  }

  /** At most as many runs have completed as are at stake, and just as many when none is in flight. */
  lemma {:induction false} FreshWithinStake(callers: seq<Caller>)
    ensures CountFresh(callers) <= Total(Stake, callers)
    ensures Total(Ahead, callers) == 0 ==> CountFresh(callers) == Total(Stake, callers)
  {
    if callers != [] {
      FreshWithinStake(callers[..|callers| - 1]);
    }
  }

  /** Only a lookup that finds nothing puts another run at stake. */
  lemma StakeMoves(s: State, step: Step)
    requires Enabled(s, step)
    ensures Total(Stake, Next(s, step).callers)
            <= Total(Stake, s.callers) + if step.Lookup? && s.row.None? then 1 else 0
    ensures step.Lookup? && s.row.None? ==> Total(Stake, Next(s, step).callers) == Total(Stake, s.callers) + 1
    ensures s.row.Some? ==> Next(s, step).row == s.row
  {
    hide Total;
    var t := Next(s, step);
    match step {
      case Arrive(hash) => TotalArrives(Stake, s.callers, hash);
      case Lookup(i) => TotalMoves(Stake, s.callers, i, t.callers[i].phase);
      case Execute(i, _) => TotalMoves(Stake, s.callers, i, t.callers[i].phase);
      case Store(i) => TotalMoves(Stake, s.callers, i, t.callers[i].phase);
    }
  }

  lemma {:induction false} StakeLasts(s: State, steps: seq<Step>)
    requires Possible(s, steps) && (NoLookup(steps) || s.row.Some?)
    ensures CountFresh(After(s, steps).callers) <= Total(Stake, s.callers)
    decreases |steps|
  {
    hide Enabled, Next, Total, CountFresh;
    if steps == [] {
      FreshWithinStake(s.callers);
    } else {
      StakeMoves(s, steps[0]);
      StakeLasts(Next(s, steps[0]), steps[1..]);
    }
  }

  lemma {:induction false} SomebodyAhead(callers: seq<Caller>) returns (i: nat)
    requires Total(Ahead, callers) > 0
    ensures i < |callers| && Ahead(callers[i].phase) > 0
  {
    var n := |callers| - 1;
    if Ahead(callers[n].phase) > 0 {
      i := n;
    } else {
      i := SomebodyAhead(callers[..n]);
    }
  }

  /** Everybody between lookup and store can still complete. */
  lemma {:induction false} AllComplete(s: State, reply: Reply) returns (steps: seq<Step>)
    ensures Possible(s, steps) && NoLookup(steps)
    ensures CountFresh(After(s, steps).callers) == Total(Stake, s.callers)
    decreases Total(Ahead, s.callers)
  {
    hide Total, CountFresh;
    if Total(Ahead, s.callers) == 0 {
      FreshWithinStake(s.callers);
      steps := [];
    } else {
      var i := SomebodyAhead(s.callers);
      var step := if s.callers[i].phase.Missed? then Execute(i, Some(reply)) else Store(i);
      var t := Next(s, step);
      TotalMoves(Ahead, s.callers, i, t.callers[i].phase);
      TotalMoves(Stake, s.callers, i, t.callers[i].phase);
      var rest := AllComplete(t, reply);
      steps := [step] + rest;
      assert steps[1..] == rest;
    }
  }

  lemma Preceded(s: State, step: Step, rest: seq<Step>)
    requires Enabled(s, step) && Possible(Next(s, step), rest)
    ensures Possible(s, [step] + rest) && After(s, [step] + rest) == After(Next(s, step), rest)
  {
    assert ([step] + rest)[1..] == rest;
  }

  /** Without a stored row, two more callers can put two more runs at stake. */
  lemma TwoMoreMayRun(s: State, reply: Reply) returns (steps: seq<Step>)
    requires s.row.None?
    ensures Possible(s, steps) && CountFresh(After(s, steps).callers) >= 2
  {
    var n := |s.callers|;
    var s1 := Next(s, Arrive(""));
    var s2 := Next(s1, Arrive(""));
    var s3 := Next(s2, Lookup(n));
    var s4 := Next(s3, Lookup(n + 1));
    hide Total, CountFresh, After, Possible;
    StakeMoves(s2, Lookup(n));
    StakeMoves(s3, Lookup(n + 1));
    steps := AllComplete(s4, reply);
    Preceded(s3, Lookup(n + 1), steps);
    steps := [Lookup(n + 1)] + steps;
    Preceded(s2, Lookup(n), steps);
    steps := [Lookup(n)] + steps;
    Preceded(s1, Arrive(""), steps);
    steps := [Arrive("")] + steps;
    Preceded(s, Arrive(""), steps);
    steps := [Arrive("")] + steps;
  }

  /**
   If nobody looks the key up any more, at most one run completes, come what may, if
   and only if at most one has completed or is between lookup and store.
   */
  lemma OneCompletesExactly(s: State)
    ensures Total(Stake, s.callers) <= 1 <==>
              forall steps :: Possible(s, steps) && NoLookup(steps) ==> CountFresh(After(s, steps).callers) <= 1
  {
    hide Total, CountFresh, Possible, After, NoLookup;
    if Total(Stake, s.callers) <= 1 {
      forall steps | Possible(s, steps) && NoLookup(steps) ensures CountFresh(After(s, steps).callers) <= 1 {
        StakeLasts(s, steps);
      }
    } else {
      var steps := AllComplete(s, Reply(200, ""));
    }
  }

  /** With lookups to come it takes a stored row besides. */
  lemma OneEverCompletesExactly(s: State)
    ensures s.row.Some? && Total(Stake, s.callers) <= 1 <==>
              forall steps :: Possible(s, steps) ==> CountFresh(After(s, steps).callers) <= 1
  {
    hide Total, CountFresh, Possible, After, NoLookup;
    if s.row.None? {
      var steps := TwoMoreMayRun(s, Reply(200, ""));
    } else if Total(Stake, s.callers) <= 1 {
      forall steps | Possible(s, steps) ensures CountFresh(After(s, steps).callers) <= 1 {
        StakeLasts(s, steps);
      }
    } else {
      var steps := AllComplete(s, Reply(200, ""));
    }
  }
}
