/**
 Filling in a scenario's sample answers: find the routes that lead from submission
 to the tested task, and the one choice of missing answers that opens one of them.
 */
module SampleAnswers {
  import opened Values
  import opened Conditions
  import opened Forms
  import opened CanonicalJson
  import opened Documents
  import opened Routes

  // ------------------------------------------------------- fresh action keys

  function Padded(base: string, n: nat): string {
    if n == 0 then base else Padded(base, n - 1) + "x"
  }

  /** `repair_create_<task>`, with as many x's as it takes to be new, and no more. */
  method FreshActionKey(task: string, taken: set<string>) returns (key: string, ghost n: nat)
    ensures key !in taken
    ensures key == Padded("repair_create_" + task, n)
    ensures forall m :: 0 <= m < n ==> Padded("repair_create_" + task, m) in taken
  {
    key := "repair_create_" + task;
    n := 0;
    ghost var longer := set k | k in taken && |k| >= |key|;
    while key in taken
      invariant key == Padded("repair_create_" + task, n)
      invariant forall m :: 0 <= m < n ==> Padded("repair_create_" + task, m) in taken
      invariant longer == set k | k in taken && |k| >= |key|
      decreases longer
    {
      ghost var before := longer;
      longer := set k | k in taken && |k| >= |key| + 1;
      assert key in before && key !in longer;
      key := key + "x";
      n := n + 1;
    }
  }

  // ---------------------------------------------------------- finding routes

  const SUBMISSION := JStr("submission")
  const RECORD_UPDATED := JStr("record_updated")
  const MAX_DEPTH := 8
  const MAX_ROUTES := 8

  function On(r: Route): Json {
    Prop(r.trigger, "on")
  }

  predicate Creates(r: Route, task: string) {
    exists a :: a in r.actions && Prop(a, "do") == JStr("create_task") && Prop(a, "task") == JStr(task)
  }

  /** A route the walk may take from `state`, having come along `path`. */
  predicate Leaves(r: Route, state: string, path: seq<Route>) {
    r.from == state && On(r) == if path == [] then SUBMISSION else RECORD_UPDATED
  }

  /** The depth-first walk, with the list of routes found so far. */
  function Walk(
      ts: seq<Route>, task: string, state: string, path: seq<Route>, visited: set<string>, found: seq<seq<Route>>)
    : seq<seq<Route>>
    decreases MAX_DEPTH + 1 - |path|, |ts| + 1
  {
    if |path| > MAX_DEPTH || |found| > MAX_ROUTES then found else WalkFrom(ts, task, state, path, visited, found, 0)
  }

  function WalkFrom(
      ts: seq<Route>, task: string, state: string, path: seq<Route>, visited: set<string>, found: seq<seq<Route>>, i: nat)
    : seq<seq<Route>>
    requires i <= |ts| && |path| <= MAX_DEPTH
    decreases MAX_DEPTH + 1 - |path|, |ts| - i, 1
  {
    if i == |ts| then found
    else WalkFrom(ts, task, state, path, visited, Along(ts, task, state, path, visited, found, i), i + 1)
  }

  /** What taking the i-th route from here adds. */
  function Along(
      ts: seq<Route>, task: string, state: string, path: seq<Route>, visited: set<string>, found: seq<seq<Route>>, i: nat)
    : seq<seq<Route>>
    requires i < |ts| && |path| <= MAX_DEPTH
    decreases MAX_DEPTH + 1 - |path|, |ts| - i, 0
  {
    if !Leaves(ts[i], state, path) || ts[i].to in visited then found
    else if Creates(ts[i], task) then found + [path + [ts[i]]]
    else Walk(ts, task, ts[i].to, path + [ts[i]], visited + {ts[i].to}, found)
  }

  method Search(
      ts: seq<Route>, task: string, state: string, path: seq<Route>, visited: set<string>, before: seq<seq<Route>>)
    returns (found: seq<seq<Route>>)
    ensures found == Walk(ts, task, state, path, visited, before)
    decreases MAX_DEPTH + 1 - |path|
  {
    found := before;
    if |path| > 8 || |found| > 8 {
      return;
    }
    for i := 0 to |ts|
      invariant WalkFrom(ts, task, state, path, visited, found, i) == Walk(ts, task, state, path, visited, before)
    {
      var event := if |path| > 0 then "record_updated" else "submission";
      if ts[i].from != state || Prop(ts[i].trigger, "on") != JStr(event) || ts[i].to in visited {
        continue;
      }
      var next := path + [ts[i]];
      var creates := HasCreateTask(ts[i].actions, task);
      if creates {
        found := found + [next];
      } else {
        found := Search(ts, task, ts[i].to, next, visited + {ts[i].to}, found);
      }
    }
  }

  method HasCreateTask(actions: seq<Json>, task: string) returns (has: bool)
    ensures has <==> exists a :: a in actions && Prop(a, "do") == JStr("create_task") && Prop(a, "task") == JStr(task)
  {
    has := false;
    for i := 0 to |actions|
      invariant has <==> exists a :: a in actions[..i] && Prop(a, "do") == JStr("create_task") && Prop(a, "task") == JStr(task)
    {
      assert actions[..i + 1] == actions[..i] + [actions[i]];
      has := has || (Prop(actions[i], "do") == JStr("create_task") && Prop(actions[i], "task") == JStr(task));
    }
    assert actions[..|actions|] == actions;
  }

  /** The states a path passes, from where it starts. */
  function Stops(start: string, path: seq<Route>): seq<string> {
    if path == [] then [start] else Stops(start, path[..|path| - 1]) + [path[|path| - 1].to]
  }

  function StopSet(start: string, path: seq<Route>): set<string> {
    set s | s in Stops(start, path)
  }

  /** Consecutive routes from `start`: by submission first, by record updates after, no state twice. */
  predicate SimplePath(ts: seq<Route>, start: string, path: seq<Route>)
    decreases |path|
  {
    if path == [] then true
    else
      var (init, last) := (path[..|path| - 1], path[|path| - 1]);
      && SimplePath(ts, start, init)
      && last in ts
      && Leaves(last, End(start, init), init)
      && last.to !in Stops(start, init)
  }

  function End(start: string, path: seq<Route>): string {
    if path == [] then start else path[|path| - 1].to
  }

  /** A simple path whose last route, and no earlier one, creates the task. */
  predicate LeadsTo(ts: seq<Route>, start: string, task: string, path: seq<Route>) {
    && path != []
    && SimplePath(ts, start, path)
    && Creates(path[|path| - 1], task)
    && forall i :: 0 <= i < |path| - 1 ==> !Creates(path[i], task)
  }

  /** The routes to the task from the initial state. */
  function RoutesTo(ts: seq<Route>, initial: string, task: string): seq<seq<Route>> {
    Walk(ts, task, initial, [], {initial}, [])
  }

  lemma {:induction false} WalkIsSound(
      ts: seq<Route>, task: string, start: string, path: seq<Route>, visited: set<string>, found: seq<seq<Route>>,
      p: seq<Route>)
    requires SimplePath(ts, start, path) && StopSet(start, path) == visited
    requires forall i :: 0 <= i < |path| ==> !Creates(path[i], task)
    requires p in Walk(ts, task, End(start, path), path, visited, found)
    ensures p in found || LeadsTo(ts, start, task, p)
    decreases MAX_DEPTH + 1 - |path|, |ts| + 1
  {
    if |path| <= MAX_DEPTH && |found| <= MAX_ROUTES {
      WalkFromIsSound(ts, task, start, path, visited, found, 0, p);
    }
  }

  lemma {:induction false} WalkFromIsSound(
      ts: seq<Route>, task: string, start: string, path: seq<Route>, visited: set<string>, found: seq<seq<Route>>, i: nat,
      p: seq<Route>)
    requires i <= |ts| && |path| <= MAX_DEPTH
    requires SimplePath(ts, start, path) && StopSet(start, path) == visited
    requires forall k :: 0 <= k < |path| ==> !Creates(path[k], task)
    requires p in WalkFrom(ts, task, End(start, path), path, visited, found, i)
    ensures p in found || LeadsTo(ts, start, task, p)
    decreases MAX_DEPTH + 1 - |path|, |ts| - i, 1
  {
    hide Creates, On, Along, SimplePath, LeadsTo, Stops;
    if i < |ts| {
      var more := Along(ts, task, End(start, path), path, visited, found, i);
      WalkFromIsSound(ts, task, start, path, visited, more, i + 1, p);
      if p in more {
        AlongIsSound(ts, task, start, path, visited, found, i, p);
      }
    }
  }

  lemma {:induction false} AlongIsSound(
      ts: seq<Route>, task: string, start: string, path: seq<Route>, visited: set<string>, found: seq<seq<Route>>, i: nat,
      p: seq<Route>)
    requires i < |ts| && |path| <= MAX_DEPTH
    requires SimplePath(ts, start, path) && StopSet(start, path) == visited
    requires forall k :: 0 <= k < |path| ==> !Creates(path[k], task)
    requires p in Along(ts, task, End(start, path), path, visited, found, i)
    ensures p in found || LeadsTo(ts, start, task, p)
    decreases MAX_DEPTH + 1 - |path|, |ts| - i, 0
  {
    hide Creates, Leaves, SimplePath, Stops;
    if Leaves(ts[i], End(start, path), path) && ts[i].to !in visited {
      StepExtends(ts, start, path, visited, i);
      if !Creates(ts[i], task) {
        WalkIsSound(ts, task, start, path + [ts[i]], visited + {ts[i].to}, found, p);
      }
    }
  }

  lemma StepExtends(ts: seq<Route>, start: string, path: seq<Route>, visited: set<string>, i: nat)
    requires i < |ts| && SimplePath(ts, start, path) && StopSet(start, path) == visited
    requires Leaves(ts[i], End(start, path), path) && ts[i].to !in visited
    ensures SimplePath(ts, start, path + [ts[i]])
    ensures StopSet(start, path + [ts[i]]) == visited + {ts[i].to}
    ensures End(start, path + [ts[i]]) == ts[i].to
  {
    hide Leaves;
    assert (path + [ts[i]])[..|path|] == path;
    assert ts[i].to !in Stops(start, path);
  }

  /** Every route found is a simple path to the task. */
  lemma RoutesAreSound(ts: seq<Route>, initial: string, task: string, p: seq<Route>)
    requires p in RoutesTo(ts, initial, task)
    ensures LeadsTo(ts, initial, task, p)
  {
    assert StopSet(initial, []) == {initial};
    WalkIsSound(ts, task, initial, [], {initial}, [], p);
  }

  lemma {:induction false} WalkGrows(
      ts: seq<Route>, task: string, state: string, path: seq<Route>, visited: set<string>, found: seq<seq<Route>>)
    ensures found <= Walk(ts, task, state, path, visited, found)
    decreases MAX_DEPTH + 1 - |path|, |ts| + 1
  {
    if |path| <= MAX_DEPTH && |found| <= MAX_ROUTES {
      WalkFromGrows(ts, task, state, path, visited, found, 0);
    }
  }

  lemma {:induction false} WalkFromGrows(
      ts: seq<Route>, task: string, state: string, path: seq<Route>, visited: set<string>, found: seq<seq<Route>>, i: nat)
    requires i <= |ts| && |path| <= MAX_DEPTH
    ensures found <= WalkFrom(ts, task, state, path, visited, found, i)
    decreases MAX_DEPTH + 1 - |path|, |ts| - i, 1
  {
    hide Along;
    if i < |ts| {
      AlongGrows(ts, task, state, path, visited, found, i);
      WalkFromGrows(ts, task, state, path, visited, Along(ts, task, state, path, visited, found, i), i + 1);
    }
  }

  lemma {:induction false} AlongGrows(
      ts: seq<Route>, task: string, state: string, path: seq<Route>, visited: set<string>, found: seq<seq<Route>>, i: nat)
    requires i < |ts| && |path| <= MAX_DEPTH
    ensures found <= Along(ts, task, state, path, visited, found, i)
    decreases MAX_DEPTH + 1 - |path|, |ts| - i, 0
  {
    hide Creates, Leaves;
    WalkGrows(ts, task, ts[i].to, path + [ts[i]], visited + {ts[i].to}, found);
  }

  /** Unless the list filled up, a walk finds every short enough path that goes on from its own. */
  lemma {:induction false} WalkIsComplete(
      ts: seq<Route>, task: string, start: string, path: seq<Route>, visited: set<string>, found: seq<seq<Route>>,
      p: seq<Route>)
    requires StopSet(start, path) == visited && SimplePath(ts, start, path)
    requires LeadsTo(ts, start, task, p) && |path| < |p| <= MAX_DEPTH + 1 && p[..|path|] == path
    requires |Walk(ts, task, End(start, path), path, visited, found)| <= MAX_ROUTES
    ensures p in Walk(ts, task, End(start, path), path, visited, found)
    decreases MAX_DEPTH + 1 - |path|, |ts| + 1
  {
    WalkGrows(ts, task, End(start, path), path, visited, found);
    SimplePrefix(ts, start, p, |path| + 1);
    var i :| 0 <= i < |ts| && ts[i] == p[|path|];
    WalkFromIsComplete(ts, task, start, path, visited, found, 0, i, p);
  }

  lemma {:induction false} WalkFromIsComplete(
      ts: seq<Route>, task: string, start: string, path: seq<Route>, visited: set<string>, found: seq<seq<Route>>, i: nat,
      n: nat, p: seq<Route>)
    requires i <= n < |ts| && |path| <= MAX_DEPTH && SimplePath(ts, start, path)
    requires StopSet(start, path) == visited
    requires LeadsTo(ts, start, task, p) && |path| < |p| <= MAX_DEPTH + 1 && p[..|path|] == path && p[|path|] == ts[n]
    requires |WalkFrom(ts, task, End(start, path), path, visited, found, i)| <= MAX_ROUTES
    ensures p in WalkFrom(ts, task, End(start, path), path, visited, found, i)
    decreases MAX_DEPTH + 1 - |path|, |ts| - i, 1
  {
    hide Along, LeadsTo, SimplePath, Stops, StopSet;
    var state := End(start, path);
    var more := Along(ts, task, state, path, visited, found, i);
    WalkFromGrows(ts, task, state, path, visited, more, i + 1);
    if i < n {
      WalkFromIsComplete(ts, task, start, path, visited, more, i + 1, n, p);
    } else {
      AlongIsComplete(ts, task, start, path, visited, found, i, p);
    }
  }

  lemma {:induction false} AlongIsComplete(
      ts: seq<Route>, task: string, start: string, path: seq<Route>, visited: set<string>, found: seq<seq<Route>>, i: nat,
      p: seq<Route>)
    requires i < |ts| && |path| <= MAX_DEPTH && SimplePath(ts, start, path)
    requires StopSet(start, path) == visited
    requires LeadsTo(ts, start, task, p) && |path| < |p| <= MAX_DEPTH + 1 && p[..|path|] == path && p[|path|] == ts[i]
    requires |Along(ts, task, End(start, path), path, visited, found, i)| <= MAX_ROUTES
    ensures p in Along(ts, task, End(start, path), path, visited, found, i)
    decreases MAX_DEPTH + 1 - |path|, |ts| - i, 0
  {
    hide Creates, Leaves, LeadsTo, SimplePath, Stops, StopSet, End, Walk, WalkFrom, Along;
    NextOnPath(ts, task, start, path, p, i);
    assert ts[i].to !in visited by { InStops(start, path, ts[i].to); }
    AlongTaken(ts, task, End(start, path), path, visited, found, i);
    if Creates(ts[i], task) {
      assert p == path + [ts[i]];
    } else {
      StepExtends(ts, start, path, visited, i);
      assert p[..|path| + 1] == path + [ts[i]];
      WalkIsComplete(ts, task, start, path + [ts[i]], visited + {ts[i].to}, found, p);
    }
  }

  lemma AlongTaken(
      ts: seq<Route>, task: string, state: string, path: seq<Route>, visited: set<string>, found: seq<seq<Route>>, i: nat)
    requires i < |ts| && |path| <= MAX_DEPTH && Leaves(ts[i], state, path) && ts[i].to !in visited
    ensures Along(ts, task, state, path, visited, found, i)
            == if Creates(ts[i], task) then found + [path + [ts[i]]]
               else Walk(ts, task, ts[i].to, path + [ts[i]], visited + {ts[i].to}, found)
  {
    hide Walk, Leaves, Creates;
  }

  lemma InStops(start: string, path: seq<Route>, state: string)
    ensures state in StopSet(start, path) <==> state in Stops(start, path)
  {
    hide Stops;
  }

  /** The step a path to the task takes after one of its prefixes. */
  lemma NextOnPath(ts: seq<Route>, task: string, start: string, path: seq<Route>, p: seq<Route>, n: nat)
    requires LeadsTo(ts, start, task, p) && |path| < |p| && p[..|path|] == path && n < |ts| && p[|path|] == ts[n]
    ensures Leaves(ts[n], End(start, path), path) && ts[n].to !in Stops(start, path)
    ensures Creates(ts[n], task) <==> |p| == |path| + 1
    ensures |p| == |path| + 1 ==> p == path + [ts[n]]
  {
    hide Creates, Leaves;
    SimplePrefix(ts, start, p, |path| + 1);
    assert p[..|path| + 1] == path + [ts[n]];
    assert (path + [ts[n]])[..|path|] == path;
  }

  lemma {:induction false} SimplePrefix(ts: seq<Route>, start: string, p: seq<Route>, n: nat)
    requires SimplePath(ts, start, p) && n <= |p|
    ensures SimplePath(ts, start, p[..n])
    decreases |p|
  {
    if n == |p| {
      assert p[..n] == p;
    } else {
      SimplePrefix(ts, start, p[..|p| - 1], n);
      assert p[..|p| - 1][..n] == p[..n];
    }
  }

  /** Unless it stopped at its cap, the search misses no path of nine routes or fewer. */
  lemma RoutesAreComplete(ts: seq<Route>, initial: string, task: string, p: seq<Route>)
    requires LeadsTo(ts, initial, task, p) && |p| <= 9
    requires |RoutesTo(ts, initial, task)| <= 8
    ensures p in RoutesTo(ts, initial, task)
  {
    assert StopSet(initial, []) == {initial};
    assert p[..0] == [];
    WalkIsComplete(ts, task, initial, [], {initial}, [], p);
  }

  // ---------------------------------------------------------- sample answers

  /** What a form offers the repair: its fields, and which of them are computed. */
  datatype Bench = Bench(fields: seq<Field>, computed: set<string>, expr: Json -> Expr)

  const CLOCK := "2026-09-21T09:00:00.000Z"
  const MAX_SAMPLES := 64

  predicate Unanswered(answers: Answers, key: string) {
    Get(answers, key) == Undefined || Get(answers, key) == Str("")
  }

  predicate Open(bench: Bench, r: Route, answers: Answers) {
    r.when == JUndefined || Evaluate(bench.expr(r.when), Context(answers, CLOCK, None, None))
  }

  predicate AllOpen(bench: Bench, path: seq<Route>, answers: Answers) {
    forall r :: r in path ==> Open(bench, r, answers)
  }

  function Distinct(keys: seq<string>): seq<string> {
    if keys == [] then []
    else
      var (init, last) := (keys[..|keys| - 1], keys[|keys| - 1]);
      if last in init then Distinct(init) else Distinct(init) + [last]
  }

  function GuardKeys(bench: Bench, path: seq<Route>): seq<string> {
    if path == [] then []
    else (if path[0].when == JUndefined then [] else FieldsInExpr(bench.expr(path[0].when))) + GuardKeys(bench, path[1..])
  }

  function MissingKeys(answers: Answers, keys: seq<string>): seq<string> {
    if keys == [] then []
    else (if Unanswered(answers, keys[0]) then [keys[0]] else []) + MissingKeys(answers, keys[1..])
  }

  function FieldFor(fields: seq<Field>, key: string): Option<Field> {
    if fields == [] then None
    else if fields[0].key == key then Some(fields[0])
    else FieldFor(fields[1..], key)
  }

  function ChoiceValues(choices: seq<Choice>): seq<Value> {
    if choices == [] then [] else [Str(choices[0].value)] + ChoiceValues(choices[1..])
  }

  /** The declared values a sample may be given; staff and computed fields get none. */
  function SampleValues(bench: Bench, key: string): seq<Value> {
    match FieldFor(bench.fields, key)
    case None => []
    case Some(field) =>
      if key in bench.computed || field.Staff() then []
      else if field.kind == YesNo then [Bool(false), Bool(true)]
      else if field.kind == Dropdown || field.kind == SingleChoice then ChoiceValues(field.choices)
      else []
  }

  function WithEach(answers: Answers, key: string, values: seq<Value>): seq<Answers> {
    if values == [] then [] else [answers[key := values[0]]] + WithEach(answers, key, values[1..])
  }

  function Options(candidates: seq<Answers>, key: string, values: seq<Value>): seq<Answers> {
    if candidates == [] then [] else WithEach(candidates[0], key, values) + Options(candidates[1..], key, values)
  }

  function Cap(candidates: seq<Answers>): seq<Answers> {
    if |candidates| > MAX_SAMPLES then candidates[..MAX_SAMPLES] else candidates
  }

  /** Every combination of declared values for the missing keys, up to the cap. */
  function Combinations(bench: Bench, candidates: seq<Answers>, missing: seq<string>): seq<Answers>
    decreases |missing|
  {
    if missing == [] then candidates
    else Combinations(bench, Cap(Options(candidates, missing[0], SampleValues(bench, missing[0]))), missing[1..])
  }

  function FirstOpen(bench: Bench, path: seq<Route>, candidates: seq<Answers>): Option<Answers> {
    if candidates == [] then None
    else if AllOpen(bench, path, candidates[0]) then Some(candidates[0])
    else FirstOpen(bench, path, candidates[1..])
  }

  /** The sample that opens one route, when it was missing answers. */
  function SampleFor(bench: Bench, answers: Answers, path: seq<Route>): Option<Answers> {
    var missing := MissingKeys(answers, Distinct(GuardKeys(bench, path)));
    if missing == [] then None else FirstOpen(bench, path, Combinations(bench, [answers], missing))
  }

  function Samples(bench: Bench, answers: Answers, routes: seq<seq<Route>>): seq<Answers> {
    if routes == [] then []
    else
      var (init, last) := (routes[..|routes| - 1], routes[|routes| - 1]);
      Samples(bench, answers, init)
      + match SampleFor(bench, answers, last)
        case None => []
        case Some(sample) => [sample]
  }

  /** Copies what was unanswered; several candidates are a business choice and change nothing. */
  function Filled(bench: Bench, ts: seq<Route>, initial: string, task: string, answers: Answers): Answers {
    var samples := Samples(bench, answers, RoutesTo(ts, initial, task));
    if |samples| == 1 then answers + map k | k in samples[0] && Unanswered(answers, k) :: samples[0][k] else answers
  }

  method FillSample(bench: Bench, ts: seq<Route>, initial: string, task: string, answers: Answers)
    returns (filled: Answers)
    ensures filled == Filled(bench, ts, initial, task, answers)
  {
    hide Walk, Samples, Unanswered;
    var routes := Search(ts, task, initial, [], {initial}, []);
    var samples := FindSamples(bench, answers, routes);
    filled := answers;
    if |samples| == 1 {
      filled := CopyUnanswered(answers, samples[0]);
    }
  }

  method FindSamples(bench: Bench, answers: Answers, routes: seq<seq<Route>>) returns (samples: seq<Answers>)
    ensures samples == Samples(bench, answers, routes)
  {
    hide SampleFor;
    samples := [];
    for i := 0 to |routes|
      invariant samples == Samples(bench, answers, routes[..i])
    {
      assert routes[..i + 1][..i] == routes[..i];
      var sample := FindSample(bench, answers, routes[i]);
      if sample.Some? {
        samples := samples + [sample.value];
      }
    }
    assert routes[..|routes|] == routes;
  }

  method FindSample(bench: Bench, answers: Answers, path: seq<Route>) returns (sample: Option<Answers>)
    ensures sample == SampleFor(bench, answers, path)
  {
    hide AllOpen, SampleValues, Options, MissingKeys, GuardKeys, Distinct;
    var keys := CollectKeys(bench, path);
    var missing := CollectMissing(answers, keys);
    if |missing| == 0 {
      return None;
    }
    var candidates := [answers];
    for i := 0 to |missing|
      invariant Combinations(bench, candidates, missing[i..]) == Combinations(bench, [answers], missing)
    {
      assert missing[i..][0] == missing[i] && missing[i..][1..] == missing[i + 1..];
      var values := CollectValues(bench, missing[i]);
      candidates := Spreading(candidates, missing[i], values);
      if |candidates| > 64 {
        candidates := candidates[..64];
      }
    }
    for i := 0 to |candidates|
      invariant FirstOpen(bench, path, candidates[i..]) == FirstOpen(bench, path, candidates)
    {
      assert candidates[i..][0] == candidates[i] && candidates[i..][1..] == candidates[i + 1..];
      var open := GuardsHold(bench, path, candidates[i]);
      if open {
        return Some(candidates[i]);
      }
    }
    return None;
  }

  /** Every guard along the path, at the clock of the scenarios. */
  method GuardsHold(bench: Bench, path: seq<Route>, answers: Answers) returns (open: bool)
    ensures open == AllOpen(bench, path, answers)
  {
    hide Evaluate;
    for i := 0 to |path|
      invariant forall k :: 0 <= k < i ==> Open(bench, path[k], answers)
    {
      var r := path[i];
      if r.when != JUndefined && !Evaluate(bench.expr(r.when), Context(answers, "2026-09-21T09:00:00.000Z", None, None)) {
        assert !Open(bench, path[i], answers) && path[i] in path;
        return false;
      }
    }
    return true;
  }

  /** The keys the guards read, each once. */
  method CollectKeys(bench: Bench, path: seq<Route>) returns (keys: seq<string>)
    ensures keys == Distinct(GuardKeys(bench, path))
  {
    hide GuardKeys;
    var all: seq<string> := [];
    assert path[0..] == path;
    for i := 0 to |path|
      invariant all + GuardKeys(bench, path[i..]) == GuardKeys(bench, path)
    {
      GuardKeysNext(bench, path, i);
      Regroup(all, GuardsOf(bench, path[i]), GuardKeys(bench, path[i + 1..]));
      if path[i].when != JUndefined {
        var read := CollectFields(bench.expr(path[i].when));
        all := all + read;
      }
    }
    assert path[|path|..] == [];
    GuardKeysNone(bench);
    assert all + [] == all;
    keys := Once(all);
  }

  function GuardsOf(bench: Bench, r: Route): seq<string> {
    if r.when == JUndefined then [] else FieldsInExpr(bench.expr(r.when))
  }

  lemma GuardKeysNext(bench: Bench, path: seq<Route>, i: nat)
    requires i < |path|
    ensures GuardKeys(bench, path[i..]) == GuardsOf(bench, path[i]) + GuardKeys(bench, path[i + 1..])
  {
    assert path[i..][0] == path[i] && path[i..][1..] == path[i + 1..];
  }

  lemma GuardKeysNone(bench: Bench)
    ensures GuardKeys(bench, []) == []
  {
  }

  method Once(all: seq<string>) returns (keys: seq<string>)
    ensures keys == Distinct(all)
  {
    keys := [];
    for i := 0 to |all|
      invariant keys == Distinct(all[..i])
    {
      assert all[..i + 1][..i] == all[..i] && all[..i + 1][i] == all[i];
      if all[i] !in all[..i] {
        keys := keys + [all[i]];
      }
    }
    assert all[..|all|] == all;
  }

  method CollectMissing(answers: Answers, keys: seq<string>) returns (missing: seq<string>)
    ensures missing == MissingKeys(answers, keys)
  {
    hide MissingKeys, Unanswered;
    missing := [];
    assert keys[0..] == keys;
    for i := 0 to |keys|
      invariant missing + MissingKeys(answers, keys[i..]) == MissingKeys(answers, keys)
    {
      MissingNext(answers, keys, i);
      Regroup(missing, if Unanswered(answers, keys[i]) then [keys[i]] else [], MissingKeys(answers, keys[i + 1..]));
      UnansweredIs(answers, keys[i]);
      if keys[i] !in answers || answers[keys[i]] == Undefined || answers[keys[i]] == Str("") {
        missing := missing + [keys[i]];
      }
    }
    assert keys[|keys|..] == [];
    MissingNone(answers);
  }

  lemma UnansweredIs(answers: Answers, key: string)
    ensures Unanswered(answers, key) <==> key !in answers || answers[key] == Undefined || answers[key] == Str("")
  {
  }

  lemma MissingNext(answers: Answers, keys: seq<string>, i: nat)
    requires i < |keys|
    ensures MissingKeys(answers, keys[i..]) == (if Unanswered(answers, keys[i]) then [keys[i]] else []) + MissingKeys(answers, keys[i + 1..])
  {
    assert keys[i..][0] == keys[i] && keys[i..][1..] == keys[i + 1..];
  }

  lemma MissingNone(answers: Answers)
    ensures MissingKeys(answers, []) == []
  {
  }

  /** The declared values of a question the respondent answers. */
  method CollectValues(bench: Bench, key: string) returns (values: seq<Value>)
    ensures values == SampleValues(bench, key)
  {
    hide FieldFor, ChoiceValues;
    var field := FindField(bench.fields, key);
    if field.None? || key in bench.computed || field.value.setBy == Some(Operator) || field.value.setBy == Some(System) {
      return [];
    }
    if field.value.kind == YesNo {
      return [Bool(false), Bool(true)];
    }
    if field.value.kind != Dropdown && field.value.kind != SingleChoice {
      return [];
    }
    values := CollectChoices(field.value.choices);
  }

  method CollectChoices(choices: seq<Choice>) returns (values: seq<Value>)
    ensures values == ChoiceValues(choices)
  {
    hide ChoiceValues;
    values := [];
    assert choices[0..] == choices;
    for i := 0 to |choices|
      invariant values + ChoiceValues(choices[i..]) == ChoiceValues(choices)
    {
      ChoicesNext(choices, i);
      Regroup(values, [Str(choices[i].value)], ChoiceValues(choices[i + 1..]));
      values := values + [Str(choices[i].value)];
    }
    assert choices[|choices|..] == [];
    ChoicesNone();
  }

  lemma ChoicesNext(choices: seq<Choice>, i: nat)
    requires i < |choices|
    ensures ChoiceValues(choices[i..]) == [Str(choices[i].value)] + ChoiceValues(choices[i + 1..])
  {
    assert choices[i..][0] == choices[i] && choices[i..][1..] == choices[i + 1..];
  }

  lemma ChoicesNone()
    ensures ChoiceValues([]) == []
  {
  }

  method FindField(fields: seq<Field>, key: string) returns (field: Option<Field>)
    ensures field == FieldFor(fields, key)
  {
    for i := 0 to |fields|
      invariant FieldFor(fields[i..], key) == FieldFor(fields, key)
    {
      assert fields[i..][0] == fields[i] && fields[i..][1..] == fields[i + 1..];
      if fields[i].key == key {
        return Some(fields[i]);
      }
    }
    return None;
  }

  /** `flatMap`: each candidate with each value. */
  method Spreading(candidates: seq<Answers>, key: string, values: seq<Value>) returns (spread: seq<Answers>)
    ensures spread == Options(candidates, key, values)
  {
    hide WithEach;
    spread := [];
    for i := 0 to |candidates|
      invariant spread + Options(candidates[i..], key, values) == Options(candidates, key, values)
    {
      assert candidates[i..][0] == candidates[i] && candidates[i..][1..] == candidates[i + 1..];
      var each := SpreadOne(candidates[i], key, values);
      Regroup(spread, each, Options(candidates[i + 1..], key, values));
      spread := spread + each;
    }
    assert candidates[|candidates|..] == [];
  }

  method SpreadOne(answers: Answers, key: string, values: seq<Value>) returns (spread: seq<Answers>)
    ensures spread == WithEach(answers, key, values)
  {
    spread := [];
    for i := 0 to |values|
      invariant spread + WithEach(answers, key, values[i..]) == WithEach(answers, key, values)
    {
      assert values[i..][0] == values[i] && values[i..][1..] == values[i + 1..];
      spread := spread + [answers[key := values[i]]];
    }
    assert values[|values|..] == [];
  }

  method CopyUnanswered(answers: Answers, sample: Answers) returns (filled: Answers)
    ensures filled == answers + map k | k in sample && Unanswered(answers, k) :: sample[k]
  {
    filled := answers;
    var todo := sample.Keys;
    while todo != {}
      invariant todo <= sample.Keys
      invariant filled == answers + map k | k in sample && k !in todo && Unanswered(answers, k) :: sample[k]
      decreases todo
    {
      var k :| k in todo;
      todo := todo - {k};
      if k !in answers || answers[k] == Undefined || answers[k] == Str("") {
        filled := filled[k := sample[k]];
      }
    }
  }

  // -------------------------------------------------- what repair guarantees

  /** `sample` is `answers` with some of `keys` given a declared value. */
  predicate Extends(bench: Bench, answers: Answers, keys: seq<string>, sample: Answers) {
    && answers.Keys <= sample.Keys
    && forall k :: k in sample ==>
         || (k in answers && sample[k] == answers[k])
         || (k in keys && sample[k] in SampleValues(bench, k))
  }

  lemma {:induction false} WithEachExtends(
      bench: Bench, answers: Answers, keys: seq<string>, base: Answers, key: string, values: seq<Value>, sample: Answers)
    requires Extends(bench, answers, keys, base) && key in keys
    requires forall v :: v in values ==> v in SampleValues(bench, key)
    requires sample in WithEach(base, key, values)
    ensures Extends(bench, answers, keys, sample)
  {
    hide SampleValues;
    if sample == base[key := values[0]] {
      assert values[0] in values;
    } else {
      WithEachExtends(bench, answers, keys, base, key, values[1..], sample);
    }
  }

  lemma {:induction false} OptionsExtend(
      bench: Bench, answers: Answers, keys: seq<string>, candidates: seq<Answers>, key: string, sample: Answers)
    requires forall c :: c in candidates ==> Extends(bench, answers, keys, c)
    requires key in keys && sample in Options(candidates, key, SampleValues(bench, key))
    ensures Extends(bench, answers, keys, sample)
  {
    hide SampleValues, Extends;
    assert candidates[0] in candidates;
    if sample in WithEach(candidates[0], key, SampleValues(bench, key)) {
      WithEachExtends(bench, answers, keys, candidates[0], key, SampleValues(bench, key), sample);
    } else {
      OptionsExtend(bench, answers, keys, candidates[1..], key, sample);
    }
  }

  lemma {:induction false} CombinationsExtend(
      bench: Bench, answers: Answers, keys: seq<string>, candidates: seq<Answers>, missing: seq<string>, sample: Answers)
    requires forall c :: c in candidates ==> Extends(bench, answers, keys, c)
    requires forall k :: k in missing ==> k in keys
    requires sample in Combinations(bench, candidates, missing)
    ensures Extends(bench, answers, keys, sample)
    decreases |missing|
  {
    hide SampleValues, Extends;
    if missing != [] {
      var spread := Options(candidates, missing[0], SampleValues(bench, missing[0]));
      assert missing[0] in missing;
      forall c | c in Cap(spread) ensures Extends(bench, answers, keys, c) {
        assert c in spread;
        OptionsExtend(bench, answers, keys, candidates, missing[0], c);
      }
      CombinationsExtend(bench, answers, keys, Cap(spread), missing[1..], sample);
    }
  }

  lemma {:induction false} FirstOpenIs(bench: Bench, path: seq<Route>, candidates: seq<Answers>)
    requires FirstOpen(bench, path, candidates).Some?
    ensures FirstOpen(bench, path, candidates).value in candidates
    ensures AllOpen(bench, path, FirstOpen(bench, path, candidates).value)
  {
    hide AllOpen;
    if !AllOpen(bench, path, candidates[0]) {
      FirstOpenIs(bench, path, candidates[1..]);
    }
  }

  lemma {:induction false} SamplesFrom(bench: Bench, answers: Answers, routes: seq<seq<Route>>, sample: Answers)
    returns (path: seq<Route>)
    requires sample in Samples(bench, answers, routes)
    ensures path in routes && SampleFor(bench, answers, path) == Some(sample)
  {
    hide SampleFor;
    var n := |routes| - 1;
    if SampleFor(bench, answers, routes[n]) == Some(sample) {
      path := routes[n];
    } else {
      path := SamplesFrom(bench, answers, routes[..n], sample);
    }
  }

  lemma {:induction false} MissingKeysAre(answers: Answers, keys: seq<string>)
    ensures forall k :: k in MissingKeys(answers, keys) ==> k in keys && Unanswered(answers, k)
  {
    if keys != [] {
      MissingKeysAre(answers, keys[1..]);
    }
  }

  /**
   When repair changes a sample there is a simple path of transitions, by submission
   and then by record updates, ending in the rule that creates the tested task, and
   every guard on it is true of the new answers. No answer that was given changed,
   and every new value is one its field declares.
   */
  lemma {:induction false} FilledOpensARoute(bench: Bench, ts: seq<Route>, initial: string, task: string, answers: Answers)
    returns (path: seq<Route>)
    requires Filled(bench, ts, initial, task, answers) != answers
    ensures var filled := Filled(bench, ts, initial, task, answers);
            && LeadsTo(ts, initial, task, path)
            && AllOpen(bench, path, filled)
            && (forall k :: k in answers && !Unanswered(answers, k) ==> k in filled && filled[k] == answers[k])
            && (forall k :: k in filled && (k !in answers || filled[k] != answers[k]) ==>
                  filled[k] in SampleValues(bench, k))
  {
    hide RoutesTo, LeadsTo, AllOpen, SampleValues, Combinations, FirstOpen, GuardKeys, Distinct, MissingKeys;
    var samples := Samples(bench, answers, RoutesTo(ts, initial, task));
    var sample := samples[0];
    path := SamplesFrom(bench, answers, RoutesTo(ts, initial, task), sample);
    RoutesAreSound(ts, initial, task, path);
    var missing := MissingKeys(answers, Distinct(GuardKeys(bench, path)));
    MissingKeysAre(answers, Distinct(GuardKeys(bench, path)));
    var candidates := Combinations(bench, [answers], missing);
    FirstOpenIs(bench, path, candidates);
    CombinationsExtend(bench, answers, missing, [answers], missing, sample);
    assert Filled(bench, ts, initial, task, answers) == sample;
  }

  // ----------------------------------------------- when an answer is filled in

  /** `b` with each of the keys given a declared value, and nothing else. */
  ghost predicate Assigned(bench: Bench, b: Answers, keys: seq<string>, c: Answers) {
    && (forall k :: k in c <==> k in b || k in keys)
    && (forall k :: k in c && k in keys ==> c[k] in SampleValues(bench, k))
    && (forall k :: k in c && k !in keys ==> c[k] == b[k])
  }

  /** Yes and no for a yes/no question, its choices for a choice question, nothing for what staff fill or the runtime works out. */
  lemma SampleValuesAre(bench: Bench, key: string, v: Value)
    ensures v in SampleValues(bench, key) <==>
              exists i :: 0 <= i < |bench.fields| && bench.fields[i].key == key
                          && (forall k :: 0 <= k < i ==> bench.fields[k].key != key)
                          && key !in bench.computed && bench.fields[i].setBy !in {Some(Operator), Some(System)}
                          && Suits(bench.fields[i], v)
  {
    hide Suits;
    FieldForIs(bench.fields, key);
    match FieldFor(bench.fields, key) {
      case None =>
      case Some(field) =>
        SuitsExactly(field, v);
    }
  }

  predicate Suits(field: Field, v: Value) {
    || (field.kind == YesNo && (v == Bool(true) || v == Bool(false)))
    || ((field.kind == Dropdown || field.kind == SingleChoice) && exists c :: c in field.choices && v == Str(c.value))
  }

  lemma SuitsExactly(field: Field, v: Value)
    ensures Suits(field, v) <==>
              || (field.kind == YesNo && v in [Bool(false), Bool(true)])
              || ((field.kind == Dropdown || field.kind == SingleChoice) && v in ChoiceValues(field.choices))
  {
    ChoiceValuesAre(field.choices, v);
  }

  lemma {:induction false} ChoiceValuesAre(choices: seq<Choice>, v: Value)
    ensures v in ChoiceValues(choices) <==> exists c :: c in choices && v == Str(c.value)
  {
    if choices != [] {
      ChoiceValuesAre(choices[1..], v);
      assert choices == [choices[0]] + choices[1..];
    }
  }

  lemma {:induction false} FieldForIs(fields: seq<Field>, key: string)
    ensures FieldFor(fields, key).None? <==> forall i :: 0 <= i < |fields| ==> fields[i].key != key
    ensures forall i :: 0 <= i < |fields| && fields[i].key == key && (forall k :: 0 <= k < i ==> fields[k].key != key) ==>
              FieldFor(fields, key) == Some(fields[i])
    ensures FieldFor(fields, key).Some? ==>
              exists i :: 0 <= i < |fields| && fields[i] == FieldFor(fields, key).value && fields[i].key == key
                          && forall k :: 0 <= k < i ==> fields[k].key != key
  {
    if fields != [] && fields[0].key != key {
      FieldForIs(fields[1..], key);
      forall i | 0 < i < |fields| ensures fields[i] == fields[1..][i - 1] {
      }
      if FieldFor(fields[1..], key).Some? {
        var j :| 0 <= j < |fields[1..]| && fields[1..][j] == FieldFor(fields[1..], key).value && fields[1..][j].key == key
                 && forall k :: 0 <= k < j ==> fields[1..][k].key != key;
        assert fields[j + 1] == fields[1..][j];
      }
      forall i | 0 <= i < |fields| && fields[i].key == key && (forall k :: 0 <= k < i ==> fields[k].key != key)
        ensures FieldFor(fields, key) == Some(fields[i])
      {
        assert fields[1..][i - 1] == fields[i];
        forall k | 0 <= k < i - 1 ensures fields[1..][k].key != key {
          assert fields[1..][k] == fields[k + 1];
        }
      }
    }
  }

  /** What is missing is what some guard reads and the answers leave open. */
  lemma MissingExactly(bench: Bench, answers: Answers, path: seq<Route>, key: string)
    ensures key in MissingKeys(answers, Distinct(GuardKeys(bench, path))) <==>
              && (exists i :: 0 <= i < |path| && path[i].when != JUndefined && key in FieldsInExpr(bench.expr(path[i].when)))
              && (key !in answers || answers[key] == Undefined || answers[key] == Str(""))
  {
    hide MissingKeys, Distinct, GuardKeys;
    MissingAre(answers, Distinct(GuardKeys(bench, path)), key);
    DistinctAre(GuardKeys(bench, path), key);
    GuardKeysAre(bench, path, key);
  }

  lemma {:induction false} MissingAre(answers: Answers, keys: seq<string>, key: string)
    ensures key in MissingKeys(answers, keys) <==>
              key in keys && (key !in answers || answers[key] == Undefined || answers[key] == Str(""))
  {
    if keys != [] {
      MissingAre(answers, keys[1..], key);
      assert keys == [keys[0]] + keys[1..];
    }
  }

  lemma {:induction false} DistinctAre(keys: seq<string>, key: string)
    ensures key in Distinct(keys) <==> key in keys
  {
    if keys != [] {
      DistinctAre(keys[..|keys| - 1], key);
      assert keys == keys[..|keys| - 1] + [keys[|keys| - 1]];
    }
  }

  lemma {:induction false} GuardKeysAre(bench: Bench, path: seq<Route>, key: string)
    ensures key in GuardKeys(bench, path) <==>
              exists i :: 0 <= i < |path| && path[i].when != JUndefined && key in FieldsInExpr(bench.expr(path[i].when))
  {
    hide FieldsInExpr;
    if path != [] {
      GuardKeysAre(bench, path[1..], key);
      forall i | 0 < i < |path| ensures path[i] == path[1..][i - 1] {
      }
      if j :| 0 <= j < |path[1..]| && path[1..][j].when != JUndefined && key in FieldsInExpr(bench.expr(path[1..][j].when)) {
        assert path[j + 1] == path[1..][j];
      }
    }
  }

  /** Along a path the first route starts from submission and the others go on by record updates, each from where the last led. */
  lemma {:induction false} PathsFollow(ts: seq<Route>, start: string, p: seq<Route>, i: nat)
    requires SimplePath(ts, start, p) && i < |p|
    ensures p[i] in ts && p[i].from == (if i == 0 then start else p[i - 1].to)
    ensures Prop(p[i].trigger, "on") == JStr(if i == 0 then "submission" else "record_updated")
    ensures p[i].to != start && forall k :: 0 <= k < i ==> p[k].to != p[i].to
    decreases |p|
  {
    hide Prop;
    var n := |p| - 1;
    if i < n {
      PathsFollow(ts, start, p[..n], i);
    } else {
      StopsAre(start, p[..n]);
    }
  }

  lemma {:induction false} StopsAre(start: string, p: seq<Route>)
    ensures start in Stops(start, p) && forall k :: 0 <= k < |p| ==> p[k].to in Stops(start, p)
    decreases |p|
  {
    if p != [] {
      StopsAre(start, p[..|p| - 1]);
      assert forall k :: 0 <= k < |p| - 1 ==> p[..|p| - 1][k] == p[k];
    }
  }

  /** Starting from `n` candidates the cap of sixty-four is never reached. */
  predicate Uncapped(bench: Bench, n: nat, keys: seq<string>)
    decreases |keys|
  {
    keys == []
    || (n * |SampleValues(bench, keys[0])| <= 64 && Uncapped(bench, n * |SampleValues(bench, keys[0])|, keys[1..]))
  }

  /** `c` is `b` with the value under the key. */
  predicate IsWith(b: Answers, key: string, v: Value, c: Answers) {
    c == b[key := v]
  }

  lemma {:induction false} WithEachAre(b: Answers, key: string, values: seq<Value>, c: Answers)
    ensures c in WithEach(b, key, values) <==> exists v :: v in values && IsWith(b, key, v, c)
    ensures |WithEach(b, key, values)| == |values|
  {
    if values != [] {
      WithEachAre(b, key, values[1..], c);
      assert values == [values[0]] + values[1..];
      assert WithEach(b, key, values) == [b[key := values[0]]] + WithEach(b, key, values[1..]);
      assert IsWith(b, key, values[0], c) <==> c == b[key := values[0]];
    }
  }

  lemma {:induction false} OptionsAre(candidates: seq<Answers>, key: string, values: seq<Value>, c: Answers)
    ensures c in Options(candidates, key, values) <==> exists b, v :: b in candidates && v in values && IsWith(b, key, v, c)
    ensures |Options(candidates, key, values)| == |candidates| * |values|
  {
    hide WithEach, IsWith;
    if candidates != [] {
      var (first, rest) := (WithEach(candidates[0], key, values), Options(candidates[1..], key, values));
      OptionsAre(candidates[1..], key, values, c);
      WithEachAre(candidates[0], key, values, c);
      assert candidates == [candidates[0]] + candidates[1..];
      assert Options(candidates, key, values) == first + rest;
      OneMore(|candidates[1..]|, |values|);
    }
  }

  lemma OneMore(n: nat, m: nat)
    ensures (n + 1) * m == m + n * m
  {
  }

  lemma AssignedNext(bench: Bench, b: Answers, keys: seq<string>, c: Answers)
    requires keys != []
    ensures Assigned(bench, b, keys, c) <==>
              exists v :: v in SampleValues(bench, keys[0]) && Assigned(bench, b[keys[0] := v], keys[1..], c)
  {
    hide SampleValues;
    assert keys == [keys[0]] + keys[1..];
    if Assigned(bench, b, keys, c) {
      assert keys[0] in keys && keys[0] in c;
      assert Assigned(bench, b[keys[0] := c[keys[0]]], keys[1..], c);
    }
  }

  /** Below the cap the candidates are all the ways to give the keys declared values. */
  lemma {:induction false} CombinationsAre(bench: Bench, candidates: seq<Answers>, keys: seq<string>, c: Answers)
    requires Uncapped(bench, |candidates|, keys)
    ensures c in Combinations(bench, candidates, keys) <==> exists b :: b in candidates && Assigned(bench, b, keys, c)
    decreases |keys|
  {
    hide SampleValues, Options;
    if keys == [] {
      forall b | Assigned(bench, b, [], c) ensures b == c {
      }
      assert c in candidates ==> Assigned(bench, c, [], c);
    } else {
      hide Assigned;
      var values := SampleValues(bench, keys[0]);
      var spread := Options(candidates, keys[0], values);
      OptionsAre(candidates, keys[0], values, c);
      CombinationsAre(bench, spread, keys[1..], c);
      forall b: Answers ensures Assigned(bench, b, keys, c) <==>
                                  exists v :: v in values && Assigned(bench, b[keys[0] := v], keys[1..], c)
      {
        AssignedNext(bench, b, keys, c);
      }
      forall d ensures d in spread <==> exists b, v :: b in candidates && v in values && IsWith(b, keys[0], v, d) {
        OptionsAre(candidates, keys[0], values, d);
      }
    }
  }

  lemma {:induction false} FirstOpenExists(bench: Bench, path: seq<Route>, candidates: seq<Answers>)
    ensures FirstOpen(bench, path, candidates).Some? <==> exists c :: c in candidates && AllOpen(bench, path, c)
  {
    hide AllOpen;
    if candidates != [] {
      FirstOpenExists(bench, path, candidates[1..]);
      assert candidates == [candidates[0]] + candidates[1..];
    }
  }

  /** A route gives a sample exactly when its guards read something unanswered, and declared values for that open them all. */
  lemma SampleExactly(bench: Bench, answers: Answers, path: seq<Route>)
    requires Uncapped(bench, 1, MissingKeys(answers, Distinct(GuardKeys(bench, path))))
    ensures var missing := MissingKeys(answers, Distinct(GuardKeys(bench, path)));
            SampleFor(bench, answers, path).Some? <==>
              missing != [] && exists c :: Assigned(bench, answers, missing, c) && AllOpen(bench, path, c)
  {
    hide SampleValues, Assigned, AllOpen, MissingKeys, Distinct, GuardKeys, Combinations, FirstOpen, Uncapped;
    var missing := MissingKeys(answers, Distinct(GuardKeys(bench, path)));
    FirstOpenExists(bench, path, Combinations(bench, [answers], missing));
    forall c ensures c in Combinations(bench, [answers], missing) <==> Assigned(bench, answers, missing, c) {
      CombinationsAre(bench, [answers], missing, c);
      assert answers in [answers];
    }
  }

  lemma {:induction false} SamplesAppend(bench: Bench, answers: Answers, xs: seq<seq<Route>>, ys: seq<seq<Route>>)
    ensures Samples(bench, answers, xs + ys) == Samples(bench, answers, xs) + Samples(bench, answers, ys)
    decreases |ys|
  {
    hide SampleFor;
    if ys == [] {
      assert xs + ys == xs;
    } else {
      var n := |ys| - 1;
      assert (xs + ys)[..|xs + ys| - 1] == xs + ys[..n] && (xs + ys)[|xs + ys| - 1] == ys[n];
      SamplesAppend(bench, answers, xs, ys[..n]);
    }
  }

  lemma {:induction false} NoSamples(bench: Bench, answers: Answers, routes: seq<seq<Route>>)
    ensures Samples(bench, answers, routes) == [] <==>
              forall i :: 0 <= i < |routes| ==> SampleFor(bench, answers, routes[i]).None?
  {
    hide SampleFor;
    if routes != [] {
      var n := |routes| - 1;
      NoSamples(bench, answers, routes[..n]);
      assert forall i :: 0 <= i < n ==> routes[..n][i] == routes[i];
    }
  }

  /** Nothing is filled in unless exactly one of the routes gives a sample, and then what was unanswered is filled from that. */
  lemma FilledExactly(bench: Bench, ts: seq<Route>, initial: string, task: string, answers: Answers)
    ensures var routes := RoutesTo(ts, initial, task);
            && ((forall i :: 0 <= i < |routes| ==> SampleFor(bench, answers, routes[i]).None?) ==>
                  Filled(bench, ts, initial, task, answers) == answers)
            && (forall i, k :: 0 <= i < k < |routes| && SampleFor(bench, answers, routes[i]).Some?
                               && SampleFor(bench, answers, routes[k]).Some? ==>
                                 Filled(bench, ts, initial, task, answers) == answers)
            && (forall i :: 0 <= i < |routes| && SampleFor(bench, answers, routes[i]).Some?
                            && (forall k :: 0 <= k < |routes| && k != i ==> SampleFor(bench, answers, routes[k]).None?) ==>
                              Filled(bench, ts, initial, task, answers)
                              == FilledFrom(answers, SampleFor(bench, answers, routes[i]).value))
  {
    hide SampleFor, RoutesTo, FilledFrom;
    var routes := RoutesTo(ts, initial, task);
    NoSamples(bench, answers, routes);
    forall i | 0 <= i < |routes| && SampleFor(bench, answers, routes[i]).Some?
      ensures Samples(bench, answers, routes)
              == Samples(bench, answers, routes[..i]) + [SampleFor(bench, answers, routes[i]).value]
                 + Samples(bench, answers, routes[i + 1..])
    {
      SamplesAround(bench, answers, routes, i);
    }
    forall i, k | 0 <= i < k < |routes| && SampleFor(bench, answers, routes[i]).Some? && SampleFor(bench, answers, routes[k]).Some?
      ensures |Samples(bench, answers, routes)| >= 2
    {
      NoSamples(bench, answers, routes[i + 1..]);
      assert routes[i + 1..][k - i - 1] == routes[k];
    }
    forall i | 0 <= i < |routes| && SampleFor(bench, answers, routes[i]).Some?
               && (forall k :: 0 <= k < |routes| && k != i ==> SampleFor(bench, answers, routes[k]).None?)
      ensures Samples(bench, answers, routes) == [SampleFor(bench, answers, routes[i]).value]
    {
      NoSamples(bench, answers, routes[..i]);
      var tail := routes[i + 1..];
      NoSamples(bench, answers, tail);
      forall k | 0 <= k < |tail| ensures tail[k] == routes[k + i + 1] {
      }
    }
    FilledIs(bench, ts, initial, task, answers);
  }

  lemma SamplesAround(bench: Bench, answers: Answers, routes: seq<seq<Route>>, i: nat)
    requires i < |routes| && SampleFor(bench, answers, routes[i]).Some?
    ensures Samples(bench, answers, routes)
            == Samples(bench, answers, routes[..i]) + [SampleFor(bench, answers, routes[i]).value]
               + Samples(bench, answers, routes[i + 1..])
  {
    hide SampleFor;
    assert routes == routes[..i + 1] + routes[i + 1..] && routes[..i + 1][..i] == routes[..i];
    SamplesAppend(bench, answers, routes[..i + 1], routes[i + 1..]);
  }

  /** The answers given stay; what was not is as in the sample. */
  function FilledFrom(answers: Answers, sample: Answers): (filled: Answers)
    ensures forall k :: k in filled <==> k in answers || k in sample
    ensures forall k :: k in filled ==>
              filled[k] == if k in sample && (k !in answers || answers[k] == Undefined || answers[k] == Str("")) then sample[k]
                           else answers[k]
  {
    answers + map k | k in sample && (k !in answers || answers[k] == Undefined || answers[k] == Str("")) :: sample[k]
  }

  lemma FilledIs(bench: Bench, ts: seq<Route>, initial: string, task: string, answers: Answers)
    ensures var samples := Samples(bench, answers, RoutesTo(ts, initial, task));
            Filled(bench, ts, initial, task, answers) == if |samples| == 1 then FilledFrom(answers, samples[0]) else answers
  {
    hide Samples, RoutesTo;
    var samples := Samples(bench, answers, RoutesTo(ts, initial, task));
    if |samples| == 1 {
      assert (map k | k in samples[0] && Unanswered(answers, k) :: samples[0][k])
          == map k | k in samples[0] && (k !in answers || answers[k] == Undefined || answers[k] == Str("")) :: samples[0][k];
    }
  }
}
