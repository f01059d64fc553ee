/**
 Which route runs: the first in order whose guard holds. When the removal of equivalent
 routes leaves that as it was.
 */
module RouteOrder {
  import opened CanonicalJson
  import opened Routes

  /** What an event does to a record. */
  datatype Fired = Nothing | Moved(to: string, effects: Meaning)

  /** What the guards say of the record; a route without one is always open. */
  type Guards = Meaning -> bool

  predicate SameEvent(r: Route, other: Route) {
    r.from == other.from && Mean(r.trigger) == Mean(other.trigger)
  }

  predicate SameEffect(r: Route, other: Route) {
    r.to == other.to && Mean(JList(r.actions)) == Mean(JList(other.actions))
  }

  predicate Opens(r: Route, guards: Guards) {
    Mean(r.when) == MUndefined || guards(Mean(r.when))
  }

  predicate Runs(r: Route, state: string, event: Meaning, guards: Guards) {
    r.from == state && Mean(r.trigger) == event && Opens(r, guards)
  }

  /** `transitions.find`: the first route that answers the event, or none. */
  function Fire(routes: seq<Route>, state: string, event: Meaning, guards: Guards): Fired {
    if routes == [] then Nothing
    else if Runs(routes[0], state, event, guards) then Moved(routes[0].to, Mean(JList(routes[0].actions)))
    else Fire(routes[1..], state, event, guards)
  }

  /** The index of the first such route whose key is not gone, or the length of the list. */
  function FirstOf(routes: seq<Route>, gone: set<string>, state: string, event: Meaning, guards: Guards): (i: nat)
    ensures i <= |routes|
    ensures i < |routes| ==> routes[i].key !in gone && Runs(routes[i], state, event, guards)
    ensures forall j :: 0 <= j < i ==> routes[j].key in gone || !Runs(routes[j], state, event, guards)
  {
    if routes == [] then 0
    else if routes[0].key !in gone && Runs(routes[0], state, event, guards) then 0
    else 1 + FirstOf(routes[1..], gone, state, event, guards)
  }

  function FiredAt(routes: seq<Route>, i: nat): Fired {
    if i < |routes| then Moved(routes[i].to, Mean(JList(routes[i].actions))) else Nothing
  }

  lemma FireNext(r: Route, rest: seq<Route>, state: string, event: Meaning, guards: Guards)
    ensures Fire([r] + rest, state, event, guards)
            == if Runs(r, state, event, guards) then Moved(r.to, Mean(JList(r.actions))) else Fire(rest, state, event, guards)
  {
    hide Runs, Mean;
    assert ([r] + rest)[1..] == rest;
  }

  lemma WithoutNext(r: Route, rest: seq<Route>, gone: set<string>)
    ensures Without([], gone) == []
    ensures Without([r] + rest, gone) == if r.key in gone then Without(rest, gone) else [r] + Without(rest, gone)
  {
    assert ([r] + rest)[1..] == rest;
  }

  lemma {:induction false} FireIsFirst(
      routes: seq<Route>, gone: set<string>, state: string, event: Meaning, guards: Guards)
    ensures Fire(Without(routes, gone), state, event, guards)
            == FiredAt(routes, FirstOf(routes, gone, state, event, guards))
  {
    if routes == [] {
      assert Without(routes, gone) == [];
    } else {
      hide Runs, Mean, Without, Fire;
      FireIsFirst(routes[1..], gone, state, event, guards);
      assert routes == [routes[0]] + routes[1..];
      WithoutNext(routes[0], routes[1..], gone);
      FireNext(routes[0], Without(routes[1..], gone), state, event, guards);
    }
  }

  lemma {:induction false} NoneGone(routes: seq<Route>)
    ensures Without(routes, {}) == routes
  {
    if routes != [] {
      NoneGone(routes[1..]);
      assert routes == [routes[0]] + routes[1..];
    }
  }

  // --------------------------------------------------------- what overtakes what

  /** Before `n` no route left for the event is open whenever the i-th and k-th are. */
  predicate Clear(routes: seq<Route>, gone: set<string>, i: nat, k: nat, n: nat)
    requires i < |routes| && k < |routes| && n <= |routes|
  {
    forall j :: 0 <= j < n && routes[j].key !in gone && SameEvent(routes[j], routes[i]) ==>
      Mean(routes[j].when) !in {MUndefined, Mean(routes[i].when), Mean(routes[k].when)}
  }

  /**
   The i-th route is gone and the k-th is not, both answer the same event, and nothing
   comes before the one in the whole list, or before the other in what is left, that is
   open whenever they are.
   */
  predicate Overtakes(routes: seq<Route>, gone: set<string>, i: nat, k: nat) {
    && i < k < |routes| && routes[i].key in gone && routes[k].key !in gone
    && SameEvent(routes[k], routes[i])
    && Clear(routes, {}, i, k, i) && Clear(routes, gone, i, k, k)
  }

  /** What overtakes a route that is gone moves the record alike, to the same effect. */
  predicate InOrder(routes: seq<Route>, gone: set<string>) {
    forall i, k :: 0 <= i < k < |routes| && Overtakes(routes, gone, i, k) ==> SameEffect(routes[i], routes[k])
  }

  ghost predicate FiresAlike(routes: seq<Route>, kept: seq<Route>) {
    forall state, event, guards :: Fire(kept, state, event, guards) == Fire(routes, state, event, guards)
  }

  /** The routes gone each leave one behind for the same event under the same guard. */
  ghost predicate Replaced(routes: seq<Route>, gone: set<string>) {
    forall r :: r in routes && r.key in gone ==>
      exists other :: other in routes && other.key !in gone && SameEvent(other, r) && Mean(other.when) == Mean(r.when)
  }

  lemma InOrderFiresAlike(routes: seq<Route>, gone: set<string>, state: string, event: Meaning, guards: Guards)
    requires Replaced(routes, gone) && InOrder(routes, gone)
    ensures Fire(Without(routes, gone), state, event, guards) == Fire(routes, state, event, guards)
  {
    hide Mean, Fire, Without, FirstOf;
    FireIsFirst(routes, gone, state, event, guards);
    FireIsFirst(routes, {}, state, event, guards);
    NoneGone(routes);
    var (i, k) := (FirstOf(routes, {}, state, event, guards), FirstOf(routes, gone, state, event, guards));
    if i < |routes| && routes[i].key in gone {
      assert routes[i] in routes;
      var other :| other in routes && other.key !in gone && SameEvent(other, routes[i])
                   && Mean(other.when) == Mean(routes[i].when);
      var j :| 0 <= j < |routes| && routes[j] == other;
      assert Runs(routes[j], state, event, guards);
      assert Overtakes(routes, gone, i, k);
    }
  }

  /** The record that satisfies just the guards of the two. */
  function Just(a: Meaning, b: Meaning): Guards {
    (g: Meaning) => g == a || g == b
  }

  lemma OvertakerRuns(routes: seq<Route>, gone: set<string>, i: nat, k: nat)
    requires Overtakes(routes, gone, i, k)
    ensures var (state, event) := (routes[i].from, Mean(routes[i].trigger));
            var guards := Just(Mean(routes[i].when), Mean(routes[k].when));
            && Fire(routes, state, event, guards) == FiredAt(routes, i)
            && Fire(Without(routes, gone), state, event, guards) == FiredAt(routes, k)
  {
    hide Mean, Fire, Without, FirstOf;
    var (state, event) := (routes[i].from, Mean(routes[i].trigger));
    var guards := Just(Mean(routes[i].when), Mean(routes[k].when));
    FireIsFirst(routes, gone, state, event, guards);
    FireIsFirst(routes, {}, state, event, guards);
    NoneGone(routes);
    assert Runs(routes[i], state, event, guards) && Runs(routes[k], state, event, guards);
    assert FirstOf(routes, {}, state, event, guards) == i;
    assert FirstOf(routes, gone, state, event, guards) == k;
  }

  lemma RemovedAreReplaced(rules: Rules, routes: seq<Route>, referenced: set<string>)
    requires WellFormedRoutes(rules, routes) && SafeKeys(KeysOf(routes), referenced)
    ensures Replaced(routes, Removed(rules, routes, referenced, |routes|))
  {
    hide Removed, WellFormedRoutes, SafeKeys, Mean;
    forall r | r in routes && r.key in Removed(rules, routes, referenced, |routes|)
      ensures exists other :: other in routes && other.key !in Removed(rules, routes, referenced, |routes|)
                              && SameEvent(other, r) && Mean(other.when) == Mean(r.when)
    {
      RemovedIsRetained(rules, routes, referenced, r);
    }
  }

  /**
   In every state, on every event and whatever the guards say, the routes left run as
   all did, if and only if what overtakes a removed route has its target and effects.
   */
  lemma FiresAlikeExactly(rules: Rules, routes: seq<Route>, referenced: set<string>)
    requires WellFormedRoutes(rules, routes) && SafeKeys(KeysOf(routes), referenced)
    ensures InOrder(routes, Removed(rules, routes, referenced, |routes|)) <==>
              FiresAlike(routes, Kept(rules, routes, referenced))
  {
    hide Mean, Fire, Without, Overtakes, Removed, WellFormedRoutes, SafeKeys, Replaced;
    var gone := Removed(rules, routes, referenced, |routes|);
    RemovedAreReplaced(rules, routes, referenced);
    if InOrder(routes, gone) {
      forall state, event, guards
        ensures Fire(Without(routes, gone), state, event, guards) == Fire(routes, state, event, guards)
      {
        InOrderFiresAlike(routes, gone, state, event, guards);
      }
    } else {
      var i, k :| 0 <= i < k < |routes| && Overtakes(routes, gone, i, k) && !SameEffect(routes[i], routes[k]);
      OvertakerRuns(routes, gone, i, k);
    }
  }

  /** The s-th route does as the i-th does, and so does every route left between them. */
  predicate Undisturbed(routes: seq<Route>, gone: set<string>, i: nat, s: nat)
    requires i < |routes| && s < |routes|
  {
    && routes[s].key !in gone && SameEvent(routes[s], routes[i]) && Mean(routes[s].when) == Mean(routes[i].when)
    && forall k :: i < k <= s && routes[k].key !in gone && SameEvent(routes[k], routes[i]) ==>
         SameEffect(routes[i], routes[k])
  }

  /**
   It is enough that each removed route has a survivor with its trigger and guard, before
   it, or after it with no other target or effect in between, its own included.
   */
  lemma UndisturbedInOrder(routes: seq<Route>, gone: set<string>)
    requires forall i :: 0 <= i < |routes| && routes[i].key in gone ==>
               exists s :: 0 <= s < |routes| && Undisturbed(routes, gone, i, s)
    ensures InOrder(routes, gone)
  {
    hide Mean;
    forall i, k | 0 <= i < k < |routes| && Overtakes(routes, gone, i, k) ensures SameEffect(routes[i], routes[k]) {
      var s :| 0 <= s < |routes| && Undisturbed(routes, gone, i, s);
      assert !(s < k);
    }
  }

  // --------------------------------------------------------- where order is lost

  const UPDATED := JObj([Entry("on", JStr("record_updated"))])

  /** Two routes to one state with another between them: the later twin is left, and comes too late. */
  lemma TwinComesTooLate(rules: Rules)
    ensures var (a, b) := (Route("a", "s", "x", UPDATED, NamePresent(0), []), Route("b", "s", "y", UPDATED, NamePresent(1), []));
            var routes := [a, b, a.(key := "c")];
            var all := (g: Meaning) => true;
            && Kept(rules, routes, {}) == [b, a.(key := "c")]
            && Fire(routes, "s", Mean(UPDATED), all) == Moved("x", Mean(JList([])))
            && Fire(Kept(rules, routes, {}), "s", Mean(UPDATED), all) == Moved("y", Mean(JList([])))
  {
    hide Mean, Canonical, NamePresent, Fire, Without;
    var (a, b) := (Route("a", "s", "x", UPDATED, NamePresent(0), []), Route("b", "s", "y", UPDATED, NamePresent(1), []));
    var c := a.(key := "c");
    var routes := [a, b, c];
    assert c in routes && Equivalent(rules, c, a, {});
    assert Removed(rules, routes, {}, 0) == {};
    assert Removed(rules, routes, {}, 1) == {"a"};
    assert forall other :: other in routes ==> !Equivalent(rules, other, b, {"a"});
    assert Removed(rules, routes, {}, 2) == {"a"};
    assert forall other :: other in routes ==> !Equivalent(rules, other, c, {"a"});
    assert Removed(rules, routes, {}, 3) == {"a"};
    LeftOf(a, b, c);
    FiresFirst(a, [b, c]);
    FiresFirst(b, [c]);
    assert [a] + [b, c] == routes && [b] + [c] == [b, c];
  }

  lemma LeftOf(a: Route, b: Route, c: Route)
    requires a.key == "a" && b.key != "a" && c.key != "a"
    ensures Without([a, b, c], {"a"}) == [b, c] && Without([a, b], {"a"}) == [b]
  {
    hide Without;
    assert [a, b, c] == [a] + ([b] + ([c] + [])) && [a, b] == [a] + ([b] + []);
    WithoutNext(a, [b] + ([c] + []), {"a"});
    WithoutNext(a, [b] + [], {"a"});
    WithoutNext(b, [c] + [], {"a"});
    WithoutNext(b, [], {"a"});
    WithoutNext(c, [], {"a"});
  }

  lemma FiresFirst(r: Route, rest: seq<Route>)
    requires r.from == "s" && r.trigger == UPDATED
    ensures Fire([r] + rest, "s", Mean(UPDATED), (g: Meaning) => true) == Moved(r.to, Mean(JList(r.actions)))
  {
    hide Mean;
    FireNext(r, rest, "s", Mean(UPDATED), (g: Meaning) => true);
  }

  /** A route without actions, retained by a later one with some: they happen where none did. */
  lemma ActionsAppear(rules: Rules)
    ensures var a := Route("a", "s", "x", UPDATED, NamePresent(0), []);
            var b := a.(key := "b", actions := [CREATE_TASK]);
            var all := (g: Meaning) => true;
            && Kept(rules, [a, b], {}) == [b]
            && Fire([a, b], "s", Mean(UPDATED), all) == Moved("x", Mean(JList([])))
            && Fire([b], "s", Mean(UPDATED), all) == Moved("x", Mean(JList([CREATE_TASK])))
            && Mean(JList([CREATE_TASK])) != Mean(JList([]))
  {
    ActionMeans();
    hide Mean, Canonical, NamePresent, Fire, Without;
    var a := Route("a", "s", "x", UPDATED, NamePresent(0), []);
    var b := a.(key := "b", actions := [CREATE_TASK]);
    var routes := [a, b];
    assert b in routes && Equivalent(rules, b, a, {});
    assert Removed(rules, routes, {}, 0) == {};
    assert Removed(rules, routes, {}, 1) == {"a"};
    assert forall other :: other in routes ==> !Equivalent(rules, other, b, {"a"});
    assert Removed(rules, routes, {}, 2) == {"a"};
    LeftOf(a, b, b);
    FiresFirst(a, [b]);
    FiresFirst(b, []);
    assert [b] + [] == [b] && [a] + [b] == [a, b];
  }
}
