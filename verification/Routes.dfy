/** Removing equivalent routes from a workflow, which leaves it the same moves to offer. */
module Routes {
  import opened CanonicalJson

  /** A workflow transition; its trigger, guard and actions are JSON. */
  datatype Route = Route(key: string, from: string, to: string, trigger: Json, when: Json, actions: seq<Json>)

  datatype Removal = Removal(key: string, retainedBy: string)

  /** `other` can stand in for `rule`, as the canonical printer sees it. */
  predicate Covers(rules: Rules, other: Route, rule: Route) {
    && other.from == rule.from
    && other.to == rule.to
    && Canonical(rules, other.trigger) == Canonical(rules, rule.trigger)
    && Canonical(rules, other.when) == Canonical(rules, rule.when)
    && (rule.actions == [] || Canonical(rules, JList(other.actions)) == Canonical(rules, JList(rule.actions)))
  }

  predicate Equivalent(rules: Rules, other: Route, rule: Route, removed: set<string>) {
    other.key != rule.key && other.key !in removed && Covers(rules, other, rule)
  }

  /** The keys removed once the first `n` routes have been looked at. */
  function Removed(rules: Rules, routes: seq<Route>, referenced: set<string>, n: nat): set<string>
    requires n <= |routes|
  {
    if n == 0 then {}
    else
      var before := Removed(rules, routes, referenced, n - 1);
      var rule := routes[n - 1];
      if rule.key in before || rule.key in referenced then before
      else if exists other :: other in routes && Equivalent(rules, other, rule, before) then before + {rule.key}
      else before
  }

  function Without(routes: seq<Route>, keys: set<string>): (kept: seq<Route>)
    ensures forall r :: r in kept <==> r in routes && r.key !in keys
  {
    if routes == [] then []
    else
      assert routes == [routes[0]] + routes[1..];
      (if routes[0].key in keys then [] else [routes[0]]) + Without(routes[1..], keys)
  }

  function Kept(rules: Rules, routes: seq<Route>, referenced: set<string>): seq<Route> {
    Without(routes, Removed(rules, routes, referenced, |routes|))
  }

  method RemoveDuplicateRoutes(rules: Rules, routes: seq<Route>, referenced: set<string>)
    returns (kept: seq<Route>, log: seq<Removal>)
    ensures kept == Kept(rules, routes, referenced)
    ensures (set r | r in log :: r.key) == Removed(rules, routes, referenced, |routes|)
    ensures forall r :: r in log ==>
              exists rule, other :: rule in routes && other in routes && rule.key == r.key
                                    && other.key == r.retainedBy && Covers(rules, other, rule)
  {
    hide Covers;
    var removed: set<string> := {};
    log := [];
    for i := 0 to |routes|
      invariant removed == Removed(rules, routes, referenced, i)
      invariant (set r | r in log :: r.key) == removed
      invariant forall r :: r in log ==>
                  exists rule, other :: rule in routes && other in routes && rule.key == r.key
                                        && other.key == r.retainedBy && Covers(rules, other, rule)
    {
      var rule := routes[i];
      if rule.key in removed || rule.key in referenced {
        continue;
      }
      var found := FindEquivalent(rules, routes, rule, removed);
      if found < |routes| {
        removed := removed + {rule.key};
        log := log + [Removal(rule.key, routes[found].key)];
      }
    }
    kept := Without(routes, removed);
  }

  /** `transitions.find`: the first stand-in, or the length of the list. */
  method FindEquivalent(rules: Rules, routes: seq<Route>, rule: Route, removed: set<string>) returns (found: nat)
    ensures found <= |routes|
    ensures found < |routes| ==> Equivalent(rules, routes[found], rule, removed)
    ensures forall j :: 0 <= j < found ==> !Equivalent(rules, routes[j], rule, removed)
  {
    found := 0;
    while found < |routes|
      invariant found <= |routes|
      invariant forall j :: 0 <= j < found ==> !Equivalent(rules, routes[j], rule, removed)
    {
      if Equivalent(rules, routes[found], rule, removed) {
        return;
      }
      found := found + 1;
    }
  }

  // ------------------------------------------------------------ retained moves

  /** `other` takes the same step as `rule`, with its effects where it has any. */
  predicate Retains(other: Route, rule: Route) {
    && other.from == rule.from
    && other.to == rule.to
    && Mean(other.trigger) == Mean(rule.trigger)
    && Mean(other.when) == Mean(rule.when)
    && (rule.actions == [] || Mean(JList(other.actions)) == Mean(JList(rule.actions)))
  }

  /** What the blueprint schema gives: objects without repeated keys, actions that are objects. */
  predicate WellFormedRoute(r: Route) {
    && WellFormed(r.trigger)
    && WellFormed(r.when)
    && WellFormed(JList(r.actions))
    && forall a :: a in r.actions ==> a.JObj?
  }

  ghost predicate WellFormedRoutes(rules: Rules, routes: seq<Route>) {
    GoodRules(rules) && forall r :: r in routes ==> WellFormedRoute(r)
  }

  function KeysOf(routes: seq<Route>): (keys: seq<string>)
    ensures |keys| == |routes| && forall i :: 0 <= i < |keys| ==> keys[i] == routes[i].key
  {
    seq(|routes|, i requires 0 <= i < |routes| => routes[i].key)
  }

  predicate IsOnly(keys: seq<string>, key: string) {
    forall m :: 0 <= m < |keys| ==> keys[m] == key
  }

  /** A key two routes share is one a test names, or the only key there is. */
  predicate SafeKeys(keys: seq<string>, referenced: set<string>) {
    forall i, j :: 0 <= i < j < |keys| && keys[i] == keys[j] ==> keys[i] in referenced || IsOnly(keys, keys[i])
  }

  /** The printer's comparison is the comparison of steps and effects. */
  lemma CoversIsRetains(rules: Rules, other: Route, rule: Route)
    requires GoodRules(rules) && WellFormedRoute(other) && WellFormedRoute(rule)
    ensures Covers(rules, other, rule) <==> Retains(other, rule)
  {
    hide Mean, Canonical, GoodRules, WellFormed;
    CanonicalDecides(rules, other.trigger, rule.trigger);
    CanonicalDecides(rules, other.when, rule.when);
    CanonicalDecides(rules, JList(other.actions), JList(rule.actions));
  }

  lemma RetainsTransitive(a: Route, b: Route, c: Route)
    requires Retains(a, b) && Retains(b, c)
    requires WellFormedRoute(b) && WellFormedRoute(c)
    ensures Retains(a, c)
  {
    if c.actions != [] {
      assert c.actions[0] in c.actions && c.actions[0].JObj?;
      assert Mean(JList(c.actions)) == MList(Means(c.actions));
    }
  }

  lemma {:induction false} RemovedGrows(rules: Rules, routes: seq<Route>, referenced: set<string>, m: nat, n: nat)
    requires m <= n <= |routes|
    ensures Removed(rules, routes, referenced, m) <= Removed(rules, routes, referenced, n)
  {
    hide Equivalent;
    if m < n {
      RemovedGrows(rules, routes, referenced, m, n - 1);
    }
  }

  /** Only an unreferenced key with a rival is ever removed. */
  lemma {:induction false} RemovedHasRival(rules: Rules, routes: seq<Route>, referenced: set<string>, n: nat, key: string)
    requires n <= |routes| && key in Removed(rules, routes, referenced, n)
    ensures key !in referenced && !IsOnly(KeysOf(routes), key)
  {
    hide Covers;
    var before := Removed(rules, routes, referenced, n - 1);
    if key in before {
      RemovedHasRival(rules, routes, referenced, n - 1, key);
    } else {
      var other :| other in routes && Equivalent(rules, other, routes[n - 1], before);
      var m :| 0 <= m < |routes| && routes[m] == other;
      assert KeysOf(routes)[m] != key;
    }
  }

  /** So where keys are safe, a removed key belongs to one route. */
  lemma RemovedIsOne(rules: Rules, routes: seq<Route>, referenced: set<string>, n: nat, a: Route, b: Route)
    requires SafeKeys(KeysOf(routes), referenced) && n <= |routes|
    requires a in routes && b in routes && a.key == b.key && a.key in Removed(rules, routes, referenced, n)
    ensures a == b
  {
    hide Removed, IsOnly;
    RemovedHasRival(rules, routes, referenced, n, a.key);
    var i :| 0 <= i < |routes| && routes[i] == a;
    var j :| 0 <= j < |routes| && routes[j] == b;
    var keys := KeysOf(routes);
    assert keys[i] == keys[j];
  }

  /** At every point of the loop each removed route has a stand-in not removed yet. */
  lemma {:induction false} StandIn(rules: Rules, routes: seq<Route>, referenced: set<string>, n: nat, rule: Route)
    returns (other: Route)
    requires WellFormedRoutes(rules, routes) && SafeKeys(KeysOf(routes), referenced)
    requires n <= |routes| && rule in routes && rule.key in Removed(rules, routes, referenced, n)
    ensures other in routes && other.key !in Removed(rules, routes, referenced, n)
    ensures Retains(other, rule)
  {
    hide Covers, Retains, WellFormedRoute, GoodRules, SafeKeys;
    var before := Removed(rules, routes, referenced, n - 1);
    var last := routes[n - 1];
    if rule.key !in before {
      RemovedIsOne(rules, routes, referenced, n, rule, last);
      other :| other in routes && Equivalent(rules, other, last, before);
      CoversIsRetains(rules, other, rule);
    } else {
      other := StandIn(rules, routes, referenced, n - 1, rule);
      if other.key == last.key && last.key in Removed(rules, routes, referenced, n) {
        RemovedIsOne(rules, routes, referenced, n, other, last);
        var next :| next in routes && Equivalent(rules, next, last, before);
        CoversIsRetains(rules, next, last);
        RetainsTransitive(next, last, rule);
        other := next;
      }
    }
  }

  /** Every removed route is retained by a survivor, even when its first stand-in goes too. */
  lemma RemovedIsRetained(rules: Rules, routes: seq<Route>, referenced: set<string>, rule: Route)
    requires WellFormedRoutes(rules, routes) && SafeKeys(KeysOf(routes), referenced)
    requires rule in routes && rule !in Kept(rules, routes, referenced)
    ensures exists other :: other in Kept(rules, routes, referenced) && Retains(other, rule)
  {
    hide Removed, Retains, WellFormedRoutes;
    var other := StandIn(rules, routes, referenced, |routes|, rule);
    assert other in Kept(rules, routes, referenced);
  }

  /** Routes a test names survive. */
  lemma {:induction false} ReferencedSurvives(rules: Rules, routes: seq<Route>, referenced: set<string>, n: nat)
    requires n <= |routes|
    ensures Removed(rules, routes, referenced, n) !! referenced
  {
    if n > 0 {
      ReferencedSurvives(rules, routes, referenced, n - 1);
    }
  }

  /** A survivor another survivor could stand in for is one a test names. */
  lemma Irredundant(rules: Rules, routes: seq<Route>, referenced: set<string>, a: Route, b: Route)
    requires WellFormedRoutes(rules, routes)
    requires a in Kept(rules, routes, referenced) && b in Kept(rules, routes, referenced) && a.key != b.key
    requires Retains(b, a)
    ensures a.key in referenced
  {
    hide Covers, Retains;
    var i :| 0 <= i < |routes| && routes[i] == a;
    CoversIsRetains(rules, b, a);
    RemovedGrows(rules, routes, referenced, i, |routes|);
    RemovedGrows(rules, routes, referenced, i + 1, |routes|);
    assert Equivalent(rules, b, a, Removed(rules, routes, referenced, i));
  }

  /** A step the workflow offers, and what it does beyond moving the record. */
  datatype Move = Move(from: string, to: string, trigger: Meaning, guard: Meaning)

  function MoveOf(r: Route): Move {
    Move(r.from, r.to, Mean(r.trigger), Mean(r.when))
  }

  function Moves(routes: seq<Route>): set<Move> {
    set r | r in routes :: MoveOf(r)
  }

  function Effects(routes: seq<Route>): set<(Move, Meaning)> {
    set r | r in routes && r.actions != [] :: (MoveOf(r), Mean(JList(r.actions)))
  }

  /** Some survivor makes the same move, with the same effects where there are any. */
  lemma SurvivorActsAlike(rules: Rules, routes: seq<Route>, referenced: set<string>, r: Route) returns (k: Route)
    requires WellFormedRoutes(rules, routes) && SafeKeys(KeysOf(routes), referenced) && r in routes
    ensures k in Kept(rules, routes, referenced) && MoveOf(k) == MoveOf(r)
    ensures r.actions != [] ==> k.actions != [] && Mean(JList(k.actions)) == Mean(JList(r.actions))
  {
    hide Removed, WellFormedRoutes, SafeKeys, Mean;
    if r in Kept(rules, routes, referenced) {
      k := r;
    } else {
      RemovedIsRetained(rules, routes, referenced, r);
      k :| k in Kept(rules, routes, referenced) && Retains(k, r);
      if r.actions != [] {
        EffectKept(rules, routes, k, r);
      }
    }
  }

  /** Removal keeps every move and every effect of the workflow, and adds none. */
  lemma RemovalKeepsMoves(rules: Rules, routes: seq<Route>, referenced: set<string>)
    requires WellFormedRoutes(rules, routes) && SafeKeys(KeysOf(routes), referenced)
    ensures Moves(Kept(rules, routes, referenced)) == Moves(routes)
    ensures Effects(Kept(rules, routes, referenced)) == Effects(routes)
  {
    hide Removed, WellFormedRoutes, SafeKeys, Mean, MoveOf;
    var kept := Kept(rules, routes, referenced);
    forall r | r in routes
      ensures MoveOf(r) in Moves(kept)
      ensures r.actions != [] ==> (MoveOf(r), Mean(JList(r.actions))) in Effects(kept)
    {
      var k := SurvivorActsAlike(rules, routes, referenced, r);
      assert MoveOf(k) in Moves(kept);
      assert k.actions != [] ==> (MoveOf(k), Mean(JList(k.actions))) in Effects(kept);
    }
  }

  lemma EffectKept(rules: Rules, routes: seq<Route>, k: Route, r: Route)
    requires WellFormedRoutes(rules, routes) && r in routes && Retains(k, r) && r.actions != []
    ensures k.actions != []
  {
    assert r.actions[0] in r.actions && r.actions[0].JObj?;
    assert Mean(JList(r.actions)) == MList(Means(r.actions));
  }

  ghost predicate Edge(routes: seq<Route>, a: string, b: string) {
    exists r :: r in routes && r.from == a && r.to == b
  }

  /** Consecutive states are joined by a route. */
  ghost predicate Path(routes: seq<Route>, states: seq<string>) {
    forall i :: 0 <= i < |states| - 1 ==> Edge(routes, states[i], states[i + 1])
  }

  ghost predicate Reaches(routes: seq<Route>, a: string, b: string) {
    exists states :: |states| > 0 && states[0] == a && states[|states| - 1] == b && Path(routes, states)
  }

  lemma EdgeKept(rules: Rules, routes: seq<Route>, referenced: set<string>, a: string, b: string)
    requires WellFormedRoutes(rules, routes) && SafeKeys(KeysOf(routes), referenced)
    ensures Edge(routes, a, b) <==> Edge(Kept(rules, routes, referenced), a, b)
  {
    hide Removed, WellFormedRoutes;
    if Edge(routes, a, b) {
      var r :| r in routes && r.from == a && r.to == b;
      if r !in Kept(rules, routes, referenced) {
        RemovedIsRetained(rules, routes, referenced, r);
      }
    }
  }

  lemma {:induction false} ReachabilityUnchanged(rules: Rules, routes: seq<Route>, referenced: set<string>, a: string, b: string)
    requires WellFormedRoutes(rules, routes) && SafeKeys(KeysOf(routes), referenced)
    ensures Reaches(routes, a, b) <==> Reaches(Kept(rules, routes, referenced), a, b)
  {
    hide Removed, WellFormedRoutes, Edge, Kept;
    forall s, t ensures Edge(routes, s, t) <==> Edge(Kept(rules, routes, referenced), s, t) {
      EdgeKept(rules, routes, referenced, s, t);
    }
    forall states ensures Path(routes, states) <==> Path(Kept(rules, routes, referenced), states) {
    }
  }

  // ---------------------------------------- which keys make removal safe

  ghost predicate MovesKept(rules: Rules, routes: seq<Route>, referenced: set<string>) {
    Moves(Kept(rules, routes, referenced)) == Moves(routes)
  }

  // As the schema writes them: a trigger, an action, and a guard of its own for every index.

  const SUBMITTED := JObj([Entry("on", JStr("submission"))])
  const CREATE_TASK := JObj([Entry("do", JStr("create_task")), Entry("key", JStr("create")), Entry("task", JStr("check"))])

  function Name(n: nat): string {
    seq(n + 1, _ => 'v')
  }

  function NamePresent(n: nat): Json {
    JObj([Entry("op", JStr("is_present")), Entry("left", JObj([Entry("literal", JStr(Name(n)))]))])
  }

  /**
   Routes with the given keys of which only the i-th has a stand-in, the m-th; going
   by key, its removal takes its namesakes along.
   */
  function Clash(keys: seq<string>, i: nat, m: nat): (routes: seq<Route>)
    ensures KeysOf(routes) == keys
  {
    seq(|keys|, n requires 0 <= n < |keys| =>
      Route(keys[n], "open", "done", SUBMITTED, if n == i || n == m then JUndefined else NamePresent(n),
            if n == m then [CREATE_TASK] else []))
  }

  lemma FirstEntry(e: Entry, rest: seq<Entry>)
    requires e.value != JUndefined
    ensures MeanEntries([e] + rest) == MeanEntries(rest) + map[e.key := Mean(e.value)]
  {
    hide Mean;
    assert ([e] + rest)[1..] == rest;
  }

  lemma TwoEntries(k: string, v: Json, l: string, w: Json)
    requires k != l && v != JUndefined && w != JUndefined
    ensures MeanEntries([Entry(l, w)]) == map[l := Mean(w)]
    ensures MeanEntries([Entry(k, v), Entry(l, w)]) == map[k := Mean(v), l := Mean(w)]
  {
    var (e, f) := (Entry(k, v), Entry(l, w));
    assert MeanEntries([]) == map[];
    hide Mean, MeanEntries;
    FirstEntry(f, []);
    FirstEntry(e, [f]);
    assert [f] + [] == [f] && [e] + [f] == [e, f];
  }

  lemma GuardMeans(n: nat)
    ensures WellFormed(NamePresent(n))
    ensures Mean(NamePresent(n)) == MObj(map["op" := MStr("is_present"), "left" := MObj(map["literal" := MStr(Name(n))])])
  {
    var named := JObj([Entry("literal", JStr(Name(n)))]);
    TwoEntries("op", JStr("is_present"), "left", named);
    TwoEntries("op", JNull, "literal", JStr(Name(n)));
  }

  lemma GuardsDiffer(n: nat, k: nat)
    requires n != k
    ensures Mean(NamePresent(n)) != Mean(NamePresent(k))
    ensures Mean(NamePresent(n)) != MUndefined
  {
    GuardMeans(n);
    GuardMeans(k);
    hide Mean, NamePresent;
    var (a, b) := (Mean(NamePresent(n)).props, Mean(NamePresent(k)).props);
    assert |Name(n)| == n + 1 && |Name(k)| == k + 1;
    assert a["left"].props["literal"] != b["left"].props["literal"];
  }

  lemma PartsAreLegal()
    ensures WellFormed(SUBMITTED) && WellFormed(JUndefined)
    ensures WellFormed(JList([])) && WellFormed(JList([CREATE_TASK]))
  {
    assert WellFormed(CREATE_TASK);
    hide DistinctKeys;
  }

  lemma ClashIsLegal(keys: seq<string>, i: nat, m: nat, p: nat)
    requires p < |keys|
    ensures WellFormedRoute(Clash(keys, i, m)[p])
  {
    GuardMeans(p);
    PartsAreLegal();
    hide WellFormed, NamePresent, Mean;
  }

  lemma OneStandIn(rules: Rules, keys: seq<string>, i: nat, m: nat, p: nat, q: nat)
    requires GoodRules(rules) && i < |keys| && m < |keys| && i != m && p < |keys| && q < |keys| && p != q
    ensures Covers(rules, Clash(keys, i, m)[q], Clash(keys, i, m)[p]) <==> p == i && q == m
  {
    hide GoodRules, Covers, Retains, WellFormedRoute, Clash;
    ClashIsLegal(keys, i, m, p);
    ClashIsLegal(keys, i, m, q);
    CoversIsRetains(rules, Clash(keys, i, m)[q], Clash(keys, i, m)[p]);
    OneRetains(keys, i, m, p, q);
  }

  lemma OneRetains(keys: seq<string>, i: nat, m: nat, p: nat, q: nat)
    requires i < |keys| && m < |keys| && i != m && p < |keys| && q < |keys| && p != q
    ensures Retains(Clash(keys, i, m)[q], Clash(keys, i, m)[p]) <==> p == i && q == m
  {
    hide Name, NamePresent, Mean;
    GuardsDiffer(p, q);
    GuardsDiffer(q, p);
    UndefinedMeans();
    ActionMeans();
  }

  lemma ActionMeans()
    ensures Mean(JList([CREATE_TASK])) != Mean(JList([]))
  {
    assert |Means([CREATE_TASK])| == 1;
  }

  lemma {:induction false} NothingBefore(rules: Rules, keys: seq<string>, referenced: set<string>, i: nat, m: nat, n: nat)
    requires GoodRules(rules) && i < |keys| && m < |keys| && i != m && n <= i
    ensures Removed(rules, Clash(keys, i, m), referenced, n) == {}
  {
    hide Covers, Clash, GoodRules;
    if n > 0 {
      NothingBefore(rules, keys, referenced, i, m, n - 1);
      var routes := Clash(keys, i, m);
      forall other | other in routes ensures !Equivalent(rules, other, routes[n - 1], {}) {
        var q :| 0 <= q < |routes| && routes[q] == other;
        if q != n - 1 {
          OneStandIn(rules, keys, i, m, n - 1, q);
        }
      }
    }
  }

  lemma ClashRemoves(rules: Rules, keys: seq<string>, referenced: set<string>, i: nat, m: nat)
    requires GoodRules(rules) && i < |keys| && m < |keys|
    requires keys[m] != keys[i] && keys[i] !in referenced
    ensures keys[i] in Removed(rules, Clash(keys, i, m), referenced, |keys|)
  {
    hide Covers, Clash, GoodRules;
    var routes := Clash(keys, i, m);
    NothingBefore(rules, keys, referenced, i, m, i);
    OneStandIn(rules, keys, i, m, i, m);
    assert Equivalent(rules, routes[m], routes[i], {}) && routes[m] in routes;
    RemovedGrows(rules, routes, referenced, i + 1, |routes|);
  }

  lemma ClashIsWellFormed(rules: Rules, keys: seq<string>, i: nat, m: nat)
    requires GoodRules(rules)
    ensures WellFormedRoutes(rules, Clash(keys, i, m))
  {
    hide Covers, Clash, WellFormedRoute, GoodRules;
    var routes := Clash(keys, i, m);
    forall r | r in routes ensures WellFormedRoute(r) {
      var p :| 0 <= p < |routes| && routes[p] == r;
      ClashIsLegal(keys, i, m, p);
    }
  }

  /** Where a key is neither unique, referenced nor alone, removal can lose a move. */
  lemma {:induction false} NamesakeIsLost(rules: Rules, keys: seq<string>, referenced: set<string>, i: nat, j: nat, m: nat)
    requires GoodRules(rules) && i < |keys| && j < |keys| && m < |keys| && i != j
    requires keys[i] == keys[j] && keys[m] != keys[i] && keys[i] !in referenced
    ensures WellFormedRoutes(rules, Clash(keys, i, m))
    ensures !MovesKept(rules, Clash(keys, i, m), referenced)
  {
    hide Removed, Clash, WellFormedRoutes, GoodRules;
    var routes := Clash(keys, i, m);
    ClashIsWellFormed(rules, keys, i, m);
    ClashRemoves(rules, keys, referenced, i, m);
    OwnMove(keys, i, m, j);
    assert MoveOf(routes[j]) in Moves(routes);
  }

  lemma OwnMove(keys: seq<string>, i: nat, m: nat, j: nat)
    requires i < |keys| && m < |keys| && j < |keys| && j != i && j != m
    ensures forall r :: r in Clash(keys, i, m) && MoveOf(r) == MoveOf(Clash(keys, i, m)[j]) ==> r == Clash(keys, i, m)[j]
  {
    hide NamePresent, Mean;
    var routes := Clash(keys, i, m);
    forall r | r in routes && MoveOf(r) == MoveOf(routes[j]) ensures r == routes[j] {
      var p :| 0 <= p < |routes| && routes[p] == r;
      if p != j {
        GuardsDiffer(j, p);
        UndefinedMeans();
      }
    }
  }

  lemma UndefinedMeans()
    ensures Mean(JUndefined) == MUndefined
  {
  }

  /** Removal keeps the moves of every workflow with these keys exactly when the keys are safe. */
  lemma SafeExactly(rules: Rules, keys: seq<string>, referenced: set<string>)
    requires GoodRules(rules)
    ensures SafeKeys(keys, referenced) <==>
              forall routes :: KeysOf(routes) == keys && WellFormedRoutes(rules, routes) ==> MovesKept(rules, routes, referenced)
  {
    hide GoodRules, WellFormedRoutes, Clash, IsOnly;
    if SafeKeys(keys, referenced) {
      forall routes | KeysOf(routes) == keys && WellFormedRoutes(rules, routes) ensures MovesKept(rules, routes, referenced) {
        RemovalKeepsMoves(rules, routes, referenced);
      }
    } else {
      var i, j :| 0 <= i < j < |keys| && keys[i] == keys[j] && keys[i] !in referenced && !IsOnly(keys, keys[i]);
      var m := Rival(keys, keys[i]);
      NamesakeIsLost(rules, keys, referenced, i, j, m);
    }
  }

  lemma Rival(keys: seq<string>, key: string) returns (m: nat)
    requires !IsOnly(keys, key)
    ensures m < |keys| && keys[m] != key
  {
    m :| m < |keys| && keys[m] != key;
  }
}
