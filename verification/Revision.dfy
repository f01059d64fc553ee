/**
 Constrained revision of a blueprint: patches through a whitelist of paths, which
 can only strengthen the form and cannot weaken its tests.
 */
module Revision {
  import opened Values
  import opened Conditions
  import opened Forms
  import opened Submission
  import opened Strengthening
  import opened CanonicalJson
  import opened Documents

  /** A replacement for one leaf; the path is already split at its slashes. */
  datatype Patch = Patch(path: seq<string>, value: Json)

  /** The blueprint schema and the compiler, as far as this module asks them anything. */
  datatype Gates = Gates(parses: Json -> bool, compiles: Json -> bool)

  const MAX_PATCHES := 30

  // ---------------------------------------------------------- the whitelist

  predicate IntentLeaf(p: seq<string>) {
    |p| == 2 && p[0] == "intent" && p[1] in ["openDecisions", "assumptions", "retentionDays"]
  }

  predicate TransitionLeaf(p: seq<string>) {
    |p| == 4 && p[0] == "workflow" && p[1] == "transitions" && Digits(p[2]) && p[3] in ["when", "to"]
  }

  predicate TestLeaf(p: seq<string>) {
    |p| == 3 && p[0] == "tests" && Digits(p[1]) && p[2] in ["steps", "expect"]
  }

  predicate FieldLeaf(p: seq<string>) {
    |p| == 4 && p[0] == "data" && p[1] == "fields" && Digits(p[2]) && p[3] in ["required", "requiredChoices"]
  }

  predicate ChildLeaf(p: seq<string>) {
    && |p| == 6 && p[0] == "data" && p[1] == "fields" && Digits(p[2])
    && p[3] == "fields" && Digits(p[4]) && p[5] == "requiredWhen"
  }

  predicate Whitelisted(p: seq<string>) {
    IntentLeaf(p) || TransitionLeaf(p) || TestLeaf(p) || FieldLeaf(p) || ChildLeaf(p)
  }

  // ------------------------------------------------------ what a patch may do

  predicate Truthy(j: Json) {
    match j
    case JUndefined => false
    case JNull => false
    case JBool(b) => b
    case JNum(n) => n != 0.0
    case JStr(s) => s != ""
    case _ => true
  }

  /** The values JavaScript takes for false. */
  lemma FalsyExactly(j: Json)
    ensures !Truthy(j) <==> j == JUndefined || j == JNull || j == JBool(false) || j == JStr("") || (j.JNum? && j.n == 0.0)
  {
  }

  function Items(j: Json): seq<Json> {
    if j.JList? then j.items else []
  }

  /** `list[Number(part)]`. */
  function ElementAt(list: Json, part: string): Json
    requires Digits(part)
  {
    if ToNat(part) < |Items(list)| then Items(list)[ToNat(part)] else JUndefined
  }

  predicate StaffSet(field: Json) {
    Prop(field, "setBy") == JStr("operator") || Prop(field, "setBy") == JStr("system")
  }

  /** The first child with this key. */
  function ChildByKey(children: seq<Json>, key: Json): Json {
    if children == [] then JUndefined
    else if Prop(children[0], "key") == key then children[0]
    else ChildByKey(children[1..], key)
  }

  /** The text is the value of one of the options. */
  predicate Declared(options: seq<Json>, v: Json) {
    v.JStr? && exists o :: o in options && Prop(o, "value") == v
  }

  /** Declared choices of one choice question, all the mandatory ones still among them. */
  predicate ChoicesOk(group: Json, value: Json) {
    var choice := ChildByKey(Items(Prop(group, "fields")), Prop(value, "field"));
    var values := Prop(value, "values");
    var now := Prop(group, "requiredChoices");
    && Prop(choice, "type") in [JStr("single_choice"), JStr("dropdown")]
    && values.JList? && values.items != []
    && (forall v :: v in values.items ==> Declared(Items(Prop(choice, "choices")), v))
    && (Truthy(Prop(now, "field")) ==> Prop(now, "field") == Prop(choice, "key"))
    && (forall v :: v in Items(Prop(now, "values")) ==> v in values.items)
  }

  /** An upload nothing requires yet. */
  predicate OptionalEvidence(child: Json) {
    && Prop(child, "type") == JStr("file") && !StaffSet(child)
    && !Truthy(Prop(child, "requiredWhen")) && !Truthy(Prop(child, "required"))
  }

  /** Decided against the source, whatever earlier patches did. */
  predicate Permitted(source: Json, patch: Patch) {
    var p := patch.path;
    && Whitelisted(p)
    && (p[0] == "data" ==>
          var group := ElementAt(Read(source, ["data", "fields"]), p[2]);
          && Prop(group, "type") == JStr("repeating_group") && !StaffSet(group)
          && if p[3] == "required" then patch.value == JBool(true)
             else if p[3] == "requiredChoices" then ChoicesOk(group, patch.value)
             else OptionalEvidence(ElementAt(Prop(group, "fields"), p[4])))
  }

  function Patched(source: Json, next: Json, patches: seq<Patch>): Option<Json>
    decreases patches
  {
    if patches == [] then Some(next)
    else if Permitted(source, patches[0]) then
      match Write(next, patches[0].path, patches[0].value)
      case None => None
      case Some(written) => Patched(source, written, patches[1..])
    else None
  }

  // --------------------------------------------------------- what tests keep

  /** What a test expects under the key. */
  function Expected(test: Json, key: string): Json {
    Prop(Prop(test, "expect"), key)
  }

  /** `test` against its counterpart in the revision. */
  predicate TestKept(test: Json, updated: Json) {
    && (Prop(test, "kind") in [JStr("permission"), JStr("duplicate")] ==> updated == test)
    && (forall s :: s in Items(Prop(test, "steps")) && Truthy(Prop(s, "expectDenied")) ==>
                      s in Items(Prop(updated, "steps")))
    && Expected(updated, "instanceCount") == Expected(test, "instanceCount")
    && (forall k :: k in Items(Expected(test, "emails")) ==> k in Items(Expected(updated, "emails")))
    && (forall k :: k in Items(Expected(test, "documents")) ==> k in Items(Expected(updated, "documents")))
  }

  predicate TestsKept(tests: seq<Json>, updated: seq<Json>) {
    forall t :: t in tests ==> TestKept(t, ChildByKey(updated, Prop(t, "key")))
  }

  predicate Passes(gates: Gates, source: Json, next: Json) {
    && gates.parses(next)
    && gates.compiles(next)
    && TestsKept(Items(Read(source, ["tests"])), Items(Read(next, ["tests"])))
  }

  /** The revision, or nothing when any check refuses. */
  function Revise(gates: Gates, source: Json, patches: seq<Patch>): Option<Json> {
    if !(1 <= |patches| <= MAX_PATCHES) then None
    else
      match Patched(source, source, patches)
      case None => None
      case Some(next) => if Passes(gates, source, next) then Some(next) else None
  }

  /** The checks of one patch, against the source. */
  method CheckPatch(source: Json, patch: Patch) returns (ok: bool)
    ensures ok == Permitted(source, patch)
  {
    hide Read, Prop, ChildByKey, ToNat;
    var p := patch.path;
    var allowed :=
      || (|p| == 2 && p[0] == "intent" && (p[1] == "openDecisions" || p[1] == "assumptions" || p[1] == "retentionDays"))
      || (|p| == 4 && p[..2] == ["workflow", "transitions"] && Digits(p[2]) && (p[3] == "when" || p[3] == "to"))
      || (|p| == 3 && p[0] == "tests" && Digits(p[1]) && (p[2] == "steps" || p[2] == "expect"))
      || (|p| == 4 && p[..2] == ["data", "fields"] && Digits(p[2]) && (p[3] == "required" || p[3] == "requiredChoices"))
      || (|p| == 6 && p[..2] == ["data", "fields"] && Digits(p[2]) && p[3] == "fields" && Digits(p[4]) && p[5] == "requiredWhen");
    if !allowed {
      return false;
    }
    if p[0] != "data" {
      return true;
    }
    var fields := Items(Read(source, ["data", "fields"]));
    if ToNat(p[2]) >= |fields| {
      OutsideIsUndefined("type");
      return false;
    }
    var original := fields[ToNat(p[2])];
    if Prop(original, "type") != JStr("repeating_group")
       || Prop(original, "setBy") == JStr("operator") || Prop(original, "setBy") == JStr("system") {
      return false;
    }
    if p[3] == "required" {
      return patch.value == JBool(true);
    }
    if p[3] == "requiredChoices" {
      ok := CheckChoices(original, patch.value);
      return;
    }
    var children := Items(Prop(original, "fields"));
    if ToNat(p[4]) >= |children| {
      OutsideIsUndefined("type");
      return false;
    }
    var child := children[ToNat(p[4])];
    return Prop(child, "type") == JStr("file")
           && Prop(child, "setBy") != JStr("operator") && Prop(child, "setBy") != JStr("system")
           && !Truthy(Prop(child, "requiredWhen")) && !Truthy(Prop(child, "required"));
  }

  lemma OutsideIsUndefined(key: string)
    ensures Prop(JUndefined, key) == JUndefined
  {
  }

  method CheckChoices(original: Json, value: Json) returns (ok: bool)
    ensures ok == ChoicesOk(original, value)
  {
    hide Prop, ChildByKey;
    var choice := FindChild(Items(Prop(original, "fields")), Prop(value, "field"));
    if Prop(choice, "type") != JStr("single_choice") && Prop(choice, "type") != JStr("dropdown") {
      return false;
    }
    var values := Prop(value, "values");
    if !values.JList? || |values.items| == 0 {
      return false;
    }
    var declared := AllDeclared(Items(Prop(choice, "choices")), values.items);
    if !declared {
      return false;
    }
    var now := Prop(original, "requiredChoices");
    if Truthy(Prop(now, "field")) && Prop(now, "field") != Prop(choice, "key") {
      return false;
    }
    ok := CheckOutputs(Items(Prop(now, "values")), values.items);
  }

  method AllDeclared(options: seq<Json>, values: seq<Json>) returns (ok: bool)
    ensures ok <==> forall v :: v in values ==> Declared(options, v)
  {
    hide Prop;
    for i := 0 to |values|
      invariant forall n :: 0 <= n < i ==> Declared(options, values[n])
    {
      var found := false;
      for k := 0 to |options|
        invariant found <==> exists o :: o in options[..k] && Prop(o, "value") == values[i]
      {
        assert options[..k + 1] == options[..k] + [options[k]];
        found := found || Prop(options[k], "value") == values[i];
      }
      assert options[..|options|] == options;
      if !values[i].JStr? || !found {
        assert !Declared(options, values[i]) && values[i] in values;
        return false;
      }
    }
    return true;
  }

  /** `children.find`. */
  method FindChild(children: seq<Json>, key: Json) returns (child: Json)
    ensures child == ChildByKey(children, key)
  {
    for i := 0 to |children|
      invariant ChildByKey(children[i..], key) == ChildByKey(children, key)
    {
      assert children[i..][0] == children[i] && children[i..][1..] == children[i + 1..];
      if Prop(children[i], "key") == key {
        return children[i];
      }
    }
    return JUndefined;
  }

  /** The comparisons of one test with its counterpart. */
  method CheckTest(test: Json, updated: Json) returns (ok: bool)
    ensures ok == TestKept(test, updated)
  {
    hide Prop, Expected, Items, Truthy;
    if Prop(test, "kind") == JStr("permission") && updated != test {
      return false;
    }
    if Prop(test, "kind") == JStr("duplicate") && updated != test {
      return false;
    }
    var denied := CheckDenied(Items(Prop(test, "steps")), Items(Prop(updated, "steps")));
    if !denied {
      return false;
    }
    if Expected(updated, "instanceCount") != Expected(test, "instanceCount") {
      return false;
    }
    var emails := CheckOutputs(Items(Expected(test, "emails")), Items(Expected(updated, "emails")));
    var documents := CheckOutputs(Items(Expected(test, "documents")), Items(Expected(updated, "documents")));
    return emails && documents;
  }

  /** Every step that expects a denial is still there. */
  method CheckDenied(steps: seq<Json>, kept: seq<Json>) returns (ok: bool)
    ensures ok <==> forall s :: s in steps && Truthy(Prop(s, "expectDenied")) ==> s in kept
  {
    hide Prop, Truthy;
    for i := 0 to |steps|
      invariant forall n :: 0 <= n < i && Truthy(Prop(steps[n], "expectDenied")) ==> steps[n] in kept
    {
      if Truthy(Prop(steps[i], "expectDenied")) && steps[i] !in kept {
        return false;
      }
    }
    return true;
  }

  method CheckOutputs(before: seq<Json>, after: seq<Json>) returns (ok: bool)
    ensures ok <==> forall k :: k in before ==> k in after
  {
    for i := 0 to |before|
      invariant forall n :: 0 <= n < i ==> before[n] in after
    {
      if before[i] !in after {
        return false;
      }
    }
    return true;
  }

  method ApplyTargetedRevision(gates: Gates, source: Json, patches: seq<Patch>) returns (revision: Option<Json>)
    ensures revision == Revise(gates, source, patches)
  {
    hide Write, Read, Permitted, TestKept, ChildByKey;
    if |patches| < 1 || |patches| > 30 {
      return None;
    }
    var next := source;
    for i := 0 to |patches|
      invariant Patched(source, next, patches[i..]) == Patched(source, source, patches)
    {
      assert patches[i..][0] == patches[i] && patches[i..][1..] == patches[i + 1..];
      var allowed := CheckPatch(source, patches[i]);
      if !allowed {
        return None;
      }
      PermittedIsWhitelisted(source, patches[i]);
      match Write(next, patches[i].path, patches[i].value) {
        case None =>
          return None;
        case Some(written) =>
          next := written;
      }
    }
    if !gates.parses(next) || !gates.compiles(next) {
      return None;
    }
    var tests, updated := Items(Read(source, ["tests"])), Items(Read(next, ["tests"]));
    for i := 0 to |tests|
      invariant forall j :: 0 <= j < i ==> TestKept(tests[j], ChildByKey(updated, Prop(tests[j], "key")))
    {
      var counterpart := FindChild(updated, Prop(tests[i], "key"));
      var kept := CheckTest(tests[i], counterpart);
      if !kept {
        return None;
      }
    }
    return Some(next);
  }

  // ----------------------------------------------------------------- frames

  /** No whitelisted path is a prefix of another. */
  lemma WhitelistIsPrefixFree(p: seq<string>, q: seq<string>)
    requires Whitelisted(p) && Whitelisted(q) && p != q
    ensures Apart(p, q)
  {
    if Prefix(p, q) {
      PrefixSplits(p, q);
    }
    if Prefix(q, p) {
      PrefixSplits(q, p);
    }
  }

  lemma PermittedIsWhitelisted(source: Json, a: Patch)
    requires Permitted(source, a)
    ensures Whitelisted(a.path) && a.path != []
  {
  }

  /** What a list of patches writes to one path, in order. */
  function WrittenTo(patches: seq<Patch>, path: seq<string>): seq<Json> {
    if patches == [] then []
    else (if patches[0].path == path then [patches[0].value] else []) + WrittenTo(patches[1..], path)
  }

  lemma {:induction false} WrittenIsPatched(patches: seq<Patch>, p: Patch)
    ensures p in patches <==> p.value in WrittenTo(patches, p.path)
  {
    if patches != [] {
      WrittenIsPatched(patches[1..], p);
      assert patches == [patches[0]] + patches[1..];
      assert patches[0].path == p.path && patches[0].value == p.value ==> patches[0] == p;
    }
  }

  /** A write leaves as much writable as before. */
  lemma WritableStays(source: Json, next: Json, a: Patch, b: Patch)
    requires Permitted(source, a) && Permitted(source, b) && a.path != [] && b.path != []
    requires Write(next, a.path, a.value).Some?
    ensures Write(Write(next, a.path, a.value).value, b.path, b.value).Some? <==> Write(next, b.path, b.value).Some?
  {
    hide Write, Permitted;
    PermittedIsWhitelisted(source, a);
    PermittedIsWhitelisted(source, b);
    if a.path == b.path {
      LastWriteWins(next, a.path, a.value, b.value);
    } else {
      WhitelistIsPrefixFree(a.path, b.path);
      StillWritable(next, a.path, a.value, b.path, b.value);
    }
  }

  /** A list of patches goes through exactly when each is permitted and its parent exists: order plays no part. */
  lemma {:induction false} PatchedExactly(source: Json, next: Json, patches: seq<Patch>)
    ensures Patched(source, next, patches).Some? <==>
              forall p :: p in patches ==> Permitted(source, p) && ParentExists(next, p.path)
    decreases patches
  {
    hide ParentExists;
    if patches != [] {
      var a := patches[0];
      assert patches == [a] + patches[1..];
      if Permitted(source, a) {
        WriteSucceedsExactly(next, a.path, a.value);
      }
      if Permitted(source, a) && Write(next, a.path, a.value).Some? {
        var written := Write(next, a.path, a.value).value;
        PatchedExactly(source, written, patches[1..]);
        hide Write, Permitted;
        forall p | p in patches && Permitted(source, p)
          ensures p.path != [] && (ParentExists(written, p.path) <==> ParentExists(next, p.path))
        {
          PermittedIsWhitelisted(source, p);
          PermittedIsWhitelisted(source, a);
          WritableStays(source, next, a, p);
          WriteSucceedsExactly(written, p.path, p.value);
          WriteSucceedsExactly(next, p.path, p.value);
        }
      }
    }
  }

  /** A revision is accepted exactly when it has one to thirty such patches, and the gates and the tests agree. */
  lemma RevisedExactly(gates: Gates, source: Json, patches: seq<Patch>)
    ensures Revise(gates, source, patches).Some? <==>
              && 1 <= |patches| <= 30
              && (forall p :: p in patches ==> Permitted(source, p) && ParentExists(source, p.path))
              && exists next :: Patched(source, source, patches) == Some(next) && gates.parses(next) && gates.compiles(next)
                                && forall t :: t in Items(Read(source, ["tests"])) ==>
                                     TestKept(t, ChildByKey(Items(Read(next, ["tests"])), Prop(t, "key")))
  {
    hide Permitted, ParentExists, Patched, TestKept, ChildByKey, Read;
    PatchedExactly(source, source, patches);
  }

  /** At and below a whitelisted leaf the last patch to it decides; without one it is as it was. */
  lemma {:induction false} LastPatchWins(source: Json, next: Json, patches: seq<Patch>, leaf: seq<string>, below: seq<string>)
    requires Whitelisted(leaf) && Patched(source, next, patches).Some?
    ensures var (result, written) := (Patched(source, next, patches).value, WrittenTo(patches, leaf));
            Read(result, leaf + below)
            == if written == [] then Read(next, leaf + below) else Read(written[|written| - 1], below)
    decreases patches
  {
    hide Write, Read, Permitted, Whitelisted;
    if patches != [] {
      var a := patches[0];
      PermittedIsWhitelisted(source, a);
      LastPatchWins(source, Write(next, a.path, a.value).value, patches[1..], leaf, below);
      if a.path == leaf {
        ReadWritten(next, leaf, a.value, below);
      } else {
        WhitelistIsPrefixFree(leaf, a.path);
        ApartBelow(leaf, a.path, below);
        ReadElsewhere(next, a.path, a.value, leaf + below);
      }
    }
  }

  lemma {:induction false} PatchedElsewhere(source: Json, next: Json, patches: seq<Patch>, at: seq<string>)
    requires Patched(source, next, patches).Some? && forall p :: p in patches ==> Apart(p.path, at)
    ensures Read(Patched(source, next, patches).value, at) == Read(next, at)
    decreases patches
  {
    hide Write, Read, Permitted, Apart;
    if patches != [] {
      var a := patches[0];
      PermittedIsWhitelisted(source, a);
      PatchedElsewhere(source, Write(next, a.path, a.value).value, patches[1..], at);
      ReadElsewhere(next, a.path, a.value, at);
    }
  }

  /**
   Any reordering that keeps the order of the patches to each path goes through alike,
   and reads alike at every place that is not above a patched leaf.
   */
  lemma PatchesCommute(source: Json, patches: seq<Patch>, others: seq<Patch>, at: seq<string>)
    requires forall path :: WrittenTo(patches, path) == WrittenTo(others, path)
    requires forall p :: p in patches && Prefix(at, p.path) ==> at == p.path
    ensures Patched(source, source, patches).Some? <==> Patched(source, source, others).Some?
    ensures Patched(source, source, patches).Some? ==>
              Read(Patched(source, source, patches).value, at) == Read(Patched(source, source, others).value, at)
  {
    hide Patched, Write, Read, Permitted, WrittenTo, Prefix;
    forall p ensures p in patches <==> p in others {
      WrittenIsPatched(patches, p);
      WrittenIsPatched(others, p);
    }
    PatchedExactly(source, source, patches);
    PatchedExactly(source, source, others);
    if Patched(source, source, patches).Some? {
      if p :| p in patches && Prefix(p.path, at) {
        PermittedIsWhitelisted(source, p);
        PrefixSplits(p.path, at);
        LastPatchWins(source, source, patches, p.path, at[|p.path|..]);
        LastPatchWins(source, source, others, p.path, at[|p.path|..]);
      } else {
        forall p | p in patches ensures Apart(p.path, at) {
          PrefixSelf(at);
        }
        PatchedElsewhere(source, source, patches, at);
        PatchedElsewhere(source, source, others, at);
      }
    }
  }

  /** Apart from every leaf the whitelist names. */
  ghost predicate Untouched(q: seq<string>) {
    forall p :: Whitelisted(p) ==> Apart(p, q)
  }

  /** A proper prefix of some whitelisted leaf. */
  ghost predicate Above(q: seq<string>) {
    exists p :: Whitelisted(p) && Prefix(q, p) && q != p
  }

  lemma Transit(a: Json, b: Json, c: Json)
    requires SameShape(a, b) && SameShape(b, c)
    ensures SameShape(a, c)
  {
  }

  lemma WriteKeepsShape(j: Json, path: seq<string>, v: Json, q: seq<string>)
    requires Whitelisted(path) && Above(q) && path != [] && Write(j, path, v).Some?
    ensures SameShape(Read(j, q), Read(Write(j, path, v).value, q))
  {
    hide Write, Read, Whitelisted;
    if Prefix(q, path) && q != path {
      ShapeAbove(j, path, v, q);
    } else {
      assert Apart(path, q) by { AboveIsNotBelow(q, path); }
      ReadElsewhere(j, path, v, q);
      SameShapeSelf(Read(j, q));
    }
  }

  lemma SameShapeSelf(j: Json)
    ensures SameShape(j, j)
  {
  }

  lemma AboveIsNotBelow(q: seq<string>, path: seq<string>)
    requires Whitelisted(path) && Above(q) && !(Prefix(q, path) && q != path)
    ensures Apart(path, q)
  {
    var p :| Whitelisted(p) && Prefix(q, p) && q != p;
    PrefixSplits(q, p);
    if Prefix(path, q) {
      PrefixSplits(path, q);
      PrefixTransitive(path, q, p);
      if path != p {
        WhitelistIsPrefixFree(path, p);
      }
    }
    if q == path {
      PrefixSelf(q);
    }
  }

  lemma {:induction false} PrefixTransitive(a: seq<string>, b: seq<string>, c: seq<string>)
    requires Prefix(a, b) && Prefix(b, c)
    ensures Prefix(a, c)
  {
    if a != [] {
      PrefixTransitive(a[1..], b[1..], c[1..]);
    }
  }

  /** Outside the whitelisted leaves nothing changes, and above them no shape does. */
  lemma {:induction false} PatchedFrame(source: Json, next: Json, patches: seq<Patch>, q: seq<string>)
    requires Patched(source, next, patches).Some?
    ensures Untouched(q) ==> Read(Patched(source, next, patches).value, q) == Read(next, q)
    ensures Above(q) ==> SameShape(Read(next, q), Read(Patched(source, next, patches).value, q))
    decreases patches
  {
    hide Write, Read, Permitted, Whitelisted, SameShape;
    if patches == [] {
      SameShapeSelf(Read(next, q));
    } else {
      var p := patches[0];
      PermittedIsWhitelisted(source, p);
      var written := Write(next, p.path, p.value).value;
      PatchedFrame(source, written, patches[1..], q);
      if Untouched(q) {
        ReadElsewhere(next, p.path, p.value, q);
      }
      if Above(q) {
        WriteKeepsShape(next, p.path, p.value, q);
        Transit(Read(next, q), Read(written, q), Read(Patched(source, next, patches).value, q));
      }
    }
  }

  /** A whitelisted leaf of the result is as it was, or a permitted replacement. */
  lemma {:induction false} PatchedLeaves(source: Json, next: Json, patches: seq<Patch>, q: seq<string>)
    requires Patched(source, next, patches).Some? && Whitelisted(q)
    requires Read(next, q) == Read(source, q) || Permitted(source, Patch(q, Read(next, q)))
    ensures var result := Patched(source, next, patches).value;
            Read(result, q) == Read(source, q) || Permitted(source, Patch(q, Read(result, q)))
    decreases patches
  {
    hide Write, Read, Permitted, Whitelisted;
    if patches != [] {
      var p := patches[0];
      PermittedIsWhitelisted(source, p);
      var written := Write(next, p.path, p.value).value;
      if p.path == q {
        ReadWritten(next, q, p.value, []);
        assert q + [] == q;
        assert Read(p.value, []) == p.value by { ReadHere(p.value); }
        assert p == Patch(q, p.value);
      } else {
        WhitelistIsPrefixFree(p.path, q);
        ReadElsewhere(next, p.path, p.value, q);
      }
      PatchedLeaves(source, written, patches[1..], q);
    }
  }

  lemma ReadHere(j: Json)
    ensures Read(j, []) == j
  {
  }

  /** What an accepted revision leaves alone, and what it may put in a leaf. */
  lemma RevisionFrame(gates: Gates, source: Json, patches: seq<Patch>, q: seq<string>)
    requires Revise(gates, source, patches).Some?
    ensures var result := Revise(gates, source, patches).value;
            && (Untouched(q) ==> Read(result, q) == Read(source, q))
            && (Above(q) ==> SameShape(Read(source, q), Read(result, q)))
            && (Whitelisted(q) ==> Read(result, q) == Read(source, q) || Permitted(source, Patch(q, Read(result, q))))
  {
    hide Patched, Read, Permitted, Whitelisted, SameShape, Passes;
    PatchedFrame(source, source, patches, q);
    if Whitelisted(q) {
      PatchedLeaves(source, source, patches, q);
    }
  }

  /** Roles, messages, documents, pages, tasks, approvals and states are never touched. */
  lemma NamedPartsUntouched(q: seq<string>)
    requires q != []
    requires || q[0] !in ["intent", "workflow", "tests", "data"]
             || (q[0] == "workflow" && |q| > 1 && q[1] != "transitions")
             || (q[0] == "workflow" && |q| > 3 && q[3] !in ["when", "to"])
             || (q[0] == "tests" && |q| > 2 && q[2] !in ["steps", "expect"])
             || (q[0] == "data" && |q| > 1 && q[1] != "fields")
             || (q[0] == "data" && |q| > 3 && q[3] !in ["required", "requiredChoices", "fields"])
             || (q[0] == "data" && |q| > 5 && q[3] == "fields" && q[5] != "requiredWhen")
    ensures Untouched(q)
  {
    forall p | Whitelisted(p) ensures Apart(p, q) {
      if Prefix(p, q) {
        PrefixSplits(p, q);
      }
      if Prefix(q, p) {
        PrefixSplits(q, p);
      }
    }
  }

  // ------------------------------------------------- the form in a blueprint

  /** How the schema reads the parts of a form the revision never inspects. */
  datatype Reader = Reader(
    expr: Json -> Expr,
    constraints: Json -> Constraints,
    choices: Json -> seq<Choice>,
    pages: Json -> seq<Page>)

  function TextOf(j: Json): string {
    if j.JStr? then j.s else ""
  }

  function KindOf(t: string): FieldType {
    match t
    case "short_text" => ShortText
    case "long_text" => LongText
    case "email" => Email
    case "phone" => Phone
    case "number" => Number
    case "currency" => Currency
    case "url" => Url
    case "address" => Address
    case "date" => Date
    case "time" => Time
    case "single_choice" => SingleChoice
    case "multi_choice" => MultiChoice
    case "dropdown" => Dropdown
    case "yes_no" => YesNo
    case "rating" => Rating
    case "matrix" => Matrix
    case "file" => File
    case "signature_ack" => SignatureAck
    case "signature" => Signature
    case "content" => Content
    case "hidden" => Hidden
    case "calculated" => Calculated
    case _ => RepeatingGroup
  }

  function SetByOf(j: Json): Option<SetBy> {
    if j == JStr("operator") then Some(Operator)
    else if j == JStr("system") then Some(System)
    else if j == JStr("respondent") then Some(Respondent)
    else None
  }

  function TextsOf(items: seq<Json>): (texts: seq<string>)
    ensures forall s :: s in texts <==> exists j :: j in items && TextOf(j) == s
  {
    if items == [] then []
    else
      assert items == [items[0]] + items[1..];
      [TextOf(items[0])] + TextsOf(items[1..])
  }

  function ChoicesOf(j: Json): Option<RequiredChoices> {
    if Truthy(j) then Some(RequiredChoices(TextOf(Prop(j, "field")), TextsOf(Items(Prop(j, "values"))))) else None
  }

  function ToField(reader: Reader, j: Json, children: seq<Field>): Field {
    Field(
      TextOf(Prop(j, "key")),
      TextOf(Prop(j, "label")),
      KindOf(TextOf(Prop(j, "type"))),
      Truthy(Prop(j, "required")),
      if Truthy(Prop(j, "requiredWhen")) then Some(reader.expr(Prop(j, "requiredWhen"))) else None,
      reader.constraints(Prop(j, "constraints")),
      reader.choices(Prop(j, "choices")),
      children,
      ChoicesOf(Prop(j, "requiredChoices")),
      SetByOf(Prop(j, "setBy")))
  }

  /** The checks look one level into a group, so deeper nesting is not read. */
  function ChildrenOf(reader: Reader, items: seq<Json>): (fields: seq<Field>)
    ensures |fields| == |items|
    ensures forall i :: 0 <= i < |items| ==> fields[i] == ToField(reader, items[i], [])
  {
    seq(|items|, i requires 0 <= i < |items| => ToField(reader, items[i], []))
  }

  function GroupOf(reader: Reader, j: Json): Field {
    ToField(reader, j, ChildrenOf(reader, Items(Prop(j, "fields"))))
  }

  function FieldsOf(reader: Reader, items: seq<Json>): (fields: seq<Field>)
    ensures |fields| == |items|
    ensures forall i :: 0 <= i < |items| ==> fields[i] == GroupOf(reader, items[i])
  {
    seq(|items|, i requires 0 <= i < |items| => GroupOf(reader, items[i]))
  }

  function FormOf(reader: Reader, blueprint: Json): Form {
    Form(FieldsOf(reader, Items(Read(blueprint, ["data", "fields"]))), reader.pages(Read(blueprint, ["experience", "pages"])))
  }

  /** What the schema gives a parsed blueprint: fields are objects, required choices name a field. */
  predicate ParsedFields(blueprint: Json) {
    && Read(blueprint, ["data", "fields"]).JList?
    && forall f :: f in Items(Read(blueprint, ["data", "fields"])) && Truthy(Prop(f, "requiredChoices")) ==>
                     Truthy(Prop(Prop(f, "requiredChoices"), "field"))
  }

  lemma {:induction false} ChildByKeyFinds(children: seq<Json>, key: Json)
    ensures ChildByKey(children, key) != JUndefined ==>
              ChildByKey(children, key) in children && Prop(ChildByKey(children, key), "key") == key
  {
    if children != [] && Prop(children[0], "key") != key {
      ChildByKeyFinds(children[1..], key);
    }
  }

  /** Permitted choices add to the mandatory ones. */
  lemma PermittedChoicesAreMore(group: Json, value: Json)
    requires ChoicesOk(group, value)
    requires Truthy(Prop(group, "requiredChoices")) ==> Truthy(Prop(Prop(group, "requiredChoices"), "field"))
    ensures MoreChoices(ChoicesOf(Prop(group, "requiredChoices")), ChoicesOf(value))
  {
    var now := Prop(group, "requiredChoices");
    var choice := ChildByKey(Items(Prop(group, "fields")), Prop(value, "field"));
    ChildByKeyFinds(Items(Prop(group, "fields")), Prop(value, "field"));
    assert choice != JUndefined by {
      assert Prop(JUndefined, "type") == JUndefined;
    }
    assert Prop(value, "values").JList?;
    assert Truthy(value);
  }

  /** `RevisionFrame` at every path. */
  ghost predicate Framed(source: Json, result: Json) {
    && (forall q :: Untouched(q) ==> Read(result, q) == Read(source, q))
    && (forall q :: Above(q) ==> SameShape(Read(source, q), Read(result, q)))
    && (forall q :: Whitelisted(q) ==> Read(result, q) == Read(source, q) || Permitted(source, Patch(q, Read(result, q))))
  }

  lemma FrameAt(source: Json, result: Json, q: seq<string>)
    requires Framed(source, result)
    ensures Untouched(q) ==> Read(result, q) == Read(source, q)
    ensures Above(q) ==> SameShape(Read(source, q), Read(result, q))
    ensures Whitelisted(q) ==> Read(result, q) == Read(source, q) || Permitted(source, Patch(q, Read(result, q)))
  {
    hide Untouched, Above, Whitelisted, Permitted, SameShape, Read;
  }

  function FieldAt(j: Json, i: nat): Json {
    if i < |Items(Read(j, ["data", "fields"]))| then Items(Read(j, ["data", "fields"]))[i] else JUndefined
  }

  function ChildAt(j: Json, i: nat, n: nat): Json {
    var children := Items(Prop(FieldAt(j, i), "fields"));
    if n < |children| then children[n] else JUndefined
  }

  predicate InBoth(source: Json, result: Json, i: nat) {
    i < |Items(Read(source, ["data", "fields"]))| && i < |Items(Read(result, ["data", "fields"]))|
  }

  predicate ChildInBoth(source: Json, result: Json, i: nat, n: nat) {
    && InBoth(source, result, i)
    && n < |Items(Prop(FieldAt(source, i), "fields"))| && n < |Items(Prop(FieldAt(result, i), "fields"))|
  }

  lemma FieldPropKept(source: Json, result: Json, i: nat, k: string)
    requires Framed(source, result) && InBoth(source, result, i)
    requires k != "required" && k != "requiredChoices" && k != "fields"
    ensures Prop(FieldAt(result, i), k) == Prop(FieldAt(source, i), k)
  {
    hide Framed, Read, Prop, Untouched, Numeral;
    var q := ["data", "fields", Numeral(i)] + [k];
    ReadField(source, i, k);
    ReadField(result, i, k);
    NamedPartsUntouched(q);
    FrameAt(source, result, q);
  }

  lemma ChildPropKept(source: Json, result: Json, i: nat, n: nat, k: string)
    requires Framed(source, result) && ChildInBoth(source, result, i, n)
    requires k != "requiredWhen"
    ensures Prop(ChildAt(result, i, n), k) == Prop(ChildAt(source, i, n), k)
  {
    hide Framed, Read, Prop, Untouched, Numeral;
    var q := ["data", "fields", Numeral(i), "fields", Numeral(n)] + [k];
    ReadChild(source, i, n, k);
    ReadChild(result, i, n, k);
    NamedPartsUntouched(q);
    FrameAt(source, result, q);
  }

  /** A child's condition is as it was, unless the child was optional evidence. */
  lemma ChildConditionKept(source: Json, result: Json, i: nat, n: nat)
    requires Framed(source, result) && ChildInBoth(source, result, i, n)
    ensures Prop(ChildAt(result, i, n), "requiredWhen") == Prop(ChildAt(source, i, n), "requiredWhen")
            || OptionalEvidence(ChildAt(source, i, n))
  {
    hide Framed, Read, Prop, Untouched, Numeral, Above, OptionalEvidence;
    NumeralReads(i);
    NumeralReads(n);
    var q := ["data", "fields", Numeral(i), "fields", Numeral(n)] + ["requiredWhen"];
    ReadChild(source, i, n, "requiredWhen");
    ReadChild(result, i, n, "requiredWhen");
    assert q[0] == "data" && q[2] == Numeral(i) && q[3] == "fields" && q[4] == Numeral(n);
    assert ChildLeaf(q);
    FrameAt(source, result, q);
  }

  lemma ChildStrengthened(reader: Reader, source: Json, result: Json, i: nat, n: nat)
    requires Framed(source, result) && ChildInBoth(source, result, i, n)
    ensures StrongerChild(ToField(reader, ChildAt(source, i, n), []), ToField(reader, ChildAt(result, i, n), []))
  {
    hide Framed, Prop, SetByOf, ChoicesOf, FieldAt, ChildAt, KindOf;
    ChildConditionKept(source, result, i, n);
    ChildPropKept(source, result, i, n, "key");
    ChildPropKept(source, result, i, n, "label");
    ChildPropKept(source, result, i, n, "type");
    ChildPropKept(source, result, i, n, "required");
    ChildPropKept(source, result, i, n, "constraints");
    ChildPropKept(source, result, i, n, "choices");
    ChildPropKept(source, result, i, n, "requiredChoices");
    ChildPropKept(source, result, i, n, "setBy");
    FileIsFile();
  }

  lemma FileIsFile()
    ensures KindOf("file") == File
  {
  }

  lemma ReadChild(j: Json, i: nat, n: nat, k: string)
    requires i < |Items(Read(j, ["data", "fields"]))|
    requires n < |Items(Prop(Items(Read(j, ["data", "fields"]))[i], "fields"))|
    ensures Read(j, ["data", "fields", Numeral(i), "fields", Numeral(n)] + [k])
            == Prop(Items(Prop(Items(Read(j, ["data", "fields"]))[i], "fields"))[n], k)
  {
    ReadField(j, i, "fields");
    NumeralReads(n);
    ReadSplit(j, ["data", "fields", Numeral(i)] + ["fields"], [Numeral(n), k]);
    assert ["data", "fields", Numeral(i), "fields", Numeral(n)] + [k]
        == ["data", "fields", Numeral(i)] + ["fields"] + [Numeral(n), k];
    ReadTwo(Read(j, ["data", "fields", Numeral(i)] + ["fields"]), Numeral(n), k);
  }

  lemma ReadField(j: Json, i: nat, k: string)
    requires i < |Items(Read(j, ["data", "fields"]))|
    ensures Read(j, ["data", "fields", Numeral(i)] + [k]) == Prop(Items(Read(j, ["data", "fields"]))[i], k)
  {
    NumeralReads(i);
    ReadSplit(j, ["data", "fields"], [Numeral(i), k]);
    assert ["data", "fields", Numeral(i)] + [k] == ["data", "fields"] + [Numeral(i), k];
    ReadTwo(Read(j, ["data", "fields"]), Numeral(i), k);
  }

  lemma ReadTwo(j: Json, a: string, b: string)
    ensures Read(j, [a, b]) == Prop(Prop(j, a), b)
  {
    assert [a, b][1..] == [b] && [b][1..] == [];
    ReadHere(Prop(Prop(j, a), b));
  }

  lemma {:induction false} ReadSplit(j: Json, p: seq<string>, q: seq<string>)
    ensures Read(j, p + q) == Read(Read(j, p), q)
    decreases p
  {
    if p == [] {
      assert p + q == q;
    } else {
      assert (p + q)[0] == p[0] && (p + q)[1..] == p[1..] + q;
      ReadSplit(Prop(j, p[0]), p[1..], q);
    }
  }

  /** What revisions are for: the evidence a group does not ask for yet, and the guard a route does not have. */
  lemma EvidenceMayBeRequired(source: Json, i: nat, n: nat, when: Json)
    requires ChildInReach(source, i, n)
    requires Prop(FieldAt(source, i), "type") == JStr("repeating_group")
    requires Prop(FieldAt(source, i), "setBy") == JUndefined || Prop(FieldAt(source, i), "setBy") == JStr("respondent")
    requires var child := ChildAt(source, i, n);
             && Prop(child, "type") == JStr("file") && Prop(child, "setBy") == JUndefined
             && Prop(child, "requiredWhen") == JUndefined && Prop(child, "required") in {JUndefined, JBool(false)}
    ensures var path := ["data", "fields", Numeral(i), "fields", Numeral(n), "requiredWhen"];
            && Patched(source, source, [Patch(path, when)]).Some?
            && Read(Patched(source, source, [Patch(path, when)]).value, path) == when
  {
    hide Read, HasOwn, Prop, Container, ToNat, Numeral;
    NumeralReads(i);
    NumeralReads(n);
    var path := ["data", "fields", Numeral(i), "fields", Numeral(n), "requiredWhen"];
    var patch := Patch(path, when);
    assert Permitted(source, patch);
    ReachHasParent(source, i, n);
    MayBePatched(source, patch);
  }

  /** Outside the form every leaf of the list may be given any value. */
  lemma LeavesMayBePatched(source: Json, n: nat, leaf: string, v: Json)
    ensures leaf in ["openDecisions", "assumptions", "retentionDays"] ==> Permitted(source, Patch(["intent", leaf], v))
    ensures leaf in ["when", "to"] ==> Permitted(source, Patch(["workflow", "transitions", Numeral(n), leaf], v))
    ensures leaf in ["steps", "expect"] ==> Permitted(source, Patch(["tests", Numeral(n), leaf], v))
  {
    NumeralReads(n);
  }

  /** A respondent's checklist may be required, and asked for declared choices of one of its choice questions, none dropped. */
  lemma ChecklistMayAsk(source: Json, i: nat, choice: Json, value: Json)
    requires i < |Items(Read(source, ["data", "fields"]))|
    requires Prop(FieldAt(source, i), "type") == JStr("repeating_group") && !StaffFills(FieldAt(source, i))
    ensures Permitted(source, Patch(["data", "fields", Numeral(i), "required"], JBool(true)))
    ensures (exists n: nat :: n < |Items(Prop(FieldAt(source, i), "fields"))| && Items(Prop(FieldAt(source, i), "fields"))[n] == choice
                              && Prop(choice, "key") == Prop(value, "field")
                              && forall m :: 0 <= m < n ==>
                                   Prop(Items(Prop(FieldAt(source, i), "fields"))[m], "key") != Prop(value, "field"))
            && (Prop(choice, "type") == JStr("single_choice") || Prop(choice, "type") == JStr("dropdown"))
            && Prop(value, "values").JList? && |Prop(value, "values").items| > 0
            && (forall v :: v in Prop(value, "values").items ==>
                              v.JStr? && exists o :: o in Items(Prop(choice, "choices")) && Prop(o, "value") == v)
            && (Prop(FieldAt(source, i), "requiredChoices") == JUndefined
                || (Prop(Prop(FieldAt(source, i), "requiredChoices"), "field") == Prop(value, "field")
                    && forall v :: v in Items(Prop(Prop(FieldAt(source, i), "requiredChoices"), "values")) ==>
                                     v in Prop(value, "values").items)) ==>
              Permitted(source, Patch(["data", "fields", Numeral(i), "requiredChoices"], value))
  {
    hide Read, Prop, ToNat, Numeral, Declared, ChildByKey;
    NumeralReads(i);
    var children := Items(Prop(FieldAt(source, i), "fields"));
    OutsideIsUndefined("field");
    OutsideIsUndefined("values");
    forall v ensures Declared(Items(Prop(choice, "choices")), v) <==>
                       v.JStr? && exists o :: o in Items(Prop(choice, "choices")) && Prop(o, "value") == v {
      DeclaredIs(Items(Prop(choice, "choices")), v);
    }
    if n: nat :| n < |children| && children[n] == choice && Prop(choice, "key") == Prop(value, "field")
                 && forall m :: 0 <= m < n ==> Prop(children[m], "key") != Prop(value, "field") {
      FirstChild(children, n, Prop(value, "field"));
    }
  }

  predicate StaffFills(field: Json) {
    Prop(field, "setBy") == JStr("operator") || Prop(field, "setBy") == JStr("system")
  }

  lemma DeclaredIs(options: seq<Json>, v: Json)
    ensures Declared(options, v) <==> v.JStr? && exists o :: o in options && Prop(o, "value") == v
  {
  }

  lemma {:induction false} FirstChild(children: seq<Json>, n: nat, key: Json)
    requires n < |children| && Prop(children[n], "key") == key
    requires forall m :: 0 <= m < n ==> Prop(children[m], "key") != key
    ensures ChildByKey(children, key) == children[n]
  {
    hide Prop;
    if n > 0 {
      FirstChild(children[1..], n - 1, key);
    }
  }

  /** One permitted patch whose parent exists goes through, and is read back. */
  lemma MayBePatched(source: Json, patch: Patch)
    requires Permitted(source, patch) && ParentExists(source, patch.path)
    ensures Patched(source, source, [patch]).Some?
    ensures Read(Patched(source, source, [patch]).value, patch.path) == patch.value
  {
    hide Permitted, Read, Patched, ParentExists;
    PatchedExactly(source, source, [patch]);
    PermittedIsWhitelisted(source, patch);
    LastPatchWins(source, source, [patch], patch.path, []);
    assert WrittenTo([patch], patch.path) == [patch.value] by {
      assert [patch][1..] == [];
    }
    assert patch.path + [] == patch.path;
    ReadHere(patch.value);
  }

  lemma GuardMayBeAdded(source: Json, i: nat, when: Json)
    requires var routes := Prop(Prop(source, "workflow"), "transitions");
             source.JObj? && Prop(source, "workflow").JObj? && routes.JList? && i < |routes.items| && routes.items[i].JObj?
    ensures var path := ["workflow", "transitions", Numeral(i), "when"];
            && Patched(source, source, [Patch(path, when)]).Some?
            && Read(Patched(source, source, [Patch(path, when)]).value, path) == when
  {
    NumeralReads(i);
    var path := ["workflow", "transitions", Numeral(i), "when"];
    var patch := Patch(path, when);
    var w := Prop(source, "workflow");
    var routes := Prop(w, "transitions");
    OwnProperties(source, "workflow");
    OwnProperties(w, "transitions");
    hide Read, HasOwn, Prop, Container, ToNat, Numeral, ParentExists;
    assert Permitted(source, patch);
    assert ParentExists(source, path) by { RouteHasParent(source, i); }
    MayBePatched(source, patch);
  }

  lemma RouteHasParent(source: Json, i: nat)
    requires var routes := Prop(Prop(source, "workflow"), "transitions");
             source.JObj? && Prop(source, "workflow").JObj? && routes.JList? && i < |routes.items| && routes.items[i].JObj?
    ensures ParentExists(source, ["workflow", "transitions", Numeral(i), "when"])
  {
    NumeralReads(i);
    var w := Prop(source, "workflow");
    var routes := Prop(w, "transitions");
    OwnProperties(source, "workflow");
    OwnProperties(w, "transitions");
    assert HasOwn(source, "workflow") && HasOwn(w, "transitions") && HasOwn(routes, Numeral(i));
    assert Prop(routes, Numeral(i)) == routes.items[i];
    hide HasOwn, Prop, Numeral, Steps;
    var path := ["workflow", "transitions", Numeral(i), "when"];
    ParentStep(source, path);
    ParentStep(w, path[1..]);
    ParentStep(routes, path[2..]);
    assert path[1..][1..] == path[2..] && path[2..][1..] == ["when"] && path[2..][0] == Numeral(i);
    assert ParentExists(routes.items[i], ["when"]) by { assert ["when"][..0] == []; ReadHere(routes.items[i]); }
  }

  lemma ParentStep(j: Json, path: seq<string>)
    requires |path| > 1
    ensures ParentExists(j, path) <==>
              HasOwn(j, path[0]) && Container(Prop(j, path[0])) && ParentExists(Prop(j, path[0]), path[1..])
  {
    hide Read, HasOwn, Prop, Container, ParentExists;
    WriteSucceedsExactly(j, path, JNull);
    WriteSucceedsExactly(Prop(j, path[0]), path[1..], JNull);
  }

  /** The child and all that leads to it are there, objects and lists as the schema has them. */
  predicate ChildInReach(source: Json, i: nat, n: nat) {
    var data := Prop(source, "data");
    var fields := Prop(data, "fields");
    && source.JObj? && data.JObj? && fields.JList? && i < |fields.items|
    && var children := Prop(fields.items[i], "fields");
       && fields.items[i].JObj? && children.JList? && n < |children.items| && children.items[n].JObj?
  }

  lemma ReachHasParent(source: Json, i: nat, n: nat)
    requires ChildInReach(source, i, n)
    ensures ParentExists(source, ["data", "fields", Numeral(i), "fields", Numeral(n), "requiredWhen"])
    ensures i < |Items(Read(source, ["data", "fields"]))| && n < |Items(Prop(FieldAt(source, i), "fields"))|
  {
    NumeralReads(i);
    NumeralReads(n);
    var path := ["data", "fields", Numeral(i), "fields", Numeral(n), "requiredWhen"];
    var data := Prop(source, "data");
    var fields := Prop(data, "fields");
    OwnProperties(source, "data");
    OwnProperties(data, "fields");
    var group := fields.items[i];
    var children := Prop(group, "fields");
    OwnProperties(group, "fields");
    assert HasOwn(fields, Numeral(i)) && Prop(fields, Numeral(i)) == group;
    assert HasOwn(children, Numeral(n)) && Prop(children, Numeral(n)) == children.items[n];
    ReadTwo(source, "data", "fields");
    hide HasOwn, Prop, Numeral, Steps;
    assert ParentExists(children.items[n], path[5..]) by {
      assert path[5..][..0] == [];
      ReadHere(children.items[n]);
    }
    forall k | 0 <= k < 5 ensures path[k..][0] == path[k] && path[k..][1..] == path[k + 1..] {
    }
    hide ParentExists;
    ParentStep(children, path[4..]);
    ParentStep(group, path[3..]);
    ParentStep(fields, path[2..]);
    ParentStep(data, path[1..]);
    assert path[0..] == path;
    ParentStep(source, path);
  }

  lemma RequiredKept(source: Json, result: Json, i: nat)
    requires Framed(source, result) && InBoth(source, result, i)
    ensures Truthy(Prop(FieldAt(source, i), "required")) ==> Truthy(Prop(FieldAt(result, i), "required"))
  {
    hide Framed, Read, Prop, Untouched, Numeral, Above;
    NumeralReads(i);
    var q := ["data", "fields", Numeral(i)] + ["required"];
    ReadField(source, i, "required");
    ReadField(result, i, "required");
    assert q[0] == "data" && q[3] == "required";
    assert FieldLeaf(q);
    FrameAt(source, result, q);
  }

  lemma ChoicesKept(source: Json, result: Json, i: nat)
    requires Framed(source, result) && InBoth(source, result, i) && ParsedFields(source)
    ensures MoreChoices(ChoicesOf(Prop(FieldAt(source, i), "requiredChoices")),
                        ChoicesOf(Prop(FieldAt(result, i), "requiredChoices")))
  {
    NumeralReads(i);
    hide Framed, Read, Prop, Untouched, Numeral, Above, ChoicesOf, MoreChoices, ChoicesOk;
    var (now, after) := (Prop(FieldAt(source, i), "requiredChoices"), Prop(FieldAt(result, i), "requiredChoices"));
    var q := ["data", "fields", Numeral(i)] + ["requiredChoices"];
    ReadField(source, i, "requiredChoices");
    ReadField(result, i, "requiredChoices");
    assert q[0] == "data" && q[2] == Numeral(i) && q[3] == "requiredChoices";
    assert FieldLeaf(q);
    FrameAt(source, result, q);
    if after != now {
      assert ElementAt(Read(source, ["data", "fields"]), q[2]) == FieldAt(source, i);
      assert FieldAt(source, i) in Items(Read(source, ["data", "fields"]));
      PermittedChoicesAreMore(FieldAt(source, i), after);
    } else {
      SameChoices(ChoicesOf(now));
    }
  }

  lemma ChildrenKept(source: Json, result: Json, i: nat)
    requires Framed(source, result) && InBoth(source, result, i)
    ensures |Items(Prop(FieldAt(result, i), "fields"))| == |Items(Prop(FieldAt(source, i), "fields"))|
  {
    hide Framed, Read, Prop, Untouched, Numeral, Above;
    ReadField(source, i, "fields");
    ReadField(result, i, "fields");
    ChildListAbove(i);
    FrameAt(source, result, ["data", "fields", Numeral(i)] + ["fields"]);
  }

  lemma FieldStrengthened(reader: Reader, source: Json, result: Json, i: nat)
    requires Framed(source, result) && InBoth(source, result, i) && ParsedFields(source)
    ensures Stronger(GroupOf(reader, FieldAt(source, i)), GroupOf(reader, FieldAt(result, i)))
  {
    hide Framed, ParsedFields, Prop, SetByOf, ChoicesOf, KindOf, FieldAt, MoreChoices, StrongerChild;
    FieldPropKept(source, result, i, "key");
    FieldPropKept(source, result, i, "label");
    FieldPropKept(source, result, i, "type");
    FieldPropKept(source, result, i, "requiredWhen");
    FieldPropKept(source, result, i, "constraints");
    FieldPropKept(source, result, i, "choices");
    FieldPropKept(source, result, i, "setBy");
    RequiredKept(source, result, i);
    ChoicesKept(source, result, i);
    ChildrenKept(source, result, i);
    var (f, g) := (GroupOf(reader, FieldAt(source, i)), GroupOf(reader, FieldAt(result, i)));
    forall n: nat | n < |f.fields| ensures StrongerChild(f.fields[n], g.fields[n]) {
      ChildStrengthened(reader, source, result, i, n);
    }
  }

  lemma SameChoices(a: Option<RequiredChoices>)
    ensures MoreChoices(a, a)
  {
  }

  lemma ChildListAbove(i: nat)
    ensures Above(["data", "fields", Numeral(i)] + ["fields"])
  {
    NumeralReads(i);
    var q := ["data", "fields", Numeral(i)] + ["fields"];
    var p := q + ["0", "requiredWhen"];
    assert Digits("0");
    assert ChildLeaf(p);
    PrefixAppend(q, ["0", "requiredWhen"]);
  }

  lemma {:induction false} PrefixAppend(p: seq<string>, below: seq<string>)
    ensures Prefix(p, p + below)
  {
    if p != [] {
      assert (p + below)[1..] == p[1..] + below;
      PrefixAppend(p[1..], below);
    }
  }

  lemma FieldListAbove()
    ensures Above(["data", "fields"])
  {
    var p := ["data", "fields"] + ["0", "required"];
    assert Digits("0");
    assert FieldLeaf(p);
    PrefixAppend(["data", "fields"], ["0", "required"]);
  }

  lemma RevisionStrengthensForm(gates: Gates, reader: Reader, source: Json, patches: seq<Patch>)
    requires ParsedFields(source)
    requires Revise(gates, source, patches).Some?
    ensures StrongerForm(FormOf(reader, source), FormOf(reader, Revise(gates, source, patches).value))
  {
    hide Revise, Read, Whitelisted, Permitted, SameShape, Untouched, Above, Stronger, GroupOf;
    var result := Revise(gates, source, patches).value;
    forall q
      ensures Untouched(q) ==> Read(result, q) == Read(source, q)
      ensures Above(q) ==> SameShape(Read(source, q), Read(result, q))
      ensures Whitelisted(q) ==> Read(result, q) == Read(source, q) || Permitted(source, Patch(q, Read(result, q)))
    {
      RevisionFrame(gates, source, patches, q);
    }
    assert Framed(source, result);
    FieldListAbove();
    SameLength(Read(source, ["data", "fields"]), Read(result, ["data", "fields"]));
    NamedPartsUntouched(["experience", "pages"]);
    var (before, after) := (FormOf(reader, source), FormOf(reader, result));
    hide Framed;
    forall i: nat | i < |before.fields| ensures Stronger(before.fields[i], after.fields[i]) {
      FieldStrengthened(reader, source, result, i);
    }
  }

  lemma SameLength(a: Json, b: Json)
    requires a.JList? && SameShape(a, b)
    ensures |Items(a)| == |Items(b)|
  {
  }

  /**
   A revision can only strengthen the form: every error and every gap of a
   submission under the source is one under the revision, at every scope and clock.
   */
  lemma {:induction false} RevisionOnlyStrengthens(
      gates: Gates, reader: Reader, source: Json, patches: seq<Patch>, host: Host, answers: Answers,
      scope: Option<seq<string>>, now: string)
    requires ParsedFields(source)
    requires Revise(gates, source, patches).Some?
    ensures var (before, after) := (FormOf(reader, source), FormOf(reader, Revise(gates, source, patches).value));
            && (forall e :: e in Errors(host, before, answers, scope, now) ==> e in Errors(host, after, answers, scope, now))
            && (forall gap :: gap in Missing(host, before, answers, now) ==> gap in Missing(host, after, answers, now))
  {
    hide Revise, FormOf, Errors, Missing, StrongerForm;
    RevisionStrengthensForm(gates, reader, source, patches);
    var (before, after) := (FormOf(reader, source), FormOf(reader, Revise(gates, source, patches).value));
    var (someError, someGap) := (FieldError(Whole(""), NotADate), NoRow("", ""));
    forall e | e in Errors(host, before, answers, scope, now) ensures e in Errors(host, after, answers, scope, now) {
      StrongerReportsMore(host, before, after, answers, scope, now, e, someGap);
    }
    forall gap | gap in Missing(host, before, answers, now) ensures gap in Missing(host, after, answers, now) {
      StrongerReportsMore(host, before, after, answers, scope, now, someError, gap);
    }
  }

  // ------------------------------------------------------------------ tests

  predicate UniqueTestKeys(tests: seq<Json>) {
    forall i, j :: 0 <= i < j < |tests| ==> Prop(tests[i], "key") != Prop(tests[j], "key")
  }

  lemma {:induction false} ChildByKeyAt(tests: seq<Json>, n: nat)
    requires n < |tests| && UniqueTestKeys(tests)
    ensures ChildByKey(tests, Prop(tests[n], "key")) == tests[n]
  {
    if n > 0 {
      assert forall i :: 0 <= i < |tests[1..]| ==> tests[1..][i] == tests[i + 1];
      ChildByKeyAt(tests[1..], n - 1);
    }
  }

  lemma ReadTest(j: Json, i: nat, k: string)
    requires i < |Items(Read(j, ["tests"]))|
    ensures Read(j, ["tests", Numeral(i), k]) == Prop(Items(Read(j, ["tests"]))[i], k)
  {
    NumeralReads(i);
    ReadSplit(j, ["tests"], [Numeral(i), k]);
    assert ["tests", Numeral(i), k] == ["tests"] + [Numeral(i), k];
    ReadTwo(Read(j, ["tests"]), Numeral(i), k);
  }

  lemma TestListAbove()
    ensures Above(["tests"])
  {
    var p := ["tests"] + ["0", "steps"];
    assert Digits("0");
    assert TestLeaf(p);
    PrefixAppend(["tests"], ["0", "steps"]);
  }

  lemma TestLabelKept(gates: Gates, source: Json, patches: seq<Patch>, j: nat, k: string)
    requires Revise(gates, source, patches).Some? && k != "steps" && k != "expect"
    requires var result := Revise(gates, source, patches).value;
             j < |Items(Read(source, ["tests"]))| && j < |Items(Read(result, ["tests"]))|
    ensures var result := Revise(gates, source, patches).value;
            Prop(Items(Read(result, ["tests"]))[j], k) == Prop(Items(Read(source, ["tests"]))[j], k)
  {
    hide Read, Prop, Revise, Untouched, Numeral;
    ReadTest(source, j, k);
    ReadTest(Revise(gates, source, patches).value, j, k);
    NamedPartsUntouched(["tests", Numeral(j), k]);
    RevisionFrame(gates, source, patches, ["tests", Numeral(j), k]);
  }

  lemma TestIsKept(gates: Gates, source: Json, patches: seq<Patch>, i: nat)
    requires Revise(gates, source, patches).Some?
    requires Read(source, ["tests"]).JList? && UniqueTestKeys(Items(Read(source, ["tests"])))
    requires i < |Items(Read(source, ["tests"]))|
    ensures var (before, after) := (Items(Read(source, ["tests"])), Items(Read(Revise(gates, source, patches).value, ["tests"])));
            && |after| == |before|
            && Prop(after[i], "key") == Prop(before[i], "key")
            && Prop(after[i], "kind") == Prop(before[i], "kind")
            && TestKept(before[i], after[i])
  {
    hide Read, Whitelisted, Permitted, SameShape, Patched, TestKept;
    var result := Revise(gates, source, patches).value;
    assert TestsKept(Items(Read(source, ["tests"])), Items(Read(result, ["tests"])));
    hide Revise;
    var (before, after) := (Items(Read(source, ["tests"])), Items(Read(result, ["tests"])));
    TestListAbove();
    RevisionFrame(gates, source, patches, ["tests"]);
    SameLength(Read(source, ["tests"]), Read(result, ["tests"]));
    forall j: nat | j < |before|
      ensures Prop(after[j], "key") == Prop(before[j], "key") && Prop(after[j], "kind") == Prop(before[j], "kind")
    {
      TestLabelKept(gates, source, patches, j, "key");
      TestLabelKept(gates, source, patches, j, "kind");
    }
    hide Prop;
    assert UniqueTestKeys(after);
    ChildByKeyAt(after, i);
    assert TestKept(before[i], after[i]) by { assert before[i] in before; }
  }

  /**
   Test for test, an accepted revision keeps every permission and duplicate test
   as it is, and elsewhere every denial, record count and expected output.
   */
  lemma RevisionKeepsTests(gates: Gates, source: Json, patches: seq<Patch>, i: nat)
    requires Revise(gates, source, patches).Some?
    requires Read(source, ["tests"]).JList? && UniqueTestKeys(Items(Read(source, ["tests"])))
    requires i < |Items(Read(source, ["tests"]))|
    ensures var (before, after) := (Items(Read(source, ["tests"])), Items(Read(Revise(gates, source, patches).value, ["tests"])));
            && |after| == |before|
            && Prop(after[i], "key") == Prop(before[i], "key")
            && Prop(after[i], "kind") == Prop(before[i], "kind")
            && (Prop(before[i], "kind") in [JStr("permission"), JStr("duplicate")] ==> after[i] == before[i])
            && (forall s :: s in Items(Prop(before[i], "steps")) && Truthy(Prop(s, "expectDenied")) ==>
                              s in Items(Prop(after[i], "steps")))
            && Expected(after[i], "instanceCount") == Expected(before[i], "instanceCount")
            && (forall k :: k in Items(Expected(before[i], "emails")) ==> k in Items(Expected(after[i], "emails")))
            && (forall k :: k in Items(Expected(before[i], "documents")) ==> k in Items(Expected(after[i], "documents")))
  {
    TestIsKept(gates, source, patches, i);
    hide Read, Prop, Revise, Expected;
  }
}
