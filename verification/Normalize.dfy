/**
 Mechanical corrections to a generated blueprint: every one is logged, and a second
 pass finds nothing left to correct.
 */
module Normalize {
  import opened Values
  import opened Conditions
  import opened Forms

  datatype Arithmetic = Add | Subtract | Multiply | Divide

  datatype Calc =
    | Arith(op: Arithmetic, operands: seq<Calc>)
    | Duration(from: string, to: string, unit: string)
    | Aggregate(summing: bool, over: string, of: Option<string>, where: Option<Expr>)
    | CalcField(key: string)
    | CalcNumber(n: real)

  /**
   A field as `flattenFields` lists it. The nesting never changes, so of a field's
   children only their presence is kept.
   */
  datatype FlatField = FlatField(
    key: string, kind: FieldType, choices: seq<Choice>, hasChildren: bool, requiredWhen: Option<Expr>,
    compute: Option<Calc>, setBy: Option<SetBy>, required: bool)

  datatype WorkflowState = WorkflowState(key: string, name: string)

  /** A transition; `references` are the fields its set_reference actions fill. */
  datatype Transition = Transition(from: string, to: string, when: Option<Expr>, references: seq<string>)

  datatype Plan = Plan(
    states: seq<WorkflowState>, transitions: seq<Transition>, completion: string, pages: seq<Page>,
    skips: seq<Option<Expr>>, fields: seq<FlatField>)

  datatype Change =
    | LiteralRead(field: string, raw: string, read: Value)
    | StatusResolved(raw: string, key: string)
    | MadeGroup(field: string)
    | SpanRead(to: string, from: string)
    | Generated(field: string)

  datatype Logged<+T> = Logged(value: T, log: seq<Change>)

  /** `slug`, and the trimmed lower-case word a yes/no literal is read by. */
  datatype Text = Text(slug: string -> string, word: string -> string)

  // ------------------------------------------------------- mapping with a log

  function MapLog<T>(f: T -> Logged<T>, xs: seq<T>): (r: Logged<seq<T>>)
    ensures |r.value| == |xs|
  {
    if xs == [] then Logged([], [])
    else
      var (init, last) := (MapLog(f, xs[..|xs| - 1]), f(xs[|xs| - 1]));
      Logged(init.value + [last.value], init.log + last.log)
  }

  /** The log is empty exactly when nothing changed. */
  predicate Honest<T(==)>(r: Logged<T>, before: T) {
    r.log == [] <==> r.value == before
  }

  lemma {:induction false} MapHonest<T>(f: T -> Logged<T>, xs: seq<T>)
    requires forall x :: x in xs ==> Honest(f(x), x)
    ensures Honest(MapLog(f, xs), xs)
  {
    if xs != [] {
      var n := |xs| - 1;
      MapHonest(f, xs[..n]);
      var (init, last) := (MapLog(f, xs[..n]), f(xs[n]));
      assert xs == xs[..n] + [xs[n]];
      assert init.value + [last.value] == xs <==> init.value == xs[..n] && last.value == xs[n];
    }
  }

  lemma {:induction false} MapValues<T>(f: T -> Logged<T>, xs: seq<T>)
    ensures forall i :: 0 <= i < |xs| ==> MapLog(f, xs).value[i] == f(xs[i]).value
  {
    if xs != [] {
      MapValues(f, xs[..|xs| - 1]);
    }
  }

  lemma {:induction false} MapQuiet<T>(f: T -> Logged<T>, xs: seq<T>)
    requires forall x :: x in xs ==> f(x) == Logged(x, [])
    ensures MapLog(f, xs) == Logged(xs, [])
  {
    if xs != [] {
      MapQuiet(f, xs[..|xs| - 1]);
      assert xs == xs[..|xs| - 1] + [xs[|xs| - 1]];
    }
  }

  // --------------------------------------------------------------- literals

  /** The last field with this key, as the map built from the flattened list has it. */
  function FieldNamed(fields: seq<FlatField>, key: string): Option<FlatField> {
    if fields == [] then None
    else if fields[|fields| - 1].key == key then Some(fields[|fields| - 1])
    else FieldNamed(fields[..|fields| - 1], key)
  }

  const YES := ["yes", "y", "true", "1", "on"]
  const NO := ["no", "n", "false", "0", "off"]

  predicate IsChoice(choices: seq<Choice>, raw: string) {
    exists c :: c in choices && c.value == raw
  }

  /** The first choice whose value or label reads the same. */
  function Matching(text: Text, choices: seq<Choice>, raw: string): Option<Choice> {
    if choices == [] then None
    else if text.slug(choices[0].value) == text.slug(raw) || text.slug(choices[0].caption) == text.slug(raw) then Some(choices[0])
    else Matching(text, choices[1..], raw)
  }

  predicate YesNoLike(kind: FieldType) {
    kind == YesNo || kind == SignatureAck
  }

  function LiteralFor(text: Text, field: FlatField, raw: Value): Value {
    if !raw.Str? then raw
    else if YesNoLike(field.kind) then
      if text.word(raw.s) in YES then Bool(true) else if text.word(raw.s) in NO then Bool(false) else raw
    else if field.choices != [] && !IsChoice(field.choices, raw.s) then
      match Matching(text, field.choices, raw.s)
      case Some(c) => Str(c.value)
      case None => raw
    else raw
  }

  function FixOperand(text: Text, field: FlatField, o: Operand): Logged<Operand> {
    if o.Literal? && LiteralFor(text, field, o.value) != o.value && o.value.Str? then
      Logged(Literal(LiteralFor(text, field, o.value)), [LiteralRead(field.key, o.value.s, LiteralFor(text, field, o.value))])
    else Logged(o, [])
  }

  function OperandFixer(text: Text, field: FlatField): Operand -> Logged<Operand> {
    (o: Operand) => FixOperand(text, field, o)
  }

  // ------------------------------------------------------------- conditions

  /** The field a comparison's left side names, when the form has it. */
  function Subject(fields: seq<FlatField>, left: Operand): Option<FlatField> {
    if left.FieldRef? then FieldNamed(fields, left.key) else None
  }

  function FixExpr(text: Text, fields: seq<FlatField>, e: Expr): Logged<Expr>
    decreases e, 1
  {
    match e
    case And(es) => var r := FixAll(text, fields, es); Logged(And(r.value), r.log)
    case Or(es) => var r := FixAll(text, fields, es); Logged(Or(r.value), r.log)
    case Not(x) => var r := FixExpr(text, fields, x); Logged(Not(r.value), r.log)
    case Any(over, where) => var r := FixExpr(text, fields, where); Logged(Any(over, r.value), r.log)
    case All(over, where) => var r := FixExpr(text, fields, where); Logged(All(over, r.value), r.log)
    case IsEmpty(_) => Logged(e, [])
    case IsPresent(_) => Logged(e, [])
    case In(left, among) =>
      (match Subject(fields, left)
       case None => Logged(e, [])
       case Some(f) => var r := MapLog(OperandFixer(text, f), among); Logged(In(left, r.value), r.log))
    case NotIn(left, among) =>
      (match Subject(fields, left)
       case None => Logged(e, [])
       case Some(f) => var r := MapLog(OperandFixer(text, f), among); Logged(NotIn(left, r.value), r.log))
    case Contains(left, right) =>
      (match Subject(fields, left)
       case None => Logged(e, [])
       case Some(f) => var r := FixOperand(text, f, right); Logged(Contains(left, r.value), r.log))
    case Compare(op, left, right) =>
      (match Subject(fields, left)
       case None => Logged(e, [])
       case Some(f) => var r := FixOperand(text, f, right); Logged(Compare(op, left, r.value), r.log))
  }

  function FixAll(text: Text, fields: seq<FlatField>, es: seq<Expr>): Logged<seq<Expr>>
    decreases es, 0
  {
    if es == [] then Logged([], [])
    else
      var (first, rest) := (FixExpr(text, fields, es[0]), FixAll(text, fields, es[1..]));
      Logged([first.value] + rest.value, first.log + rest.log)
  }

  function FixWhen(text: Text, fields: seq<FlatField>, when: Option<Expr>): Logged<Option<Expr>> {
    match when
    case None => Logged(None, [])
    case Some(e) => var r := FixExpr(text, fields, e); Logged(Some(r.value), r.log)
  }

  function WhenFixer(text: Text, fields: seq<FlatField>): Option<Expr> -> Logged<Option<Expr>> {
    (when: Option<Expr>) => FixWhen(text, fields, when)
  }

  // ------------------------------------------------------------------ status

  function Candidates(text: Text, states: seq<WorkflowState>, raw: string): (matches: seq<WorkflowState>)
    ensures forall s :: s in matches ==> s in states
  {
    if states == [] then []
    else
      (if text.slug(states[0].name) == text.slug(raw) || text.slug(states[0].key) == text.slug(raw) then [states[0]] else [])
      + Candidates(text, states[1..], raw)
  }

  predicate IsState(states: seq<WorkflowState>, key: string) {
    exists s :: s in states && s.key == key
  }

  /** A human-readable status name becomes the one key it can mean. */
  function StateKey(text: Text, states: seq<WorkflowState>, raw: string): Logged<string> {
    var matches := Candidates(text, states, raw);
    if IsState(states, raw) || |matches| != 1 then Logged(raw, [])
    else Logged(matches[0].key, [StatusResolved(raw, matches[0].key)])
  }

  function FixEnds(text: Text, states: seq<WorkflowState>, t: Transition): Logged<Transition> {
    var (from, to) := (StateKey(text, states, t.from), StateKey(text, states, t.to));
    Logged(t.(from := from.value, to := to.value), from.log + to.log)
  }

  function EndsFixer(text: Text, states: seq<WorkflowState>): Transition -> Logged<Transition> {
    (t: Transition) => FixEnds(text, states, t)
  }

  function FixGuard(text: Text, fields: seq<FlatField>, t: Transition): Logged<Transition> {
    var r := FixWhen(text, fields, t.when);
    Logged(t.(when := r.value), r.log)
  }

  function GuardFixer(text: Text, fields: seq<FlatField>): Transition -> Logged<Transition> {
    (t: Transition) => FixGuard(text, fields, t)
  }

  function FixSection(text: Text, fields: seq<FlatField>, s: Section): Logged<Section> {
    var r := FixWhen(text, fields, s.visibleWhen);
    Logged(s.(visibleWhen := r.value), r.log)
  }

  function SectionFixer(text: Text, fields: seq<FlatField>): Section -> Logged<Section> {
    (s: Section) => FixSection(text, fields, s)
  }

  function FixPage(text: Text, fields: seq<FlatField>, p: Page): Logged<Page> {
    var (when, sections) := (FixWhen(text, fields, p.visibleWhen), MapLog(SectionFixer(text, fields), p.sections));
    Logged(p.(visibleWhen := when.value, sections := sections.value), when.log + sections.log)
  }

  function PageFixer(text: Text, fields: seq<FlatField>): Page -> Logged<Page> {
    (p: Page) => FixPage(text, fields, p)
  }

  // ------------------------------------------------------------------ fields

  /** "Time minus time" is a duration, at any depth of the arithmetic. */
  function SpansIn(fields: seq<FlatField>, formula: Calc): Logged<Calc>
    decreases formula, 1
  {
    if !formula.Arith? then Logged(formula, [])
    else if IsSpan(fields, formula) then
      var (to, from) := (formula.operands[0].key, formula.operands[1].key);
      Logged(Duration(from, to, if FieldNamed(fields, to).value.kind == Time then "hours" else "days"), [SpanRead(to, from)])
    else
      var r := SpansInAll(fields, formula.operands);
      Logged(Arith(formula.op, r.value), r.log)
  }

  function SpansInAll(fields: seq<FlatField>, formulas: seq<Calc>): Logged<seq<Calc>>
    decreases formulas, 0
  {
    if formulas == [] then Logged([], [])
    else
      var (first, rest) := (SpansIn(fields, formulas[0]), SpansInAll(fields, formulas[1..]));
      Logged([first.value] + rest.value, first.log + rest.log)
  }

  /** One time field less another, or one date less another. */
  predicate IsSpan(fields: seq<FlatField>, formula: Calc) {
    && formula.Arith? && formula.op == Subtract && |formula.operands| == 2
    && formula.operands[0].CalcField? && formula.operands[1].CalcField?
    && var (a, b) := (FieldNamed(fields, formula.operands[0].key), FieldNamed(fields, formula.operands[1].key));
       a.Some? && b.Some? && a.value.kind == b.value.kind && (a.value.kind == Time || a.value.kind == Date)
  }

  function Grouped(f: FlatField): FlatField {
    if f.hasChildren && f.kind != RepeatingGroup then f.(kind := RepeatingGroup) else f
  }

  function FixCalc(text: Text, fields: seq<FlatField>, formula: Calc): Logged<Calc> {
    var r := if formula.Aggregate? then FixWhen(text, fields, formula.where) else Logged(None, []);
    var spans := SpansIn(fields, if formula.Aggregate? then formula.(where := r.value) else formula);
    Logged(spans.value, r.log + spans.log)
  }

  /** One field, read against the fields as they stand, the field itself already regrouped. */
  function FixField(text: Text, fields: seq<FlatField>, f: FlatField): Logged<FlatField> {
    var g := Grouped(f);
    var when := FixWhen(text, fields, g.requiredWhen);
    var formula := if g.kind == Calculated && g.compute.Some? then
                  var r := FixCalc(text, fields, g.compute.value); Logged(Some(r.value), r.log)
                else Logged(g.compute, []);
    Logged(g.(requiredWhen := when.value, compute := formula.value),
           (if g.kind != f.kind then [MadeGroup(f.key)] else []) + when.log + formula.log)
  }

  /** The fields once the first `n` have been gone through, in place. */
  function FixFields(text: Text, fields: seq<FlatField>, n: nat): (r: Logged<seq<FlatField>>)
    requires n <= |fields|
    ensures |r.value| == |fields|
  {
    if n == 0 then Logged(fields, [])
    else
      var before := FixFields(text, fields, n - 1);
      var now := before.value[n - 1 := Grouped(before.value[n - 1])];
      var r := FixField(text, now, before.value[n - 1]);
      Logged(now[n - 1 := r.value], before.log + r.log)
  }

  // -------------------------------------------------------------- references

  function ReferencesOf(ts: seq<Transition>): seq<string> {
    if ts == [] then []
    else ReferencesOf(ts[..|ts| - 1]) + ts[|ts| - 1].references
  }

  /** The index the field map resolves a key to, or the length of the list. */
  function IndexNamed(fields: seq<FlatField>, key: string): (i: nat)
    ensures i <= |fields|
    ensures i < |fields| ==> fields[i].key == key
    ensures forall j :: i < j < |fields| ==> fields[j].key != key
    ensures i == |fields| ==> forall j :: 0 <= j < |fields| ==> fields[j].key != key
  {
    if fields == [] then 0
    else if fields[|fields| - 1].key == key then |fields| - 1
    else
      var i := IndexNamed(fields[..|fields| - 1], key);
      if i == |fields| - 1 then |fields| else i
  }

  function DropFromSection(s: Section, key: string): Section {
    if key in s.fields then s.(fields := Dropped(s.fields, key), widths := s.widths - {key}) else s
  }

  function Dropped(keys: seq<string>, key: string): seq<string> {
    if keys == [] then [] else (if keys[0] == key then [] else [keys[0]]) + Dropped(keys[1..], key)
  }

  function DropFromSections(sections: seq<Section>, key: string): seq<Section> {
    if sections == [] then [] else [DropFromSection(sections[0], key)] + DropFromSections(sections[1..], key)
  }

  function DropFromPages(pages: seq<Page>, key: string): seq<Page> {
    if pages == [] then []
    else [pages[0].(sections := DropFromSections(pages[0].sections, key))] + DropFromPages(pages[1..], key)
  }

  predicate NeedsSystem(fields: seq<FlatField>, key: string) {
    var i := IndexNamed(fields, key);
    i < |fields| && fields[i].kind == ShortText && fields[i].setBy != Some(System)
  }

  /** A generated reference is the system's to set, and leaves the form. */
  function TakeReference(plan: Plan, key: string): Logged<Plan> {
    if !NeedsSystem(plan.fields, key) then Logged(plan, [])
    else
      var i := IndexNamed(plan.fields, key);
      Logged(plan.(fields := plan.fields[i := plan.fields[i].(setBy := Some(System), required := false)],
                   pages := DropFromPages(plan.pages, key)),
             [Generated(key)])
  }

  function TakeReferences(plan: Plan, keys: seq<string>): Logged<Plan>
    decreases |keys|
  {
    if keys == [] then Logged(plan, [])
    else
      var before := TakeReferences(plan, keys[..|keys| - 1]);
      var r := TakeReference(before.value, keys[|keys| - 1]);
      Logged(r.value, before.log + r.log)
  }

  // ------------------------------------------------------------ the blueprint

  /** Every place a condition or a status can live, but the fields and the references. */
  function Reworded(text: Text, plan: Plan): Logged<Plan> {
    var ends := MapLog(EndsFixer(text, plan.states), plan.transitions);
    var completion := StateKey(text, plan.states, plan.completion);
    var guards := MapLog(GuardFixer(text, plan.fields), ends.value);
    var pages := MapLog(PageFixer(text, plan.fields), plan.pages);
    var skips := MapLog(WhenFixer(text, plan.fields), plan.skips);
    Logged(plan.(transitions := guards.value, completion := completion.value, pages := pages.value, skips := skips.value),
           ends.log + completion.log + guards.log + pages.log + skips.log)
  }

  function Normalized(text: Text, plan: Plan): Logged<Plan> {
    var words := Reworded(text, plan);
    var fields := FixFields(text, plan.fields, |plan.fields|);
    var refs := TakeReferences(words.value.(fields := fields.value), ReferencesOf(plan.transitions));
    Logged(refs.value, words.log + fields.log + refs.log)
  }

  lemma MapNext<T>(f: T -> Logged<T>, xs: seq<T>, i: nat)
    requires i < |xs|
    ensures MapLog(f, xs[..i + 1])
            == Logged(MapLog(f, xs[..i]).value + [f(xs[i]).value], MapLog(f, xs[..i]).log + f(xs[i]).log)
  {
    assert xs[..i + 1][..i] == xs[..i];
  }

  /** `done` of the list is mapped, the rest as it was. */
  predicate Underway<T(==)>(f: T -> Logged<T>, xs: seq<T>, done: nat, ys: seq<T>, before: seq<Change>, log: seq<Change>)
    requires done <= |xs|
  {
    && ys == MapLog(f, xs[..done]).value + xs[done..]
    && log == before + MapLog(f, xs[..done]).log
  }

  lemma UnderwayNext<T>(
      f: T -> Logged<T>, xs: seq<T>, done: nat, ys: seq<T>, before: seq<Change>, log: seq<Change>)
    requires done < |xs| && Underway(f, xs, done, ys, before, log)
    ensures |ys| == |xs| && ys[done] == xs[done]
    ensures Underway(f, xs, done + 1, ys[done := f(xs[done]).value], before, log + f(xs[done]).log)
  {
    MapNext(f, xs, done);
    hide MapLog;
    var mapped := MapLog(f, xs[..done]).value;
    assert ys[done := f(xs[done]).value] == mapped + [f(xs[done]).value] + xs[done + 1..];
  }

  lemma UnderwayEnds<T>(f: T -> Logged<T>, xs: seq<T>, ys: seq<T>, before: seq<Change>, log: seq<Change>)
    requires Underway(f, xs, |xs|, ys, before, log)
    ensures ys == MapLog(f, xs).value && log == before + MapLog(f, xs).log
  {
    assert xs[..|xs|] == xs;
  }

  lemma UnderwayStarts<T>(f: T -> Logged<T>, xs: seq<T>, before: seq<Change>)
    ensures Underway(f, xs, 0, xs, before, before)
  {
    assert xs[..0] == [] && [] + xs[0..] == xs && before + [] == before;
  }

  // Each correction written out, as it goes along the blueprint.

  method ReadLiteral(text: Text, field: FlatField, raw: Value) returns (read: Value)
    ensures read == LiteralFor(text, field, raw)
  {
    if !raw.Str? {
      return raw;
    }
    if field.kind == YesNo || field.kind == SignatureAck {
      var word := text.word(raw.s);
      if word == "yes" || word == "y" || word == "true" || word == "1" || word == "on" {
        return Bool(true);
      }
      if word == "no" || word == "n" || word == "false" || word == "0" || word == "off" {
        return Bool(false);
      }
      return raw;
    }
    for i := 0 to |field.choices|
      invariant forall k :: 0 <= k < i ==> field.choices[k].value != raw.s
    {
      if field.choices[i].value == raw.s {
        assert IsChoice(field.choices, raw.s);
        return raw;
      }
    }
    for i := 0 to |field.choices|
      invariant Matching(text, field.choices[i..], raw.s) == Matching(text, field.choices, raw.s)
    {
      assert field.choices[i..][0] == field.choices[i] && field.choices[i..][1..] == field.choices[i + 1..];
      var c := field.choices[i];
      if text.slug(c.value) == text.slug(raw.s) || text.slug(c.caption) == text.slug(raw.s) {
        return Str(c.value);
      }
    }
    return raw;
  }

  method CorrectOperand(text: Text, field: FlatField, o: Operand, before: seq<Change>)
    returns (fixed: Operand, changes: seq<Change>)
    ensures var r := FixOperand(text, field, o); fixed == r.value && changes == before + r.log
  {
    hide LiteralFor;
    fixed, changes := o, before;
    if o.Literal? {
      var read := ReadLiteral(text, field, o.value);
      if read != o.value {
        assert o.value.Str? by { OnlyTextsAreRead(text, field, o.value); }
        fixed, changes := Literal(read), before + [LiteralRead(field.key, o.value.s, read)];
      }
    }
  }

  lemma OnlyTextsAreRead(text: Text, field: FlatField, raw: Value)
    ensures LiteralFor(text, field, raw) != raw ==> raw.Str?
  {
  }

  method CorrectOperands(text: Text, field: FlatField, os: seq<Operand>, before: seq<Change>)
    returns (fixed: seq<Operand>, changes: seq<Change>)
    ensures var r := MapLog(OperandFixer(text, field), os); fixed == r.value && changes == before + r.log
  {
    hide FixOperand, Underway, MapLog;
    fixed, changes := os, before;
    UnderwayStarts(OperandFixer(text, field), os, before);
    for i := 0 to |os|
      invariant Underway(OperandFixer(text, field), os, i, fixed, before, changes)
    {
      UnderwayNext(OperandFixer(text, field), os, i, fixed, before, changes);
      var o;
      o, changes := CorrectOperand(text, field, fixed[i], changes);
      fixed := fixed[i := o];
    }
    UnderwayEnds(OperandFixer(text, field), os, fixed, before, changes);
  }

  method CorrectExpr(text: Text, fields: seq<FlatField>, e: Expr, before: seq<Change>)
    returns (fixed: Expr, changes: seq<Change>)
    ensures var r := FixExpr(text, fields, e); fixed == r.value && changes == before + r.log
    decreases e, 1
  {
    hide FixOperand, MapLog, FieldNamed;
    fixed, changes := e, before;
    match e {
      case And(es) =>
        var operands;
        operands, changes := CorrectAll(text, fields, es, before);
        fixed := And(operands);
      case Or(es) =>
        var operands;
        operands, changes := CorrectAll(text, fields, es, before);
        fixed := Or(operands);
      case Not(x) =>
        var operand;
        operand, changes := CorrectExpr(text, fields, x, before);
        fixed := Not(operand);
      case Any(over, where) =>
        var inner;
        inner, changes := CorrectExpr(text, fields, where, before);
        fixed := Any(over, inner);
      case All(over, where) =>
        var inner;
        inner, changes := CorrectExpr(text, fields, where, before);
        fixed := All(over, inner);
      case IsEmpty(_) =>
      case IsPresent(_) =>
      case In(left, among) =>
        if left.FieldRef? && FieldNamed(fields, left.key).Some? {
          var right;
          right, changes := CorrectOperands(text, FieldNamed(fields, left.key).value, among, before);
          fixed := In(left, right);
        }
      case NotIn(left, among) =>
        if left.FieldRef? && FieldNamed(fields, left.key).Some? {
          var right;
          right, changes := CorrectOperands(text, FieldNamed(fields, left.key).value, among, before);
          fixed := NotIn(left, right);
        }
      case Contains(left, right) =>
        if left.FieldRef? && FieldNamed(fields, left.key).Some? {
          var o;
          o, changes := CorrectOperand(text, FieldNamed(fields, left.key).value, right, before);
          fixed := Contains(left, o);
        }
      case Compare(op, left, right) =>
        if left.FieldRef? && FieldNamed(fields, left.key).Some? {
          var o;
          o, changes := CorrectOperand(text, FieldNamed(fields, left.key).value, right, before);
          fixed := Compare(op, left, o);
        }
    }
  }

  method CorrectAll(text: Text, fields: seq<FlatField>, es: seq<Expr>, before: seq<Change>)
    returns (fixed: seq<Expr>, changes: seq<Change>)
    ensures var r := FixAll(text, fields, es); fixed == r.value && changes == before + r.log
    decreases es, 0
  {
    hide FixExpr;
    fixed, changes := [], before;
    for i := 0 to |es|
      invariant fixed + FixAll(text, fields, es[i..]).value == FixAll(text, fields, es).value
      invariant changes + FixAll(text, fields, es[i..]).log == before + FixAll(text, fields, es).log
    {
      assert es[i..][0] == es[i] && es[i..][1..] == es[i + 1..];
      var e;
      ghost var sofar := changes;
      e, changes := CorrectExpr(text, fields, es[i], changes);
      ghost var rest := FixAll(text, fields, es[i + 1..]);
      assert fixed + ([e] + rest.value) == fixed + [e] + rest.value;
      assert sofar + (FixExpr(text, fields, es[i]).log + rest.log) == changes + rest.log;
      fixed := fixed + [e];
    }
    assert es[|es|..] == [];
  }

  method CorrectWhen(text: Text, fields: seq<FlatField>, when: Option<Expr>, before: seq<Change>)
    returns (fixed: Option<Expr>, changes: seq<Change>)
    ensures var r := FixWhen(text, fields, when); fixed == r.value && changes == before + r.log
  {
    hide FixExpr;
    fixed, changes := when, before;
    if when.Some? {
      var e;
      e, changes := CorrectExpr(text, fields, when.value, before);
      fixed := Some(e);
    }
  }

  /** A status name becomes a key when one state, and one only, reads like it. */
  method ResolveState(text: Text, states: seq<WorkflowState>, raw: string, before: seq<Change>)
    returns (key: string, changes: seq<Change>)
    ensures var r := StateKey(text, states, raw); key == r.value && changes == before + r.log
  {
    hide Candidates;
    var matches: seq<WorkflowState> := [];
    for i := 0 to |states|
      invariant forall k :: 0 <= k < i ==> states[k].key != raw
      invariant matches + Candidates(text, states[i..], raw) == Candidates(text, states, raw)
    {
      if states[i].key == raw {
        assert IsState(states, raw);
        return raw, before;
      }
      CandidatesNext(text, states, i, raw);
      if text.slug(states[i].name) == text.slug(raw) || text.slug(states[i].key) == text.slug(raw) {
        matches := matches + [states[i]];
      }
    }
    assert states[|states|..] == [];
    NoCandidates(text, raw);
    if |matches| == 1 {
      return matches[0].key, before + [StatusResolved(raw, matches[0].key)];
    }
    return raw, before;
  }

  lemma CandidatesNext(text: Text, states: seq<WorkflowState>, i: nat, raw: string)
    requires i < |states|
    ensures Candidates(text, states[i..], raw)
            == (if text.slug(states[i].name) == text.slug(raw) || text.slug(states[i].key) == text.slug(raw) then [states[i]] else [])
               + Candidates(text, states[i + 1..], raw)
  {
    assert states[i..][0] == states[i] && states[i..][1..] == states[i + 1..];
  }

  lemma NoCandidates(text: Text, raw: string)
    ensures Candidates(text, [], raw) == []
  {
  }

  method ReadSpans(fields: seq<FlatField>, formula: Calc, before: seq<Change>)
    returns (fixed: Calc, changes: seq<Change>)
    ensures var r := SpansIn(fields, formula); fixed == r.value && changes == before + r.log
    decreases formula, 1
  {
    hide FieldNamed;
    if !formula.Arith? {
      return formula, before;
    }
    if formula.op == Subtract && |formula.operands| == 2 && formula.operands[0].CalcField? && formula.operands[1].CalcField? {
      var to, from := formula.operands[0].key, formula.operands[1].key;
      var a, b := FieldNamed(fields, to), FieldNamed(fields, from);
      if a.Some? && b.Some? && a.value.kind == b.value.kind {
        if a.value.kind == Time {
          return Duration(from, to, "hours"), before + [SpanRead(to, from)];
        }
        if a.value.kind == Date {
          return Duration(from, to, "days"), before + [SpanRead(to, from)];
        }
      }
    }
    var operands;
    operands, changes := ReadAllSpans(fields, formula.operands, before);
    fixed := Arith(formula.op, operands);
  }

  method ReadAllSpans(fields: seq<FlatField>, formulas: seq<Calc>, before: seq<Change>)
    returns (fixed: seq<Calc>, changes: seq<Change>)
    ensures var r := SpansInAll(fields, formulas); fixed == r.value && changes == before + r.log
    decreases formulas, 0
  {
    hide SpansIn;
    fixed, changes := [], before;
    for i := 0 to |formulas|
      invariant fixed + SpansInAll(fields, formulas[i..]).value == SpansInAll(fields, formulas).value
      invariant changes + SpansInAll(fields, formulas[i..]).log == before + SpansInAll(fields, formulas).log
    {
      assert formulas[i..][0] == formulas[i] && formulas[i..][1..] == formulas[i + 1..];
      var formula;
      ghost var sofar := changes;
      formula, changes := ReadSpans(fields, formulas[i], changes);
      ghost var rest := SpansInAll(fields, formulas[i + 1..]);
      assert fixed + ([formula] + rest.value) == fixed + [formula] + rest.value;
      assert sofar + (SpansIn(fields, formulas[i]).log + rest.log) == changes + rest.log;
      fixed := fixed + [formula];
    }
    assert formulas[|formulas|..] == [];
  }

  /** One field, after it was regrouped. */
  method CorrectField(text: Text, fields: seq<FlatField>, field: FlatField, before: seq<Change>)
    returns (fixed: FlatField, changes: seq<Change>)
    ensures var r := FixField(text, fields, field); fixed == r.value && changes == before + r.log
  {
    hide FixWhen, SpansIn;
    fixed, changes := field, before;
    if field.hasChildren && field.kind != RepeatingGroup {
      fixed, changes := field.(kind := RepeatingGroup), before + [MadeGroup(field.key)];
    }
    var when;
    when, changes := CorrectWhen(text, fields, fixed.requiredWhen, changes);
    fixed := fixed.(requiredWhen := when);
    if fixed.kind == Calculated && fixed.compute.Some? {
      var formula := fixed.compute.value;
      if formula.Aggregate? {
        var where;
        where, changes := CorrectWhen(text, fields, formula.where, changes);
        formula := formula.(where := where);
      }
      formula, changes := ReadSpans(fields, formula, changes);
      fixed := fixed.(compute := Some(formula));
    }
    assert changes == before + FixField(text, fields, field).log;
  }

  /** Takes the key off every section of every page. */
  method DropKey(pages: seq<Page>, key: string) returns (fixed: seq<Page>)
    ensures fixed == DropFromPages(pages, key)
  {
    hide DropFromSections;
    fixed := [];
    for i := 0 to |pages|
      invariant fixed + DropFromPages(pages[i..], key) == DropFromPages(pages, key)
    {
      assert pages[i..][0] == pages[i] && pages[i..][1..] == pages[i + 1..];
      var sections := DropFromAll(pages[i].sections, key);
      fixed := fixed + [pages[i].(sections := sections)];
    }
    assert pages[|pages|..] == [];
  }

  method DropFromAll(sections: seq<Section>, key: string) returns (fixed: seq<Section>)
    ensures fixed == DropFromSections(sections, key)
  {
    hide Dropped;
    fixed := [];
    for i := 0 to |sections|
      invariant fixed + DropFromSections(sections[i..], key) == DropFromSections(sections, key)
    {
      assert sections[i..][0] == sections[i] && sections[i..][1..] == sections[i + 1..];
      var section := sections[i];
      if key in section.fields {
        var kept := DropAll(section.fields, key);
        section := section.(fields := kept, widths := section.widths - {key});
      }
      fixed := fixed + [section];
    }
    assert sections[|sections|..] == [];
  }

  /** `fields.filter`. */
  method DropAll(keys: seq<string>, key: string) returns (kept: seq<string>)
    ensures kept == Dropped(keys, key)
  {
    hide Dropped;
    kept := [];
    assert keys[0..] == keys;
    for i := 0 to |keys|
      invariant kept + Dropped(keys[i..], key) == Dropped(keys, key)
    {
      DroppedNext(keys, i, key);
      Regroup(kept, if keys[i] == key then [] else [keys[i]], Dropped(keys[i + 1..], key));
      if keys[i] != key {
        kept := kept + [keys[i]];
      }
    }
    assert keys[|keys|..] == [];
    DroppedNone(key);
  }

  lemma DroppedNext(keys: seq<string>, i: nat, key: string)
    requires i < |keys|
    ensures Dropped(keys[i..], key) == (if keys[i] == key then [] else [keys[i]]) + Dropped(keys[i + 1..], key)
  {
    assert keys[i..][0] == keys[i] && keys[i..][1..] == keys[i + 1..];
  }

  lemma DroppedNone(key: string)
    ensures Dropped([], key) == []
  {
  }

  /** A text the runtime generates for the key is no question any more. */
  method Generate(input: Plan, key: string, before: seq<Change>) returns (plan: Plan, changes: seq<Change>)
    ensures var r := TakeReference(input, key); plan == r.value && changes == before + r.log
  {
    hide DropFromPages;
    plan, changes := input, before;
    var k := IndexNamed(plan.fields, key);
    if k < |plan.fields| && plan.fields[k].kind == ShortText && plan.fields[k].setBy != Some(System) {
      var pages := DropKey(plan.pages, key);
      plan := plan.(fields := plan.fields[k := plan.fields[k].(setBy := Some(System), required := false)], pages := pages);
      changes := changes + [Generated(key)];
    }
  }

  method ResolveEnds(text: Text, states: seq<WorkflowState>, ts: seq<Transition>, before: seq<Change>)
    returns (fixed: seq<Transition>, changes: seq<Change>)
    ensures var r := MapLog(EndsFixer(text, states), ts); fixed == r.value && changes == before + r.log
  {
    hide StateKey, Underway, MapLog;
    fixed, changes := ts, before;
    UnderwayStarts(EndsFixer(text, states), ts, before);
    for i := 0 to |ts|
      invariant Underway(EndsFixer(text, states), ts, i, fixed, before, changes)
    {
      UnderwayNext(EndsFixer(text, states), ts, i, fixed, before, changes);
      ghost var sofar := changes;
      var from, to;
      from, changes := ResolveState(text, states, fixed[i].from, changes);
      to, changes := ResolveState(text, states, fixed[i].to, changes);
      assert changes == sofar + FixEnds(text, states, fixed[i]).log;
      fixed := fixed[i := fixed[i].(from := from, to := to)];
    }
    UnderwayEnds(EndsFixer(text, states), ts, fixed, before, changes);
  }

  method FixGuards(text: Text, fields: seq<FlatField>, ts: seq<Transition>, before: seq<Change>)
    returns (fixed: seq<Transition>, changes: seq<Change>)
    ensures var r := MapLog(GuardFixer(text, fields), ts); fixed == r.value && changes == before + r.log
  {
    hide FixWhen, Underway, MapLog;
    fixed, changes := ts, before;
    UnderwayStarts(GuardFixer(text, fields), ts, before);
    for i := 0 to |ts|
      invariant Underway(GuardFixer(text, fields), ts, i, fixed, before, changes)
    {
      UnderwayNext(GuardFixer(text, fields), ts, i, fixed, before, changes);
      var when;
      when, changes := CorrectWhen(text, fields, fixed[i].when, changes);
      fixed := fixed[i := fixed[i].(when := when)];
    }
    UnderwayEnds(GuardFixer(text, fields), ts, fixed, before, changes);
  }

  method FixSections(text: Text, fields: seq<FlatField>, sections: seq<Section>, before: seq<Change>)
    returns (fixed: seq<Section>, changes: seq<Change>)
    ensures var r := MapLog(SectionFixer(text, fields), sections); fixed == r.value && changes == before + r.log
  {
    hide FixWhen, Underway, MapLog;
    fixed, changes := sections, before;
    UnderwayStarts(SectionFixer(text, fields), sections, before);
    for i := 0 to |sections|
      invariant Underway(SectionFixer(text, fields), sections, i, fixed, before, changes)
    {
      UnderwayNext(SectionFixer(text, fields), sections, i, fixed, before, changes);
      var when;
      when, changes := CorrectWhen(text, fields, fixed[i].visibleWhen, changes);
      fixed := fixed[i := fixed[i].(visibleWhen := when)];
    }
    UnderwayEnds(SectionFixer(text, fields), sections, fixed, before, changes);
  }

  method FixPages(text: Text, fields: seq<FlatField>, pages: seq<Page>, before: seq<Change>)
    returns (fixed: seq<Page>, changes: seq<Change>)
    ensures var r := MapLog(PageFixer(text, fields), pages); fixed == r.value && changes == before + r.log
  {
    hide FixWhen, Underway, MapLog;
    fixed, changes := pages, before;
    UnderwayStarts(PageFixer(text, fields), pages, before);
    for i := 0 to |pages|
      invariant Underway(PageFixer(text, fields), pages, i, fixed, before, changes)
    {
      UnderwayNext(PageFixer(text, fields), pages, i, fixed, before, changes);
      ghost var so := changes;
      var page := fixed[i];
      var when;
      when, changes := CorrectWhen(text, fields, page.visibleWhen, changes);
      var sections;
      sections, changes := FixSections(text, fields, page.sections, changes);
      fixed := fixed[i := page.(visibleWhen := when, sections := sections)];
      assert changes == so + FixPage(text, fields, page).log;
    }
    UnderwayEnds(PageFixer(text, fields), pages, fixed, before, changes);
  }

  method FixSkips(text: Text, fields: seq<FlatField>, skips: seq<Option<Expr>>, before: seq<Change>)
    returns (fixed: seq<Option<Expr>>, changes: seq<Change>)
    ensures var r := MapLog(WhenFixer(text, fields), skips); fixed == r.value && changes == before + r.log
  {
    hide FixWhen, Underway, MapLog;
    fixed, changes := skips, before;
    UnderwayStarts(WhenFixer(text, fields), skips, before);
    for i := 0 to |skips|
      invariant Underway(WhenFixer(text, fields), skips, i, fixed, before, changes)
    {
      UnderwayNext(WhenFixer(text, fields), skips, i, fixed, before, changes);
      var when;
      when, changes := CorrectWhen(text, fields, fixed[i], changes);
      fixed := fixed[i := when];
    }
    UnderwayEnds(WhenFixer(text, fields), skips, fixed, before, changes);
  }

  /** Statuses first, then every place a condition can live, one after another. */
  method Reword(text: Text, input: Plan) returns (plan: Plan, changes: seq<Change>)
    ensures Logged(plan, changes) == Reworded(text, input)
  {
    hide MapLog, StateKey;
    var transitions, pages, skips;
    transitions, changes := ResolveEnds(text, input.states, input.transitions, []);
    var completion;
    completion, changes := ResolveState(text, input.states, input.completion, changes);
    transitions, changes := FixGuards(text, input.fields, transitions, changes);
    pages, changes := FixPages(text, input.fields, input.pages, changes);
    skips, changes := FixSkips(text, input.fields, input.skips, changes);
    plan := input.(transitions := transitions, completion := completion, pages := pages, skips := skips);
    assert changes == Reworded(text, input).log;
  }

  method CollectReferences(ts: seq<Transition>) returns (keys: seq<string>)
    ensures keys == ReferencesOf(ts)
  {
    keys := [];
    for i := 0 to |ts|
      invariant keys == ReferencesOf(ts[..i])
    {
      assert ts[..i + 1][..i] == ts[..i];
      keys := keys + ts[i].references;
    }
    assert ts[..|ts|] == ts;
  }

  method NormalizeBlueprint(text: Text, input: Plan) returns (plan: Plan, changes: seq<Change>)
    ensures Logged(plan, changes) == Normalized(text, input)
  {
    hide Reworded, FixField, ReferencesOf, TakeReference;
    plan, changes := Reword(text, input);
    ghost var words := Reworded(text, input);
    RewordedKeepsFields(text, input);
    for i := 0 to |input.fields|
      invariant plan == words.value.(fields := FixFields(text, input.fields, i).value)
      invariant changes == words.log + FixFields(text, input.fields, i).log
    {
      var field := plan.fields[i];
      var group := if field.hasChildren then field.(kind := RepeatingGroup) else field;
      plan := plan.(fields := plan.fields[i := group]);
      var fixed;
      fixed, changes := CorrectField(text, plan.fields, field, changes);
      plan := plan.(fields := plan.fields[i := fixed]);
    }
    var keys := CollectReferences(input.transitions);
    ghost var start := plan;
    ghost var logged := changes;
    for i := 0 to |keys|
      invariant plan == TakeReferences(start, keys[..i]).value
      invariant changes == logged + TakeReferences(start, keys[..i]).log
    {
      assert keys[..i + 1][..i] == keys[..i];
      plan, changes := Generate(plan, keys[i], changes);
    }
    assert keys[..|keys|] == keys;
  }

  lemma RewordedKeepsFields(text: Text, plan: Plan)
    ensures Reworded(text, plan).value.fields == plan.fields
    ensures Reworded(text, plan).value.states == plan.states
  {
  }

  // ------------------------------------------------- the log tells everything

  lemma OperandHonest(text: Text, field: FlatField, o: Operand)
    ensures Honest(FixOperand(text, field, o), o)
  {
  }

  lemma OperandsHonest(text: Text, field: FlatField, os: seq<Operand>)
    ensures Honest(MapLog(OperandFixer(text, field), os), os)
  {
    hide FixOperand;
    forall o | o in os ensures Honest(OperandFixer(text, field)(o), o) {
      OperandHonest(text, field, o);
    }
    MapHonest(OperandFixer(text, field), os);
  }

  lemma {:induction false} ExprHonest(text: Text, fields: seq<FlatField>, e: Expr)
    ensures Honest(FixExpr(text, fields, e), e)
    decreases e, 1
  {
    hide FixOperand, FieldNamed;
    match e {
      case And(es) => AllHonest(text, fields, es);
      case Or(es) => AllHonest(text, fields, es);
      case Not(x) => ExprHonest(text, fields, x);
      case Any(_, where) => ExprHonest(text, fields, where);
      case All(_, where) => ExprHonest(text, fields, where);
      case In(left, among) =>
        if Subject(fields, left).Some? {
          OperandsHonest(text, Subject(fields, left).value, among);
        }
      case NotIn(left, among) =>
        if Subject(fields, left).Some? {
          OperandsHonest(text, Subject(fields, left).value, among);
        }
      case Contains(left, right) =>
        if Subject(fields, left).Some? {
          OperandHonest(text, Subject(fields, left).value, right);
        }
      case Compare(_, left, right) =>
        if Subject(fields, left).Some? {
          OperandHonest(text, Subject(fields, left).value, right);
        }
      case _ =>
    }
  }

  lemma {:induction false} AllHonest(text: Text, fields: seq<FlatField>, es: seq<Expr>)
    ensures Honest(FixAll(text, fields, es), es)
    decreases es, 0
  {
    hide FixExpr;
    if es != [] {
      ExprHonest(text, fields, es[0]);
      AllHonest(text, fields, es[1..]);
      var (first, rest) := (FixExpr(text, fields, es[0]), FixAll(text, fields, es[1..]));
      assert es == [es[0]] + es[1..];
      assert [first.value] + rest.value == es <==> first.value == es[0] && rest.value == es[1..] by {
        assert ([first.value] + rest.value)[1..] == rest.value;
      }
    }
  }

  lemma WhenHonest(text: Text, fields: seq<FlatField>, when: Option<Expr>)
    ensures Honest(FixWhen(text, fields, when), when)
  {
    hide FixExpr;
    if when.Some? {
      ExprHonest(text, fields, when.value);
    }
  }

  lemma StateHonest(text: Text, states: seq<WorkflowState>, raw: string)
    ensures Honest(StateKey(text, states, raw), raw)
  {
    var matches := Candidates(text, states, raw);
    if !IsState(states, raw) && |matches| == 1 {
      assert matches[0] in states;
    }
  }

  lemma {:induction false} SpansHonest(fields: seq<FlatField>, formula: Calc)
    ensures Honest(SpansIn(fields, formula), formula)
    decreases formula, 1
  {
    hide IsSpan, FieldNamed;
    if formula.Arith? && !IsSpan(fields, formula) {
      AllSpansHonest(fields, formula.operands);
    }
  }

  lemma {:induction false} AllSpansHonest(fields: seq<FlatField>, formulas: seq<Calc>)
    ensures Honest(SpansInAll(fields, formulas), formulas)
    decreases formulas, 0
  {
    hide SpansIn;
    if formulas != [] {
      SpansHonest(fields, formulas[0]);
      AllSpansHonest(fields, formulas[1..]);
      var (first, rest) := (SpansIn(fields, formulas[0]), SpansInAll(fields, formulas[1..]));
      assert formulas == [formulas[0]] + formulas[1..];
      assert [first.value] + rest.value == formulas <==> first.value == formulas[0] && rest.value == formulas[1..] by {
        assert ([first.value] + rest.value)[1..] == rest.value;
      }
    }
  }

  lemma CalcHonest(text: Text, fields: seq<FlatField>, formula: Calc)
    ensures Honest(FixCalc(text, fields, formula), formula)
  {
    hide FixWhen;
    if formula.Aggregate? {
      WhenHonest(text, fields, formula.where);
    } else {
      SpansHonest(fields, formula);
    }
  }

  lemma FieldHonest(text: Text, fields: seq<FlatField>, f: FlatField)
    ensures Honest(FixField(text, fields, f), f)
  {
    hide FixWhen, FixCalc;
    var g := Grouped(f);
    WhenHonest(text, fields, g.requiredWhen);
    if g.compute.Some? {
      CalcHonest(text, fields, g.compute.value);
    }
  }

  lemma {:induction false} FieldsHonest(text: Text, fields: seq<FlatField>, n: nat)
    requires n <= |fields|
    ensures Honest(FixFields(text, fields, n), fields)
    ensures forall i :: n <= i < |fields| ==> FixFields(text, fields, n).value[i] == fields[i]
  {
    hide FixField;
    if n > 0 {
      FieldsHonest(text, fields, n - 1);
      var before := FixFields(text, fields, n - 1);
      var now := before.value[n - 1 := Grouped(before.value[n - 1])];
      FieldHonest(text, now, before.value[n - 1]);
      var r := FixField(text, now, before.value[n - 1]);
      var after := now[n - 1 := r.value];
      assert after[n - 1] == r.value;
      forall i | 0 <= i < |fields| && i != n - 1 ensures after[i] == before.value[i] {
      }
      assert before.value == fields && r.value == fields[n - 1] ==> after == fields;
      assert after == fields ==> before.value == fields;
    }
  }

  /** A taken reference is the system's, so some field differs. */
  lemma {:induction false} ReferencesHonest(plan: Plan, keys: seq<string>)
    ensures TakeReferences(plan, keys).log == [] ==> TakeReferences(plan, keys).value == plan
    ensures |TakeReferences(plan, keys).value.fields| == |plan.fields|
    ensures forall i :: 0 <= i < |plan.fields| ==>
              var (f, g) := (plan.fields[i], TakeReferences(plan, keys).value.fields[i]);
              g == f || (f.setBy != Some(System) && g == f.(setBy := Some(System), required := false))
    ensures TakeReferences(plan, keys).log != [] ==>
              exists i :: 0 <= i < |plan.fields| && plan.fields[i].setBy != Some(System)
                          && TakeReferences(plan, keys).value.fields[i].setBy == Some(System)
    ensures var after := TakeReferences(plan, keys).value;
            after == plan.(fields := after.fields, pages := after.pages)
    decreases |keys|
  {
    hide IndexNamed, DropFromPages;
    if keys != [] {
      var (init, last) := (keys[..|keys| - 1], keys[|keys| - 1]);
      ReferencesHonest(plan, init);
      var before := TakeReferences(plan, init);
      if NeedsSystem(before.value.fields, last) {
        var i := IndexNamed(before.value.fields, last);
        var after := TakeReferences(plan, keys).value;
        assert after.fields[i].setBy == Some(System);
        assert plan.fields[i].setBy != Some(System);
      }
    }
  }

  lemma SectionHonest(text: Text, fields: seq<FlatField>, s: Section)
    ensures Honest(FixSection(text, fields, s), s)
  {
    hide FixWhen;
    WhenHonest(text, fields, s.visibleWhen);
  }

  lemma PageHonest(text: Text, fields: seq<FlatField>, p: Page)
    ensures Honest(FixPage(text, fields, p), p)
  {
    hide FixWhen, FixSection, MapLog;
    WhenHonest(text, fields, p.visibleWhen);
    forall s | s in p.sections ensures Honest(SectionFixer(text, fields)(s), s) {
      SectionHonest(text, fields, s);
    }
    MapHonest(SectionFixer(text, fields), p.sections);
  }

  lemma EndsHonest(text: Text, states: seq<WorkflowState>, t: Transition)
    ensures Honest(FixEnds(text, states, t), t)
  {
    hide StateKey;
    StateHonest(text, states, t.from);
    StateHonest(text, states, t.to);
  }

  lemma TransitionsHonest(text: Text, plan: Plan)
    ensures var ends := MapLog(EndsFixer(text, plan.states), plan.transitions);
            var guards := MapLog(GuardFixer(text, plan.fields), ends.value);
            ends.log + guards.log == [] <==> guards.value == plan.transitions
  {
    hide FixEnds, FixGuard;
    var ends := MapLog(EndsFixer(text, plan.states), plan.transitions);
    forall t | t in plan.transitions ensures Honest(EndsFixer(text, plan.states)(t), t) {
      EndsHonest(text, plan.states, t);
    }
    MapHonest(EndsFixer(text, plan.states), plan.transitions);
    forall t | t in ends.value ensures Honest(GuardFixer(text, plan.fields)(t), t) {
      GuardHonest(text, plan.fields, t);
    }
    MapHonest(GuardFixer(text, plan.fields), ends.value);
    GuardsKeepEnds(text, plan.fields, ends.value);
    EndsKeepGuards(text, plan.states, plan.transitions);
    var guards := MapLog(GuardFixer(text, plan.fields), ends.value);
    if guards.value == plan.transitions {
      forall i | 0 <= i < |plan.transitions| ensures ends.value[i] == plan.transitions[i] {
        assert guards.value[i].from == ends.value[i].from && ends.value[i].when == plan.transitions[i].when;
      }
      assert ends.value == plan.transitions;
    }
  }

  lemma GuardHonest(text: Text, fields: seq<FlatField>, t: Transition)
    ensures Honest(FixGuard(text, fields, t), t)
  {
    hide FixWhen;
    WhenHonest(text, fields, t.when);
  }

  lemma {:induction false} GuardsKeepEnds(text: Text, fields: seq<FlatField>, ts: seq<Transition>)
    ensures forall i :: 0 <= i < |ts| ==>
              var t := MapLog(GuardFixer(text, fields), ts).value[i];
              t.from == ts[i].from && t.to == ts[i].to && t.references == ts[i].references
  {
    if ts != [] {
      GuardsKeepEnds(text, fields, ts[..|ts| - 1]);
    }
  }

  lemma {:induction false} EndsKeepGuards(text: Text, states: seq<WorkflowState>, ts: seq<Transition>)
    ensures forall i :: 0 <= i < |ts| ==>
              var t := MapLog(EndsFixer(text, states), ts).value[i];
              t.when == ts[i].when && t.references == ts[i].references
  {
    if ts != [] {
      EndsKeepGuards(text, states, ts[..|ts| - 1]);
    }
  }

  lemma RewordedHonest(text: Text, plan: Plan)
    ensures Honest(Reworded(text, plan), plan)
  {
    hide MapLog, StateKey;
    TransitionsHonest(text, plan);
    StateHonest(text, plan.states, plan.completion);
    forall p | p in plan.pages ensures Honest(PageFixer(text, plan.fields)(p), p) {
      PageHonest(text, plan.fields, p);
    }
    MapHonest(PageFixer(text, plan.fields), plan.pages);
    forall w | w in plan.skips ensures Honest(WhenFixer(text, plan.fields)(w), w) {
      WhenHonest(text, plan.fields, w);
    }
    MapHonest(WhenFixer(text, plan.fields), plan.skips);
  }

  /** Going through the fields regroups some and rewords their conditions, no more. */
  lemma {:induction false} FieldsKeepTheRest(text: Text, fields: seq<FlatField>, n: nat)
    requires n <= |fields|
    ensures forall i :: 0 <= i < |fields| ==>
              var (f, g) := (fields[i], FixFields(text, fields, n).value[i]);
              g == f.(kind := if i < n then Grouped(f).kind else f.kind, requiredWhen := g.requiredWhen, compute := g.compute)
  {
    hide FixWhen, FixCalc;
    if n > 0 {
      FieldsKeepTheRest(text, fields, n - 1);
    }
  }

  /** The change list is empty exactly when the output equals the input. */
  lemma LogIsComplete(text: Text, plan: Plan)
    ensures Honest(Normalized(text, plan), plan)
  {
    hide Reworded, FixFields, TakeReferences, ReferencesOf;
    var words := Reworded(text, plan);
    var fields := FixFields(text, plan.fields, |plan.fields|);
    var middle := words.value.(fields := fields.value);
    var refs := TakeReferences(middle, ReferencesOf(plan.transitions));
    RewordedHonest(text, plan);
    RewordedKeepsFields(text, plan);
    FieldsHonest(text, plan.fields, |plan.fields|);
    FieldsKeepTheRest(text, plan.fields, |plan.fields|);
    ReferencesHonest(middle, ReferencesOf(plan.transitions));
    if refs.log != [] {
      var i :| 0 <= i < |middle.fields| && middle.fields[i].setBy != Some(System) && refs.value.fields[i].setBy == Some(System);
      assert plan.fields[i].setBy == middle.fields[i].setBy;
      assert refs.value != plan;
    }
  }

  // ------------------------------------- a second pass has nothing left to do

  predicate Quiet<T(==)>(r: Logged<T>, before: T) {
    r == Logged(before, [])
  }

  /** A string no yes/no word explains but one of the field's choices would. */
  predicate ReadsBothWays(text: Text, f: FlatField, raw: string) {
    text.word(raw) !in YES && text.word(raw) !in NO && !IsChoice(f.choices, raw) && Matching(text, f.choices, raw).Some?
  }

  /** A yes/no field about to become a group, whose choices a condition may be written against. */
  ghost predicate Wavers(text: Text, f: FlatField) {
    YesNoLike(f.kind) && f.hasChildren && exists raw: string :: ReadsBothWays(text, f, raw)
  }

  /** No field that conditions can see wavers. */
  ghost predicate Steady(text: Text, fields: seq<FlatField>) {
    forall f :: f in fields && FieldNamed(fields, f.key) == Some(f) ==> !Wavers(text, f)
  }

  predicate Stable(text: Text, plan: Plan) {
    Quiet(Normalized(text, Normalized(text, plan).value), Normalized(text, plan).value)
  }

  /** The same field later in the pass: perhaps regrouped. */
  predicate Later(f: FlatField, g: FlatField) {
    && g.key == f.key && g.choices == f.choices && g.hasChildren == f.hasChildren
    && (g.kind == f.kind || (f.hasChildren && g.kind == RepeatingGroup))
  }

  predicate AllLater(fields: seq<FlatField>, after: seq<FlatField>) {
    |fields| == |after| && forall i :: 0 <= i < |fields| ==> Later(fields[i], after[i])
  }

  lemma {:induction false} NamedLater(fields: seq<FlatField>, after: seq<FlatField>, key: string)
    requires AllLater(fields, after)
    ensures match FieldNamed(fields, key)
            case None => FieldNamed(after, key) == None
            case Some(f) => f in fields && f.key == key && FieldNamed(after, key).Some? && Later(f, FieldNamed(after, key).value)
  {
    if fields != [] {
      NamedLater(fields[..|fields| - 1], after[..|after| - 1], key);
    }
  }

  lemma {:induction false} MatchedIsChoice(text: Text, choices: seq<Choice>, raw: string)
    requires Matching(text, choices, raw).Some?
    ensures IsChoice(choices, Matching(text, choices, raw).value.value)
  {
    if Matching(text, choices, raw).value != choices[0] {
      MatchedIsChoice(text, choices[1..], raw);
      var c :| c in choices[1..] && c.value == Matching(text, choices, raw).value.value;
      assert c in choices;
    }
  }

  lemma LiteralSettles(text: Text, f: FlatField, g: FlatField, raw: Value)
    requires Later(f, g) && !Wavers(text, f)
    ensures LiteralFor(text, g, LiteralFor(text, f, raw)) == LiteralFor(text, f, raw)
  {
    if raw.Str? {
      assert !ReadsBothWays(text, f, raw.s) || !YesNoLike(f.kind) || !f.hasChildren;
      if Matching(text, f.choices, raw.s).Some? {
        MatchedIsChoice(text, f.choices, raw.s);
      }
    }
  }

  lemma OperandSettles(text: Text, f: FlatField, g: FlatField, o: Operand)
    requires Later(f, g) && !Wavers(text, f)
    ensures Quiet(FixOperand(text, g, FixOperand(text, f, o).value), FixOperand(text, f, o).value)
  {
    hide LiteralFor, Wavers;
    if o.Literal? {
      LiteralSettles(text, f, g, o.value);
    }
  }

  lemma OperandsSettle(text: Text, f: FlatField, g: FlatField, os: seq<Operand>)
    requires Later(f, g) && !Wavers(text, f)
    ensures var once := MapLog(OperandFixer(text, f), os).value;
            Quiet(MapLog(OperandFixer(text, g), once), once)
  {
    hide FixOperand, Wavers;
    var once := MapLog(OperandFixer(text, f), os).value;
    MapValues(OperandFixer(text, f), os);
    forall o | o in once ensures OperandFixer(text, g)(o) == Logged(o, []) {
      var i :| 0 <= i < |once| && once[i] == o;
      OperandSettles(text, f, g, os[i]);
    }
    MapQuiet(OperandFixer(text, g), once);
  }

  lemma SubjectLater(text: Text, fields: seq<FlatField>, after: seq<FlatField>, left: Operand)
    requires AllLater(fields, after) && Unwavering(text, fields)
    ensures match Subject(fields, left)
            case None => Subject(after, left) == None
            case Some(f) => !Wavers(text, f) && Subject(after, left).Some? && Later(f, Subject(after, left).value)
  {
    hide Wavers;
    if left.FieldRef? {
      NamedLater(fields, after, left.key);
    }
  }

  /** As Steady, by key. */
  ghost predicate Unwavering(text: Text, fields: seq<FlatField>) {
    forall key :: FieldNamed(fields, key).Some? ==> !Wavers(text, FieldNamed(fields, key).value)
  }

  lemma {:induction false} ExprSettles(text: Text, fields: seq<FlatField>, after: seq<FlatField>, e: Expr)
    requires AllLater(fields, after) && Unwavering(text, fields)
    ensures Quiet(FixExpr(text, after, FixExpr(text, fields, e).value), FixExpr(text, fields, e).value)
    decreases e, 1
  {
    hide FixOperand, Subject, Wavers, Later, AllLater, Unwavering, MapLog;
    match e {
      case And(es) => AllSettle(text, fields, after, es);
      case Or(es) => AllSettle(text, fields, after, es);
      case Not(x) => ExprSettles(text, fields, after, x);
      case Any(_, where) => ExprSettles(text, fields, after, where);
      case All(_, where) => ExprSettles(text, fields, after, where);
      case In(left, among) =>
        SubjectLater(text, fields, after, left);
        if Subject(fields, left).Some? {
          OperandsSettle(text, Subject(fields, left).value, Subject(after, left).value, among);
        }
      case NotIn(left, among) =>
        SubjectLater(text, fields, after, left);
        if Subject(fields, left).Some? {
          OperandsSettle(text, Subject(fields, left).value, Subject(after, left).value, among);
        }
      case Contains(left, right) =>
        SubjectLater(text, fields, after, left);
        if Subject(fields, left).Some? {
          OperandSettles(text, Subject(fields, left).value, Subject(after, left).value, right);
        }
      case Compare(_, left, right) =>
        SubjectLater(text, fields, after, left);
        if Subject(fields, left).Some? {
          OperandSettles(text, Subject(fields, left).value, Subject(after, left).value, right);
        }
      case _ =>
    }
  }

  lemma {:induction false} AllSettle(text: Text, fields: seq<FlatField>, after: seq<FlatField>, es: seq<Expr>)
    requires AllLater(fields, after) && Unwavering(text, fields)
    ensures Quiet(FixAll(text, after, FixAll(text, fields, es).value), FixAll(text, fields, es).value)
    decreases es, 0
  {
    hide FixExpr, AllLater, Unwavering;
    if es != [] {
      ExprSettles(text, fields, after, es[0]);
      AllSettle(text, fields, after, es[1..]);
      var (first, rest) := (FixExpr(text, fields, es[0]), FixAll(text, fields, es[1..]));
      assert ([first.value] + rest.value)[1..] == rest.value;
    }
  }

  lemma WhenSettles(text: Text, fields: seq<FlatField>, after: seq<FlatField>, when: Option<Expr>)
    requires AllLater(fields, after) && Unwavering(text, fields)
    ensures Quiet(FixWhen(text, after, FixWhen(text, fields, when).value), FixWhen(text, fields, when).value)
  {
    hide FixExpr, AllLater, Unwavering;
    if when.Some? {
      ExprSettles(text, fields, after, when.value);
    }
  }

  lemma StateSettles(text: Text, states: seq<WorkflowState>, raw: string)
    ensures Quiet(StateKey(text, states, StateKey(text, states, raw).value), StateKey(text, states, raw).value)
  {
  }

  // Spans

  lemma SpanEarlier(fields: seq<FlatField>, after: seq<FlatField>, formula: Calc)
    requires AllLater(fields, after) && IsSpan(after, formula)
    ensures IsSpan(fields, formula)
  {
    NamedLater(fields, after, formula.operands[0].key);
    NamedLater(fields, after, formula.operands[1].key);
  }

  lemma {:induction false} SpansSettle(fields: seq<FlatField>, after: seq<FlatField>, formula: Calc)
    requires AllLater(fields, after)
    ensures Quiet(SpansIn(after, SpansIn(fields, formula).value), SpansIn(fields, formula).value)
    decreases formula, 1
  {
    hide FieldNamed, AllLater;
    if formula.Arith? && !IsSpan(fields, formula) {
      AllSpansSettle(fields, after, formula.operands);
      var once := SpansIn(fields, formula).value;
      if IsSpan(after, once) {
        SpanEarlier(fields, after, once);
        AllSpansAt(fields, formula.operands);
        assert false;
      }
    }
  }

  lemma {:induction false} AllSpansSettle(fields: seq<FlatField>, after: seq<FlatField>, formulas: seq<Calc>)
    requires AllLater(fields, after)
    ensures Quiet(SpansInAll(after, SpansInAll(fields, formulas).value), SpansInAll(fields, formulas).value)
    decreases formulas, 0
  {
    hide SpansIn, AllLater;
    if formulas != [] {
      SpansSettle(fields, after, formulas[0]);
      AllSpansSettle(fields, after, formulas[1..]);
      var (first, rest) := (SpansIn(fields, formulas[0]), SpansInAll(fields, formulas[1..]));
      assert ([first.value] + rest.value)[1..] == rest.value;
    }
  }

  lemma {:induction false} AllSpansAt(fields: seq<FlatField>, formulas: seq<Calc>)
    ensures |SpansInAll(fields, formulas).value| == |formulas|
    ensures forall i :: 0 <= i < |formulas| && SpansInAll(fields, formulas).value[i].CalcField? ==>
              SpansInAll(fields, formulas).value[i] == formulas[i]
  {
    hide IsSpan, FieldNamed;
    if formulas != [] {
      AllSpansAt(fields, formulas[1..]);
    }
  }

  lemma CalcSettles(text: Text, fields: seq<FlatField>, after: seq<FlatField>, formula: Calc)
    requires AllLater(fields, after) && Unwavering(text, fields)
    ensures Quiet(FixCalc(text, after, FixCalc(text, fields, formula).value), FixCalc(text, fields, formula).value)
  {
    hide FixWhen, AllLater, Unwavering, IsSpan, FieldNamed;
    if formula.Aggregate? {
      WhenSettles(text, fields, after, formula.where);
    } else {
      SpansSettle(fields, after, formula);
      SpansMakeNoAggregate(fields, formula);
    }
  }

  lemma SpansMakeNoAggregate(fields: seq<FlatField>, formula: Calc)
    ensures SpansIn(fields, formula).value.Aggregate? ==> formula.Aggregate?
  {
  }

  /** A field once fixed stays, whatever its setter and requirement become. */
  lemma FieldSettles(text: Text, fields: seq<FlatField>, after: seq<FlatField>, f: FlatField, setBy: Option<SetBy>, required: bool)
    requires AllLater(fields, after) && Unwavering(text, fields)
    ensures var once := FixField(text, fields, f).value.(setBy := setBy, required := required);
            Quiet(FixField(text, after, once), once)
  {
    hide FixWhen, FixCalc, AllLater, Unwavering;
    var g := Grouped(f);
    WhenSettles(text, fields, after, g.requiredWhen);
    if g.kind == Calculated && g.compute.Some? {
      CalcSettles(text, fields, after, g.compute.value);
    }
  }

  /** The fields as they stand when the i-th one's turn comes. */
  function Standing(text: Text, fields: seq<FlatField>, i: nat): seq<FlatField>
    requires i < |fields|
  {
    var before := FixFields(text, fields, i).value;
    before[i := Grouped(before[i])]
  }

  lemma {:induction false} FieldFixedAt(text: Text, fields: seq<FlatField>, n: nat, i: nat)
    requires i < n <= |fields|
    ensures FixFields(text, fields, n).value[i] == FixField(text, Standing(text, fields, i), fields[i]).value
  {
    hide FixField;
    if i < n - 1 {
      FieldFixedAt(text, fields, n - 1, i);
    } else {
      FieldsHonest(text, fields, i);
    }
  }

  lemma {:induction false} FieldsQuiet(text: Text, fields: seq<FlatField>, n: nat)
    requires n <= |fields|
    requires forall f :: f in fields ==> Quiet(FixField(text, fields, f), f) && Grouped(f) == f
    ensures Quiet(FixFields(text, fields, n), fields)
  {
    hide FixField, Grouped;
    if n > 0 {
      FieldsQuiet(text, fields, n - 1);
      var f := fields[n - 1];
      assert f in fields;
      assert fields[n - 1 := f] == fields;
    }
  }

  /** The fields after the whole pass: the references leave kinds and conditions as fixed. */
  lemma FinalFields(text: Text, plan: Plan)
    ensures var final := Normalized(text, plan).value.fields;
            && AllLater(plan.fields, final)
            && forall i :: 0 <= i < |final| ==>
                 && AllLater(Standing(text, plan.fields, i), final)
                 && AllLater(plan.fields, Standing(text, plan.fields, i))
                 && final[i] == FixField(text, Standing(text, plan.fields, i), plan.fields[i]).value
                                .(setBy := final[i].setBy, required := final[i].required)
  {
    hide Reworded, FixField, FixFields, TakeReferences, ReferencesOf;
    var n := |plan.fields|;
    var fixed := FixFields(text, plan.fields, n);
    var middle := Reworded(text, plan).value.(fields := fixed.value);
    ReferencesHonest(middle, ReferencesOf(plan.transitions));
    FieldsKeepTheRest(text, plan.fields, n);
    forall i | 0 <= i < n
      ensures var final := Normalized(text, plan).value.fields;
              && AllLater(Standing(text, plan.fields, i), final)
              && AllLater(plan.fields, Standing(text, plan.fields, i))
              && final[i] == FixField(text, Standing(text, plan.fields, i), plan.fields[i]).value
                             .(setBy := final[i].setBy, required := final[i].required)
    {
      FieldsKeepTheRest(text, plan.fields, i);
      FieldFixedAt(text, plan.fields, n, i);
    }
  }

  lemma {:induction false} UnwaveringLater(text: Text, fields: seq<FlatField>, after: seq<FlatField>)
    requires AllLater(fields, after) && Unwavering(text, fields)
    ensures Unwavering(text, after)
  {
    forall key | FieldNamed(after, key).Some? ensures !Wavers(text, FieldNamed(after, key).value) {
      NamedLater(fields, after, key);
      var (f, g) := (FieldNamed(fields, key).value, FieldNamed(after, key).value);
      if Wavers(text, g) {
        var raw :| ReadsBothWays(text, g, raw);
        assert ReadsBothWays(text, f, raw);
      }
    }
  }

  lemma SteadyByKey(text: Text, fields: seq<FlatField>)
    ensures Steady(text, fields) <==> Unwavering(text, fields)
  {
    hide Wavers;
    forall key | FieldNamed(fields, key).Some?
      ensures var f := FieldNamed(fields, key).value; f in fields && f.key == key
    {
      assert AllLater(fields, fields);
      NamedLater(fields, fields, key);
    }
  }

  lemma FieldsSettle(text: Text, plan: Plan)
    requires Unwavering(text, plan.fields)
    ensures var final := Normalized(text, plan).value.fields; Quiet(FixFields(text, final, |final|), final)
  {
    hide Normalized, FixField, FixFields, Standing, Unwavering, AllLater;
    var final := Normalized(text, plan).value.fields;
    FinalFields(text, plan);
    assert |final| == |plan.fields| by { LaterLength(plan.fields, final); }
    forall f | f in final ensures Quiet(FixField(text, final, f), f) && Grouped(f) == f {
      var i :| 0 <= i < |final| && final[i] == f;
      var standing := Standing(text, plan.fields, i);
      UnwaveringLater(text, plan.fields, standing);
      FieldSettles(text, standing, final, plan.fields[i], f.setBy, f.required);
      QuietIsGrouped(text, final, f);
    }
    FieldsQuiet(text, final, |final|);
  }

  lemma LaterLength(fields: seq<FlatField>, after: seq<FlatField>)
    requires AllLater(fields, after)
    ensures |fields| == |after|
  {
  }

  lemma QuietIsGrouped(text: Text, fields: seq<FlatField>, f: FlatField)
    requires Quiet(FixField(text, fields, f), f)
    ensures Grouped(f) == f
  {
  }

  // The references

  /** One key per field, so the later list resolves each key where the earlier did. */
  lemma {:induction false} SameIndex(fields: seq<FlatField>, after: seq<FlatField>, key: string)
    requires |fields| == |after| && forall i :: 0 <= i < |fields| ==> fields[i].key == after[i].key
    ensures IndexNamed(fields, key) == IndexNamed(after, key)
  {
    if fields != [] {
      SameIndex(fields[..|fields| - 1], after[..|after| - 1], key);
    }
  }

  lemma {:induction false} ReferencesSettle(plan: Plan, keys: seq<string>)
    ensures forall key :: key in keys ==> !NeedsSystem(TakeReferences(plan, keys).value.fields, key)
    decreases |keys|
  {
    hide DropFromPages, IndexNamed;
    if keys != [] {
      var (init, last) := (keys[..|keys| - 1], keys[|keys| - 1]);
      ReferencesSettle(plan, init);
      var before := TakeReferences(plan, init).value.fields;
      var after := TakeReferences(plan, keys).value.fields;
      forall key | key in keys ensures !NeedsSystem(after, key) {
        SameIndex(before, after, key);
        assert key in init || key == last;
      }
    }
  }

  lemma {:induction false} ReferencesQuiet(plan: Plan, keys: seq<string>)
    requires forall key :: key in keys ==> !NeedsSystem(plan.fields, key)
    ensures Quiet(TakeReferences(plan, keys), plan)
    decreases |keys|
  {
    if keys != [] {
      ReferencesQuiet(plan, keys[..|keys| - 1]);
    }
  }

  lemma {:induction false} SameReferences(ts: seq<Transition>, us: seq<Transition>)
    requires |ts| == |us| && forall i :: 0 <= i < |ts| ==> ts[i].references == us[i].references
    ensures ReferencesOf(ts) == ReferencesOf(us)
  {
    if ts != [] {
      SameReferences(ts[..|ts| - 1], us[..|us| - 1]);
    }
  }

  // The pages

  predicate PageQuiet(text: Text, fields: seq<FlatField>, p: Page) {
    && Quiet(FixWhen(text, fields, p.visibleWhen), p.visibleWhen)
    && forall i :: 0 <= i < |p.sections| ==> Quiet(FixWhen(text, fields, p.sections[i].visibleWhen), p.sections[i].visibleWhen)
  }

  predicate PagesQuiet(text: Text, fields: seq<FlatField>, ps: seq<Page>) {
    forall i :: 0 <= i < |ps| ==> PageQuiet(text, fields, ps[i])
  }

  lemma PagesFixQuietly(text: Text, fields: seq<FlatField>, ps: seq<Page>)
    requires PagesQuiet(text, fields, ps)
    ensures Quiet(MapLog(PageFixer(text, fields), ps), ps)
  {
    hide FixWhen, MapLog;
    forall p | p in ps ensures PageFixer(text, fields)(p) == Logged(p, []) {
      assert PageQuiet(text, fields, p);
      MapQuiet(SectionFixer(text, fields), p.sections);
    }
    MapQuiet(PageFixer(text, fields), ps);
  }

  lemma PageSettles(text: Text, fields: seq<FlatField>, after: seq<FlatField>, p: Page)
    requires AllLater(fields, after) && Unwavering(text, fields)
    ensures PageQuiet(text, after, FixPage(text, fields, p).value)
  {
    hide FixWhen, AllLater, Unwavering, MapLog;
    var once := FixPage(text, fields, p).value;
    WhenSettles(text, fields, after, p.visibleWhen);
    MapValues(SectionFixer(text, fields), p.sections);
    forall i | 0 <= i < |once.sections|
      ensures Quiet(FixWhen(text, after, once.sections[i].visibleWhen), once.sections[i].visibleWhen)
    {
      WhenSettles(text, fields, after, p.sections[i].visibleWhen);
    }
  }

  lemma PagesSettle(text: Text, fields: seq<FlatField>, after: seq<FlatField>, ps: seq<Page>)
    requires AllLater(fields, after) && Unwavering(text, fields)
    ensures PagesQuiet(text, after, MapLog(PageFixer(text, fields), ps).value)
  {
    hide FixPage, AllLater, Unwavering, PageQuiet;
    MapValues(PageFixer(text, fields), ps);
    forall i | 0 <= i < |ps| ensures PageQuiet(text, after, MapLog(PageFixer(text, fields), ps).value[i]) {
      PageSettles(text, fields, after, ps[i]);
    }
  }

  lemma {:induction false} SectionsKeepConditions(sections: seq<Section>, key: string)
    ensures |DropFromSections(sections, key)| == |sections|
    ensures forall i :: 0 <= i < |sections| ==> DropFromSections(sections, key)[i].visibleWhen == sections[i].visibleWhen
  {
    if sections != [] {
      SectionsKeepConditions(sections[1..], key);
    }
  }

  lemma {:induction false} DroppingKeepsQuiet(text: Text, fields: seq<FlatField>, ps: seq<Page>, key: string)
    requires PagesQuiet(text, fields, ps)
    ensures PagesQuiet(text, fields, DropFromPages(ps, key))
  {
    hide FixWhen;
    if ps != [] {
      assert PagesQuiet(text, fields, ps[1..]) by { hide PageQuiet; }
      DroppingKeepsQuiet(text, fields, ps[1..], key);
      SectionsKeepConditions(ps[0].sections, key);
      assert PageQuiet(text, fields, ps[0]);
      assert PageQuiet(text, fields, DropFromPages(ps, key)[0]);
    }
  }

  lemma {:induction false} ReferencesKeepQuiet(text: Text, fields: seq<FlatField>, plan: Plan, keys: seq<string>)
    requires PagesQuiet(text, fields, plan.pages)
    ensures PagesQuiet(text, fields, TakeReferences(plan, keys).value.pages)
    decreases |keys|
  {
    hide PagesQuiet;
    if keys != [] {
      ReferencesKeepQuiet(text, fields, plan, keys[..|keys| - 1]);
      DroppingKeepsQuiet(text, fields, TakeReferences(plan, keys[..|keys| - 1]).value.pages, keys[|keys| - 1]);
    }
  }

  // The transitions

  lemma TransitionsSettle(text: Text, states: seq<WorkflowState>, fields: seq<FlatField>, after: seq<FlatField>, ts: seq<Transition>)
    requires AllLater(fields, after) && Unwavering(text, fields)
    ensures var once := MapLog(GuardFixer(text, fields), MapLog(EndsFixer(text, states), ts).value).value;
            && Quiet(MapLog(EndsFixer(text, states), once), once)
            && Quiet(MapLog(GuardFixer(text, after), once), once)
            && ReferencesOf(once) == ReferencesOf(ts)
  {
    hide FixWhen, StateKey, AllLater, Unwavering, MapLog, ReferencesOf;
    var ends := MapLog(EndsFixer(text, states), ts).value;
    var once := MapLog(GuardFixer(text, fields), ends).value;
    MapValues(EndsFixer(text, states), ts);
    MapValues(GuardFixer(text, fields), ends);
    forall t | t in once ensures EndsFixer(text, states)(t) == Logged(t, []) && GuardFixer(text, after)(t) == Logged(t, []) {
      var i :| 0 <= i < |once| && once[i] == t;
      StateSettles(text, states, ts[i].from);
      StateSettles(text, states, ts[i].to);
      WhenSettles(text, fields, after, ts[i].when);
    }
    MapQuiet(EndsFixer(text, states), once);
    MapQuiet(GuardFixer(text, after), once);
    SameReferences(once, ts);
  }

  lemma SkipsSettle(text: Text, fields: seq<FlatField>, after: seq<FlatField>, skips: seq<Option<Expr>>)
    requires AllLater(fields, after) && Unwavering(text, fields)
    ensures var once := MapLog(WhenFixer(text, fields), skips).value;
            Quiet(MapLog(WhenFixer(text, after), once), once)
  {
    hide FixWhen, AllLater, Unwavering, MapLog;
    var once := MapLog(WhenFixer(text, fields), skips).value;
    MapValues(WhenFixer(text, fields), skips);
    forall w | w in once ensures WhenFixer(text, after)(w) == Logged(w, []) {
      var i :| 0 <= i < |once| && once[i] == w;
      WhenSettles(text, fields, after, skips[i]);
    }
    MapQuiet(WhenFixer(text, after), once);
  }

  /** What the references leave of the reworded plan. */
  lemma NormalizedParts(text: Text, plan: Plan)
    ensures var (words, final) := (Reworded(text, plan).value, Normalized(text, plan).value);
            final == words.(fields := final.fields, pages := final.pages)
  {
    hide Reworded, FixFields, TakeReferences, ReferencesOf;
    var middle := Reworded(text, plan).value.(fields := FixFields(text, plan.fields, |plan.fields|).value);
    ReferencesHonest(middle, ReferencesOf(plan.transitions));
  }

  lemma RewordingSettles(text: Text, plan: Plan)
    requires Unwavering(text, plan.fields)
    ensures var final := Normalized(text, plan).value;
            Quiet(Reworded(text, final), final) && ReferencesOf(final.transitions) == ReferencesOf(plan.transitions)
  {
    hide Normalized, MapLog, StateKey, AllLater, Unwavering, ReferencesOf, FixFields, TakeReferences, FixField, Standing;
    var final := Normalized(text, plan).value;
    NormalizedParts(text, plan);
    FinalFields(text, plan);
    TransitionsSettle(text, plan.states, plan.fields, final.fields, plan.transitions);
    StateSettles(text, plan.states, plan.completion);
    SkipsSettle(text, plan.fields, final.fields, plan.skips);
    FinalPagesQuiet(text, plan);
    PagesFixQuietly(text, final.fields, final.pages);
  }

  lemma FinalPagesQuiet(text: Text, plan: Plan)
    requires Unwavering(text, plan.fields)
    ensures var final := Normalized(text, plan).value; PagesQuiet(text, final.fields, final.pages)
  {
    hide MapLog, StateKey, AllLater, Unwavering, ReferencesOf, FixFields, TakeReferences, FixField, Standing, PagesQuiet;
    var final := Normalized(text, plan).value;
    FinalFields(text, plan);
    PagesSettle(text, plan.fields, final.fields, plan.pages);
    var middle := Reworded(text, plan).value.(fields := FixFields(text, plan.fields, |plan.fields|).value);
    ReferencesKeepQuiet(text, final.fields, middle, ReferencesOf(plan.transitions));
  }

  /** Normalizing the output again changes nothing. */
  lemma SecondPassSettles(text: Text, plan: Plan)
    requires Steady(text, plan.fields)
    ensures Stable(text, plan)
  {
    SteadyByKey(text, plan.fields);
    var final := Normalized(text, plan).value;
    RewordingSettles(text, plan);
    FieldsSettle(text, plan);
    hide Reworded, FixFields, TakeReferences, ReferencesOf, Steady, Unwavering, NeedsSystem;
    var keys := ReferencesOf(plan.transitions);
    var middle := Reworded(text, plan).value.(fields := FixFields(text, plan.fields, |plan.fields|).value);
    ReferencesSettle(middle, keys);
    ReferencesQuiet(final, keys);
  }

  function WrittenAgainst(key: string, raw: string): Option<Expr> {
    Some(Compare(Eq, FieldRef(key), Literal(Str(raw))))
  }

  /** Two states, a route, a page, and one condition, against a wavering field: it is read only once that is a group. */
  function WaveringPlan(fields: seq<FlatField>, key: string, raw: string): Plan {
    Plan([WorkflowState("open", "Open"), WorkflowState("done", "Done")], [Transition("open", "done", None, [])], "done",
         [Page("form", [Section("questions", [key], map[], None)], None)], [WrittenAgainst(key, raw)], fields)
  }

  lemma WaveringIsUnstable(text: Text, fields: seq<FlatField>, key: string, raw: string)
    requires FieldNamed(fields, key).Some?
    requires var f := FieldNamed(fields, key).value; YesNoLike(f.kind) && f.hasChildren && ReadsBothWays(text, f, raw)
    ensures !Stable(text, WaveringPlan(fields, key, raw))
  {
    var plan := WaveringPlan(fields, key, raw);
    var final := Normalized(text, plan).value;
    RegroupedByKey(text, plan, key);
    WordReadOnceGrouped(text, fields, key, raw);
    WordReadOnceGrouped(text, final.fields, key, raw);
    SkipsAreReworded(text, plan);
    SkipsAreReworded(text, final);
    hide Normalized, FixWhen, FieldNamed, MapLog, IsChoice, Matching;
    MapOne(WhenFixer(text, fields), plan.skips[0]);
    MapOne(WhenFixer(text, final.fields), plan.skips[0]);
  }

  lemma MapOne<T>(f: T -> Logged<T>, x: T)
    ensures MapLog(f, [x]) == Logged([f(x).value], f(x).log)
  {
    assert [x][..0] == [];
    assert MapLog(f, []) == Logged([], []);
    assert [] + [f(x).value] == [f(x).value] && [] + f(x).log == f(x).log;
  }

  lemma WordReadOnceGrouped(text: Text, fields: seq<FlatField>, key: string, raw: string)
    requires FieldNamed(fields, key).Some?
    requires ReadsBothWays(text, FieldNamed(fields, key).value, raw)
    ensures var f := FieldNamed(fields, key).value;
            var (seen, when) := (FixWhen(text, fields, WrittenAgainst(key, raw)), WrittenAgainst(key, raw));
            if YesNoLike(f.kind) then seen == Logged(when, []) else seen.log != []
  {
    var f := FieldNamed(fields, key).value;
    MatchedIsChoice(text, f.choices, raw);
    hide FieldNamed, Matching;
    assert FixOperand(text, f, Literal(Str(raw))).log == [] <==> YesNoLike(f.kind) by { hide IsChoice; ChoiceDiffers(f.choices, raw, Matching(text, f.choices, raw).value.value); }
  }

  lemma ChoiceDiffers(choices: seq<Choice>, raw: string, read: string)
    requires !IsChoice(choices, raw) && IsChoice(choices, read)
    ensures raw != read
  {
  }

  lemma SkipsAreReworded(text: Text, plan: Plan)
    ensures Normalized(text, plan).value.skips == MapLog(WhenFixer(text, plan.fields), plan.skips).value
    ensures Normalized(text, plan).log == [] ==> MapLog(WhenFixer(text, plan.fields), plan.skips).log == []
  {
    hide MapLog, FixFields, TakeReferences, ReferencesOf, StateKey;
    NormalizedParts(text, plan);
  }

  lemma RegroupedByKey(text: Text, plan: Plan, key: string)
    requires FieldNamed(plan.fields, key).Some? && FieldNamed(plan.fields, key).value.hasChildren
    ensures var (f, g) := (FieldNamed(plan.fields, key).value, FieldNamed(Normalized(text, plan).value.fields, key));
            g.Some? && g.value.kind == RepeatingGroup && g.value.choices == f.choices
  {
    hide Normalized, FixWhen, FixCalc, FixFields;
    var final := Normalized(text, plan).value.fields;
    FinalFields(text, plan);
    NamedLater(plan.fields, final, key);
    assert AllLater(final, final);
    NamedLater(final, final, key);
    var g := FieldNamed(final, key).value;
    var i :| 0 <= i < |final| && final[i] == g;
    assert g.kind == Grouped(plan.fields[i]).kind;
  }

  /** For which forms a second pass never finds anything: those where no visible field wavers. */
  lemma {:induction false} SettlesExactly(text: Text, fields: seq<FlatField>)
    ensures Steady(text, fields) <==> forall plan: Plan :: plan.fields == fields ==> Stable(text, plan)
  {
    hide Stable, WaveringPlan;
    if Steady(text, fields) {
      forall plan: Plan | plan.fields == fields ensures Stable(text, plan) {
        SecondPassSettles(text, plan);
      }
    } else {
      var f :| f in fields && FieldNamed(fields, f.key) == Some(f) && Wavers(text, f);
      var raw :| ReadsBothWays(text, f, raw);
      WaveringIsUnstable(text, fields, f.key, raw);
      assert WaveringPlan(fields, f.key, raw).fields == fields by { PlanFields(fields, f.key, raw); }
    }
  }

  lemma PlanFields(fields: seq<FlatField>, key: string, raw: string)
    ensures WaveringPlan(fields, key, raw).fields == fields
  {
  }

  /** In particular it never does when yes/no fields do not carry both choices and children. */
  lemma UnmixedSettles(text: Text, plan: Plan)
    requires forall f :: f in plan.fields && YesNoLike(f.kind) ==> f.choices == [] || !f.hasChildren
    ensures Stable(text, plan)
  {
    hide Stable;
    SecondPassSettles(text, plan);
  }

  // ------------------------------------- which forms those are, by their choices

  /** What trimming, lower-casing and replacing do with an underscore at the end of a text. */
  ghost predicate Trailing(text: Text) {
    forall s: string :: text.slug(s + "_") == text.slug(s) && text.word(s + "_") !in YES && text.word(s + "_") !in NO
  }

  function Underscored(s: string, n: nat): (t: string)
    ensures |t| == |s| + n
  {
    if n == 0 then s else Underscored(s, n - 1) + "_"
  }

  lemma {:induction false} UnderscoredReads(text: Text, s: string, n: nat)
    requires Trailing(text)
    ensures text.slug(Underscored(s, n)) == text.slug(s)
    ensures n > 0 ==> text.word(Underscored(s, n)) !in YES && text.word(Underscored(s, n)) !in NO
  {
    if n > 0 {
      UnderscoredReads(text, s, n - 1);
    }
  }

  /** Longer than every choice. */
  function Beyond(choices: seq<Choice>): (n: nat)
    ensures forall c :: c in choices ==> |c.value| < n
  {
    if choices == [] then 1
    else
      assert choices == [choices[0]] + choices[1..];
      var n := Beyond(choices[1..]);
      if |choices[0].value| < n then n else |choices[0].value| + 1
  }

  /** A yes/no field about to become a group wavers exactly when it has choices. */
  lemma WaversExactly(text: Text, f: FlatField)
    requires Trailing(text)
    ensures Wavers(text, f) <==> YesNoLike(f.kind) && f.hasChildren && f.choices != []
  {
    if f.choices != [] {
      var (s, n) := (f.choices[0].value, Beyond(f.choices));
      UnderscoredReads(text, s, n);
      assert ReadsBothWays(text, f, Underscored(s, n));
    }
  }

  /** A yes/no field that conditions can see has both choices and children. */
  predicate Mixed(fields: seq<FlatField>) {
    exists f :: f in fields && FieldNamed(fields, f.key) == Some(f) && YesNoLike(f.kind) && f.hasChildren && f.choices != []
  }

  /** One pass is enough for every plan with these fields if and only if none of them mixes the two. */
  lemma UnmixedExactly(text: Text, fields: seq<FlatField>)
    requires Trailing(text)
    ensures !Mixed(fields) <==> forall plan: Plan :: plan.fields == fields ==> Stable(text, plan)
  {
    hide Stable, Trailing, Wavers;
    SettlesExactly(text, fields);
    forall f ensures Wavers(text, f) <==> YesNoLike(f.kind) && f.hasChildren && f.choices != [] {
      WaversExactly(text, f);
    }
  }
}
