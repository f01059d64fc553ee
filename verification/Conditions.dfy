/**
 The typed condition language: what an expression means, which answers it reads,
 and the proof that it reads nothing else.
 */
module Conditions {
  import opened Values

  datatype ContextName = Now | Today | Actor | CurrentState

  datatype Operand = FieldRef(key: string) | Literal(value: Value) | Ambient(name: ContextName)

  datatype Comparison = Eq | Ne | Gt | Gte | Lt | Lte

  datatype Expr =
    | And(operands: seq<Expr>)
    | Or(operands: seq<Expr>)
    | Not(operand: Expr)
    | Compare(op: Comparison, left: Operand, right: Operand)
    | In(left: Operand, among: seq<Operand>)
    | NotIn(left: Operand, among: seq<Operand>)
    | Contains(left: Operand, right: Operand)
    | IsEmpty(left: Operand)
    | IsPresent(left: Operand)
    | Any(over: string, where: Expr)
    | All(over: string, where: Expr)

  /** `now` is the ISO-8601 text of the clock. */
  datatype Context = Context(answers: Answers, now: string, actor: Option<string>, state: Option<string>)

  function OrNull(s: Option<string>): Value {
    match s
    case Some(text) => Str(text)
    case None => Null
  }

  function Resolve(o: Operand, ctx: Context): Value {
    match o
    case Literal(v) => v
    case FieldRef(key) => Get(ctx.answers, key)
    case Ambient(Now) => Str(ctx.now)
    case Ambient(Today) => Str(if |ctx.now| < 10 then ctx.now else ctx.now[..10])
    case Ambient(Actor) => OrNull(ctx.actor)
    case Ambient(CurrentState) => OrNull(ctx.state)
  }

  /** A sign, or None when the two values are not comparable. */
  function Order(a: Value, b: Value): Option<int> {
    match (a, b)
    case (Num(x), Num(y)) => Some(if x == y then 0 else if x < y then -1 else 1)
    case (Str(x), Str(y)) => Some(if x == y then 0 else if TextLess(x, y) then -1 else 1)
    case _ => None
  }

  predicate CompareValues(op: Comparison, a: Value, b: Value) {
    match op
    case Eq => Same(a, b)
    case Ne => !Same(a, b)
    case _ =>
      match Order(a, b)
      case None => false
      case Some(sign) =>
        match op
        case Gt => sign > 0
        case Gte => sign >= 0
        case Lt => sign < 0
        case _ => sign <= 0
  }

  predicate ContainsValue(haystack: Value, needle: Value) {
    match haystack
    case List(items) => exists v :: v in items && Same(v, needle)
    case Str(s) => needle.Str? && Includes(s, needle.s)
    case _ => false
  }

  /** The members of a list that `typeof r === 'object' && r !== null` keeps. */
  function ObjectRows(v: Value): seq<Value> {
    if v.List? then ObjectsOf(v.items) else []
  }

  function ObjectsOf(items: seq<Value>): seq<Value> {
    if items == [] then []
    else (if items[0].Obj? || items[0].List? then [items[0]] else []) + ObjectsOf(items[1..])
  }

  predicate Evaluate(e: Expr, ctx: Context)
    decreases e
  {
    match e
    case And(es) => forall x :: x in es ==> Evaluate(x, ctx)
    case Or(es) => exists x :: x in es && Evaluate(x, ctx)
    case Not(x) => !Evaluate(x, ctx)
    case Any(over, where) =>
      exists row :: row in ObjectRows(Get(ctx.answers, over))
                    && Evaluate(where, ctx.(answers := Overlay(ctx.answers, row)))
    case All(over, where) =>
      forall row :: row in ObjectRows(Get(ctx.answers, over))
                    ==> Evaluate(where, ctx.(answers := Overlay(ctx.answers, row)))
    case IsEmpty(x) => IsBlank(Resolve(x, ctx))
    case IsPresent(x) => !IsBlank(Resolve(x, ctx))
    case In(x, among) => exists r :: r in among && Same(Resolve(x, ctx), Resolve(r, ctx))
    case NotIn(x, among) => !exists r :: r in among && Same(Resolve(x, ctx), Resolve(r, ctx))
    case Contains(x, y) => ContainsValue(Resolve(x, ctx), Resolve(y, ctx))
    case Compare(op, x, y) => CompareValues(op, Resolve(x, ctx), Resolve(y, ctx))
  }

  /** The laws that fix what the comparisons mean: numbers with numbers, texts with texts, nothing else. */
  lemma ComparisonLaws(x: Operand, y: Operand, ctx: Context)
    ensures Evaluate(Compare(Gt, x, y), ctx) == Evaluate(Compare(Lt, y, x), ctx)
    ensures Evaluate(Compare(Gte, x, y), ctx) == Evaluate(Compare(Lte, y, x), ctx)
    ensures Resolve(x, ctx).Num? && Resolve(y, ctx).Num? ==>
              && Evaluate(Compare(Lt, x, y), ctx) == (Resolve(x, ctx).n < Resolve(y, ctx).n)
              && Evaluate(Compare(Lte, x, y), ctx) == (Resolve(x, ctx).n <= Resolve(y, ctx).n)
    ensures Resolve(x, ctx).Str? && Resolve(y, ctx).Str? ==>
              && Evaluate(Compare(Lt, x, y), ctx) == TextLess(Resolve(x, ctx).s, Resolve(y, ctx).s)
              && Evaluate(Compare(Lte, x, y), ctx) == !TextLess(Resolve(y, ctx).s, Resolve(x, ctx).s)
    ensures !(Resolve(x, ctx).Num? && Resolve(y, ctx).Num?) && !(Resolve(x, ctx).Str? && Resolve(y, ctx).Str?) ==>
              !Evaluate(Compare(Lt, x, y), ctx) && !Evaluate(Compare(Lte, x, y), ctx)
  {
    hide Same;
    if Resolve(x, ctx).Str? && Resolve(y, ctx).Str? {
      TextLessTotal(Resolve(x, ctx).s, Resolve(y, ctx).s);
    }
  }

  /** `and` and `or` are built operand by operand from true and false. */
  lemma ConnectiveLaws(es: seq<Expr>, e: Expr, ctx: Context)
    ensures Evaluate(And([]), ctx) && !Evaluate(Or([]), ctx)
    ensures Evaluate(And(es + [e]), ctx) <==> Evaluate(And(es), ctx) && Evaluate(e, ctx)
    ensures Evaluate(Or(es + [e]), ctx) <==> Evaluate(Or(es), ctx) || Evaluate(e, ctx)
  {
    assert forall x :: x in es + [e] <==> x in es || x == e;
  }

  /** They are dual under `not`, which is always the other answer. */
  lemma DualityLaws(es: seq<Expr>, e: Expr, ctx: Context)
    ensures Evaluate(Not(And(es)), ctx) <==> Evaluate(Or(Negated(es)), ctx)
    ensures Evaluate(Not(e), ctx) != Evaluate(e, ctx)
  {
    forall x ensures Evaluate(Not(x), ctx) == !Evaluate(x, ctx) {
    }
    assert Evaluate(And(es), ctx) <==> forall i :: 0 <= i < |es| ==> Evaluate(es[i], ctx);
    forall i | 0 <= i < |es| ensures Evaluate(Negated(es)[i], ctx) == !Evaluate(es[i], ctx) {
    }
    assert Evaluate(Or(Negated(es)), ctx) <==> exists i :: 0 <= i < |es| && Evaluate(Negated(es)[i], ctx);
  }

  function Negated(es: seq<Expr>): (negated: seq<Expr>)
    ensures |negated| == |es| && forall i :: 0 <= i < |es| ==> negated[i] == Not(es[i])
  {
    seq(|es|, i requires 0 <= i < |es| => Not(es[i]))
  }

  /** The form as a condition over rows sees it, with the rows given. */
  function WithRows(ctx: Context, over: string, rows: seq<Value>): Context {
    ctx.(answers := ctx.answers[over := List(rows)])
  }

  predicate HoldsAt(where: Expr, ctx: Context, row: Value) {
    Evaluate(where, ctx.(answers := ctx.answers + Spread(row)))
  }

  predicate IsRow(v: Value) {
    v.Obj? || v.List?
  }

  /** `all` asks every row that is an object; what is no list has no rows. */
  lemma AllReads(over: string, where: Expr, rows: seq<Value>, ctx: Context)
    ensures var here := WithRows(ctx, over, rows);
            Evaluate(All(over, where), here) <==> forall i :: 0 <= i < |rows| && IsRow(rows[i]) ==> HoldsAt(where, here, rows[i])
    ensures !Get(ctx.answers, over).List? ==> Evaluate(All(over, where), ctx)
  {
    hide Spread, ObjectsOf;
    RowsExactly(rows);
    var here := WithRows(ctx, over, rows);
    assert ObjectRows(Get(here.answers, over)) == ObjectsOf(rows);
    assert Evaluate(All(over, where), here) <==>
             forall row :: row in ObjectsOf(rows) ==> Evaluate(where, here.(answers := Overlay(here.answers, row)));
    hide Evaluate;
    assert forall i :: 0 <= i < |rows| ==> rows[i] in rows;
  }

  /** `any` is the dual of `all`. */
  lemma AnyReads(over: string, where: Expr, ctx: Context)
    ensures Evaluate(Any(over, where), ctx) <==> !Evaluate(All(over, Not(where)), ctx)
  {
    hide Spread, ObjectRows;
    forall row ensures Evaluate(Not(where), ctx.(answers := Overlay(ctx.answers, row)))
                       == !Evaluate(where, ctx.(answers := Overlay(ctx.answers, row))) {
    }
  }

  lemma {:induction false} RowsExactly(items: seq<Value>)
    ensures forall row :: row in ObjectsOf(items) <==> row in items && IsRow(row)
  {
    if items != [] {
      RowsExactly(items[1..]);
      assert items == [items[0]] + items[1..];
    }
  }

  /** Membership is equality with one of the list, being present is not being empty. */
  lemma MembershipLaws(left: Operand, among: seq<Operand>, right: Operand, ctx: Context)
    ensures !Evaluate(In(left, []), ctx)
    ensures Evaluate(In(left, among + [right]), ctx) <==> Evaluate(In(left, among), ctx) || Evaluate(Compare(Eq, left, right), ctx)
    ensures Evaluate(NotIn(left, among), ctx) != Evaluate(In(left, among), ctx)
    ensures Evaluate(IsPresent(left), ctx) != Evaluate(IsEmpty(left), ctx)
    ensures Evaluate(IsEmpty(left), ctx) <==> IsBlank(Resolve(left, ctx))
    ensures Evaluate(Compare(Eq, left, right), ctx) <==> Same(Resolve(left, ctx), Resolve(right, ctx))
    ensures Evaluate(Compare(Ne, left, right), ctx) != Evaluate(Compare(Eq, left, right), ctx)
  {
    forall r ensures Evaluate(Compare(Eq, left, r), ctx) == Same(Resolve(left, ctx), Resolve(r, ctx)) {
    }
  }

  /** A list contains what is the same as one of its members, a text the texts that are part of it, nothing else anything. */
  lemma ContainsLaws(left: Operand, right: Operand, ctx: Context)
    ensures var (haystack, needle) := (Resolve(left, ctx), Resolve(right, ctx));
            && (haystack.List? ==>
                  (Evaluate(Contains(left, right), ctx) <==> exists i :: 0 <= i < |haystack.items| && Same(haystack.items[i], needle)))
            && (haystack.Str? ==>
                  (Evaluate(Contains(left, right), ctx) <==>
                     needle.Str? && exists before, after :: haystack.s == before + needle.s + after))
            && (!haystack.List? && !haystack.Str? ==> !Evaluate(Contains(left, right), ctx))
  {
    hide Same, Includes;
    var (haystack, needle) := (Resolve(left, ctx), Resolve(right, ctx));
    if haystack.Str? && needle.Str? {
      IncludesExactly(haystack.s, needle.s);
    }
  }

  /** Where operands come from. */
  lemma OperandLaws(key: string, v: Value, ctx: Context)
    ensures Resolve(Literal(v), ctx) == v
    ensures Resolve(FieldRef(key), ctx) == if key in ctx.answers then ctx.answers[key] else Undefined
    ensures Resolve(Ambient(Now), ctx) == Str(ctx.now)
    ensures |ctx.now| >= 10 ==> Resolve(Ambient(Today), ctx) == Str(ctx.now[..10])
    ensures Resolve(Ambient(Actor), ctx) == if ctx.actor.Some? then Str(ctx.actor.value) else Null
    ensures Resolve(Ambient(CurrentState), ctx) == if ctx.state.Some? then Str(ctx.state.value) else Null
  {
  }

  // ------------------------------------------------------------- the read set

  function FieldsInOperand(o: Operand): seq<string> {
    if o.FieldRef? then [o.key] else []
  }

  function FieldsInOperands(os: seq<Operand>): seq<string> {
    if os == [] then [] else FieldsInOperand(os[0]) + FieldsInOperands(os[1..])
  }

  /** Every key an expression reads, in the order a left-to-right walk meets them. */
  function FieldsInExpr(e: Expr): seq<string>
    decreases e, 1
  {
    match e
    case And(es) => FieldsInAll(es)
    case Or(es) => FieldsInAll(es)
    case Not(x) => FieldsInExpr(x)
    case In(x, among) => FieldsInOperand(x) + FieldsInOperands(among)
    case NotIn(x, among) => FieldsInOperand(x) + FieldsInOperands(among)
    case IsEmpty(x) => FieldsInOperand(x)
    case IsPresent(x) => FieldsInOperand(x)
    case Any(over, where) => [over] + FieldsInExpr(where)
    case All(over, where) => [over] + FieldsInExpr(where)
    case Contains(x, y) => FieldsInOperand(x) + FieldsInOperand(y)
    case Compare(_, x, y) => FieldsInOperand(x) + FieldsInOperand(y)
  }

  function FieldsInAll(es: seq<Expr>): seq<string>
    decreases es, 0
  {
    if es == [] then [] else FieldsInExpr(es[0]) + FieldsInAll(es[1..])
  }

  function Reads(e: Expr): set<string> {
    set k | k in FieldsInExpr(e)
  }

  lemma {:induction false} FieldsInAllCovers(es: seq<Expr>, e: Expr)
    requires e in es
    ensures Reads(e) <= set k | k in FieldsInAll(es)
  {
    if e != es[0] {
      FieldsInAllCovers(es[1..], e);
    }
  }

  lemma {:induction false} FieldsInOperandsCovers(os: seq<Operand>, o: Operand)
    requires o in os && o.FieldRef?
    ensures o.key in FieldsInOperands(os)
  {
    if o != os[0] {
      FieldsInOperandsCovers(os[1..], o);
    }
  }

  /** The walk with its growing output list. */
  method CollectFields(e: Expr) returns (out: seq<string>)
    ensures out == FieldsInExpr(e)
  {
    out := Walk(e, []);
  }

  method Walk(e: Expr, before: seq<string>) returns (out: seq<string>)
    ensures out == before + FieldsInExpr(e)
    decreases e
  {
    out := before;
    match e {
      case And(es) => out := WalkAll(es, out);
      case Or(es) => out := WalkAll(es, out);
      case Not(x) => out := Walk(x, out);
      case In(x, among) => out := PushAll(among, out + FieldsInOperand(x));
      case NotIn(x, among) => out := PushAll(among, out + FieldsInOperand(x));
      case IsEmpty(x) => out := out + FieldsInOperand(x);
      case IsPresent(x) => out := out + FieldsInOperand(x);
      case Any(over, where) => out := Walk(where, out + [over]);
      case All(over, where) => out := Walk(where, out + [over]);
      case Contains(x, y) => out := out + FieldsInOperand(x) + FieldsInOperand(y);
      case Compare(_, x, y) => out := out + FieldsInOperand(x) + FieldsInOperand(y);
    }
  }

  method WalkAll(es: seq<Expr>, before: seq<string>) returns (out: seq<string>)
    ensures out == before + FieldsInAll(es)
    decreases es
  {
    out := before;
    for i := 0 to |es|
      invariant out + FieldsInAll(es[i..]) == before + FieldsInAll(es)
    {
      out := Walk(es[i], out);
      assert es[i..][1..] == es[i + 1..];
    }
  }

  method PushAll(os: seq<Operand>, before: seq<string>) returns (out: seq<string>)
    ensures out == before + FieldsInOperands(os)
  {
    out := before;
    for i := 0 to |os|
      invariant out + FieldsInOperands(os[i..]) == before + FieldsInOperands(os)
    {
      out := out + FieldsInOperand(os[i]);
      assert os[i..][1..] == os[i + 1..];
    }
  }

  // ------------------------------------------------------------- coincidence

  lemma ResolveCoincides(o: Operand, keys: set<string>, ctx: Context, other: Answers)
    requires (set k | k in FieldsInOperand(o)) <= keys
    requires Agree(keys, ctx.answers, other)
    ensures Resolve(o, ctx) == Resolve(o, ctx.(answers := other))
  {
    if o.FieldRef? {
      assert o.key in FieldsInOperand(o);
    }
  }

  lemma AmongCoincides(os: seq<Operand>, keys: set<string>, ctx: Context, other: Answers)
    requires (set k | k in FieldsInOperands(os)) <= keys
    requires Agree(keys, ctx.answers, other)
    ensures forall o :: o in os ==> Resolve(o, ctx) == Resolve(o, ctx.(answers := other))
  {
    forall o | o in os
      ensures Resolve(o, ctx) == Resolve(o, ctx.(answers := other))
    {
      if o.FieldRef? {
        FieldsInOperandsCovers(os, o);
      }
    }
  }

  /**
   Evaluation depends on the answers only through the collected keys, also under
   the row overlays of `any` and `all`.
   */
  lemma {:induction false} Coincidence(e: Expr, keys: set<string>, ctx: Context, other: Answers)
    requires Reads(e) <= keys
    requires Agree(keys, ctx.answers, other)
    ensures Evaluate(e, ctx) == Evaluate(e, ctx.(answers := other))
    decreases e, 0
  {
    var ctx' := ctx.(answers := other);
    assert forall k :: k in FieldsInExpr(e) ==> k in Reads(e);
    match e {
      case And(es) =>
        forall x | x in es ensures Evaluate(x, ctx) == Evaluate(x, ctx') {
          FieldsInAllCovers(es, x);
          Coincidence(x, keys, ctx, other);
        }
      case Or(es) =>
        forall x | x in es ensures Evaluate(x, ctx) == Evaluate(x, ctx') {
          FieldsInAllCovers(es, x);
          Coincidence(x, keys, ctx, other);
        }
      case Not(x) =>
        Coincidence(x, keys, ctx, other);
      case Any(over, where) =>
        QuantifierCoincides(e, over, where, keys, ctx, other);
      case All(over, where) =>
        QuantifierCoincides(e, over, where, keys, ctx, other);
      case In(x, among) =>
        ResolveCoincides(x, keys, ctx, other);
        AmongCoincides(among, keys, ctx, other);
      case NotIn(x, among) =>
        ResolveCoincides(x, keys, ctx, other);
        AmongCoincides(among, keys, ctx, other);
      case IsEmpty(x) =>
        ResolveCoincides(x, keys, ctx, other);
      case IsPresent(x) =>
        ResolveCoincides(x, keys, ctx, other);
      case Contains(x, y) =>
        ResolveCoincides(x, keys, ctx, other);
        ResolveCoincides(y, keys, ctx, other);
      case Compare(_, x, y) =>
        ResolveCoincides(x, keys, ctx, other);
        ResolveCoincides(y, keys, ctx, other);
    }
  }

  lemma {:induction false} QuantifierCoincides(
      e: Expr, over: string, where: Expr, keys: set<string>, ctx: Context, other: Answers)
    requires e == Any(over, where) || e == All(over, where)
    requires Reads(e) <= keys
    requires Agree(keys, ctx.answers, other)
    ensures Get(ctx.answers, over) == Get(other, over)
    ensures forall row :: row in ObjectRows(Get(other, over)) ==>
              Evaluate(where, ctx.(answers := Overlay(ctx.answers, row)))
              == Evaluate(where, ctx.(answers := Overlay(other, row)))
    decreases where, 1
  {
    assert FieldsInExpr(e) == [over] + FieldsInExpr(where);
    assert over in Reads(e);
    forall row | row in ObjectRows(Get(other, over))
      ensures Evaluate(where, ctx.(answers := Overlay(ctx.answers, row)))
              == Evaluate(where, ctx.(answers := Overlay(other, row)))
    {
      OverlayAgrees(keys, ctx.answers, other, row);
      Coincidence(where, keys, ctx.(answers := Overlay(ctx.answers, row)), Overlay(other, row));
    }
  }
}
