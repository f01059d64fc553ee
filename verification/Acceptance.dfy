/** Which answers a form accepts, and which errors and gaps a submission has, told without the walks. */
module Acceptance {
  import opened Values
  import opened Conditions
  import opened Forms
  import opened Submission
  import opened Agreement
  import opened Strengthening

  // -------------------------------------------------------------- one answer

  /** The answer is a number, or the number parser makes it one. */
  ghost predicate Reads(host: Host, v: Value, n: real) {
    v == Num(n) || (!v.Num? && host.parseNumber(v) == Some(n))
  }

  ghost predicate Chosen(field: Field, v: Value) {
    exists c :: c in field.choices && v == Str(c.value)
  }

  ghost predicate IsUpload(host: Host, v: Value) {
    v.Str? && host.isReceipt(v.s)
  }

  ghost predicate Within(c: Constraints, rating: bool, n: real) {
    && (c.min.Some? ==> c.min.value <= n)
    && (c.max.Some? ==> n <= c.max.value)
    && (rating && c.scale.Some? && c.scale.value != 0.0 ==> 1.0 <= n <= c.scale.value)
  }

  ghost predicate InDays(c: Constraints, d: int) {
    (c.minDays.Some? ==> c.minDays.value <= d) && (c.maxDays.Some? ==> d <= c.maxDays.value)
  }

  /** What each kind of field accepts of an answer that is not blank, seen by itself. */
  ghost predicate Fits(host: Host, field: Field, required: bool, v: Value, now: string) {
    var c := field.constraints;
    match field.kind
    case Email => v.Str? && host.isEmail(v.s)
    case Url => v.Str? && host.isUrl(v.s)
    case Number => exists n :: Reads(host, v, n) && Within(c, false, n)
    case Currency => exists n :: Reads(host, v, n) && Within(c, false, n)
    case Rating => exists n :: Reads(host, v, n) && Within(c, true, n)
    case Date => v.Str? && host.isDate(v.s) && forall d :: host.daysFromToday(v.s, now) == Some(d) ==> InDays(c, d)
    case SingleChoice => Chosen(field, v)
    case Dropdown => Chosen(field, v)
    case MultiChoice => v.List? && forall i :: 0 <= i < |v.items| ==> Chosen(field, v.items[i])
    case Matrix => v.List? && forall i :: 0 <= i < |v.items| ==> Chosen(field, v.items[i])
    case YesNo => v == Bool(true) || v == Bool(false)
    case SignatureAck => v == Bool(true) || (v == Bool(false) && !required)
    case Signature => host.signatureProblem(v) == None
    case File =>
      if v.List? then
        && (c.maxFiles.Some? && c.maxFiles.value > 0 ==> |v.items| <= c.maxFiles.value)
        && forall i :: 0 <= i < |v.items| ==> IsUpload(host, v.items[i])
      else IsUpload(host, v)
    case RepeatingGroup => v.List?
    case _ =>
      && v.Str?
      && (c.minLength.Some? ==> c.minLength.value <= |v.s|)
      && (c.maxLength.Some? ==> |v.s| <= c.maxLength.value)
      && (c.pattern.Some? && c.pattern.value != "" ==> host.matches(c.pattern.value, v.s))
  }

  ghost predicate Numeric(kind: FieldType) {
    kind == Number || kind == Currency || kind == Rating
  }

  /** What it accepts in the light of the rest: no more than one answer, no earlier than another. */
  ghost predicate Agrees(host: Host, field: Field, v: Value, answers: Answers) {
    var c := field.constraints;
    && (Numeric(field.kind) && c.atMost.Some? && c.atMost.value != "" ==>
          forall n, m :: Reads(host, v, n) && Reads(host, Get(answers, c.atMost.value), m) ==> n <= m)
    && (field.kind == Date && c.notBefore.Some? && c.notBefore.value != "" ==>
          forall d: string :: Get(answers, c.notBefore.value) == Str(d) && host.isDate(d) && v.Str? ==> !TextLess(v.s, d))
  }

  ghost predicate Accepts(host: Host, field: Field, required: bool, v: Value, answers: Answers, now: string) {
    if IsBlank(v) then !required else Fits(host, field, required, v, now) && Agrees(host, field, v, answers)
  }

  /** An author's empty message: what does not fit is refused without a word. */
  ghost predicate Unspoken(host: Host, field: Field, required: bool, v: Value, now: string) {
    field.constraints.message == Some("") && !IsBlank(v) && !Fits(host, field, required, v, now)
  }

  lemma NumberExactly(host: Host, field: Field, v: Value, others: Others)
    requires Numeric(field.kind)
    ensures CheckNumber(host, field, v, Some(others)).None? <==>
              (exists n :: Reads(host, v, n) && Within(field.constraints, field.kind == Rating, n))
              && Agrees(host, field, v, others.answers)
    ensures Reported(CheckNumber(host, field, v, Some(others))) <==>
              && CheckNumber(host, field, v, Some(others)).Some?
              && (field.constraints.message == Some("") ==>
                    exists n :: Reads(host, v, n) && Within(field.constraints, field.kind == Rating, n))
  {
    hide Get, TextLess, LabelOf;
    var c := field.constraints;
    match ToNumber(host, v) {
      case None =>
      case Some(n) =>
        assert Reads(host, v, n);
        assert forall m :: Reads(host, v, m) ==> m == n;
        if c.atMost.Some? && c.atMost.value != "" {
          var other := Get(others.answers, c.atMost.value);
          assert forall m :: Reads(host, other, m) <==> ToNumber(host, other) == Some(m);
        }
    }
  }

  lemma DateExactly(host: Host, field: Field, v: Value, others: Others, now: string)
    requires field.kind == Date
    ensures CheckDate(host, field, v, Some(others), now).None? <==>
              Fits(host, field, false, v, now) && Agrees(host, field, v, others.answers)
    ensures Reported(CheckDate(host, field, v, Some(others), now)) <==>
              && CheckDate(host, field, v, Some(others), now).Some?
              && (field.constraints.message == Some("") ==> Fits(host, field, false, v, now))
  {
    hide Get, TextLess, LabelOf;
  }

  lemma ChoicesExactly(field: Field, v: Value)
    ensures Allowed(field, v) <==> Chosen(field, v)
  {
  }

  lemma ListExactly(field: Field, v: Value)
    requires field.kind == MultiChoice || field.kind == Matrix
    ensures CheckChoices(field, v).None? <==> v.List? && forall i :: 0 <= i < |v.items| ==> Chosen(field, v.items[i])
  {
    hide Allowed, Chosen;
    forall x ensures Allowed(field, x) <==> Chosen(field, x) {
      ChoicesExactly(field, x);
    }
    assert v.List? ==> forall i :: 0 <= i < |v.items| ==> v.items[i] in v.items;
  }

  lemma FileExactly(host: Host, field: Field, v: Value, now: string)
    requires field.kind == File
    ensures CheckFile(host, field, v).None? <==> Fits(host, field, false, v, now)
  {
    var files := if v.List? then v.items else [v];
    assert forall i :: 0 <= i < |files| ==> files[i] in files;
    assert (forall f :: f in files ==> f.Str? && host.isReceipt(f.s)) <==> forall i :: 0 <= i < |files| ==> IsUpload(host, files[i]);
    assert v.List? ==> files == v.items;
    assert !v.List? ==> files == [v] && files[0] == v;
  }

  ghost predicate Exact(host: Host, field: Field, required: bool, v: Value, others: Others, now: string) {
    var check := CheckField(host, field, required, v, Some(others), now);
    && (check.None? <==> Accepts(host, field, required, v, others.answers, now))
    && (Reported(check) <==>
          !Accepts(host, field, required, v, others.answers, now) && !Unspoken(host, field, required, v, now))
  }

  lemma BlankAnswer(host: Host, field: Field, required: bool, v: Value, others: Others, now: string)
    requires IsBlank(v)
    ensures Exact(host, field, required, v, others, now)
  {
    hide IsBlank, Fits, Agrees;
  }

  lemma NumericAnswer(host: Host, field: Field, required: bool, v: Value, others: Others, now: string)
    requires Numeric(field.kind) && !IsBlank(v)
    ensures Exact(host, field, required, v, others, now)
  {
    hide CheckNumber, Reads, Within, IsBlank;
    NumberExactly(host, field, v, others);
  }

  lemma DateAnswer(host: Host, field: Field, required: bool, v: Value, others: Others, now: string)
    requires field.kind == Date && !IsBlank(v)
    ensures Exact(host, field, required, v, others, now)
  {
    hide CheckDate, IsBlank, TextLess, Get;
    DateExactly(host, field, v, others, now);
  }

  lemma ListAnswer(host: Host, field: Field, required: bool, v: Value, others: Others, now: string)
    requires (field.kind == MultiChoice || field.kind == Matrix) && !IsBlank(v)
    ensures Exact(host, field, required, v, others, now)
  {
    hide CheckChoices, IsBlank, Chosen;
    ListExactly(field, v);
    RefusesAloud(host, field, v);
  }

  lemma FileAnswer(host: Host, field: Field, required: bool, v: Value, others: Others, now: string)
    requires field.kind == File && !IsBlank(v)
    ensures Exact(host, field, required, v, others, now)
  {
    hide CheckFile, IsBlank, IsUpload;
    FileExactly(host, field, v, now);
    RefusesAloud(host, field, v);
  }

  predicate Textual(kind: FieldType) {
    kind in {ShortText, LongText, Phone, Address, Time, Content, Hidden, Calculated}
  }

  lemma TextExactly(host: Host, field: Field, required: bool, v: Value, now: string)
    requires Textual(field.kind)
    ensures CheckText(host, field, v).None? <==> Fits(host, field, required, v, now)
    ensures Reported(CheckText(host, field, v)) <==> CheckText(host, field, v).Some? && field.constraints.message != Some("")
  {
  }

  lemma TextAnswer(host: Host, field: Field, required: bool, v: Value, others: Others, now: string)
    requires Textual(field.kind) && !IsBlank(v)
    ensures Exact(host, field, required, v, others, now)
  {
    hide IsBlank, CheckText, Fits, Reported;
    TextExactly(host, field, required, v, now);
  }

  lemma FlagAnswer(host: Host, field: Field, required: bool, v: Value, others: Others, now: string)
    requires (field.kind == YesNo || field.kind == SignatureAck) && !IsBlank(v)
    ensures Exact(host, field, required, v, others, now)
  {
    hide IsBlank;
  }

  lemma FormedAnswer(host: Host, field: Field, required: bool, v: Value, others: Others, now: string)
    requires (field.kind == Signature || field.kind == RepeatingGroup) && !IsBlank(v)
    ensures Exact(host, field, required, v, others, now)
  {
    hide IsBlank;
  }

  lemma PickAnswer(host: Host, field: Field, required: bool, v: Value, others: Others, now: string)
    requires field.kind in {Email, Url, SingleChoice, Dropdown} && !IsBlank(v)
    ensures Exact(host, field, required, v, others, now)
  {
    hide IsBlank, Allowed, Chosen;
    ChoicesExactly(field, v);
  }

  /** The answers a field accepts are exactly these, and a refusal is silent only by an empty message. */
  lemma AnswerExactly(host: Host, field: Field, required: bool, v: Value, others: Others, now: string)
    ensures CheckField(host, field, required, v, Some(others), now).None? <==>
              Accepts(host, field, required, v, others.answers, now)
    ensures Reported(CheckField(host, field, required, v, Some(others), now)) <==>
              !Accepts(host, field, required, v, others.answers, now) && !Unspoken(host, field, required, v, now)
  {
    hide CheckField, Accepts, Unspoken, Reported, IsBlank;
    assert Exact(host, field, required, v, others, now) by {
      hide Exact;
      if IsBlank(v) {
        BlankAnswer(host, field, required, v, others, now);
      } else if Numeric(field.kind) {
        NumericAnswer(host, field, required, v, others, now);
      } else if field.kind == Date {
        DateAnswer(host, field, required, v, others, now);
      } else if field.kind == MultiChoice || field.kind == Matrix {
        ListAnswer(host, field, required, v, others, now);
      } else if field.kind == File {
        FileAnswer(host, field, required, v, others, now);
      } else if Textual(field.kind) {
        TextAnswer(host, field, required, v, others, now);
      } else if field.kind == YesNo || field.kind == SignatureAck {
        FlagAnswer(host, field, required, v, others, now);
      } else if field.kind == Signature || field.kind == RepeatingGroup {
        FormedAnswer(host, field, required, v, others, now);
      } else {
        PickAnswer(host, field, required, v, others, now);
      }
    }
  }

  lemma RefusesAloud(host: Host, field: Field, v: Value)
    ensures Reported(CheckChoices(field, v)) <==> CheckChoices(field, v).Some? && field.constraints.message != Some("")
    ensures Reported(CheckFile(host, field, v)) <==> CheckFile(host, field, v).Some? && field.constraints.message != Some("")
  {
    hide Allowed;
  }

  // ---------------------------------------------------------- what is refused

  ghost predicate LessThan(host: Host, v: Value, bound: real) {
    exists n :: Reads(host, v, n) && n < bound
  }

  ghost predicate MoreThanBound(host: Host, v: Value, bound: real) {
    exists n :: Reads(host, v, n) && n > bound
  }

  /** What a problem says of an answer is so. */
  ghost predicate Says(p: Problem, host: Host, field: Field, required: bool, v: Value, others: Others, now: string) {
    var c := field.constraints;
    match p
    case Custom(text) => c.message == Some(text)
    case Required(caption) => caption == field.caption && required && IsBlank(v)
    case NotAnEmail => field.kind == Email && !(v.Str? && host.isEmail(v.s))
    case NotAUrl => field.kind == Url && !(v.Str? && host.isUrl(v.s))
    case NotADate => field.kind == Date && !(v.Str? && host.isDate(v.s))
    case NotAChoice => (field.kind == SingleChoice || field.kind == Dropdown) && !Chosen(field, v)
    case NotAList => (field.kind == MultiChoice || field.kind == Matrix) && !v.List?
    case NotAnOption => v.List? && exists i :: 0 <= i < |v.items| && !Chosen(field, v.items[i])
    case NotYesNo => (field.kind == YesNo || field.kind == SignatureAck) && !v.Bool?
    case NotAFile => field.kind == File && !Fits(host, field, required, v, now)
    case NotANumber(caption) => caption == field.caption && forall n :: !Reads(host, v, n)
    case AtLeast(caption, bound) => caption == field.caption && c.min == Some(bound) && LessThan(host, v, bound)
    case AtMost(caption, bound) => caption == field.caption && c.max == Some(bound) && MoreThanBound(host, v, bound)
    case OutsideScale(scale) => c.scale == Some(scale) && (LessThan(host, v, 1.0) || MoreThanBound(host, v, scale))
    case MoreThan(caption, other) =>
      && caption == field.caption && c.atMost.Some? && other == LabelOf(others.labels, c.atMost.value)
      && exists m :: Reads(host, Get(others.answers, c.atMost.value), m) && MoreThanBound(host, v, m)
    case TooPast(caption) =>
      && caption == field.caption && v.Str? && c.minDays.Some?
      && exists d :: host.daysFromToday(v.s, now) == Some(d) && d < c.minDays.value
    case TooFuture(caption) =>
      && caption == field.caption && v.Str? && c.maxDays.Some?
      && exists d :: host.daysFromToday(v.s, now) == Some(d) && d > c.maxDays.value
    case Before(caption, other) =>
      && caption == field.caption && v.Str? && c.notBefore.Some? && other == LabelOf(others.labels, c.notBefore.value)
      && exists d: string :: Get(others.answers, c.notBefore.value) == Str(d) && TextLess(v.s, d)
    case MustAccept(caption) => caption == field.caption && required && v == Bool(false)
    case BadSignature(text) => host.signatureProblem(v) == Some(text)
    case TooManyFiles(max) => c.maxFiles == Some(max) && v.List? && |v.items| > max
    case AddOne(caption) => caption == field.caption && !v.List?
    case NotText(caption) => caption == field.caption && !v.Str?
    case TooShort(caption, min) => caption == field.caption && c.minLength == Some(min) && v.Str? && |v.s| < min
    case TooLong(caption, max) => caption == field.caption && c.maxLength == Some(max) && v.Str? && |v.s| > max
    case BadFormat(caption) =>
      caption == field.caption && v.Str? && c.pattern.Some? && !host.matches(c.pattern.value, v.s)
    case NoSuchRow(_, _) => false
    case FilledByStaff(_) => false
  }

  /** An author's message stands in for what the field itself refuses. */
  lemma MessageIsUsed(host: Host, field: Field, required: bool, v: Value, others: Others, now: string)
    requires field.constraints.message.Some? && !IsBlank(v) && !Fits(host, field, required, v, now)
    ensures CheckField(host, field, required, v, Some(others), now) == Some(Custom(field.constraints.message.value))
  {
    hide IsBlank, Get, TextLess, LabelOf, Allowed, Chosen, IsUpload;
    if Numeric(field.kind) {
      NumberMessage(host, field, required, v, others, now);
    } else if field.kind == Date {
      DateExactly(host, field, v, others, now);
    } else if field.kind == MultiChoice || field.kind == Matrix {
      ListExactly(field, v);
    } else if field.kind == File {
      FileExactly(host, field, v, now);
    } else {
      ChoicesExactly(field, v);
    }
  }

  lemma NumberMessage(host: Host, field: Field, required: bool, v: Value, others: Others, now: string)
    requires Numeric(field.kind) && field.constraints.message.Some? && !Fits(host, field, required, v, now)
    ensures CheckNumber(host, field, v, Some(others)) == Some(Custom(field.constraints.message.value))
  {
    hide Get, LabelOf;
    if ToNumber(host, v).Some? {
      assert Reads(host, v, ToNumber(host, v).value);
    }
  }

  ghost predicate Truthful(host: Host, field: Field, required: bool, v: Value, others: Others, now: string) {
    var check := CheckField(host, field, required, v, Some(others), now);
    check.Some? ==> Says(check.value, host, field, required, v, others, now)
  }

  /** Whatever a check refuses an answer with is true of it. */
  lemma ProblemsAreTrue(host: Host, field: Field, required: bool, v: Value, others: Others, now: string)
    requires CheckField(host, field, required, v, Some(others), now).Some?
    ensures Says(CheckField(host, field, required, v, Some(others), now).value, host, field, required, v, others, now)
  {
    hide CheckField, Says, IsBlank;
    assert Truthful(host, field, required, v, others, now) by {
      hide Truthful;
      if IsBlank(v) {
        BlankProblems(host, field, required, v, others, now);
      } else if Numeric(field.kind) {
        NumberProblems(host, field, required, v, others, now);
      } else if field.kind == Date {
        DateProblems(host, field, required, v, others, now);
      } else if field.kind == MultiChoice || field.kind == Matrix {
        ListProblems(host, field, required, v, others, now);
      } else if field.kind == File {
        FileProblems(host, field, required, v, others, now);
      } else if Textual(field.kind) {
        TextProblems(host, field, required, v, others, now);
      } else {
        OtherProblems(host, field, required, v, others, now);
      }
    }
  }

  lemma BlankProblems(host: Host, field: Field, required: bool, v: Value, others: Others, now: string)
    requires IsBlank(v)
    ensures Truthful(host, field, required, v, others, now)
  {
    hide IsBlank;
  }

  lemma TextProblems(host: Host, field: Field, required: bool, v: Value, others: Others, now: string)
    requires Textual(field.kind) && !IsBlank(v)
    ensures Truthful(host, field, required, v, others, now)
  {
    hide IsBlank, LessThan, MoreThanBound, Get, TextLess, LabelOf;
  }

  lemma OtherProblems(host: Host, field: Field, required: bool, v: Value, others: Others, now: string)
    requires field.kind in {Email, Url, SingleChoice, Dropdown, YesNo, SignatureAck, Signature, RepeatingGroup} && !IsBlank(v)
    ensures Truthful(host, field, required, v, others, now)
  {
    hide IsBlank, Allowed, Chosen, LessThan, MoreThanBound, Get, TextLess, LabelOf;
    ChoicesExactly(field, v);
  }

  lemma NumberSays(host: Host, field: Field, required: bool, v: Value, others: Others, now: string)
    requires Numeric(field.kind) && CheckNumber(host, field, v, Some(others)).Some?
    ensures Says(CheckNumber(host, field, v, Some(others)).value, host, field, required, v, others, now)
  {
    hide IsBlank, Get, TextLess, LabelOf;
    var c := field.constraints;
    match ToNumber(host, v) {
      case None =>
      case Some(n) =>
        assert Reads(host, v, n);
        if c.atMost.Some? {
          var other := Get(others.answers, c.atMost.value);
          if ToNumber(host, other).Some? {
            assert Reads(host, other, ToNumber(host, other).value);
          }
        }
    }
  }

  lemma NumberProblems(host: Host, field: Field, required: bool, v: Value, others: Others, now: string)
    requires Numeric(field.kind) && !IsBlank(v)
    ensures Truthful(host, field, required, v, others, now)
  {
    hide CheckNumber, Says, IsBlank;
    if CheckNumber(host, field, v, Some(others)).Some? {
      NumberSays(host, field, required, v, others, now);
    }
  }

  lemma DateProblems(host: Host, field: Field, required: bool, v: Value, others: Others, now: string)
    requires field.kind == Date && !IsBlank(v)
    ensures Truthful(host, field, required, v, others, now)
  {
    hide IsBlank, Get, TextLess, LabelOf, LessThan, MoreThanBound;
  }

  lemma ListProblems(host: Host, field: Field, required: bool, v: Value, others: Others, now: string)
    requires (field.kind == MultiChoice || field.kind == Matrix) && !IsBlank(v)
    ensures Truthful(host, field, required, v, others, now)
  {
    hide IsBlank, Get, TextLess, LabelOf, LessThan, MoreThanBound, Allowed, Chosen;
    forall x ensures Allowed(field, x) <==> Chosen(field, x) {
      ChoicesExactly(field, x);
    }
    assert v.List? ==> forall i :: 0 <= i < |v.items| ==> v.items[i] in v.items;
  }

  lemma FileProblems(host: Host, field: Field, required: bool, v: Value, others: Others, now: string)
    requires field.kind == File && !IsBlank(v)
    ensures Truthful(host, field, required, v, others, now)
  {
    FileExactly(host, field, v, now);
    hide IsBlank, Get, TextLess, LabelOf, LessThan, MoreThanBound;
  }

  // ------------------------------------------------------- a whole submission

  /** Required always, or by a condition that holds. */
  ghost predicate Required(f: Field, answers: Answers, now: string) {
    f.required || (f.requiredWhen.Some? && Evaluate(f.requiredWhen.value, Context(answers, now, None, None)))
  }

  ghost predicate Shows(f: Field, form: Form, answers: Answers, now: string) {
    && f in form.fields && f.kind !in {Hidden, Calculated, Content}
    && f.key in VisibleFields(form, answers, now)
  }

  /** On show, in scope, and for the respondent to fill. */
  ghost predicate Asked(f: Field, form: Form, answers: Answers, scope: Option<seq<string>>, now: string) {
    && Shows(f, form, answers, now) && f.setBy !in {Some(Operator), Some(System)}
    && (scope.Some? ==> f.key in scope.value)
  }

  /** Not accepted, and not hushed up by an empty message. */
  ghost predicate Refused(host: Host, f: Field, required: bool, v: Value, answers: Answers, now: string) {
    !Accepts(host, f, required, v, answers, now) && !Unspoken(host, f, required, v, now)
  }

  ghost predicate Holds(when: Option<Expr>, answers: Answers, now: string) {
    when == None || Evaluate(when.value, Context(answers, now, None, None))
  }

  /** A question is on show exactly when a section that is, of a page that is, has it. */
  lemma ShownExactly(form: Form, answers: Answers, now: string, key: string)
    ensures key in VisibleFields(form, answers, now) <==>
              exists p, s :: p in form.pages && s in p.sections && key in s.fields
                             && Holds(p.visibleWhen, answers, now) && Holds(s.visibleWhen, answers, now)
  {
    forall w ensures Shown(w, answers, now) <==> Holds(w, answers, now) {
      ShownIsHolds(w, answers, now);
    }
    hide Shown, Holds;
    forall p | p in form.pages
      ensures key in SectionsFields(p.sections, answers, now) <==>
                exists s :: s in p.sections && key in s.fields && Holds(s.visibleWhen, answers, now)
    {
    }
  }

  lemma ShownIsHolds(w: Option<Expr>, answers: Answers, now: string)
    ensures Shown(w, answers, now) <==> Holds(w, answers, now)
  {
    hide Evaluate;
  }

  lemma AskedIsChecked(f: Field, form: Form, answers: Answers, scope: Option<seq<string>>, now: string)
    ensures Asked(f, form, answers, scope, now) <==> f in form.fields && Checked(f, VisibleFields(form, answers, now), scope)
    ensures Shows(f, form, answers, now) <==> f in form.fields && !f.Silent() && f.key in VisibleFields(form, answers, now)
  {
    hide VisibleFields;
  }

  lemma {:induction false} CellsAre(env: Env, group: Field, index: nat, row: Value, children: seq<Field>, e: FieldError)
    ensures e in CellsErrors(env, group, index, row, children) <==>
              exists c :: c in children && e in CellErrors(env, group, index, row, c)
  {
    hide CellErrors;
    if children != [] {
      CellsAre(env, group, index, row, children[..|children| - 1], e);
      assert children == children[..|children| - 1] + [children[|children| - 1]];
    }
  }

  lemma {:induction false} RowsAre(env: Env, group: Field, rows: seq<Value>, e: FieldError)
    ensures e in RowsErrors(env, group, rows) <==>
              exists i :: 0 <= i < |rows| && e in CellsErrors(env, group, i, rows[i], group.fields)
  {
    hide CellsErrors;
    if rows != [] {
      var n := |rows| - 1;
      RowsAre(env, group, rows[..n], e);
      assert forall i :: 0 <= i < n ==> rows[..n][i] == rows[i];
    }
  }

  /** Where an error is tells what it is about. */
  lemma ErrorsOfAre(env: Env, f: Field, e: FieldError)
    ensures var rows := Rows(Get(env.answers, f.key));
            e in ErrorsOf(env, f) <==>
              || (e == FieldError(Whole(f.key), e.problem)
                  && Refused(env.host, f, Required(f, env.answers, env.now), Get(env.answers, f.key), env.answers, env.now)
                  && CheckField(env.host, f, Required(f, env.answers, env.now), Get(env.answers, f.key),
                                Some(Others(env.answers, env.labels)), env.now) == Some(e.problem))
              || (f.kind == RepeatingGroup && f.requiredChoices.Some? && e.problem.NoSuchRow?
                  && e == FieldError(Whole(f.key), NoSuchRow(e.problem.choice, f.caption))
                  && e.problem.choice in f.requiredChoices.value.values
                  && !exists row :: row in rows && Property(row, f.requiredChoices.value.field) == Str(e.problem.choice))
              || (f.kind == RepeatingGroup && e in RowsErrors(env, f, rows))
  {
    hide RowsErrors, ChoiceErrors, CheckField, Refused, Accepts, Unspoken, Property;
    var rows := Rows(Get(env.answers, f.key));
    AnswerExactly(env.host, f, Required(f, env.answers, env.now), Get(env.answers, f.key), Others(env.answers, env.labels), env.now);
    assert EffectivelyRequired(f, env.answers, env.now) == Required(f, env.answers, env.now);
    RefusedIs(env.host, f, Required(f, env.answers, env.now), Get(env.answers, f.key), env.answers, env.now);
    if f.requiredChoices.Some? {
      ChoiceErrorsAre(f, rows, f.requiredChoices.value.values, f.requiredChoices.value.field, e);
    }
  }

  lemma RefusedIs(host: Host, f: Field, required: bool, v: Value, answers: Answers, now: string)
    ensures Refused(host, f, required, v, answers, now) <==>
              !Accepts(host, f, required, v, answers, now) && !Unspoken(host, f, required, v, now)
  {
    hide Accepts, Unspoken;
  }

  lemma {:induction false} InErrors(
      host: Host, form: Form, answers: Answers, scope: Option<seq<string>>, now: string, e: FieldError)
    ensures e in Errors(host, form, answers, scope, now) <==>
              exists f :: Asked(f, form, answers, scope, now) && e in ErrorsOf(EnvOf(host, form, answers, now), f)
  {
    hide ErrorsOf, ErrorsAmong, VisibleFields, Labels, Asked, Checked;
    var (env, visible) := (EnvOf(host, form, answers, now), VisibleFields(form, answers, now));
    forall f ensures Asked(f, form, answers, scope, now) <==> f in form.fields && Checked(f, visible, scope) {
      AskedIsChecked(f, form, answers, scope, now);
    }
    if e in Errors(host, form, answers, scope, now) {
      var f := ErrorsAmongFrom(env, form.fields, visible, scope, e);
    }
    if f :| Asked(f, form, answers, scope, now) && e in ErrorsOf(env, f) {
      ErrorsAmongHas(env, form.fields, visible, scope, f, e);
    }
  }

  lemma RowsAreCells(env: Env, group: Field, rows: seq<Value>, e: FieldError)
    requires e in RowsErrors(env, group, rows)
    ensures e.at.Cell? && e.at.key == group.key && e.at.index < |rows|
    ensures exists c :: c in group.fields && c.key == e.at.child && e in CellErrors(env, group, e.at.index, rows[e.at.index], c)
  {
    hide CellsErrors, CheckField, EffectivelyRequired, Property, Overlay;
    RowsAre(env, group, rows, e);
    var i :| 0 <= i < |rows| && e in CellsErrors(env, group, i, rows[i], group.fields);
    CellsAre(env, group, i, rows[i], group.fields, e);
    var c :| c in group.fields && e in CellErrors(env, group, i, rows[i], c);
  }

  /** A question has an error of its own exactly when it is asked and its answer refused. */
  lemma {:induction false} OwnErrorExactly(
      host: Host, form: Form, answers: Answers, scope: Option<seq<string>>, now: string, key: string)
    ensures (exists p: Problem :: !p.NoSuchRow? && FieldError(Whole(key), p) in Errors(host, form, answers, scope, now)) <==>
              exists f :: Asked(f, form, answers, scope, now) && f.key == key
                          && Refused(host, f, Required(f, answers, now), Get(answers, key), answers, now)
  {
    hide Errors, ErrorsOf, RowsErrors, Asked, Refused, CheckField, Labels, Required, Property;
    var env := EnvOf(host, form, answers, now);
    if p: Problem :| !p.NoSuchRow? && FieldError(Whole(key), p) in Errors(host, form, answers, scope, now) {
      var e := FieldError(Whole(key), p);
      InErrors(host, form, answers, scope, now, e);
      var f :| Asked(f, form, answers, scope, now) && e in ErrorsOf(env, f);
      ErrorsOfAre(env, f, e);
      if e in RowsErrors(env, f, Rows(Get(answers, f.key))) {
        RowsAreCells(env, f, Rows(Get(answers, f.key)), e);
      }
    }
    if f :| Asked(f, form, answers, scope, now) && f.key == key
            && Refused(host, f, Required(f, answers, now), Get(answers, key), answers, now) {
      var others := Others(answers, env.labels);
      RefusedHasProblem(host, f, Required(f, answers, now), Get(answers, key), others, now);
      var p := CheckField(host, f, Required(f, answers, now), Get(answers, key), Some(others), now).value;
      var e := FieldError(Whole(key), p);
      ErrorsOfAre(env, f, e);
      InErrors(host, form, answers, scope, now, e);
    }
  }

  lemma RefusedHasProblem(host: Host, f: Field, required: bool, v: Value, others: Others, now: string)
    requires Refused(host, f, required, v, others.answers, now)
    ensures var check := CheckField(host, f, required, v, Some(others), now); check.Some? && !check.value.NoSuchRow?
  {
    hide CheckField, Accepts, Unspoken;
    AnswerExactly(host, f, required, v, others, now);
    ProblemsAreTrue(host, f, required, v, others, now);
  }

  /** A mandatory choice is asked for exactly when no row carries it. */
  lemma {:induction false} RowErrorExactly(
      host: Host, form: Form, answers: Answers, scope: Option<seq<string>>, now: string, key: string, choice: string,
      caption: string)
    ensures FieldError(Whole(key), NoSuchRow(choice, caption)) in Errors(host, form, answers, scope, now) <==>
              exists f :: Asked(f, form, answers, scope, now) && f.key == key && f.caption == caption
                          && f.kind == RepeatingGroup && f.requiredChoices.Some? && choice in f.requiredChoices.value.values
                          && !exists row :: row in Rows(Get(answers, key))
                                            && Property(row, f.requiredChoices.value.field) == Str(choice)
  {
    hide Errors, ErrorsOf, RowsErrors, Asked, Refused, CheckField, Labels, Required, Property;
    var env := EnvOf(host, form, answers, now);
    var e := FieldError(Whole(key), NoSuchRow(choice, caption));
    InErrors(host, form, answers, scope, now, e);
    forall f ensures e in ErrorsOf(env, f) <==>
                       && f.key == key && f.caption == caption && f.kind == RepeatingGroup && f.requiredChoices.Some?
                       && choice in f.requiredChoices.value.values
                       && !exists row :: row in Rows(Get(answers, key))
                                         && Property(row, f.requiredChoices.value.field) == Str(choice)
    {
      ErrorsOfAre(env, f, e);
      if e in RowsErrors(env, f, Rows(Get(answers, f.key))) {
        RowsAreCells(env, f, Rows(Get(answers, f.key)), e);
      }
      var (required, others) := (Required(f, answers, now), Others(answers, env.labels));
      if Refused(host, f, required, Get(answers, f.key), answers, now) {
        RefusedHasProblem(host, f, required, Get(answers, f.key), others, now);
      }
    }
  }

  /** A cell is refused when staff fill it and it is filled, or the respondent does and the form, with its row over it, refuses it. */
  ghost predicate CellRefused(host: Host, c: Field, row: Value, answers: Answers, now: string) {
    if c.setBy in {Some(Operator), Some(System)} then Property(row, c.key) != Undefined
    else
      var seen := answers + Spread(row);
      Refused(host, c, Required(c, seen, now), Property(row, c.key), seen, now)
  }

  /** What staff fill is refused in their name. */
  lemma StaffCells(env: Env, group: Field, index: nat, row: Value, c: Field)
    requires c.setBy in {Some(Operator), Some(System)}
    ensures CellErrors(env, group, index, row, c)
            == if Property(row, c.key) == Undefined then []
               else [FieldError(Cell(group.key, index, c.key), FilledByStaff(c.caption))]
  {
    hide Property;
  }

  lemma CellErrorsAre(env: Env, group: Field, index: nat, row: Value, c: Field)
    ensures (exists e :: e in CellErrors(env, group, index, row, c)) <==> CellRefused(env.host, c, row, env.answers, env.now)
    ensures forall e :: e in CellErrors(env, group, index, row, c) ==> e.at == Cell(group.key, index, c.key)
  {
    hide CheckField, Refused, Property, Spread, Accepts, Unspoken;
    var seen := Overlay(env.answers, row);
    var (others, v) := (Others(seen, env.labels), Property(row, c.key));
    AnswerExactly(env.host, c, Required(c, seen, env.now), v, others, env.now);
    RefusedIs(env.host, c, Required(c, seen, env.now), v, seen, env.now);
    assert EffectivelyRequired(c, seen, env.now) == Required(c, seen, env.now);
    hide EffectivelyRequired, Required;
    var at := Cell(group.key, index, c.key);
    if CellErrors(env, group, index, row, c) != [] {
      assert CellErrors(env, group, index, row, c)[0] in CellErrors(env, group, index, row, c);
    }
  }

  /** A cell has an error exactly when its group is asked and the cell refused. */
  lemma {:induction false} CellErrorExactly(
      host: Host, form: Form, answers: Answers, scope: Option<seq<string>>, now: string, key: string, i: nat, child: string)
    ensures (exists p: Problem :: FieldError(Cell(key, i, child), p) in Errors(host, form, answers, scope, now)) <==>
              exists f, c :: Asked(f, form, answers, scope, now) && f.key == key && f.kind == RepeatingGroup
                             && i < |Rows(Get(answers, key))| && c in f.fields && c.key == child
                             && CellRefused(host, c, Rows(Get(answers, key))[i], answers, now)
  {
    hide Errors, ErrorsOf, RowsErrors, CellsErrors, CellErrors, Asked, CellRefused, Refused, CheckField, Labels, Required, Property;
    var env := EnvOf(host, form, answers, now);
    if p: Problem :| FieldError(Cell(key, i, child), p) in Errors(host, form, answers, scope, now) {
      var e := FieldError(Cell(key, i, child), p);
      InErrors(host, form, answers, scope, now, e);
      var f :| Asked(f, form, answers, scope, now) && e in ErrorsOf(env, f);
      ErrorsOfAre(env, f, e);
      RowsAreCells(env, f, Rows(Get(answers, f.key)), e);
      var c :| c in f.fields && c.key == child && e in CellErrors(env, f, i, Rows(Get(answers, f.key))[i], c);
      CellErrorsAre(env, f, i, Rows(Get(answers, f.key))[i], c);
    }
    if f, c :| Asked(f, form, answers, scope, now) && f.key == key && f.kind == RepeatingGroup
               && i < |Rows(Get(answers, key))| && c in f.fields && c.key == child
               && CellRefused(host, c, Rows(Get(answers, key))[i], answers, now) {
      var rows := Rows(Get(answers, key));
      CellErrorsAre(env, f, i, rows[i], c);
      var e :| e in CellErrors(env, f, i, rows[i], c);
      CellsAre(env, f, i, rows[i], f.fields, e);
      RowsAre(env, f, rows, e);
      ErrorsOfAre(env, f, e);
      InErrors(host, form, answers, scope, now, e);
      assert e == FieldError(Cell(key, i, child), e.problem);
    }
  }

  // ------------------------------------------------------- what it is missing

  ghost predicate Empty(v: Value) {
    v == Undefined || v == Null || v == Str("") || v == List([])
  }

  /** Required and empty, or an upload that is given and is none. */
  ghost predicate Lacks(host: Host, f: Field, v: Value, answers: Answers, now: string) {
    || (Required(f, answers, now) && Empty(v))
    || (f.kind == File && !Empty(v) && Refused(host, f, f.required, v, answers, now))
  }

  lemma UnansweredsAre(host: Host, at: Location, f: Field, v: Value, answers: Answers, now: string, gap: Gap)
    ensures gap in Unanswereds(host, at, f, v, answers, now) <==> gap == Unanswered(at) && Lacks(host, f, v, answers, now)
  {
    hide CheckField, Refused, Accepts, Unspoken;
    if f.kind == File {
      AloneIsAlike(host, f, f.required, v, answers, now);
      AnswerExactly(host, f, f.required, v, Others(answers, map[]), now);
      RefusedIs(host, f, f.required, v, answers, now);
    }
  }

  /** An upload is checked without regard to the rest of the form. */
  lemma AloneIsAlike(host: Host, f: Field, required: bool, v: Value, answers: Answers, now: string)
    requires f.kind == File
    ensures CheckField(host, f, required, v, None, now) == CheckField(host, f, required, v, Some(Others(answers, map[])), now)
  {
    hide CheckFile, IsBlank;
  }

  lemma {:induction false} MissingCellsAre(
      host: Host, group: Field, index: nat, row: Value, children: seq<Field>, answers: Answers, now: string, gap: Gap)
    ensures gap in MissingCells(host, group, index, row, children, answers, now) <==>
              exists c :: c in children && gap in MissingCell(host, group, index, row, c, answers, now)
  {
    hide MissingCell;
    if children != [] {
      MissingCellsAre(host, group, index, row, children[..|children| - 1], answers, now, gap);
      assert children == children[..|children| - 1] + [children[|children| - 1]];
    }
  }

  lemma {:induction false} MissingRowsAre(host: Host, group: Field, rows: seq<Value>, answers: Answers, now: string, gap: Gap)
    ensures gap in MissingRows(host, group, rows, answers, now) <==>
              exists i :: 0 <= i < |rows| && gap in MissingRow(host, group, i, rows[i], answers, now)
  {
    hide MissingRow;
    if rows != [] {
      var n := |rows| - 1;
      MissingRowsAre(host, group, rows[..n], answers, now, gap);
      assert forall i :: 0 <= i < n ==> rows[..n][i] == rows[i];
    }
  }

  ghost predicate CellLacks(host: Host, c: Field, row: Value, answers: Answers, now: string) {
    && row.Obj? && c.setBy !in {Some(Operator), Some(System)}
    && Lacks(host, c, Property(row, c.key), answers + Spread(row), now)
  }

  lemma MissingRowsLack(host: Host, group: Field, rows: seq<Value>, answers: Answers, now: string, gap: Gap)
    ensures gap in MissingRows(host, group, rows, answers, now) <==>
              exists i, c :: 0 <= i < |rows| && c in group.fields && gap == Unanswered(Cell(group.key, i, c.key))
                             && CellLacks(host, c, rows[i], answers, now)
  {
    hide MissingCells, MissingCell, Unanswereds, Lacks, Property, Spread, CellLacks;
    MissingRowsAre(host, group, rows, answers, now, gap);
    forall i, c | 0 <= i < |rows| && rows[i].Obj?
      ensures gap in MissingCell(host, group, i, rows[i], c, answers, now) <==>
                gap == Unanswered(Cell(group.key, i, c.key)) && CellLacks(host, c, rows[i], answers, now)
    {
      CellMisses(host, group, i, rows[i], c, answers, now, gap);
    }
    forall i | 0 <= i < |rows|
      ensures rows[i].Obj? ==>
                (gap in MissingRow(host, group, i, rows[i], answers, now) <==>
                   exists c :: c in group.fields && gap in MissingCell(host, group, i, rows[i], c, answers, now))
    {
      MissingCellsAre(host, group, i, rows[i], group.fields, answers, now, gap);
    }
    forall i, c | 0 <= i < |rows| && CellLacks(host, c, rows[i], answers, now) ensures rows[i].Obj? {
      OnlyObjectsLack(host, c, rows[i], answers, now);
    }
  }

  lemma OnlyObjectsLack(host: Host, c: Field, row: Value, answers: Answers, now: string)
    requires CellLacks(host, c, row, answers, now)
    ensures row.Obj?
  {
  }

  lemma CellMisses(host: Host, group: Field, i: nat, row: Value, c: Field, answers: Answers, now: string, gap: Gap)
    requires row.Obj?
    ensures gap in MissingCell(host, group, i, row, c, answers, now) <==>
              gap == Unanswered(Cell(group.key, i, c.key)) && CellLacks(host, c, row, answers, now)
  {
    hide Unanswereds, Lacks, Property, Spread;
    UnansweredsAre(host, Cell(group.key, i, c.key), c, Property(row, c.key), Overlay(answers, row), now, gap);
  }

  /** What one field on show lacks: its own answer, a mandatory choice, or a cell. */
  lemma MissingOfIs(host: Host, f: Field, answers: Answers, now: string, gap: Gap)
    ensures var rows := Rows(Get(answers, f.key));
            gap in MissingOf(host, f, answers, now) <==>
              || (gap == Unanswered(Whole(f.key)) && Lacks(host, f, Get(answers, f.key), answers, now))
              || (gap.NoRow? && gap.key == f.key && f.kind == RepeatingGroup && f.requiredChoices.Some?
                  && gap.choice in f.requiredChoices.value.values
                  && !exists row :: row in rows && row.Obj? && Property(row, f.requiredChoices.value.field) == Str(gap.choice))
              || (f.kind == RepeatingGroup
                  && exists i, c :: 0 <= i < |rows| && c in f.fields && gap == Unanswered(Cell(f.key, i, c.key))
                                    && CellLacks(host, c, rows[i], answers, now))
  {
    hide Unanswereds, MissingRows, MissingChoices, Lacks, CellLacks, Property;
    var rows := Rows(Get(answers, f.key));
    UnansweredsAre(host, Whole(f.key), f, Get(answers, f.key), answers, now, gap);
    MissingRowsLack(host, f, rows, answers, now, gap);
    if f.requiredChoices.Some? {
      MissingChoicesAre(f, rows, f.requiredChoices.value.values, f.requiredChoices.value.field, gap);
    }
  }

  /** A submission is missing exactly what some field on show lacks. */
  lemma {:induction false} GapExactly(host: Host, form: Form, answers: Answers, now: string, gap: Gap)
    ensures gap in Missing(host, form, answers, now) <==>
              exists f :: Shows(f, form, answers, now) && FieldLacks(host, f, answers, now, gap)
  {
    hide MissingOf, MissingAmong, VisibleFields, Shows, FieldLacks;
    var visible := VisibleFields(form, answers, now);
    forall f ensures Shows(f, form, answers, now) <==> f in form.fields && !f.Silent() && f.key in visible {
      AskedIsChecked(f, form, answers, None, now);
    }
    forall f ensures FieldLacks(host, f, answers, now, gap) <==> gap in MissingOf(host, f, answers, now) {
      FieldLacksIs(host, f, answers, now, gap);
    }
    if gap in Missing(host, form, answers, now) {
      var f := MissingAmongFrom(host, form.fields, visible, answers, now, gap);
    }
    if f :| Shows(f, form, answers, now) && FieldLacks(host, f, answers, now, gap) {
      MissingAmongHas(host, form.fields, visible, answers, now, f, gap);
    }
  }

  ghost predicate FieldLacks(host: Host, f: Field, answers: Answers, now: string, gap: Gap) {
    var rows := Rows(Get(answers, f.key));
    match gap
    case Unanswered(Whole(key)) => key == f.key && Lacks(host, f, Get(answers, key), answers, now)
    case Unanswered(Cell(key, i, child)) =>
      && key == f.key && f.kind == RepeatingGroup && i < |rows|
      && exists c :: c in f.fields && c.key == child && CellLacks(host, c, rows[i], answers, now)
    case NoRow(key, choice) =>
      && key == f.key && f.kind == RepeatingGroup && f.requiredChoices.Some? && choice in f.requiredChoices.value.values
      && !exists row :: row in rows && row.Obj? && Property(row, f.requiredChoices.value.field) == Str(choice)
  }

  lemma FieldLacksIs(host: Host, f: Field, answers: Answers, now: string, gap: Gap)
    ensures FieldLacks(host, f, answers, now, gap) <==> gap in MissingOf(host, f, answers, now)
  {
    hide MissingOf, Lacks, CellLacks, Property;
    MissingOfIs(host, f, answers, now, gap);
  }
}
