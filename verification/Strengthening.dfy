/** Strengthening a form: asking for more never clears an error or fills a gap. */
module Strengthening {
  import opened Values
  import opened Forms
  import opened Submission

  /** Only the condition of an optional, unconditional upload may differ. */
  predicate StrongerChild(c: Field, d: Field) {
    d == c
    || (c.kind == File && !c.required && c.requiredWhen.None? && d.(requiredWhen := None) == c)
  }

  predicate MoreChoices(a: Option<RequiredChoices>, b: Option<RequiredChoices>) {
    a.Some? ==>
      b.Some? && b.value.field == a.value.field && forall v :: v in a.value.values ==> v in b.value.values
  }

  /** `g` is `f` with at most more required of it. */
  predicate Stronger(f: Field, g: Field) {
    && g.(required := f.required, requiredChoices := f.requiredChoices, fields := f.fields) == f
    && (f.required ==> g.required)
    && MoreChoices(f.requiredChoices, g.requiredChoices)
    && |g.fields| == |f.fields|
    && forall j :: 0 <= j < |f.fields| ==> StrongerChild(f.fields[j], g.fields[j])
  }

  predicate StrongerFields(fs: seq<Field>, gs: seq<Field>) {
    |gs| == |fs| && forall i :: 0 <= i < |fs| ==> Stronger(fs[i], gs[i])
  }

  predicate StrongerForm(f: Form, g: Form) {
    g.pages == f.pages && StrongerFields(f.fields, g.fields)
  }

  // ----------------------------------------------------------- one answer

  lemma SameLeaves(host: Host, f: Field, g: Field, value: Value, others: Option<Others>, now: string)
    requires g.(required := f.required, requiredWhen := f.requiredWhen, requiredChoices := f.requiredChoices,
                fields := f.fields) == f
    ensures CheckNumber(host, g, value, others) == CheckNumber(host, f, value, others)
    ensures CheckDate(host, g, value, others, now) == CheckDate(host, f, value, others, now)
    ensures CheckText(host, g, value) == CheckText(host, f, value)
    ensures CheckFile(host, g, value) == CheckFile(host, f, value)
    ensures forall v :: Allowed(g, v) == Allowed(f, v)
  {
    hide ToNumber, LabelOf, TextLess, Refuse, Get;
  }

  /** A check does not read the requirement off the field it is given. */
  lemma CheckIgnoresRequirement(
      host: Host, f: Field, g: Field, required: bool, value: Value, others: Option<Others>, now: string)
    requires g.(required := f.required, requiredWhen := f.requiredWhen, requiredChoices := f.requiredChoices,
                fields := f.fields) == f
    ensures CheckField(host, g, required, value, others, now) == CheckField(host, f, required, value, others, now)
  {
    hide IsBlank, ToNumber, LabelOf, TextLess, Refuse, Get, CheckNumber, CheckDate, CheckText, CheckFile, Allowed;
    SameLeaves(host, f, g, value, others, now);
  }

  lemma ReportGrows(
      host: Host, at: Location, f: Field, g: Field, less: bool, more: bool, value: Value, others: Option<Others>,
      now: string, e: FieldError)
    requires g.(required := f.required, requiredWhen := f.requiredWhen, requiredChoices := f.requiredChoices,
                fields := f.fields) == f
    requires less ==> more
    requires e in Report(at, CheckField(host, f, less, value, others, now))
    ensures e in Report(at, CheckField(host, g, more, value, others, now))
  {
    hide CheckField;
    CheckIgnoresRequirement(host, f, g, more, value, others, now);
    RequiringMore(host, f, less, more, value, others, now);
  }

  lemma UnansweredGrows(
      host: Host, at: Location, f: Field, g: Field, value: Value, answers: Answers, now: string, gap: Gap)
    requires g.(required := f.required, requiredWhen := f.requiredWhen, requiredChoices := f.requiredChoices,
                fields := f.fields) == f
    requires f.required ==> g.required
    requires EffectivelyRequired(f, answers, now) ==> EffectivelyRequired(g, answers, now)
    requires gap in Unanswereds(host, at, f, value, answers, now)
    ensures gap in Unanswereds(host, at, g, value, answers, now)
  {
    hide CheckField, EffectivelyRequired;
    if BadFile(host, f, value, now) {
      CheckIgnoresRequirement(host, f, g, g.required, value, None, now);
      RequiringMore(host, f, f.required, g.required, value, None, now);
    }
  }

  // ------------------------------------------------------------- one cell

  lemma CellGrows(
      env: Env, f: Field, g: Field, index: nat, row: Value, c: Field, d: Field, e: FieldError, gap: Gap)
    requires g.key == f.key && StrongerChild(c, d)
    ensures e in CellErrors(env, f, index, row, c) ==> e in CellErrors(env, g, index, row, d)
    ensures gap in MissingCell(env.host, f, index, row, c, env.answers, env.now) ==>
              gap in MissingCell(env.host, g, index, row, d, env.answers, env.now)
  {
    hide CheckField, Overlay, Property, Unanswereds, Report;
    if !c.Staff() {
      var (rowAnswers, value, at) := (Overlay(env.answers, row), Property(row, c.key), Cell(f.key, index, c.key));
      var (less, more) := (EffectivelyRequired(c, rowAnswers, env.now), EffectivelyRequired(d, rowAnswers, env.now));
      assert less ==> more;
      hide EffectivelyRequired;
      if e in CellErrors(env, f, index, row, c) {
        ReportGrows(env.host, at, c, d, less, more, value, Some(Others(rowAnswers, env.labels)), env.now, e);
      }
      if gap in MissingCell(env.host, f, index, row, c, env.answers, env.now) {
        UnansweredGrows(env.host, at, c, d, value, rowAnswers, env.now, gap);
      }
    }
  }

  lemma {:induction false} CellsGrow(
      env: Env, f: Field, g: Field, index: nat, row: Value, cs: seq<Field>, ds: seq<Field>, e: FieldError, gap: Gap)
    requires g.key == f.key && |ds| == |cs|
    requires forall j :: 0 <= j < |cs| ==> StrongerChild(cs[j], ds[j])
    ensures e in CellsErrors(env, f, index, row, cs) ==> e in CellsErrors(env, g, index, row, ds)
    ensures gap in MissingCells(env.host, f, index, row, cs, env.answers, env.now) ==>
              gap in MissingCells(env.host, g, index, row, ds, env.answers, env.now)
  {
    hide CellErrors, MissingCell, StrongerChild;
    if cs != [] {
      var n := |cs| - 1;
      CellsGrow(env, f, g, index, row, cs[..n], ds[..n], e, gap);
      CellGrows(env, f, g, index, row, cs[n], ds[n], e, gap);
    }
  }

  lemma {:induction false} RowsGrow(env: Env, f: Field, g: Field, rows: seq<Value>, e: FieldError, gap: Gap)
    requires Stronger(f, g)
    ensures e in RowsErrors(env, f, rows) ==> e in RowsErrors(env, g, rows)
    ensures gap in MissingRows(env.host, f, rows, env.answers, env.now) ==>
              gap in MissingRows(env.host, g, rows, env.answers, env.now)
  {
    hide CellsErrors, MissingCells, StrongerChild;
    if rows != [] {
      var n := |rows| - 1;
      RowsGrow(env, f, g, rows[..n], e, gap);
      CellsGrow(env, f, g, n, rows[n], f.fields, g.fields, e, gap);
    }
  }

  lemma {:induction false} ChoiceErrorsAre(
      group: Field, rows: seq<Value>, choices: seq<string>, field: string, e: FieldError)
    ensures e in ChoiceErrors(group, rows, choices, field) <==>
              && e.at == Whole(group.key) && e.problem.NoSuchRow? && e.problem.caption == group.caption
              && e.problem.choice in choices
              && !exists row :: row in rows && Carries(row, field, e.problem.choice)
  {
    if choices != [] {
      ChoiceErrorsAre(group, rows, choices[..|choices| - 1], field, e);
      assert choices == choices[..|choices| - 1] + [choices[|choices| - 1]];
    }
  }

  lemma {:induction false} MissingChoicesAre(
      group: Field, rows: seq<Value>, choices: seq<string>, field: string, gap: Gap)
    ensures gap in MissingChoices(group, rows, choices, field) <==>
              && gap.NoRow? && gap.key == group.key && gap.choice in choices
              && !exists row :: row in rows && row.Obj? && Carries(row, field, gap.choice)
  {
    if choices != [] {
      MissingChoicesAre(group, rows, choices[..|choices| - 1], field, gap);
      assert choices == choices[..|choices| - 1] + [choices[|choices| - 1]];
    }
  }

  // ------------------------------------------------------------ one field

  lemma ChoicesGrow(f: Field, g: Field, rows: seq<Value>, e: FieldError, gap: Gap)
    requires Stronger(f, g) && f.requiredChoices.Some?
    ensures var (a, b) := (f.requiredChoices.value, g.requiredChoices.value);
            && (e in ChoiceErrors(f, rows, a.values, a.field) ==> e in ChoiceErrors(g, rows, b.values, b.field))
            && (gap in MissingChoices(f, rows, a.values, a.field) ==> gap in MissingChoices(g, rows, b.values, b.field))
  {
    hide ChoiceErrors, MissingChoices;
    var (a, b) := (f.requiredChoices.value, g.requiredChoices.value);
    ChoiceErrorsAre(f, rows, a.values, a.field, e);
    ChoiceErrorsAre(g, rows, b.values, b.field, e);
    MissingChoicesAre(f, rows, a.values, a.field, gap);
    MissingChoicesAre(g, rows, b.values, b.field, gap);
  }

  lemma FieldGrows(env: Env, f: Field, g: Field, e: FieldError, gap: Gap)
    requires Stronger(f, g)
    ensures e in ErrorsOf(env, f) ==> e in ErrorsOf(env, g)
    ensures gap in MissingOf(env.host, f, env.answers, env.now) ==> gap in MissingOf(env.host, g, env.answers, env.now)
  {
    hide CheckField, Report, RowsErrors, MissingRows, ChoiceErrors, MissingChoices, Unanswereds;
    var value := Get(env.answers, f.key);
    var rows := Rows(value);
    var (less, more) := (EffectivelyRequired(f, env.answers, env.now), EffectivelyRequired(g, env.answers, env.now));
    assert less ==> more;
    hide EffectivelyRequired;
    if e in OwnErrors(env, f) {
      ReportGrows(env.host, Whole(f.key), f, g, less, more, value, Some(Others(env.answers, env.labels)), env.now, e);
    }
    if gap in Unanswereds(env.host, Whole(f.key), f, value, env.answers, env.now) {
      UnansweredGrows(env.host, Whole(f.key), f, g, value, env.answers, env.now, gap);
    }
    RowsGrow(env, f, g, rows, e, gap);
    if f.requiredChoices.Some? {
      ChoicesGrow(f, g, rows, e, gap);
    }
  }

  lemma {:induction false} FieldsGrow(
      env: Env, fs: seq<Field>, gs: seq<Field>, visible: set<string>, scope: Option<seq<string>>, e: FieldError, gap: Gap)
    requires StrongerFields(fs, gs)
    ensures e in ErrorsAmong(env, fs, visible, scope) ==> e in ErrorsAmong(env, gs, visible, scope)
    ensures gap in MissingAmong(env.host, fs, visible, env.answers, env.now) ==>
              gap in MissingAmong(env.host, gs, visible, env.answers, env.now)
  {
    hide ErrorsOf, MissingOf;
    if fs != [] {
      var n := |fs| - 1;
      assert StrongerFields(fs[..n], gs[..n]);
      FieldsGrow(env, fs[..n], gs[..n], visible, scope, e, gap);
      FieldGrows(env, fs[n], gs[n], e, gap);
    }
  }

  // ------------------------------------------------------------- the form

  lemma {:induction false} ChildLabelsSame(cs: seq<Field>, ds: seq<Field>)
    requires |ds| == |cs| && forall j :: 0 <= j < |cs| ==> StrongerChild(cs[j], ds[j])
    ensures LabelsOfAll(ds) == LabelsOfAll(cs)
  {
    if cs != [] {
      ChildLabelsSame(cs[..|cs| - 1], ds[..|cs| - 1]);
    }
  }

  lemma {:induction false} LabelsSame(fs: seq<Field>, gs: seq<Field>)
    requires StrongerFields(fs, gs)
    ensures Labels(gs) == Labels(fs)
  {
    hide LabelsOfAll, StrongerChild;
    if fs != [] {
      var n := |fs| - 1;
      LabelsSame(fs[..n], gs[..n]);
      ChildLabelsSame(fs[n].fields, gs[n].fields);
    }
  }

  /** Whatever the first form reports, a stronger one reports too. */
  lemma StrongerReportsMore(
      host: Host, f: Form, g: Form, answers: Answers, scope: Option<seq<string>>, now: string, e: FieldError, gap: Gap)
    requires StrongerForm(f, g)
    ensures e in Errors(host, f, answers, scope, now) ==> e in Errors(host, g, answers, scope, now)
    ensures gap in Missing(host, f, answers, now) ==> gap in Missing(host, g, answers, now)
  {
    hide ErrorsAmong, MissingAmong, Labels, PagesFields, StrongerFields;
    LabelsSame(f.fields, g.fields);
    FieldsGrow(EnvOf(host, f, answers, now), f.fields, g.fields, VisibleFields(f, answers, now), scope, e, gap);
  }
}
