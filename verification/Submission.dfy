/**
 The two walks over a submission: what it is missing, and everything wrong with
 it. Each is a loop proved against a specification on values.
 */
module Submission {
  import opened Values
  import opened Conditions
  import opened Forms

  /** Where an error or a gap is: a whole field, or one cell of one row. */
  datatype Location = Whole(key: string) | Cell(key: string, index: nat, child: string)

  datatype FieldError = FieldError(at: Location, problem: Problem)

  /** An unanswered requirement, or a mandatory choice no row carries. */
  datatype Gap = Unanswered(at: Location) | NoRow(key: string, choice: string)

  function When(answers: Answers, now: string): Context {
    Context(answers, now, None, None)
  }

  // -------------------------------------------------------------- visibility

  predicate Shown(when: Option<Expr>, answers: Answers, now: string) {
    when.None? || Evaluate(when.value, When(answers, now))
  }

  function SectionsFields(sections: seq<Section>, answers: Answers, now: string): set<string> {
    set s, k | s in sections && Shown(s.visibleWhen, answers, now) && k in s.fields :: k
  }

  function PagesFields(pages: seq<Page>, answers: Answers, now: string): set<string> {
    set p, k | p in pages && Shown(p.visibleWhen, answers, now) && k in SectionsFields(p.sections, answers, now) :: k
  }

  /** The keys on a shown section of a shown page. */
  function VisibleFields(form: Form, answers: Answers, now: string): set<string> {
    PagesFields(form.pages, answers, now)
  }

  method ComputeVisible(form: Form, answers: Answers, now: string) returns (visible: set<string>)
    ensures visible == VisibleFields(form, answers, now)
  {
    visible := {};
    for i := 0 to |form.pages|
      invariant visible == PagesFields(form.pages[..i], answers, now)
    {
      var page := form.pages[i];
      assert form.pages[..i + 1] == form.pages[..i] + [page];
      if !Shown(page.visibleWhen, answers, now) {
        continue;
      }
      visible := AddSections(page.sections, answers, now, visible);
    }
    assert form.pages[..|form.pages|] == form.pages;
  }

  method AddSections(sections: seq<Section>, answers: Answers, now: string, before: set<string>)
    returns (visible: set<string>)
    ensures visible == before + SectionsFields(sections, answers, now)
  {
    visible := before;
    for j := 0 to |sections|
      invariant visible == before + SectionsFields(sections[..j], answers, now)
    {
      var section := sections[j];
      assert sections[..j + 1] == sections[..j] + [section];
      if Shown(section.visibleWhen, answers, now) {
        for k := 0 to |section.fields|
          invariant visible == before + SectionsFields(sections[..j], answers, now) + set f | f in section.fields[..k]
        {
          assert section.fields[..k + 1] == section.fields[..k] + [section.fields[k]];
          visible := visible + {section.fields[k]};
        }
        assert section.fields[..|section.fields|] == section.fields;
      }
    }
    assert sections[..|sections|] == sections;
  }

  // ------------------------------------------------------------ requirements

  predicate EffectivelyRequired(field: Field, answers: Answers, now: string) {
    field.required || (field.requiredWhen.Some? && Evaluate(field.requiredWhen.value, When(answers, now)))
  }

  /** The narrower notion of empty the missing-fields walk uses: no trimming. */
  predicate Unfilled(v: Value) {
    v == Undefined || v == Null || v == Str("") || v == List([])
  }

  predicate Carries(row: Value, field: string, choice: string) {
    Property(row, field) == Str(choice)
  }

  function Rows(v: Value): seq<Value> {
    if v.List? then v.items else []
  }

  // -------------------------------------------------------- what is missing

  predicate BadFile(host: Host, field: Field, value: Value, now: string) {
    field.kind == File && !Unfilled(value) && Reported(CheckField(host, field, field.required, value, None, now))
  }

  /** A requirement not met, then an upload that is not one. */
  function Unanswereds(host: Host, at: Location, field: Field, value: Value, answers: Answers, now: string): seq<Gap> {
    (if EffectivelyRequired(field, answers, now) && Unfilled(value) then [Unanswered(at)] else [])
    + (if BadFile(host, field, value, now) then [Unanswered(at)] else [])
  }

  function MissingChoices(group: Field, rows: seq<Value>, choices: seq<string>, field: string): seq<Gap> {
    if choices == [] then []
    else
      var (init, last) := (choices[..|choices| - 1], choices[|choices| - 1]);
      MissingChoices(group, rows, init, field)
      + (if exists row :: row in rows && row.Obj? && Carries(row, field, last) then [] else [NoRow(group.key, last)])
  }

  function MissingCell(host: Host, group: Field, index: nat, row: Value, child: Field, answers: Answers, now: string)
    : seq<Gap>
  {
    if child.Staff() then []
    else
      Unanswereds(host, Cell(group.key, index, child.key), child, Property(row, child.key), Overlay(answers, row), now)
  }

  function MissingCells(
      host: Host, group: Field, index: nat, row: Value, children: seq<Field>, answers: Answers, now: string): seq<Gap>
  {
    if children == [] then []
    else
      var (init, last) := (children[..|children| - 1], children[|children| - 1]);
      MissingCells(host, group, index, row, init, answers, now)
      + MissingCell(host, group, index, row, last, answers, now)
  }

  /** Anything but a plain object is passed over. */
  function MissingRow(host: Host, group: Field, index: nat, row: Value, answers: Answers, now: string): seq<Gap> {
    if row.Obj? then MissingCells(host, group, index, row, group.fields, answers, now) else []
  }

  function MissingRows(host: Host, group: Field, rows: seq<Value>, answers: Answers, now: string): seq<Gap> {
    if rows == [] then []
    else
      var n := |rows| - 1;
      MissingRows(host, group, rows[..n], answers, now) + MissingRow(host, group, n, rows[n], answers, now)
  }

  function MissingOf(host: Host, field: Field, answers: Answers, now: string): seq<Gap> {
    var value := Get(answers, field.key);
    Unanswereds(host, Whole(field.key), field, value, answers, now)
    + (if field.kind != RepeatingGroup then []
       else (if field.requiredChoices.None? then []
             else MissingChoices(
                    field, Rows(value), field.requiredChoices.value.values, field.requiredChoices.value.field))
            + MissingRows(host, field, Rows(value), answers, now))
  }

  function MissingAmong(host: Host, fields: seq<Field>, visible: set<string>, answers: Answers, now: string): seq<Gap> {
    if fields == [] then []
    else
      var (init, last) := (fields[..|fields| - 1], fields[|fields| - 1]);
      MissingAmong(host, init, visible, answers, now)
      + (if last.Silent() || last.key !in visible then [] else MissingOf(host, last, answers, now))
  }

  /** Every unanswered requirement of the fields the form is showing. */
  function Missing(host: Host, form: Form, answers: Answers, now: string): seq<Gap> {
    MissingAmong(host, form.fields, VisibleFields(form, answers, now), answers, now)
  }

  method MissingRequiredFields(host: Host, form: Form, answers: Answers, now: string) returns (missing: seq<Gap>)
    ensures missing == Missing(host, form, answers, now)
  {
    hide MissingOf, VisibleFields;
    var visible := ComputeVisible(form, answers, now);
    missing := [];
    for i := 0 to |form.fields|
      invariant missing == MissingAmong(host, form.fields[..i], visible, answers, now)
    {
      var field := form.fields[i];
      assert form.fields[..i + 1][..i] == form.fields[..i];
      if field.Silent() || field.key !in visible {
        continue;
      }
      missing := PushMissing(host, field, answers, now, missing);
    }
    assert form.fields[..|form.fields|] == form.fields;
  }

  method PushMissing(host: Host, field: Field, answers: Answers, now: string, before: seq<Gap>)
    returns (missing: seq<Gap>)
    ensures missing == before + MissingOf(host, field, answers, now)
  {
    hide Unanswereds, MissingChoices, MissingRows;
    var value := Get(answers, field.key);
    missing := PushUnanswered(host, Whole(field.key), field, value, answers, now, before);
    if field.kind == RepeatingGroup {
      missing := PushMissingChoices(field, Rows(value), missing);
      missing := PushMissingRows(host, field, Rows(value), answers, now, missing);
    }
  }

  method PushUnanswered(
      host: Host, at: Location, field: Field, value: Value, answers: Answers, now: string, before: seq<Gap>)
    returns (missing: seq<Gap>)
    ensures missing == before + Unanswereds(host, at, field, value, answers, now)
  {
    missing := before;
    if EffectivelyRequired(field, answers, now) && Unfilled(value) {
      missing := missing + [Unanswered(at)];
    }
    if BadFile(host, field, value, now) {
      missing := missing + [Unanswered(at)];
    }
  }

  method PushMissingChoices(group: Field, rows: seq<Value>, before: seq<Gap>) returns (missing: seq<Gap>)
    ensures missing == before + if group.requiredChoices.None? then []
            else MissingChoices(group, rows, group.requiredChoices.value.values, group.requiredChoices.value.field)
  {
    missing := before;
    if group.requiredChoices.Some? {
      var RequiredChoices(field, values) := group.requiredChoices.value;
      for i := 0 to |values|
        invariant missing == before + MissingChoices(group, rows, values[..i], field)
      {
        assert values[..i + 1][..i] == values[..i];
        if !exists row :: row in rows && row.Obj? && Carries(row, field, values[i]) {
          missing := missing + [NoRow(group.key, values[i])];
        }
      }
      assert values[..|values|] == values;
    }
  }

  method PushMissingRows(
      host: Host, group: Field, rows: seq<Value>, answers: Answers, now: string, before: seq<Gap>)
    returns (missing: seq<Gap>)
    ensures missing == before + MissingRows(host, group, rows, answers, now)
  {
    hide MissingRow;
    missing := before;
    for i := 0 to |rows|
      invariant missing == before + MissingRows(host, group, rows[..i], answers, now)
    {
      assert rows[..i + 1][..i] == rows[..i];
      missing := PushMissingCells(host, group, i, rows[i], answers, now, missing);
    }
    assert rows[..|rows|] == rows;
  }

  method PushMissingCells(
      host: Host, group: Field, index: nat, row: Value, answers: Answers, now: string, before: seq<Gap>)
    returns (missing: seq<Gap>)
    ensures missing == before + MissingRow(host, group, index, row, answers, now)
  {
    hide Unanswereds, Property, Overlay;
    missing := before;
    if !row.Obj? {
      return;
    }
    for j := 0 to |group.fields|
      invariant missing == before + MissingCells(host, group, index, row, group.fields[..j], answers, now)
    {
      assert group.fields[..j + 1][..j] == group.fields[..j];
      var child := group.fields[j];
      if child.Staff() {
        continue;
      }
      missing := PushUnanswered(host, Cell(group.key, index, child.key), child, Property(row, child.key),
                                Overlay(answers, row), now, missing);
    }
    assert group.fields[..|group.fields|] == group.fields;
  }

  // --------------------------------------------------------- what is wrong

  /** What every check of one submission shares. */
  datatype Env = Env(host: Host, answers: Answers, labels: map<string, string>, now: string)

  function Report(at: Location, problem: Option<Problem>): seq<FieldError> {
    if Reported(problem) then [FieldError(at, problem.value)] else []
  }

  function OwnErrors(env: Env, field: Field): seq<FieldError> {
    Report(Whole(field.key),
           CheckField(env.host, field, EffectivelyRequired(field, env.answers, env.now), Get(env.answers, field.key),
                      Some(Others(env.answers, env.labels)), env.now))
  }

  function ChoiceErrors(group: Field, rows: seq<Value>, choices: seq<string>, field: string): seq<FieldError> {
    if choices == [] then []
    else
      var (init, last) := (choices[..|choices| - 1], choices[|choices| - 1]);
      ChoiceErrors(group, rows, init, field)
      + (if exists row :: row in rows && Carries(row, field, last) then []
         else [FieldError(Whole(group.key), NoSuchRow(last, group.caption))])
  }

  function CellErrors(env: Env, group: Field, index: nat, row: Value, child: Field): seq<FieldError> {
    var at := Cell(group.key, index, child.key);
    var value := Property(row, child.key);
    if child.Staff() then
      if value != Undefined then [FieldError(at, FilledByStaff(child.caption))] else []
    else
      var rowAnswers := Overlay(env.answers, row);
      Report(at, CheckField(env.host, child, EffectivelyRequired(child, rowAnswers, env.now), value,
                            Some(Others(rowAnswers, env.labels)), env.now))
  }

  function CellsErrors(env: Env, group: Field, index: nat, row: Value, children: seq<Field>): seq<FieldError> {
    if children == [] then []
    else
      var (init, last) := (children[..|children| - 1], children[|children| - 1]);
      CellsErrors(env, group, index, row, init) + CellErrors(env, group, index, row, last)
  }

  function RowsErrors(env: Env, group: Field, rows: seq<Value>): seq<FieldError> {
    if rows == [] then []
    else
      var n := |rows| - 1;
      RowsErrors(env, group, rows[..n]) + CellsErrors(env, group, n, rows[n], group.fields)
  }

  function ErrorsOf(env: Env, field: Field): seq<FieldError> {
    var rows := Rows(Get(env.answers, field.key));
    OwnErrors(env, field)
    + (if field.kind != RepeatingGroup then []
       else (if field.requiredChoices.None? then []
             else ChoiceErrors(field, rows, field.requiredChoices.value.values, field.requiredChoices.value.field))
            + RowsErrors(env, field, rows))
  }

  predicate Checked(field: Field, visible: set<string>, scope: Option<seq<string>>) {
    && !field.Silent()
    && !field.Staff()
    && field.key in visible
    && (scope.Some? ==> field.key in scope.value)
  }

  function ErrorsAmong(env: Env, fields: seq<Field>, visible: set<string>, scope: Option<seq<string>>)
    : seq<FieldError>
  {
    if fields == [] then []
    else
      var (init, last) := (fields[..|fields| - 1], fields[|fields| - 1]);
      ErrorsAmong(env, init, visible, scope) + (if Checked(last, visible, scope) then ErrorsOf(env, last) else [])
  }

  function LabelsOfAll(fields: seq<Field>): map<string, string> {
    if fields == [] then map[]
    else
      var last := fields[|fields| - 1];
      LabelsOfAll(fields[..|fields| - 1])[last.key := last.caption]
  }

  /** Field and child captions by key; a later declaration wins. */
  function Labels(fields: seq<Field>): map<string, string> {
    if fields == [] then map[]
    else
      var last := fields[|fields| - 1];
      Labels(fields[..|fields| - 1])[last.key := last.caption] + LabelsOfAll(last.fields)
  }

  function EnvOf(host: Host, form: Form, answers: Answers, now: string): Env {
    Env(host, answers, Labels(form.fields), now)
  }

  /** Everything wrong with the fields that are shown, in scope and the respondent's. */
  function Errors(host: Host, form: Form, answers: Answers, scope: Option<seq<string>>, now: string): seq<FieldError> {
    ErrorsAmong(EnvOf(host, form, answers, now), form.fields, VisibleFields(form, answers, now), scope)
  }

  method ComputeLabels(fields: seq<Field>) returns (labels: map<string, string>)
    ensures labels == Labels(fields)
  {
    hide LabelsOfAll;
    labels := map[];
    for i := 0 to |fields|
      invariant labels == Labels(fields[..i])
    {
      var field := fields[i];
      assert fields[..i + 1][..i] == fields[..i];
      labels := AddLabels(field.fields, labels[field.key := field.caption]);
    }
    assert fields[..|fields|] == fields;
  }

  method AddLabels(fields: seq<Field>, before: map<string, string>) returns (labels: map<string, string>)
    ensures labels == before + LabelsOfAll(fields)
  {
    labels := before;
    for j := 0 to |fields|
      invariant labels == before + LabelsOfAll(fields[..j])
    {
      assert fields[..j + 1][..j] == fields[..j];
      labels := labels[fields[j].key := fields[j].caption];
    }
    assert fields[..|fields|] == fields;
  }

  method ValidateAnswers(host: Host, form: Form, answers: Answers, scope: Option<seq<string>>, now: string)
    returns (errors: seq<FieldError>)
    ensures errors == Errors(host, form, answers, scope, now)
  {
    hide ErrorsOf, VisibleFields, Labels;
    var visible := ComputeVisible(form, answers, now);
    var labels := ComputeLabels(form.fields);
    var env := Env(host, answers, labels, now);
    errors := [];
    for i := 0 to |form.fields|
      invariant errors == ErrorsAmong(env, form.fields[..i], visible, scope)
    {
      var field := form.fields[i];
      assert form.fields[..i + 1][..i] == form.fields[..i];
      if !Checked(field, visible, scope) {
        continue;
      }
      errors := PushErrors(env, field, errors);
    }
    assert form.fields[..|form.fields|] == form.fields;
  }

  method PushErrors(env: Env, field: Field, before: seq<FieldError>) returns (errors: seq<FieldError>)
    ensures errors == before + ErrorsOf(env, field)
  {
    hide OwnErrors, ChoiceErrors;
    errors := before + OwnErrors(env, field);
    var value := Get(env.answers, field.key);
    if field.kind == RepeatingGroup && (value.List? || field.requiredChoices.Some?) {
      errors := PushChoiceErrors(field, Rows(value), errors);
      errors := PushRowErrors(env, field, Rows(value), errors);
    }
  }

  method PushChoiceErrors(group: Field, rows: seq<Value>, before: seq<FieldError>) returns (errors: seq<FieldError>)
    ensures errors == before + if group.requiredChoices.None? then []
            else ChoiceErrors(group, rows, group.requiredChoices.value.values, group.requiredChoices.value.field)
  {
    errors := before;
    if group.requiredChoices.Some? {
      var RequiredChoices(field, values) := group.requiredChoices.value;
      for i := 0 to |values|
        invariant errors == before + ChoiceErrors(group, rows, values[..i], field)
      {
        assert values[..i + 1][..i] == values[..i];
        if !exists row :: row in rows && Carries(row, field, values[i]) {
          errors := errors + [FieldError(Whole(group.key), NoSuchRow(values[i], group.caption))];
        }
      }
      assert values[..|values|] == values;
    }
  }

  method PushRowErrors(env: Env, group: Field, rows: seq<Value>, before: seq<FieldError>)
    returns (errors: seq<FieldError>)
    ensures errors == before + RowsErrors(env, group, rows)
  {
    hide CellsErrors;
    errors := before;
    for i := 0 to |rows|
      invariant errors == before + RowsErrors(env, group, rows[..i])
    {
      assert rows[..i + 1][..i] == rows[..i];
      errors := PushCellErrors(env, group, i, rows[i], errors);
    }
    assert rows[..|rows|] == rows;
  }

  method PushCellErrors(env: Env, group: Field, index: nat, row: Value, before: seq<FieldError>)
    returns (errors: seq<FieldError>)
    ensures errors == before + CellsErrors(env, group, index, row, group.fields)
  {
    hide CellErrors;
    errors := before;
    for j := 0 to |group.fields|
      invariant errors == before + CellsErrors(env, group, index, row, group.fields[..j])
    {
      assert group.fields[..j + 1][..j] == group.fields[..j];
      errors := errors + CellErrors(env, group, index, row, group.fields[j]);
    }
    assert group.fields[..|group.fields|] == group.fields;
  }
}
