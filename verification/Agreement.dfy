/**
 The two walks over a submission agree: what one calls missing the other reports
 as an error, except where the field belongs to staff.
 */
module Agreement {
  import opened Values
  import opened Conditions
  import opened Forms
  import opened Submission

  /** What the blueprint schema asks of a key: it starts with a letter. */
  predicate LegalKey(key: string) {
    key != "" && 'a' <= key[0] <= 'z'
  }

  predicate LegalChoices(fields: seq<Field>) {
    forall f :: f in fields && f.requiredChoices.Some? ==> LegalKey(f.requiredChoices.value.field)
  }

  /** The error that tells the respondent about a gap. */
  predicate Tells(e: FieldError, gap: Gap) {
    match gap
    case Unanswered(at) => e.at == at
    case NoRow(key, choice) => e.at == Whole(key) && e.problem.NoSuchRow? && e.problem.choice == choice
  }

  // ---------------------------------------------------------- membership

  lemma {:induction false} CellsErrorsHas(
      env: Env, group: Field, index: nat, row: Value, children: seq<Field>, child: Field, e: FieldError)
    requires child in children && e in CellErrors(env, group, index, row, child)
    ensures e in CellsErrors(env, group, index, row, children)
  {
    hide CellErrors;
    if child != children[|children| - 1] {
      CellsErrorsHas(env, group, index, row, children[..|children| - 1], child, e);
    }
  }

  lemma {:induction false} RowsErrorsHas(env: Env, group: Field, rows: seq<Value>, i: nat, e: FieldError)
    requires i < |rows| && e in CellsErrors(env, group, i, rows[i], group.fields)
    ensures e in RowsErrors(env, group, rows)
  {
    hide CellsErrors;
    if i < |rows| - 1 {
      RowsErrorsHas(env, group, rows[..|rows| - 1], i, e);
    }
  }

  lemma {:induction false} ChoiceErrorsHas(
      group: Field, rows: seq<Value>, choices: seq<string>, field: string, choice: string)
    requires choice in choices && !exists row :: row in rows && Carries(row, field, choice)
    ensures FieldError(Whole(group.key), NoSuchRow(choice, group.caption)) in ChoiceErrors(group, rows, choices, field)
  {
    if choice != choices[|choices| - 1] {
      ChoiceErrorsHas(group, rows, choices[..|choices| - 1], field, choice);
    }
  }

  lemma {:induction false} ErrorsAmongHas(
      env: Env, fields: seq<Field>, visible: set<string>, scope: Option<seq<string>>, field: Field, e: FieldError)
    requires field in fields && Checked(field, visible, scope) && e in ErrorsOf(env, field)
    ensures e in ErrorsAmong(env, fields, visible, scope)
  {
    hide ErrorsOf, Checked;
    if field != fields[|fields| - 1] {
      ErrorsAmongHas(env, fields[..|fields| - 1], visible, scope, field, e);
    }
  }

  lemma {:induction false} ErrorsAmongSnoc(
      env: Env, fields: seq<Field>, last: Field, visible: set<string>, scope: Option<seq<string>>)
    ensures ErrorsAmong(env, fields + [last], visible, scope)
            == ErrorsAmong(env, fields, visible, scope) + (if Checked(last, visible, scope) then ErrorsOf(env, last) else [])
  {
    hide ErrorsOf, Checked;
    assert (fields + [last])[..|fields + [last]| - 1] == fields;
  }

  lemma {:induction false} ErrorsAmongFrom(
      env: Env, fields: seq<Field>, visible: set<string>, scope: Option<seq<string>>, e: FieldError)
    returns (field: Field)
    requires e in ErrorsAmong(env, fields, visible, scope)
    ensures field in fields && Checked(field, visible, scope) && e in ErrorsOf(env, field)
  {
    hide ErrorsOf, Checked;
    var n := |fields| - 1;
    if e in ErrorsAmong(env, fields[..n], visible, scope) {
      field := ErrorsAmongFrom(env, fields[..n], visible, scope, e);
    } else {
      field := fields[n];
    }
  }

  lemma {:induction false} MissingChoicesFrom(
      group: Field, rows: seq<Value>, choices: seq<string>, field: string, gap: Gap)
    requires gap in MissingChoices(group, rows, choices, field)
    ensures gap.NoRow? && gap.key == group.key && gap.choice in choices
    ensures !exists row :: row in rows && row.Obj? && Carries(row, field, gap.choice)
  {
    var n := |choices| - 1;
    if gap in MissingChoices(group, rows, choices[..n], field) {
      MissingChoicesFrom(group, rows, choices[..n], field, gap);
    }
  }

  /** What one field contributes to the list of gaps. */
  function Contribution(host: Host, field: Field, visible: set<string>, answers: Answers, now: string): seq<Gap> {
    if field.Silent() || field.key !in visible then [] else MissingOf(host, field, answers, now)
  }

  lemma {:induction false} MissingAmongSnoc(
      host: Host, fields: seq<Field>, last: Field, visible: set<string>, answers: Answers, now: string)
    ensures MissingAmong(host, fields + [last], visible, answers, now)
            == MissingAmong(host, fields, visible, answers, now) + Contribution(host, last, visible, answers, now)
  {
    hide MissingOf;
    assert (fields + [last])[..|fields + [last]| - 1] == fields;
  }

  lemma {:induction false} MissingAmongHas(
      host: Host, fields: seq<Field>, visible: set<string>, answers: Answers, now: string, field: Field, gap: Gap)
    requires field in fields && gap in Contribution(host, field, visible, answers, now)
    ensures gap in MissingAmong(host, fields, visible, answers, now)
  {
    hide Contribution, MissingAmong;
    var (init, last) := (fields[..|fields| - 1], fields[|fields| - 1]);
    assert fields == init + [last];
    MissingAmongSnoc(host, init, last, visible, answers, now);
    if field != last {
      MissingAmongHas(host, init, visible, answers, now, field, gap);
    }
  }

  lemma {:induction false} MissingAmongFrom(
      host: Host, fields: seq<Field>, visible: set<string>, answers: Answers, now: string, gap: Gap)
    returns (field: Field)
    requires gap in MissingAmong(host, fields, visible, answers, now)
    ensures field in fields && gap in Contribution(host, field, visible, answers, now)
  {
    hide Contribution, MissingAmong;
    NoFieldsNoGaps(host, visible, answers, now);
    var (init, last) := (fields[..|fields| - 1], fields[|fields| - 1]);
    assert fields == init + [last];
    MissingAmongSnoc(host, init, last, visible, answers, now);
    if gap in MissingAmong(host, init, visible, answers, now) {
      field := MissingAmongFrom(host, init, visible, answers, now, gap);
    } else {
      field := last;
    }
  }

  lemma NoFieldsNoGaps(host: Host, visible: set<string>, answers: Answers, now: string)
    ensures MissingAmong(host, [], visible, answers, now) == []
  {
  }

  lemma {:induction false} MissingCellsFrom(
      host: Host, group: Field, index: nat, row: Value, children: seq<Field>, answers: Answers, now: string, gap: Gap)
    returns (child: Field)
    requires gap in MissingCells(host, group, index, row, children, answers, now)
    ensures child in children && gap in MissingCell(host, group, index, row, child, answers, now)
  {
    hide MissingCell;
    var n := |children| - 1;
    if gap in MissingCells(host, group, index, row, children[..n], answers, now) {
      child := MissingCellsFrom(host, group, index, row, children[..n], answers, now, gap);
    } else {
      child := children[n];
    }
  }

  lemma {:induction false} MissingRowsFrom(
      host: Host, group: Field, rows: seq<Value>, answers: Answers, now: string, gap: Gap)
    returns (i: nat)
    requires gap in MissingRows(host, group, rows, answers, now)
    ensures i < |rows| && gap in MissingRow(host, group, i, rows[i], answers, now)
  {
    hide MissingRow;
    var n := |rows| - 1;
    if gap in MissingRows(host, group, rows[..n], answers, now) {
      i := MissingRowsFrom(host, group, rows[..n], answers, now, gap);
    } else {
      i := n;
    }
  }

  // ---------------------------------------------------- one answer, one field

  /** Only a plain object can carry a text under a legal key. */
  lemma OnlyObjectsCarry(row: Value, field: string, choice: string)
    requires LegalKey(field) && Carries(row, field, choice)
    ensures row.Obj?
  {
  }

  /** An answer one walk finds absent, or not an upload, the other refuses. */
  lemma UnansweredIsRefused(
      host: Host, at: Location, field: Field, value: Value, answers: Answers, others: Others, now: string, gap: Gap)
    requires gap in Unanswereds(host, at, field, value, answers, now)
    ensures gap == Unanswered(at)
    ensures Reported(CheckField(host, field, EffectivelyRequired(field, answers, now), value, Some(others), now))
  {
  }

  lemma CellGapIsAnError(env: Env, group: Field, index: nat, row: Value, child: Field, gap: Gap) returns (e: FieldError)
    requires gap in MissingCell(env.host, group, index, row, child, env.answers, env.now)
    ensures e in CellErrors(env, group, index, row, child) && Tells(e, gap)
  {
    hide CheckField, EffectivelyRequired, Unanswereds, Property;
    var rowAnswers := Overlay(env.answers, row);
    var at := Cell(group.key, index, child.key);
    var others := Others(rowAnswers, env.labels);
    UnansweredIsRefused(env.host, at, child, Property(row, child.key), rowAnswers, others, env.now, gap);
    e := FieldError(at, CheckField(env.host, child, EffectivelyRequired(child, rowAnswers, env.now),
                                   Property(row, child.key), Some(others), env.now).value);
  }

  lemma OwnGapIsAnError(env: Env, field: Field, gap: Gap) returns (e: FieldError)
    requires gap in Unanswereds(env.host, Whole(field.key), field, Get(env.answers, field.key), env.answers, env.now)
    ensures e in OwnErrors(env, field) && Tells(e, gap)
  {
    hide CheckField, EffectivelyRequired, Unanswereds;
    var others := Others(env.answers, env.labels);
    var value := Get(env.answers, field.key);
    UnansweredIsRefused(env.host, Whole(field.key), field, value, env.answers, others, env.now, gap);
    e := FieldError(Whole(field.key), CheckField(env.host, field, EffectivelyRequired(field, env.answers, env.now),
                                                 value, Some(others), env.now).value);
  }

  lemma GroupGapIsAnError(env: Env, field: Field, gap: Gap) returns (e: FieldError)
    requires field.requiredChoices.Some? ==> LegalKey(field.requiredChoices.value.field)
    requires field.kind == RepeatingGroup
    requires var rows := Rows(Get(env.answers, field.key));
             || gap in MissingRows(env.host, field, rows, env.answers, env.now)
             || (field.requiredChoices.Some? && gap in MissingChoices(
                   field, rows, field.requiredChoices.value.values, field.requiredChoices.value.field))
    ensures e in ErrorsOf(env, field) && Tells(e, gap)
  {
    hide MissingRows, MissingChoices, RowsErrors, ChoiceErrors, OwnErrors, MissingCells, CellErrors, MissingCell,
      CellsErrors, Carries;
    var rows := Rows(Get(env.answers, field.key));
    if gap in MissingRows(env.host, field, rows, env.answers, env.now) {
      var i := MissingRowsFrom(env.host, field, rows, env.answers, env.now, gap);
      var child := MissingCellsFrom(env.host, field, i, rows[i], field.fields, env.answers, env.now, gap);
      e := CellGapIsAnError(env, field, i, rows[i], child, gap);
      CellsErrorsHas(env, field, i, rows[i], field.fields, child, e);
      RowsErrorsHas(env, field, rows, i, e);
    } else {
      var RequiredChoices(key, values) := field.requiredChoices.value;
      MissingChoicesFrom(field, rows, values, key, gap);
      forall row | row in rows && Carries(row, key, gap.choice) ensures false {
        OnlyObjectsCarry(row, key, gap.choice);
      }
      ChoiceErrorsHas(field, rows, values, key, gap.choice);
      e := FieldError(Whole(field.key), NoSuchRow(gap.choice, field.caption));
    }
  }

  lemma FieldGapIsAnError(env: Env, field: Field, gap: Gap) returns (e: FieldError)
    requires field.requiredChoices.Some? ==> LegalKey(field.requiredChoices.value.field)
    requires gap in MissingOf(env.host, field, env.answers, env.now)
    ensures e in ErrorsOf(env, field) && Tells(e, gap)
  {
    hide MissingRows, MissingChoices, RowsErrors, ChoiceErrors, OwnErrors, Unanswereds, Tells;
    var value := Get(env.answers, field.key);
    if gap in Unanswereds(env.host, Whole(field.key), field, value, env.answers, env.now) {
      e := OwnGapIsAnError(env, field, gap);
    } else {
      e := GroupGapIsAnError(env, field, gap);
    }
  }

  // ------------------------------------------------------------ whole forms

  function StaffFields(fields: seq<Field>): seq<Field> {
    if fields == [] then []
    else
      var (init, last) := (fields[..|fields| - 1], fields[|fields| - 1]);
      StaffFields(init) + (if last.Staff() then [last] else [])
  }

  /** Every gap in a respondent's field is an error the respondent is told about. */
  lemma RespondentGapIsAnError(host: Host, form: Form, answers: Answers, now: string, field: Field, gap: Gap)
    returns (e: FieldError)
    requires LegalChoices(form.fields)
    requires field in form.fields && !field.Silent() && !field.Staff()
    requires field.key in VisibleFields(form, answers, now)
    requires gap in MissingOf(host, field, answers, now)
    ensures e in Errors(host, form, answers, None, now) && Tells(e, gap)
  {
    hide VisibleFields, ErrorsOf, ErrorsAmong, MissingOf, Tells, Labels;
    var env := EnvOf(host, form, answers, now);
    e := FieldGapIsAnError(env, field, gap);
    ErrorsAmongHas(env, form.fields, VisibleFields(form, answers, now), None, field, e);
  }

  lemma {:induction false} CleanFieldsOnlyMissStaff(env: Env, fields: seq<Field>, visible: set<string>)
    requires LegalChoices(fields)
    requires ErrorsAmong(env, fields, visible, None) == []
    ensures MissingAmong(env.host, fields, visible, env.answers, env.now)
            == MissingAmong(env.host, StaffFields(fields), visible, env.answers, env.now)
  {
    hide ErrorsOf, MissingOf, MissingAmong, ErrorsAmong;
    if fields != [] {
      var (init, last) := (fields[..|fields| - 1], fields[|fields| - 1]);
      assert fields == init + [last];
      ErrorsAmongSnoc(env, init, last, visible, None);
      CleanFieldsOnlyMissStaff(env, init, visible);
      MissingAmongSnoc(env.host, init, last, visible, env.answers, env.now);
      if last.Staff() {
        MissingAmongSnoc(env.host, StaffFields(init), last, visible, env.answers, env.now);
      } else {
        assert StaffFields(fields) == StaffFields(init);
        if Contribution(env.host, last, visible, env.answers, env.now) != [] {
          var e := FieldGapIsAnError(env, last, MissingOf(env.host, last, env.answers, env.now)[0]);
          assert false;
        }
      }
    }
  }

  /** A submission without errors misses exactly what its staff-set fields miss. */
  lemma {:induction false} CleanMissesOnlyStaff(host: Host, form: Form, answers: Answers, now: string)
    requires LegalChoices(form.fields)
    requires Errors(host, form, answers, None, now) == []
    ensures Missing(host, form, answers, now)
            == MissingAmong(host, StaffFields(form.fields), VisibleFields(form, answers, now), answers, now)
  {
    hide ErrorsAmong, MissingAmong, VisibleFields, Labels;
    CleanFieldsOnlyMissStaff(EnvOf(host, form, answers, now), form.fields, VisibleFields(form, answers, now));
  }

  lemma NothingMissing(host: Host, fields: seq<Field>, visible: set<string>, answers: Answers, now: string)
    ensures MissingAmong(host, fields, visible, answers, now) == [] <==>
              forall f :: f in fields ==> Contribution(host, f, visible, answers, now) == []
  {
    hide MissingAmong, Contribution;
    var gaps := MissingAmong(host, fields, visible, answers, now);
    if gaps != [] {
      var field := MissingAmongFrom(host, fields, visible, answers, now, gaps[0]);
    }
    forall f | f in fields && Contribution(host, f, visible, answers, now) != [] ensures gaps != [] {
      MissingAmongHas(host, fields, visible, answers, now, f, Contribution(host, f, visible, answers, now)[0]);
    }
  }

  lemma {:induction false} StaffFieldsExactly(fields: seq<Field>, f: Field)
    ensures f in StaffFields(fields) <==> f in fields && f.Staff()
  {
    if fields != [] {
      StaffFieldsExactly(fields[..|fields| - 1], f);
      assert fields == fields[..|fields| - 1] + [fields[|fields| - 1]];
    }
  }

  /**
   A clean submission is complete exactly when no staff-set field contributes a
   gap, which a field no page shows never does.
   */
  lemma {:induction false} CompleteWhereStaffMissNothing(host: Host, form: Form, answers: Answers, now: string)
    requires LegalChoices(form.fields)
    requires Errors(host, form, answers, None, now) == []
    ensures Missing(host, form, answers, now) == [] <==>
              forall f :: f in form.fields && f.Staff() ==>
                            Contribution(host, f, VisibleFields(form, answers, now), answers, now) == []
  {
    hide MissingAmong, Contribution, ErrorsAmong, VisibleFields, Labels;
    CleanMissesOnlyStaff(host, form, answers, now);
    NothingMissing(host, StaffFields(form.fields), VisibleFields(form, answers, now), answers, now);
    forall f ensures f in StaffFields(form.fields) <==> f in form.fields && f.Staff() {
      StaffFieldsExactly(form.fields, f);
    }
  }

  function OnAnyPage(form: Form): set<string> {
    set p, s, k | p in form.pages && s in p.sections && k in s.fields :: k
  }

  lemma VisibleIsOnAPage(form: Form, answers: Answers, now: string)
    ensures VisibleFields(form, answers, now) <= OnAnyPage(form)
  {
  }

  /** No page shows a field that staff or the system fills and a walk looks at. */
  predicate StaffOffPages(form: Form) {
    forall f :: f in form.fields && f.Staff() && !f.Silent() ==> f.key !in OnAnyPage(form)
  }

  /** The agreement the form promises: no errors, nothing missing. */
  lemma {:induction false} CleanIsComplete(host: Host, form: Form, answers: Answers, now: string)
    requires LegalChoices(form.fields) && StaffOffPages(form)
    requires Errors(host, form, answers, None, now) == []
    ensures Missing(host, form, answers, now) == []
  {
    hide VisibleFields, MissingOf, MissingAmong, ErrorsAmong, OnAnyPage, Labels;
    VisibleIsOnAPage(form, answers, now);
    CompleteWhereStaffMissNothing(host, form, answers, now);
  }

  // Where staff fields are on a page, some form of the same layout disagrees.

  predicate SameSections(fs: seq<Section>, gs: seq<Section>) {
    |fs| == |gs| && forall i :: 0 <= i < |fs| ==> fs[i].fields == gs[i].fields
  }

  predicate SamePages(fs: seq<Page>, gs: seq<Page>) {
    |fs| == |gs| && forall i :: 0 <= i < |fs| ==> SameSections(fs[i].sections, gs[i].sections)
  }

  predicate SameFields(fs: seq<Field>, gs: seq<Field>) {
    |fs| == |gs|
    && forall i :: 0 <= i < |fs| ==> fs[i].key == gs[i].key && fs[i].kind == gs[i].kind && fs[i].setBy == gs[i].setBy
  }

  /** The same fields, of the same kinds and set by the same, in the same places. */
  predicate SameLayout(form: Form, other: Form) {
    SameFields(form.fields, other.fields) && SamePages(form.pages, other.pages)
  }

  const NO_CONSTRAINTS := Constraints(None, None, None, None, None, None, None, None, None, None, None, None)

  /** Required of staff only, and unconditionally. */
  function Plain(f: Field): Field {
    Field(f.key, f.caption, f.kind, f.Staff(), None, NO_CONSTRAINTS, f.choices, f.fields, None, f.setBy)
  }

  function PlainFields(fields: seq<Field>): (plain: seq<Field>)
    ensures |plain| == |fields| && forall i :: 0 <= i < |fields| ==> plain[i] == Plain(fields[i])
  {
    seq(|fields|, i requires 0 <= i < |fields| => Plain(fields[i]))
  }

  function AlwaysSections(sections: seq<Section>): (always: seq<Section>)
    ensures |always| == |sections| && forall i :: 0 <= i < |sections| ==> always[i] == sections[i].(visibleWhen := None)
  {
    seq(|sections|, i requires 0 <= i < |sections| => sections[i].(visibleWhen := None))
  }

  function AlwaysPages(pages: seq<Page>): (always: seq<Page>)
    ensures |always| == |pages|
    ensures forall i :: 0 <= i < |pages| ==>
              always[i] == pages[i].(visibleWhen := None, sections := AlwaysSections(pages[i].sections))
  {
    seq(|pages|, i requires 0 <= i < |pages| => pages[i].(visibleWhen := None, sections := AlwaysSections(pages[i].sections)))
  }

  /** The layout with nothing but its staff fields required, and everything always shown. */
  function Shelled(form: Form): Form {
    Form(PlainFields(form.fields), AlwaysPages(form.pages))
  }

  lemma ShelledLayout(form: Form)
    ensures SameLayout(form, Shelled(form)) && LegalChoices(Shelled(form).fields)
  {
  }

  lemma PlainFieldHasNone(env: Env, field: Field)
    requires env.answers == map[] && field == Plain(field) && !field.Staff()
    ensures ErrorsOf(env, field) == []
  {
    hide Labels;
    assert Get(env.answers, field.key) == Undefined;
    assert !EffectivelyRequired(field, env.answers, env.now);
    hide EffectivelyRequired;
  }

  /** Nothing was asked of the respondent, so an empty submission has no errors. */
  lemma {:induction false} PlainHasNoErrors(env: Env, fields: seq<Field>, visible: set<string>)
    requires env.answers == map[] && forall f :: f in fields ==> f == Plain(f)
    ensures ErrorsAmong(env, fields, visible, None) == []
  {
    hide ErrorsOf, Plain;
    if fields != [] {
      var last := fields[|fields| - 1];
      PlainHasNoErrors(env, fields[..|fields| - 1], visible);
      if Checked(last, visible, None) {
        PlainFieldHasNone(env, last);
      }
    }
  }

  lemma ShelledShows(form: Form, f: Field, now: string)
    requires f in form.fields && f.key in OnAnyPage(form)
    ensures f.key in VisibleFields(Shelled(form), map[], now)
  {
    hide Evaluate;
    var p, s :| p in form.pages && s in p.sections && f.key in s.fields;
    var i :| 0 <= i < |form.pages| && form.pages[i] == p;
    var j :| 0 <= j < |p.sections| && p.sections[j] == s;
    var page := Shelled(form).pages[i];
    assert page.sections[j] in page.sections && page in Shelled(form).pages;
    assert f.key in SectionsFields(page.sections, map[], now);
  }

  /** A required staff field on a page: no errors, yet a gap. */
  lemma StaffFieldOnAPageDisagrees(host: Host, form: Form, now: string, f: Field)
    requires f in form.fields && f.Staff() && !f.Silent() && f.key in OnAnyPage(form)
    ensures Errors(host, Shelled(form), map[], None, now) == []
    ensures Unanswered(Whole(f.key)) in Missing(host, Shelled(form), map[], now)
  {
    hide VisibleFields, MissingAmong, ErrorsAmong, Labels, CheckField, OnAnyPage;
    var plain := Shelled(form);
    var visible := VisibleFields(plain, map[], now);
    PlainHasNoErrors(EnvOf(host, plain, map[], now), plain.fields, visible);
    ShelledShows(form, f, now);
    var i :| 0 <= i < |form.fields| && form.fields[i] == f;
    assert plain.fields[i] == Plain(f);
    MissingAmongHas(host, plain.fields, visible, map[], now, Plain(f), Unanswered(Whole(f.key)));
  }

  /** Whatever is asked of it and whenever it is shown, a form without errors misses nothing. */
  ghost predicate Complete(host: Host, form: Form, now: string) {
    forall answers :: Errors(host, form, answers, None, now) == [] ==> Missing(host, form, answers, now) == []
  }

  lemma SamePlaces(form: Form, other: Form, key: string)
    requires SamePages(form.pages, other.pages) && key in OnAnyPage(other)
    ensures key in OnAnyPage(form)
  {
    var p, s :| p in other.pages && s in p.sections && key in s.fields;
    var m :| 0 <= m < |other.pages| && other.pages[m] == p;
    var n :| 0 <= n < |p.sections| && p.sections[n] == s;
    assert SameSections(form.pages[m].sections, p.sections);
    assert form.pages[m] in form.pages && form.pages[m].sections[n] in form.pages[m].sections;
  }

  lemma SameLayoutOffPages(form: Form, other: Form)
    requires SameLayout(form, other) && StaffOffPages(form)
    ensures StaffOffPages(other)
  {
    hide OnAnyPage, SamePages;
    forall g | g in other.fields && g.Staff() && !g.Silent() ensures g.key !in OnAnyPage(other) {
      var i :| 0 <= i < |other.fields| && other.fields[i] == g;
      assert form.fields[i] in form.fields;
      assert g.key !in OnAnyPage(form);
      if g.key in OnAnyPage(other) {
        SamePlaces(form, other, g.key);
      }
    }
  }

  /**
   In every form of a layout no errors means nothing missing, if and only if the
   layout keeps the fields staff fill off its pages.
   */
  lemma CleanIsCompleteExactly(host: Host, form: Form, now: string)
    ensures StaffOffPages(form) <==>
              forall other :: SameLayout(form, other) && LegalChoices(other.fields) ==> Complete(host, other, now)
  {
    hide Errors, Missing, OnAnyPage, LegalChoices, SameLayout, Shelled;
    if StaffOffPages(form) {
      forall other | SameLayout(form, other) && LegalChoices(other.fields) ensures Complete(host, other, now) {
        SameLayoutOffPages(form, other);
        forall answers | Errors(host, other, answers, None, now) == [] ensures Missing(host, other, answers, now) == [] {
          CleanIsComplete(host, other, answers, now);
        }
      }
    } else {
      var f :| f in form.fields && f.Staff() && !f.Silent() && f.key in OnAnyPage(form);
      StaffFieldOnAPageDisagrees(host, form, now, f);
      ShelledLayout(form);
    }
  }

  // ------------------------------------------------------------------ scope

  lemma {:induction false} CellsErrorsKeyed(
      env: Env, group: Field, index: nat, row: Value, children: seq<Field>, e: FieldError)
    requires e in CellsErrors(env, group, index, row, children)
    ensures e.at.key == group.key
  {
    if e in CellsErrors(env, group, index, row, children[..|children| - 1]) {
      CellsErrorsKeyed(env, group, index, row, children[..|children| - 1], e);
    }
  }

  lemma {:induction false} RowsErrorsKeyed(env: Env, group: Field, rows: seq<Value>, e: FieldError)
    requires e in RowsErrors(env, group, rows)
    ensures e.at.key == group.key
  {
    hide CellsErrors;
    var n := |rows| - 1;
    if e in RowsErrors(env, group, rows[..n]) {
      RowsErrorsKeyed(env, group, rows[..n], e);
    } else {
      CellsErrorsKeyed(env, group, n, rows[n], group.fields, e);
    }
  }

  lemma {:induction false} ChoiceErrorsKeyed(group: Field, rows: seq<Value>, choices: seq<string>, field: string, e: FieldError)
    requires e in ChoiceErrors(group, rows, choices, field)
    ensures e.at.key == group.key
  {
    if e in ChoiceErrors(group, rows, choices[..|choices| - 1], field) {
      ChoiceErrorsKeyed(group, rows, choices[..|choices| - 1], field, e);
    }
  }

  lemma ErrorsOfKeyed(env: Env, field: Field, e: FieldError)
    requires e in ErrorsOf(env, field)
    ensures e.at.key == field.key
  {
    hide RowsErrors, ChoiceErrors, CheckField, EffectivelyRequired;
    var rows := Rows(Get(env.answers, field.key));
    if e in RowsErrors(env, field, rows) {
      RowsErrorsKeyed(env, field, rows, e);
    } else if field.requiredChoices.Some? {
      var RequiredChoices(key, values) := field.requiredChoices.value;
      if e in ChoiceErrors(field, rows, values, key) {
        ChoiceErrorsKeyed(field, rows, values, key, e);
      }
    }
  }

  /** Checking one page reports exactly the whole form's errors on that page's keys. */
  lemma ScopeRestricts(host: Host, form: Form, answers: Answers, scope: seq<string>, now: string, e: FieldError)
    ensures e in Errors(host, form, answers, Some(scope), now) <==>
              e in Errors(host, form, answers, None, now) && e.at.key in scope
  {
    hide ErrorsOf, ErrorsAmong, VisibleFields, Labels;
    var env := EnvOf(host, form, answers, now);
    var visible := VisibleFields(form, answers, now);
    if e in Errors(host, form, answers, Some(scope), now) {
      var field := ErrorsAmongFrom(env, form.fields, visible, Some(scope), e);
      ErrorsOfKeyed(env, field, e);
      ErrorsAmongHas(env, form.fields, visible, None, field, e);
    }
    if e in Errors(host, form, answers, None, now) && e.at.key in scope {
      var field := ErrorsAmongFrom(env, form.fields, visible, None, e);
      ErrorsOfKeyed(env, field, e);
      ErrorsAmongHas(env, form.fields, visible, Some(scope), field, e);
    }
  }
}
