/** Which answers the two walks over a submission can depend on. */
module ReadSet {
  import opened Values
  import opened Conditions
  import opened Forms
  import opened Submission

  function OptionReads(when: Option<Expr>): set<string> {
    if when.Some? then Reads(when.value) else {}
  }

  /** Every key some `visibleWhen` reads. */
  function PageReads(pages: seq<Page>): set<string> {
    (set p, k | p in pages && k in OptionReads(p.visibleWhen) :: k)
    + (set p, s, k | p in pages && s in p.sections && k in OptionReads(s.visibleWhen) :: k)
  }

  function FieldReads(field: Field): set<string> {
    {field.key} + OptionReads(field.requiredWhen) + Comparands(field)
    + set c, k | c in field.fields && k in OptionReads(c.requiredWhen) + Comparands(c) :: k
  }

  /** What the checks of the fields on show may look at. */
  function ShownReads(fields: seq<Field>, visible: set<string>): set<string> {
    set f, k | f in fields && f.key in visible && k in FieldReads(f) :: k
  }

  lemma ShownCoincides(when: Option<Expr>, keys: set<string>, a: Answers, b: Answers, now: string)
    requires OptionReads(when) <= keys && Agree(keys, a, b)
    ensures Shown(when, a, now) == Shown(when, b, now)
  {
    hide Evaluate;
    if when.Some? {
      Coincidence(when.value, keys, When(a, now), b);
    }
  }

  lemma SectionsCoincide(page: Page, pages: seq<Page>, a: Answers, b: Answers, now: string)
    requires page in pages && Agree(PageReads(pages), a, b)
    ensures SectionsFields(page.sections, a, now) == SectionsFields(page.sections, b, now)
  {
    hide Shown, Agree, OptionReads;
    forall s | s in page.sections ensures Shown(s.visibleWhen, a, now) == Shown(s.visibleWhen, b, now) {
      assert forall k :: k in OptionReads(s.visibleWhen) ==> k in PageReads(pages);
      ShownCoincides(s.visibleWhen, PageReads(pages), a, b, now);
    }
  }

  lemma VisibleCoincides(form: Form, a: Answers, b: Answers, now: string)
    requires Agree(PageReads(form.pages), a, b)
    ensures VisibleFields(form, a, now) == VisibleFields(form, b, now)
  {
    hide Shown, Agree, OptionReads, SectionsFields;
    forall p | p in form.pages
      ensures Shown(p.visibleWhen, a, now) == Shown(p.visibleWhen, b, now)
      ensures SectionsFields(p.sections, a, now) == SectionsFields(p.sections, b, now)
    {
      assert forall k :: k in OptionReads(p.visibleWhen) ==> k in PageReads(form.pages);
      ShownCoincides(p.visibleWhen, PageReads(form.pages), a, b, now);
      SectionsCoincide(p, form.pages, a, b, now);
    }
  }

  lemma RequiredCoincides(field: Field, keys: set<string>, a: Answers, b: Answers, now: string)
    requires OptionReads(field.requiredWhen) <= keys && Agree(keys, a, b)
    ensures EffectivelyRequired(field, a, now) == EffectivelyRequired(field, b, now)
  {
    hide Evaluate;
    if field.requiredWhen.Some? {
      Coincidence(field.requiredWhen.value, keys, When(a, now), b);
    }
  }

  /** One checked answer, with the requirement and the comparisons it depends on. */
  lemma CheckedCoincides(
      host: Host, field: Field, keys: set<string>, value: Value, a: Answers, b: Answers, labels: map<string, string>,
      now: string)
    requires OptionReads(field.requiredWhen) + Comparands(field) <= keys && Agree(keys, a, b)
    ensures CheckField(host, field, EffectivelyRequired(field, a, now), value, Some(Others(a, labels)), now)
            == CheckField(host, field, EffectivelyRequired(field, b, now), value, Some(Others(b, labels)), now)
  {
    hide CheckField, EffectivelyRequired, OptionReads, Comparands;
    RequiredCoincides(field, keys, a, b, now);
    CheckCoincides(host, field, EffectivelyRequired(field, a, now), value, a, b, labels, now);
  }

  lemma {:induction false} CellsCoincide(
      env: Env, other: Env, group: Field, index: nat, row: Value, children: seq<Field>, keys: set<string>)
    requires other == env.(answers := other.answers)
    requires forall c :: c in children ==> OptionReads(c.requiredWhen) + Comparands(c) <= keys
    requires Agree(keys, env.answers, other.answers)
    ensures CellsErrors(env, group, index, row, children) == CellsErrors(other, group, index, row, children)
    ensures MissingCells(env.host, group, index, row, children, env.answers, env.now)
            == MissingCells(env.host, group, index, row, children, other.answers, env.now)
  {
    hide CheckField, EffectivelyRequired, Overlay, OptionReads, Comparands, Property, BadFile;
    if children != [] {
      var (init, last) := (children[..|children| - 1], children[|children| - 1]);
      CellsCoincide(env, other, group, index, row, init, keys);
      OverlayAgrees(keys, env.answers, other.answers, row);
      var (a, b) := (Overlay(env.answers, row), Overlay(other.answers, row));
      CheckedCoincides(env.host, last, keys, Property(row, last.key), a, b, env.labels, env.now);
      RequiredCoincides(last, keys, a, b, env.now);
    }
  }

  lemma {:induction false} RowsCoincide(env: Env, other: Env, group: Field, rows: seq<Value>, keys: set<string>)
    requires other == env.(answers := other.answers)
    requires forall c :: c in group.fields ==> OptionReads(c.requiredWhen) + Comparands(c) <= keys
    requires Agree(keys, env.answers, other.answers)
    ensures RowsErrors(env, group, rows) == RowsErrors(other, group, rows)
    ensures MissingRows(env.host, group, rows, env.answers, env.now)
            == MissingRows(env.host, group, rows, other.answers, env.now)
  {
    hide CellsErrors, MissingCells, OptionReads, Comparands;
    if rows != [] {
      var n := |rows| - 1;
      RowsCoincide(env, other, group, rows[..n], keys);
      CellsCoincide(env, other, group, n, rows[n], group.fields, keys);
    }
  }

  lemma FieldCoincides(env: Env, other: Env, field: Field, keys: set<string>)
    requires other == env.(answers := other.answers)
    requires FieldReads(field) <= keys
    requires Agree(keys, env.answers, other.answers)
    ensures ErrorsOf(env, field) == ErrorsOf(other, field)
    ensures MissingOf(env.host, field, env.answers, env.now) == MissingOf(env.host, field, other.answers, env.now)
  {
    hide CheckField, EffectivelyRequired, MissingRows, RowsErrors, ChoiceErrors, MissingChoices, OptionReads, Comparands,
      BadFile;
    var value := Get(env.answers, field.key);
    assert value == Get(other.answers, field.key);
    assert OptionReads(field.requiredWhen) + Comparands(field) <= FieldReads(field);
    CheckedCoincides(env.host, field, keys, value, env.answers, other.answers, env.labels, env.now);
    RequiredCoincides(field, keys, env.answers, other.answers, env.now);
    forall c | c in field.fields ensures OptionReads(c.requiredWhen) + Comparands(c) <= keys {
      assert forall k :: k in OptionReads(c.requiredWhen) + Comparands(c) ==> k in FieldReads(field);
    }
    RowsCoincide(env, other, field, Rows(value), keys);
  }

  lemma {:induction false} FieldsCoincide(
      env: Env, other: Env, fields: seq<Field>, visible: set<string>, scope: Option<seq<string>>, keys: set<string>)
    requires other == env.(answers := other.answers)
    requires forall f :: f in fields && f.key in visible ==> FieldReads(f) <= keys
    requires Agree(keys, env.answers, other.answers)
    ensures ErrorsAmong(env, fields, visible, scope) == ErrorsAmong(other, fields, visible, scope)
    ensures MissingAmong(env.host, fields, visible, env.answers, env.now)
            == MissingAmong(env.host, fields, visible, other.answers, env.now)
  {
    hide ErrorsOf, MissingOf, FieldReads;
    if fields != [] {
      var (init, last) := (fields[..|fields| - 1], fields[|fields| - 1]);
      FieldsCoincide(env, other, init, visible, scope, keys);
      if last.key in visible {
        FieldCoincides(env, other, last, keys);
      }
    }
  }

  /**
   Validation reads only what it should: two submissions that agree on what the
   visibility conditions read, and on what the checks of the shown fields read,
   have the same errors and the same gaps.
   */
  lemma ValidationReadsOnly(
      host: Host, form: Form, a: Answers, b: Answers, scope: Option<seq<string>>, now: string)
    requires Agree(PageReads(form.pages), a, b)
    requires Agree(ShownReads(form.fields, VisibleFields(form, a, now)), a, b)
    ensures Errors(host, form, a, scope, now) == Errors(host, form, b, scope, now)
    ensures Missing(host, form, a, now) == Missing(host, form, b, now)
  {
    hide VisibleFields, PageReads, FieldReads, ErrorsAmong, MissingAmong, Labels;
    VisibleCoincides(form, a, b, now);
    var visible := VisibleFields(form, a, now);
    var keys := ShownReads(form.fields, visible);
    forall f | f in form.fields && f.key in visible ensures FieldReads(f) <= keys {
      assert forall k :: k in FieldReads(f) ==> k in keys;
    }
    FieldsCoincide(EnvOf(host, form, a, now), EnvOf(host, form, b, now), form.fields, visible, scope, keys);
  }
}
