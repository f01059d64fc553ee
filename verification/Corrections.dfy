/** What the mechanical corrections mean: what a corrected condition asks, and which time counts from which. */
module Corrections {
  import opened Values
  import opened Conditions
  import opened Forms
  import opened Normalize

  // ----------------------------------------------------------- yes/no answers

  predicate IsYesWord(w: string) {
    w == "yes" || w == "y" || w == "true" || w == "1" || w == "on"
  }

  predicate IsNoWord(w: string) {
    w == "no" || w == "n" || w == "false" || w == "0" || w == "off"
  }

  /** The field conditions see under a key: the last one that has it. */
  predicate Seen(fields: seq<FlatField>, key: string, f: FlatField) {
    exists i :: 0 <= i < |fields| && fields[i] == f && f.key == key && forall k :: i < k < |fields| ==> fields[k].key != key
  }

  lemma {:induction false} SeenIsNamed(fields: seq<FlatField>, key: string, f: FlatField)
    ensures Seen(fields, key, f) <==> FieldNamed(fields, key) == Some(f)
  {
    if fields != [] {
      var n := |fields| - 1;
      SeenIsNamed(fields[..n], key, f);
      if Seen(fields, key, f) {
        var i :| 0 <= i < |fields| && fields[i] == f && f.key == key && forall k :: i < k < |fields| ==> fields[k].key != key;
        if i < n {
          assert fields[..n][i] == f;
        }
      }
      if Seen(fields[..n], key, f) && fields[n].key != key {
        var i :| 0 <= i < n && fields[..n][i] == f && f.key == key && forall k :: i < k < n ==> fields[..n][k].key != key;
        assert fields[i] == f && forall k :: i < k < |fields| ==> k == n || fields[k] == fields[..n][k];
      }
      if fields[n].key == key {
        assert Seen(fields, key, fields[n]);
      }
    }
  }

  /** A comparison with a yes word, once corrected, is true of the answer yes alone; with a no word, of no alone. */
  lemma YesAndNoAreRead(text: Text, fields: seq<FlatField>, key: string, f: FlatField, raw: string, ctx: Context)
    requires Seen(fields, key, f) && (f.kind == YesNo || f.kind == SignatureAck)
    ensures var fixed := FixExpr(text, fields, Compare(Eq, FieldRef(key), Literal(Str(raw))));
            var asked := key in ctx.answers;
            && (IsYesWord(text.word(raw)) ==>
                  (Evaluate(fixed.value, ctx) <==> asked && ctx.answers[key] == Bool(true))
                  && fixed.log == [LiteralRead(f.key, raw, Bool(true))])
            && (IsNoWord(text.word(raw)) ==>
                  (Evaluate(fixed.value, ctx) <==> asked && ctx.answers[key] == Bool(false))
                  && fixed.log == [LiteralRead(f.key, raw, Bool(false))])
            && (!IsYesWord(text.word(raw)) && !IsNoWord(text.word(raw)) ==>
                  fixed == Logged(Compare(Eq, FieldRef(key), Literal(Str(raw))), []))
  {
    SeenIsNamed(fields, key, f);
    WordsAreRead(text, f, raw);
    hide LiteralFor, FieldNamed, IsYesWord, IsNoWord;
  }

  lemma WordsAreRead(text: Text, f: FlatField, raw: string)
    requires f.kind == YesNo || f.kind == SignatureAck
    ensures IsYesWord(text.word(raw)) ==> LiteralFor(text, f, Str(raw)) == Bool(true)
    ensures IsNoWord(text.word(raw)) ==> LiteralFor(text, f, Str(raw)) == Bool(false)
    ensures !IsYesWord(text.word(raw)) && !IsNoWord(text.word(raw)) ==> LiteralFor(text, f, Str(raw)) == Str(raw)
  {
    hide Matching, IsChoice;
  }

  // ------------------------------------------------------------------ choices

  predicate ReadsAlike(text: Text, c: Choice, raw: string) {
    text.slug(c.value) == text.slug(raw) || text.slug(c.caption) == text.slug(raw)
  }

  lemma {:induction false} MatchingIsFirst(text: Text, choices: seq<Choice>, raw: string)
    ensures Matching(text, choices, raw).None? <==> forall i :: 0 <= i < |choices| ==> !ReadsAlike(text, choices[i], raw)
    ensures forall i :: 0 <= i < |choices| && ReadsAlike(text, choices[i], raw)
                        && (forall k :: 0 <= k < i ==> !ReadsAlike(text, choices[k], raw)) ==>
                          Matching(text, choices, raw) == Some(choices[i])
  {
    if choices != [] && !ReadsAlike(text, choices[0], raw) {
      MatchingIsFirst(text, choices[1..], raw);
      forall i | 0 < i < |choices| ensures choices[i] == choices[1..][i - 1] {
      }
      forall i | 0 <= i < |choices| && ReadsAlike(text, choices[i], raw)
                 && (forall k :: 0 <= k < i ==> !ReadsAlike(text, choices[k], raw))
        ensures Matching(text, choices, raw) == Some(choices[i])
      {
        assert ReadsAlike(text, choices[1..][i - 1], raw);
        forall k | 0 <= k < i - 1 ensures !ReadsAlike(text, choices[1..][k], raw) {
          assert choices[1..][k] == choices[k + 1];
        }
      }
    }
  }

  /** Against any other field a declared value stays, and another text becomes the first choice that reads like it, if one does. */
  lemma ChoicesAreRead(text: Text, f: FlatField, raw: string)
    requires f.kind != YesNo && f.kind != SignatureAck
    ensures (exists c :: c in f.choices && c.value == raw) ==> LiteralFor(text, f, Str(raw)) == Str(raw)
    ensures (forall i :: 0 <= i < |f.choices| ==> !ReadsAlike(text, f.choices[i], raw)) ==> LiteralFor(text, f, Str(raw)) == Str(raw)
    ensures (forall c :: c in f.choices ==> c.value != raw) ==>
              forall i :: 0 <= i < |f.choices| && ReadsAlike(text, f.choices[i], raw)
                          && (forall k :: 0 <= k < i ==> !ReadsAlike(text, f.choices[k], raw)) ==>
                            LiteralFor(text, f, Str(raw)) == Str(f.choices[i].value)
  {
    hide ReadsAlike;
    MatchingIsFirst(text, f.choices, raw);
    hide Matching;
  }

  /** Only texts are read, and only on the right of a field the form has. */
  lemma OthersAreLeft(text: Text, fields: seq<FlatField>, f: FlatField, v: Value, left: Operand, right: Operand, op: Comparison)
    ensures !v.Str? ==> LiteralFor(text, f, v) == v
    ensures f.choices == [] && f.kind != YesNo && f.kind != SignatureAck ==> LiteralFor(text, f, v) == v
    ensures !left.FieldRef? || (forall g :: !Seen(fields, left.key, g)) || !right.Literal? ==>
              FixExpr(text, fields, Compare(op, left, right)) == Logged(Compare(op, left, right), [])
  {
    hide IsChoice, Matching;
    if left.FieldRef? && FieldNamed(fields, left.key).Some? {
      SeenIsNamed(fields, left.key, FieldNamed(fields, left.key).value);
    }
  }

  // ----------------------------------------------------------------- durations

  /** One field less another is the time from the second to the first, in hours between times and days between dates. */
  lemma DifferencesAreRead(fields: seq<FlatField>, later: string, earlier: string, f: FlatField, g: FlatField)
    requires Seen(fields, later, f) && Seen(fields, earlier, g)
    ensures var difference := Arith(Subtract, [CalcField(later), CalcField(earlier)]);
            var read := SpansIn(fields, difference);
            && (f.kind == Time && g.kind == Time ==>
                  read == Logged(Duration(earlier, later, "hours"), [SpanRead(later, earlier)]))
            && (f.kind == Date && g.kind == Date ==>
                  read == Logged(Duration(earlier, later, "days"), [SpanRead(later, earlier)]))
            && (f.kind != g.kind || (f.kind != Time && f.kind != Date) ==> read == Logged(difference, []))
  {
    SeenIsNamed(fields, later, f);
    SeenIsNamed(fields, earlier, g);
    hide FieldNamed;
    var fs := [CalcField(later), CalcField(earlier)];
    assert fs[1..] == [CalcField(earlier)] && fs[1..][1..] == [];
    FieldsAreNoSpans(fields, later, earlier);
  }

  lemma FieldsAreNoSpans(fields: seq<FlatField>, a: string, b: string)
    ensures SpansInAll(fields, [CalcField(a), CalcField(b)]) == Logged([CalcField(a), CalcField(b)], [])
  {
    var (x, y) := (CalcField(a), CalcField(b));
    assert SpansIn(fields, x) == Logged(x, []) && SpansIn(fields, y) == Logged(y, []);
    assert SpansInAll(fields, []) == Logged([], []);
    hide SpansIn;
    assert [y][1..] == [] && [x, y][1..] == [y];
    var none: seq<Change> := [];
    assert none + none == none && [y] + [] == [y];
    assert SpansInAll(fields, [y]) == Logged([y] + [], none + none);
    assert SpansInAll(fields, [x, y]) == Logged([x] + [y], none + none);
    assert [x] + [y] == [x, y];
  }

  // ------------------------------------------------------------------ statuses

  predicate StateReads(text: Text, s: WorkflowState, raw: string) {
    text.slug(s.name) == text.slug(raw) || text.slug(s.key) == text.slug(raw)
  }

  lemma {:induction false} CandidatesAppend(text: Text, xs: seq<WorkflowState>, ys: seq<WorkflowState>, raw: string)
    ensures Candidates(text, xs + ys, raw) == Candidates(text, xs, raw) + Candidates(text, ys, raw)
  {
    if xs == [] {
      assert xs + ys == ys;
    } else {
      assert (xs + ys)[0] == xs[0] && (xs + ys)[1..] == xs[1..] + ys;
      CandidatesAppend(text, xs[1..], ys, raw);
      var first := if StateReads(text, xs[0], raw) then [xs[0]] else [];
      Regroup(first, Candidates(text, xs[1..], raw), Candidates(text, ys, raw));
    }
  }

  lemma {:induction false} NoneReads(text: Text, states: seq<WorkflowState>, raw: string)
    ensures Candidates(text, states, raw) == [] <==> forall k :: 0 <= k < |states| ==> !StateReads(text, states[k], raw)
  {
    if states != [] {
      NoneReads(text, states[1..], raw);
      forall k | 0 < k < |states| ensures states[k] == states[1..][k - 1] {
      }
      assert forall k :: 0 <= k < |states[1..]| ==> states[1..][k] == states[k + 1];
    }
  }

  /** A key stays; a name becomes the key of the one state that reads like it, and stays when none or several do. */
  lemma StatusesAreResolved(text: Text, states: seq<WorkflowState>, raw: string, i: nat)
    requires i < |states| && StateReads(text, states[i], raw)
    ensures (exists s :: s in states && s.key == raw) ==> StateKey(text, states, raw).value == raw
    ensures (forall s :: s in states ==> s.key != raw) ==>
              StateKey(text, states, raw).value
              == if forall k :: 0 <= k < |states| && k != i ==> !StateReads(text, states[k], raw) then states[i].key else raw
  {
    var (before, after) := (states[..i], states[i + 1..]);
    assert states == before + ([states[i]] + after);
    CandidatesAppend(text, before, [states[i]] + after, raw);
    CandidatesAppend(text, [states[i]], after, raw);
    assert Candidates(text, [states[i]], raw) == [states[i]] by { OneReads(text, states[i], raw); }
    NoneReads(text, before, raw);
    NoneReads(text, after, raw);
    hide StateReads, Candidates;
    assert forall k :: 0 <= k < i ==> before[k] == states[k];
    assert forall k :: 0 <= k < |after| ==> after[k] == states[k + i + 1];
    assert forall k :: i < k < |states| ==> states[k] == after[k - i - 1];
  }

  lemma OneReads(text: Text, s: WorkflowState, raw: string)
    requires StateReads(text, s, raw)
    ensures Candidates(text, [s], raw) == [s]
  {
    assert [s][1..] == [] && Candidates(text, [], raw) == [];
  }

  /** A status that no state reads like stays. */
  lemma UnknownStatusStays(text: Text, states: seq<WorkflowState>, raw: string)
    requires forall k :: 0 <= k < |states| ==> !StateReads(text, states[k], raw)
    ensures StateKey(text, states, raw) == Logged(raw, [])
  {
    NoneReads(text, states, raw);
  }

  // ---------------------------------------------------------------- references

  lemma {:induction false} DroppedExactly(keys: seq<string>, key: string, k: string)
    ensures k in Dropped(keys, key) <==> k in keys && k != key
  {
    if keys != [] {
      DroppedExactly(keys[1..], key, k);
      assert keys == [keys[0]] + keys[1..];
    }
  }

  lemma {:induction false} SectionsDrop(sections: seq<Section>, key: string)
    ensures |DropFromSections(sections, key)| == |sections|
    ensures forall i, k :: 0 <= i < |sections| ==>
              (k in DropFromSections(sections, key)[i].fields <==> k in sections[i].fields && k != key)
  {
    hide Dropped;
    if sections != [] {
      SectionsDrop(sections[1..], key);
      forall k ensures k in DropFromSection(sections[0], key).fields <==> k in sections[0].fields && k != key {
        DroppedExactly(sections[0].fields, key, k);
      }
    }
  }

  lemma {:induction false} PagesDrop(pages: seq<Page>, key: string)
    ensures |DropFromPages(pages, key)| == |pages|
    ensures forall i :: 0 <= i < |pages| ==> DropFromPages(pages, key)[i].sections == DropFromSections(pages[i].sections, key)
  {
    hide DropFromSections;
    if pages != [] {
      PagesDrop(pages[1..], key);
    }
  }

  /** A short text the runtime generates is the system's to set, no longer required, and on no page; every other question stays. */
  lemma ReferenceIsGenerated(plan: Plan, key: string, i: nat)
    requires i < |plan.fields| && plan.fields[i].key == key && forall k :: i < k < |plan.fields| ==> plan.fields[k].key != key
    ensures var after := TakeReference(plan, key).value;
            if plan.fields[i].kind == ShortText && plan.fields[i].setBy != Some(System) then
              && after == plan.(fields := plan.fields[i := after.fields[i]], pages := after.pages)
              && after.fields[i] == plan.fields[i].(setBy := Some(System), required := false)
              && |after.pages| == |plan.pages|
              && (forall p :: 0 <= p < |plan.pages| ==> |after.pages[p].sections| == |plan.pages[p].sections|)
              && (forall p, s, k :: 0 <= p < |plan.pages| && 0 <= s < |plan.pages[p].sections| ==>
                    (k in after.pages[p].sections[s].fields <==> k in plan.pages[p].sections[s].fields && k != key))
            else after == plan
  {
    hide DropFromPages, DropFromSections;
    PagesDrop(plan.pages, key);
    forall p | 0 <= p < |plan.pages|
      ensures |DropFromSections(plan.pages[p].sections, key)| == |plan.pages[p].sections|
      ensures forall s, k :: 0 <= s < |plan.pages[p].sections| ==>
                (k in DropFromSections(plan.pages[p].sections, key)[s].fields <==> k in plan.pages[p].sections[s].fields && k != key)
    {
      SectionsDrop(plan.pages[p].sections, key);
    }
  }
}
