/** Records read a page at a time through a keyset cursor, in three orders. */
module Pager {
  import opened Values

  /** `created` is in microseconds, as the database keeps it. */
  datatype Row = Row(
    id: string, created: int, tenant: string, process: string, state: string, enteredAt: int, completed: bool,
    data: map<string, string>)

  datatype RecordOrder = Newest | Oldest | ByReference

  /** What the cursor stores: the time to the millisecond, and the id. */
  datatype Cursor = Cursor(millis: int, id: string)

  /** The opaque text a cursor travels as. */
  datatype Codec = Codec(encode: Cursor -> string, decode: string -> Option<Cursor>)

  datatype Args = Args(
    tenant: string, process: string, state: Option<string>, updatedSince: Option<int>, completed: Option<bool>,
    search: string, answer: Option<(string, string)>, order: RecordOrder, limit: int, cursor: Option<string>)

  /** What the caller may see, and the workflow's states. */
  datatype View = View(states: seq<string>, visible: seq<string>)

  /** Case-insensitive matching: of a prefix, and anywhere. */
  datatype Matcher = Matcher(startsWith: (string, string) -> bool, holds: (string, string) -> bool)

  datatype Refusal = UnknownState(states: seq<string>) | HiddenField(visible: seq<string>) | BadCursor

  datatype Page = Page(data: seq<Row>, next: Option<string>, hasMore: bool)

  datatype Result = Ok(page: Page) | Refused(why: Refusal)

  // ------------------------------------------------------------- the order

  datatype Key = Key(created: int, id: string)

  function KeyOf(r: Row): Key {
    Key(r.created, r.id)
  }

  predicate Precedes(order: RecordOrder, a: Key, b: Key) {
    match order
    case ByReference => TextLess(a.id, b.id)
    case Oldest => a.created < b.created || (a.created == b.created && TextLess(a.id, b.id))
    case Newest => b.created < a.created || (a.created == b.created && TextLess(b.id, a.id))
  }

  function CursorOf(r: Row): Cursor {
    Cursor(r.created / 1000, r.id)
  }

  /** The key a cursor compares rows with. */
  function CursorKey(c: Cursor): Key {
    Key(c.millis * 1000, c.id)
  }

  lemma PrecedesTotal(order: RecordOrder, a: Key, b: Key)
    ensures !(Precedes(order, a, b) && Precedes(order, b, a))
    ensures a.id != b.id ==> Precedes(order, a, b) || Precedes(order, b, a)
    ensures a.id == b.id && a.created == b.created ==> !Precedes(order, a, b)
  {
    TextLessTotal(a.id, b.id);
  }

  lemma PrecedesTransitive(order: RecordOrder, a: Key, b: Key, d: Key)
    requires Precedes(order, a, b) && Precedes(order, b, d)
    ensures Precedes(order, a, d)
  {
    if TextLess(a.id, b.id) && TextLess(b.id, d.id) {
      TextLessTransitive(a.id, b.id, d.id);
    }
    if TextLess(d.id, b.id) && TextLess(b.id, a.id) {
      TextLessTransitive(d.id, b.id, a.id);
    }
  }

  // ------------------------------------------------------------- the filter

  datatype Condition =
    | TenantIs(tenant: string)
    | ProcessIs(process: string)
    | StateIs(state: string)
    | EnteredSince(at: int)
    | CompletedIs(completed: bool)
    | AnswerIs(field: string, value: string)
    | Mentions(text: string, keys: seq<string>)
    | AfterKey(key: Key)

  predicate Holds(m: Matcher, order: RecordOrder, c: Condition, r: Row) {
    match c
    case TenantIs(t) => r.tenant == t
    case ProcessIs(p) => r.process == p
    case StateIs(s) => r.state == s
    case EnteredSince(at) => r.enteredAt >= at
    case CompletedIs(b) => r.completed == b
    case AnswerIs(f, v) => f in r.data && r.data[f] == v
    case Mentions(text, keys) =>
      m.startsWith(r.id, text) || exists k :: k in keys && k in r.data && m.holds(r.data[k], text)
    case AfterKey(key) => Precedes(order, key, KeyOf(r))
  }

  predicate Selects(m: Matcher, order: RecordOrder, where: seq<Condition>, r: Row) {
    forall c :: c in where ==> Holds(m, order, c, r)
  }

  /** The caller's filters, without the cursor. */
  function Filters(a: Args, view: View): seq<Condition> {
    [TenantIs(a.tenant), ProcessIs(a.process)]
    + (if a.state.Some? && a.state.value != "" then [StateIs(a.state.value)] else [])
    + (if a.updatedSince.Some? then [EnteredSince(a.updatedSince.value)] else [])
    + (if a.completed.Some? then [CompletedIs(a.completed.value)] else [])
    + (if a.answer.Some? then [AnswerIs(a.answer.value.0, a.answer.value.1)] else [])
    + (if IsBlankText(a.search) then [] else [Mentions(a.search, view.visible)])
  }

  /** What is refused before any row is looked at. */
  function Refuses(codec: Codec, a: Args, view: View): Option<Refusal> {
    if a.state.Some? && a.state.value != "" && a.state.value !in view.states then Some(UnknownState(view.states))
    else if a.answer.Some? && a.answer.value.0 !in view.visible then Some(HiddenField(view.visible))
    else if a.cursor.Some? && a.cursor.value != "" && codec.decode(a.cursor.value).None? then Some(BadCursor)
    else None
  }

  function Where(codec: Codec, a: Args, view: View): seq<Condition>
    requires Refuses(codec, a, view).None?
  {
    Filters(a, view)
    + if a.cursor.Some? && a.cursor.value != "" then [AfterKey(CursorKey(codec.decode(a.cursor.value).value))] else []
  }

  // -------------------------------------------------------------- the query

  function Insert(order: RecordOrder, r: Row, sorted: seq<Row>): seq<Row> {
    if sorted == [] then [r]
    else if Precedes(order, KeyOf(r), KeyOf(sorted[0])) then [r] + sorted
    else [sorted[0]] + Insert(order, r, sorted[1..])
  }

  /** `select … where … order by …`. */
  function Query(m: Matcher, order: RecordOrder, where: seq<Condition>, table: seq<Row>): seq<Row> {
    if table == [] then []
    else
      var rest := Query(m, order, where, table[1..]);
      if Selects(m, order, where, table[0]) then Insert(order, table[0], rest) else rest
  }

  function Clamp(limit: int): (n: nat)
    ensures 1 <= n <= 100
  {
    if limit < 1 then 1 else if limit > 100 then 100 else limit
  }

  function PageOf(codec: Codec, limit: nat, rows: seq<Row>): Page
    requires limit >= 1
  {
    var more := |rows| > limit;
    var data := if more then rows[..limit] else rows;
    Page(data, if more then Some(codec.encode(CursorOf(data[|data| - 1]))) else None, more)
  }

  function ListPage(codec: Codec, m: Matcher, table: seq<Row>, a: Args, view: View): Result {
    match Refuses(codec, a, view)
    case Some(why) => Refused(why)
    case None => Ok(PageOf(codec, Clamp(a.limit), Query(m, a.order, Where(codec, a, view), table)))
  }

  /** The query is built condition by condition, then cut to the page. */
  method ListRecordsPage(codec: Codec, m: Matcher, table: seq<Row>, a: Args, view: View) returns (result: Result)
    ensures result == ListPage(codec, m, table, a, view)
  {
    hide Query, Filters, Selects, IsBlankText, PageOf;
    if a.state.Some? && a.state.value != "" && a.state.value !in view.states {
      return Refused(UnknownState(view.states));
    }
    if a.answer.Some? && a.answer.value.0 !in view.visible {
      return Refused(HiddenField(view.visible));
    }
    var where := BuildFilters(a, view);
    assert where + [] == where;
    if a.cursor.Some? && a.cursor.value != "" {
      var c := codec.decode(a.cursor.value);
      if c.None? {
        return Refused(BadCursor);
      }
      where := where + [AfterKey(CursorKey(c.value))];
    }
    var limit := if a.limit < 1 then 1 else if a.limit > 100 then 100 else a.limit;
    var page := CutPage(codec, limit, Query(m, a.order, where, table));
    result := Ok(page);
  }

  /** One row more than the page tells whether there is a next one. */
  method CutPage(codec: Codec, limit: nat, selected: seq<Row>) returns (page: Page)
    requires limit >= 1
    ensures page == PageOf(codec, limit, selected)
  {
    var rows := selected;
    if |rows| > limit + 1 {
      assert rows[..limit + 1][..limit] == rows[..limit];
      rows := rows[..limit + 1];
    }
    var hasMore := |rows| > limit;
    var data := if hasMore then rows[..limit] else rows;
    var next := None;
    if hasMore {
      var last := data[|data| - 1];
      next := Some(codec.encode(Cursor(last.created / 1000, last.id)));
    }
    page := Page(data, next, hasMore);
  }

  method BuildFilters(a: Args, view: View) returns (where: seq<Condition>)
    ensures where == Filters(a, view)
  {
    hide IsBlankText;
    where := [TenantIs(a.tenant), ProcessIs(a.process)];
    ghost var base := where;
    if a.state.Some? && a.state.value != "" {
      where := where + [StateIs(a.state.value)];
    }
    assert where == base + if a.state.Some? && a.state.value != "" then [StateIs(a.state.value)] else [];
    base := where;
    if a.updatedSince.Some? {
      where := where + [EnteredSince(a.updatedSince.value)];
    }
    assert where == base + if a.updatedSince.Some? then [EnteredSince(a.updatedSince.value)] else [];
    base := where;
    if a.completed.Some? {
      where := where + [CompletedIs(a.completed.value)];
    }
    assert where == base + if a.completed.Some? then [CompletedIs(a.completed.value)] else [];
    base := where;
    if a.answer.Some? {
      where := where + [AnswerIs(a.answer.value.0, a.answer.value.1)];
    }
    assert where == base + if a.answer.Some? then [AnswerIs(a.answer.value.0, a.answer.value.1)] else [];
    base := where;
    if !IsBlankText(a.search) {
      where := where + [Mentions(a.search, view.visible)];
    }
    assert where == base + if IsBlankText(a.search) then [] else [Mentions(a.search, view.visible)];
  }

  // ------------------------------------------------------ what a query gives

  predicate DistinctIds(rows: seq<Row>) {
    forall i, j :: 0 <= i < j < |rows| ==> rows[i].id != rows[j].id
  }

  ghost predicate Ascending(order: RecordOrder, rows: seq<Row>) {
    forall i, j :: 0 <= i < j < |rows| ==> Precedes(order, KeyOf(rows[i]), KeyOf(rows[j]))
  }

  lemma {:induction false} InsertKeeps(order: RecordOrder, r: Row, rows: seq<Row>)
    ensures forall x :: x in Insert(order, r, rows) <==> x == r || x in rows
  {
    if rows != [] {
      InsertKeeps(order, r, rows[1..]);
      assert rows == [rows[0]] + rows[1..];
    }
  }

  lemma {:induction false} InsertAscends(order: RecordOrder, r: Row, rows: seq<Row>)
    requires Ascending(order, rows) && forall x :: x in rows ==> x.id != r.id
    ensures Ascending(order, Insert(order, r, rows))
  {
    hide Precedes;
    if rows != [] {
      assert rows[0] in rows;
      PrecedesTotal(order, KeyOf(r), KeyOf(rows[0]));
      if Precedes(order, KeyOf(r), KeyOf(rows[0])) {
        forall j | 0 < j < |rows| ensures Precedes(order, KeyOf(r), KeyOf(rows[j])) {
          PrecedesTransitive(order, KeyOf(r), KeyOf(rows[0]), KeyOf(rows[j]));
        }
      } else {
        InsertAscends(order, r, rows[1..]);
        InsertKeeps(order, r, rows[1..]);
        var rest := Insert(order, r, rows[1..]);
        forall j | 0 <= j < |rest| ensures Precedes(order, KeyOf(rows[0]), KeyOf(rest[j])) {
          assert rest[j] in rest;
        }
      }
    }
  }

  /** A query gives exactly the selected rows, in order. */
  lemma {:induction false} QueryIs(m: Matcher, order: RecordOrder, where: seq<Condition>, table: seq<Row>)
    requires DistinctIds(table)
    ensures Ascending(order, Query(m, order, where, table))
    ensures forall r :: r in Query(m, order, where, table) <==> r in table && Selects(m, order, where, r)
  {
    hide Selects, Precedes;
    if table != [] {
      QueryIs(m, order, where, table[1..]);
      var rest := Query(m, order, where, table[1..]);
      assert table == [table[0]] + table[1..];
      InsertKeeps(order, table[0], rest);
      forall x | x in rest ensures x.id != table[0].id {
        var i :| 0 <= i < |table[1..]| && table[1..][i] == x;
      }
      InsertAscends(order, table[0], rest);
    }
  }

  /** The records a request's filters let by: those of its process that pass each one it gives. */
  predicate Passes(m: Matcher, a: Args, view: View, r: Row) {
    && r.tenant == a.tenant && r.process == a.process
    && (a.state.Some? && a.state.value != "" ==> r.state == a.state.value)
    && (a.updatedSince.Some? ==> a.updatedSince.value <= r.enteredAt)
    && (a.completed.Some? ==> r.completed == a.completed.value)
    && (a.answer.Some? ==> a.answer.value.0 in r.data && r.data[a.answer.value.0] == a.answer.value.1)
    && (!IsBlankText(a.search) ==>
          m.startsWith(r.id, a.search) || exists k :: k in view.visible && k in r.data && m.holds(r.data[k], a.search))
  }

  /** What a request selects: what passes its filters and comes after its cursor. */
  lemma SelectsExactly(codec: Codec, m: Matcher, a: Args, view: View, r: Row)
    requires Refuses(codec, a, view).None?
    ensures Selects(m, a.order, Where(codec, a, view), r) <==>
              Passes(m, a, view, r)
              && (a.cursor.Some? && a.cursor.value != "" ==> ComesAfter(a.order, codec.decode(a.cursor.value).value, r))
  {
    hide Selects, Passes, Filters;
    FiltersSelect(m, a, view, r);
    var filters := Filters(a, view);
    if a.cursor.Some? && a.cursor.value != "" {
      SelectsSplit(m, a.order, filters, CursorKey(codec.decode(a.cursor.value).value), r);
    } else {
      assert filters + [] == filters;
    }
  }

  lemma FiltersSelect(m: Matcher, a: Args, view: View, r: Row)
    ensures Selects(m, a.order, Filters(a, view), r) <==> Passes(m, a, view, r)
  {
    hide IsBlankText, Filters;
    FiltersAre(a, view);
    var where := Filters(a, view);
    assert TenantIs(a.tenant) in where && ProcessIs(a.process) in where;
    assert a.state.Some? && a.state.value != "" ==> StateIs(a.state.value) in where;
    assert a.updatedSince.Some? ==> EnteredSince(a.updatedSince.value) in where;
    assert a.completed.Some? ==> CompletedIs(a.completed.value) in where;
    assert a.answer.Some? ==> AnswerIs(a.answer.value.0, a.answer.value.1) in where;
    assert !IsBlankText(a.search) ==> Mentions(a.search, view.visible) in where;
  }

  lemma FiltersAre(a: Args, view: View)
    ensures forall c :: c in Filters(a, view) <==>
              || c == TenantIs(a.tenant) || c == ProcessIs(a.process)
              || (a.state.Some? && a.state.value != "" && c == StateIs(a.state.value))
              || (a.updatedSince.Some? && c == EnteredSince(a.updatedSince.value))
              || (a.completed.Some? && c == CompletedIs(a.completed.value))
              || (a.answer.Some? && c == AnswerIs(a.answer.value.0, a.answer.value.1))
              || (!IsBlankText(a.search) && c == Mentions(a.search, view.visible))
  {
    hide IsBlankText;
  }

  /** After the millisecond and the id a cursor stores, in the order asked for. */
  predicate ComesAfter(order: RecordOrder, c: Cursor, r: Row) {
    match order
    case ByReference => TextLess(c.id, r.id)
    case Oldest => c.millis * 1000 < r.created || (c.millis * 1000 == r.created && TextLess(c.id, r.id))
    case Newest => r.created < c.millis * 1000 || (c.millis * 1000 == r.created && TextLess(r.id, c.id))
  }

  /** A limit from one to a hundred is kept; any other becomes the nearer end. */
  lemma LimitIsKept(limit: int)
    ensures 1 <= limit <= 100 ==> Clamp(limit) == limit
    ensures limit < 1 ==> Clamp(limit) == 1
    ensures limit > 100 ==> Clamp(limit) == 100
  {
  }

  /** Rows that differ at most in answers the caller may not see. */
  predicate Alike(view: View, r: Row, other: Row) {
    && other == r.(data := other.data)
    && forall k :: k in view.visible ==> (k in r.data <==> k in other.data) && (k in r.data ==> r.data[k] == other.data[k])
  }

  predicate AllAlike(view: View, rows: seq<Row>, others: seq<Row>) {
    |rows| == |others| && forall i :: 0 <= i < |rows| ==> Alike(view, rows[i], others[i])
  }

  lemma SelectedAlike(codec: Codec, m: Matcher, a: Args, view: View, r: Row, other: Row)
    requires Refuses(codec, a, view).None? && Alike(view, r, other)
    ensures Selects(m, a.order, Where(codec, a, view), r) <==> Selects(m, a.order, Where(codec, a, view), other)
  {
    hide Precedes;
    forall c | c in Where(codec, a, view) ensures Holds(m, a.order, c, r) <==> Holds(m, a.order, c, other) {
    }
  }

  lemma {:induction false} InsertedAlike(order: RecordOrder, view: View, r: Row, other: Row, rows: seq<Row>, others: seq<Row>)
    requires Alike(view, r, other) && AllAlike(view, rows, others)
    ensures AllAlike(view, Insert(order, r, rows), Insert(order, other, others))
  {
    hide Precedes;
    if rows != [] && !Precedes(order, KeyOf(r), KeyOf(rows[0])) {
      InsertedAlike(order, view, r, other, rows[1..], others[1..]);
    }
  }

  lemma {:induction false} QueriedAlike(codec: Codec, m: Matcher, a: Args, view: View, table: seq<Row>, other: seq<Row>)
    requires Refuses(codec, a, view).None? && AllAlike(view, table, other)
    ensures AllAlike(view, Query(m, a.order, Where(codec, a, view), table), Query(m, a.order, Where(codec, a, view), other))
  {
    hide Selects, Alike, Insert, Where;
    if table != [] {
      QueriedAlike(codec, m, a, view, table[1..], other[1..]);
      SelectedAlike(codec, m, a, view, table[0], other[0]);
      var where := Where(codec, a, view);
      InsertedAlike(a.order, view, table[0], other[0], Query(m, a.order, where, table[1..]), Query(m, a.order, where, other[1..]));
    }
  }

  /**
   Hidden answers cannot be found out: from tables that differ only in them, a request
   is refused alike or gets the same records in the same order, the same cursor and the
   same word on whether there is more.
   */
  lemma HiddenAnswersAreSilent(codec: Codec, m: Matcher, a: Args, view: View, table: seq<Row>, other: seq<Row>)
    requires AllAlike(view, table, other)
    ensures match (ListPage(codec, m, table, a, view), ListPage(codec, m, other, a, view))
            case (Ok(p), Ok(q)) => AllAlike(view, p.data, q.data) && p.next == q.next && p.hasMore == q.hasMore
            case (Refused(why), Refused(also)) => why == also
            case _ => false
  {
    hide Query, Where, Refuses;
    if Refuses(codec, a, view).None? {
      QueriedAlike(codec, m, a, view, table, other);
    }
  }

  // -------------------------------------------------- where the cursor points

  /**
   A cursor resumes exactly after its row in every table if and only if the order
   is by reference or the row was created on a whole millisecond.
   */
  lemma CursorIsExact(order: RecordOrder, last: Row)
    ensures (forall r: Row :: Precedes(order, CursorKey(CursorOf(last)), KeyOf(r)) <==> Precedes(order, KeyOf(last), KeyOf(r)))
            <==> order == ByReference || last.created % 1000 == 0
  {
    var cut := last.(created := last.created / 1000 * 1000);
    if last.created % 1000 != 0 {
      PrecedesTotal(order, KeyOf(last), KeyOf(last));
      PrecedesTotal(order, CursorKey(CursorOf(last)), KeyOf(cut));
      if order == Oldest {
        assert Precedes(order, CursorKey(CursorOf(last)), KeyOf(last));
      } else if order == Newest {
        assert Precedes(order, KeyOf(last), KeyOf(cut));
      }
    }
  }

  // ------------------------------------------------------ following a cursor

  /** One request of a walk: the table as it then was, and the limit asked for. */
  datatype Request = Request(table: seq<Row>, limit: int)

  function Ask(a: Args, limit: int, cursor: Option<string>): Args {
    a.(limit := limit, cursor := cursor)
  }

  function CursorAt(pages: seq<Page>, k: nat): Option<string>
    requires k <= |pages|
  {
    if k == 0 then None else pages[k - 1].next
  }

  /** Page `k` answers request `k`, resuming at the cursor the page before returned. */
  predicate Answers(codec: Codec, m: Matcher, a: Args, view: View, requests: seq<Request>, pages: seq<Page>, k: nat)
    requires k < |pages| == |requests|
  {
    && (k > 0 ==> CursorAt(pages, k).Some?)
    && ListPage(codec, m, requests[k].table, Ask(a, requests[k].limit, CursorAt(pages, k)), view) == Ok(pages[k])
  }

  ghost predicate Walk(codec: Codec, m: Matcher, a: Args, view: View, requests: seq<Request>, pages: seq<Page>) {
    |pages| == |requests| && forall k :: 0 <= k < |pages| ==> Answers(codec, m, a, view, requests, pages, k)
  }

  /** When each record of a walk was created, by id. */
  type Births = map<string, int>

  function Born(births: Births, id: string): Key
    requires id in births
  {
    Key(births[id], id)
  }

  /** The tables of a walk: distinct ids, and creation times that never change. */
  ghost predicate Drawn(births: Births, requests: seq<Request>) {
    forall k :: 0 <= k < |requests| ==>
      DistinctIds(requests[k].table)
      && forall r :: r in requests[k].table ==> r.id in births && births[r.id] == r.created
  }

  /** A walk over records created at those times. */
  ghost predicate Session(
      codec: Codec, m: Matcher, a: Args, view: View, births: Births, requests: seq<Request>, pages: seq<Page>)
  {
    Walk(codec, m, a, view, requests, pages) && Drawn(births, requests)
  }

  /** Oldest first, every record with one after it was created on a whole millisecond. */
  predicate KeepsPlace(order: RecordOrder, births: Births) {
    order == Oldest ==>
      forall x, y :: x in births && y in births && Precedes(order, Born(births, x), Born(births, y)) ==> births[x] % 1000 == 0
  }

  /**
   Newest first, of two records of one millisecond the first comes on the whole
   millisecond, or the second does and has the smaller id.
   */
  predicate LosesNothing(order: RecordOrder, births: Births) {
    order == Newest ==>
      forall x, y :: x in births && y in births && Precedes(order, Born(births, x), Born(births, y))
                     && births[x] / 1000 == births[y] / 1000 ==>
        births[x] % 1000 == 0 || (births[y] % 1000 == 0 && TextLess(y, x))
  }

  ghost predicate GoodCodec(codec: Codec) {
    forall c :: codec.encode(c) != "" && codec.decode(codec.encode(c)) == Some(c)
  }

  /** One page in terms of the key it resumes after. */
  ghost predicate PageAfter(m: Matcher, a: Args, view: View, table: seq<Row>, after: Option<Key>, page: Page) {
    && Ascending(a.order, page.data)
    && (forall r :: r in page.data ==>
          r in table && Selects(m, a.order, Filters(a, view), r)
          && (after.Some? ==> Precedes(a.order, after.value, KeyOf(r))))
    && (forall r ::
          (r in table && Selects(m, a.order, Filters(a, view), r) && r !in page.data
           && (after.Some? ==> Precedes(a.order, after.value, KeyOf(r))))
          ==> page.next.Some? && |page.data| > 0 && Precedes(a.order, KeyOf(page.data[|page.data| - 1]), KeyOf(r)))
    && (page.next.Some? ==> |page.data| > 0)
  }

  lemma SelectsSplit(m: Matcher, order: RecordOrder, where: seq<Condition>, key: Key, r: Row)
    ensures Selects(m, order, where + [AfterKey(key)], r) <==> Selects(m, order, where, r) && Precedes(order, key, KeyOf(r))
  {
    hide Precedes;
    assert AfterKey(key) in where + [AfterKey(key)];
    assert Holds(m, order, AfterKey(key), r) == Precedes(order, key, KeyOf(r));
    forall c ensures c in where + [AfterKey(key)] <==> c in where || c == AfterKey(key) {
    }
  }

  lemma PageIsAfter(codec: Codec, m: Matcher, table: seq<Row>, a: Args, view: View, page: Page)
    requires DistinctIds(table) && ListPage(codec, m, table, a, view) == Ok(page)
    requires a.cursor.Some? ==> a.cursor.value != ""
    ensures var after := if a.cursor.None? then None else Some(CursorKey(codec.decode(a.cursor.value).value));
            PageAfter(m, a, view, table, after, page)
  {
    hide Selects, Precedes, Query, Filters;
    var (where, filters) := (Where(codec, a, view), Filters(a, view));
    var rows := Query(m, a.order, where, table);
    QueryIs(m, a.order, where, table);
    forall r
      ensures Selects(m, a.order, where, r) <==>
                Selects(m, a.order, filters, r)
                && (a.cursor.Some? ==> Precedes(a.order, CursorKey(codec.decode(a.cursor.value).value), KeyOf(r)))
    {
      if a.cursor.Some? {
        SelectsSplit(m, a.order, filters, CursorKey(codec.decode(a.cursor.value).value), r);
      } else {
        assert filters + [] == filters;
      }
    }
    forall r | r in rows && r !in page.data
      ensures page.next.Some? && Precedes(a.order, KeyOf(page.data[|page.data| - 1]), KeyOf(r))
    {
      var i :| 0 <= i < |rows| && rows[i] == r;
      assert forall k :: 0 <= k < |page.data| ==> page.data[k] == rows[k];
    }
  }

  /** Where page `k` of a walk ends. */
  function LastOf(page: Page): Row
    requires |page.data| > 0
  {
    page.data[|page.data| - 1]
  }

  /** The key request `k` of a walk resumes after. */
  function Resume(pages: seq<Page>, k: nat): Option<Key>
    requires k <= |pages|
  {
    if k == 0 || |pages[k - 1].data| == 0 then None else Some(CursorKey(CursorOf(LastOf(pages[k - 1]))))
  }

  /** The next cursor is the last row's, a row of the table comes after it, and all rows come from the table. */
  lemma NextIsLast(codec: Codec, m: Matcher, table: seq<Row>, a: Args, view: View, page: Page)
    requires DistinctIds(table) && ListPage(codec, m, table, a, view) == Ok(page)
    ensures page.next.Some? ==>
              |page.data| > 0 && page.next.value == codec.encode(CursorOf(LastOf(page)))
              && exists r :: r in table && Precedes(a.order, KeyOf(LastOf(page)), KeyOf(r))
    ensures forall r :: r in page.data ==> r in table
  {
    hide Query, Selects, Precedes;
    var rows := Query(m, a.order, Where(codec, a, view), table);
    QueryIs(m, a.order, Where(codec, a, view), table);
    if page.next.Some? {
      assert rows[Clamp(a.limit)] in rows;
    }
  }

  lemma SessionNext(
      codec: Codec, m: Matcher, a: Args, view: View, births: Births, requests: seq<Request>, pages: seq<Page>, k: nat)
    requires GoodCodec(codec) && Session(codec, m, a, view, births, requests, pages)
    requires k < |pages|
    ensures |pages| == |requests|
    ensures pages[k].next.Some? ==>
              |pages[k].data| > 0 && pages[k].next.value == codec.encode(CursorOf(LastOf(pages[k])))
              && exists r :: r in requests[k].table && Precedes(a.order, KeyOf(LastOf(pages[k])), KeyOf(r))
    ensures forall r :: r in pages[k].data ==> r in requests[k].table && r.id in births && KeyOf(r) == Born(births, r.id)
    ensures k > 0 ==> pages[k - 1].next.Some?
  {
    hide ListPage, DistinctIds, Precedes;
    assert Answers(codec, m, a, view, requests, pages, k);
    NextIsLast(codec, m, requests[k].table, Ask(a, requests[k].limit, CursorAt(pages, k)), view, pages[k]);
  }

  lemma SessionPage(
      codec: Codec, m: Matcher, a: Args, view: View, births: Births, requests: seq<Request>, pages: seq<Page>, k: nat)
    requires GoodCodec(codec) && Session(codec, m, a, view, births, requests, pages)
    requires k < |pages| == |requests|
    ensures PageAfter(m, a, view, requests[k].table, Resume(pages, k), pages[k])
    ensures k > 0 ==> pages[k - 1].next.Some? && |pages[k - 1].data| > 0 && Resume(pages, k).Some?
  {
    hide Selects, Precedes, ListPage, PageAfter, DistinctIds;
    var cursor := CursorAt(pages, k);
    if k > 0 {
      SessionNext(codec, m, a, view, births, requests, pages, k - 1);
      SessionNext(codec, m, a, view, births, requests, pages, k);
      assert codec.decode(cursor.value) == Some(CursorOf(LastOf(pages[k - 1])));
    }
    assert Answers(codec, m, a, view, requests, pages, k);
    PageIsAfter(codec, m, requests[k].table, Ask(a, requests[k].limit, cursor), view, pages[k]);
    AskKeeps(m, a, view, requests[k].table, pages[k], requests[k].limit, cursor, Resume(pages, k));
  }

  lemma AskKeeps(
      m: Matcher, a: Args, view: View, table: seq<Row>, page: Page, limit: int, cursor: Option<string>, after: Option<Key>)
    requires PageAfter(m, Ask(a, limit, cursor), view, table, after, page)
    ensures PageAfter(m, a, view, table, after, page)
  {
    hide Selects, Precedes;
  }

  // ------------------------------------------------------------ going forward

  /** Where the cursor keeps its place, what it resumes with comes after its row. */
  lemma CursorGoesForward(order: RecordOrder, births: Births, last: string, after: string, row: string)
    requires KeepsPlace(order, births) && last in births && after in births && row in births
    requires Precedes(order, Born(births, last), Born(births, after))
    requires Precedes(order, Key(births[last] / 1000 * 1000, last), Born(births, row))
    ensures Precedes(order, Born(births, last), Born(births, row))
  {
  }

  /** Later pages come strictly later in the order: always, but oldest first only where the cursor keeps its place. */
  lemma {:induction false} PagesAscend(
      codec: Codec, m: Matcher, a: Args, view: View, births: Births, requests: seq<Request>, pages: seq<Page>,
      j: nat, k: nat, r: Row, q: Row)
    requires GoodCodec(codec) && Session(codec, m, a, view, births, requests, pages)
    requires KeepsPlace(a.order, births)
    requires j < k < |pages| && r in pages[j].data && q in pages[k].data
    ensures Precedes(a.order, KeyOf(r), KeyOf(q))
    decreases k
  {
    hide Selects, Precedes, Session, GoodCodec, KeepsPlace;
    SessionNext(codec, m, a, view, births, requests, pages, k);
    SessionNext(codec, m, a, view, births, requests, pages, k - 1);
    SessionPage(codec, m, a, view, births, requests, pages, k);
    SessionPage(codec, m, a, view, births, requests, pages, j);
    var before := pages[k - 1].data;
    var last := LastOf(pages[k - 1]);
    var more :| more in requests[k - 1].table && Precedes(a.order, KeyOf(last), KeyOf(more));
    InTable(births, requests, k - 1, more) by { SessionDraws(codec, m, a, view, births, requests, pages); }
    CursorGoesForward(a.order, births, last.id, more.id, q.id);
    if j == k - 1 {
      var i :| 0 <= i < |before| && before[i] == r;
      if i < |before| - 1 {
        PrecedesTransitive(a.order, KeyOf(r), KeyOf(last), KeyOf(q));
      }
    } else {
      PagesAscend(codec, m, a, view, births, requests, pages, j, k - 1, r, last);
      PrecedesTransitive(a.order, KeyOf(r), KeyOf(last), KeyOf(q));
    }
  }

  lemma SessionDraws(
      codec: Codec, m: Matcher, a: Args, view: View, births: Births, requests: seq<Request>, pages: seq<Page>)
    requires Session(codec, m, a, view, births, requests, pages)
    ensures Drawn(births, requests) && |pages| == |requests|
  {
  }

  lemma InTable(births: Births, requests: seq<Request>, k: nat, r: Row)
    requires Drawn(births, requests) && k < |requests| && r in requests[k].table
    ensures r.id in births && KeyOf(r) == Born(births, r.id)
  {
  }

  /** No id is on two of the pages. */
  ghost predicate NoRepeats(pages: seq<Page>) {
    forall j, k, r, q :: 0 <= j < k < |pages| && r in pages[j].data && q in pages[k].data ==> r.id != q.id
  }

  /** No record comes back twice, in any order but oldest first, and there where the cursor keeps its place. */
  lemma NothingRepeats(
      codec: Codec, m: Matcher, a: Args, view: View, births: Births, requests: seq<Request>, pages: seq<Page>)
    requires GoodCodec(codec) && Session(codec, m, a, view, births, requests, pages)
    requires KeepsPlace(a.order, births)
    ensures NoRepeats(pages)
  {
    hide Precedes, Session, GoodCodec, KeepsPlace;
    forall j, k, r, q | 0 <= j < k < |pages| && r in pages[j].data && q in pages[k].data ensures r.id != q.id {
      SessionNext(codec, m, a, view, births, requests, pages, j);
      SessionNext(codec, m, a, view, births, requests, pages, k);
      PagesAscend(codec, m, a, view, births, requests, pages, j, k, r, q);
      PrecedesTotal(a.order, KeyOf(r), KeyOf(q));
    }
  }

  // ----------------------------------------------------------- missing nothing

  /** The record is there, and matches, in the table of request `k`. */
  ghost predicate PresentAt(m: Matcher, a: Args, view: View, table: seq<Row>, id: string) {
    exists r :: r in table && r.id == id && Selects(m, a.order, Filters(a, view), r)
  }

  ghost predicate Returned(page: Page, id: string) {
    exists r :: r in page.data && r.id == id
  }

  ghost predicate Throughout(m: Matcher, a: Args, view: View, requests: seq<Request>, id: string) {
    forall k :: 0 <= k < |requests| ==> PresentAt(m, a, view, requests[k].table, id)
  }

  /** Every record that was there and matched throughout is on one of the pages. */
  ghost predicate NoneSkipped(m: Matcher, a: Args, view: View, requests: seq<Request>, pages: seq<Page>) {
    forall id :: Throughout(m, a, view, requests, id) ==> exists k :: 0 <= k < |pages| && Returned(pages[k], id)
  }

  predicate Finished(pages: seq<Page>) {
    |pages| > 0 && pages[|pages| - 1].next.None?
  }

  /** Where it loses nothing, the cursor stays before all that comes after its row. */
  lemma CursorStaysBefore(order: RecordOrder, births: Births, last: string, row: string)
    requires LosesNothing(order, births) && last in births && row in births
    requires Precedes(order, Born(births, last), Born(births, row))
    ensures Precedes(order, Key(births[last] / 1000 * 1000, last), Born(births, row))
  {
    if order == Newest && births[last] / 1000 != births[row] / 1000 {
      assert births[row] / 1000 < births[last] / 1000;
    }
  }

  /** A record not returned yet is still ahead of the cursor. */
  lemma {:induction false} StillAhead(
      codec: Codec, m: Matcher, a: Args, view: View, births: Births, requests: seq<Request>, pages: seq<Page>, id: string,
      k: nat)
    requires GoodCodec(codec) && Session(codec, m, a, view, births, requests, pages)
    requires LosesNothing(a.order, births) && Throughout(m, a, view, requests, id)
    requires k <= |pages| == |requests| && id in births
    requires forall i :: 0 <= i < k ==> !Returned(pages[i], id)
    ensures k > 0 ==> pages[k - 1].next.Some? && Resume(pages, k).Some?
                      && Precedes(a.order, Resume(pages, k).value, Born(births, id))
    decreases k
  {
    hide Selects, Precedes, Session, GoodCodec, Filters, LosesNothing;
    if k > 0 {
      StillAhead(codec, m, a, view, births, requests, pages, id, k - 1);
      SessionPage(codec, m, a, view, births, requests, pages, k - 1);
      SessionNext(codec, m, a, view, births, requests, pages, k - 1);
      assert PresentAt(m, a, view, requests[k - 1].table, id);
      var q :| q in requests[k - 1].table && q.id == id && Selects(m, a.order, Filters(a, view), q);
      InTable(births, requests, k - 1, q) by { SessionDraws(codec, m, a, view, births, requests, pages); }
      assert !Returned(pages[k - 1], id);
      assert q !in pages[k - 1].data;
      CursorStaysBefore(a.order, births, LastOf(pages[k - 1]).id, id);
    }
  }

  /**
   Following the cursor to the end returns every record that was there and matched
   throughout, whatever was inserted and deleted around it: in any order but newest
   first, and there where it loses nothing.
   */
  lemma NothingIsSkipped(
      codec: Codec, m: Matcher, a: Args, view: View, births: Births, requests: seq<Request>, pages: seq<Page>)
    requires GoodCodec(codec) && Session(codec, m, a, view, births, requests, pages)
    requires LosesNothing(a.order, births) && Finished(pages)
    ensures NoneSkipped(m, a, view, requests, pages)
  {
    hide Selects, Precedes, Session, GoodCodec, Filters, Returned, LosesNothing;
    SessionDraws(codec, m, a, view, births, requests, pages);
    forall id | Throughout(m, a, view, requests, id) ensures exists k :: 0 <= k < |pages| && Returned(pages[k], id) {
      if forall k :: 0 <= k < |pages| ==> !Returned(pages[k], id) {
        assert PresentAt(m, a, view, requests[0].table, id);
        var r :| r in requests[0].table && r.id == id && Selects(m, a.order, Filters(a, view), r);
        InTable(births, requests, 0, r);
        StillAhead(codec, m, a, view, births, requests, pages, id, |pages|);
      }
    }
  }

  // ---------------------------------------------------------------- an end

  /** The first record of each of the first `n` pages. */
  function Firsts(pages: seq<Page>, n: nat): set<string>
    requires n <= |pages| && forall k :: 0 <= k < n ==> |pages[k].data| > 0
  {
    if n == 0 then {} else Firsts(pages, n - 1) + {pages[n - 1].data[0].id}
  }

  lemma {:induction false} FirstsAre(pages: seq<Page>, n: nat, id: string)
    requires n <= |pages| && forall k :: 0 <= k < n ==> |pages[k].data| > 0
    ensures id in Firsts(pages, n) <==> exists k :: 0 <= k < n && pages[k].data[0].id == id
  {
    if n > 0 {
      FirstsAre(pages, n - 1, id);
    }
  }

  lemma FirstsDiffer(pages: seq<Page>, j: nat, k: nat)
    requires NoRepeats(pages) && j < k < |pages| && |pages[j].data| > 0 && |pages[k].data| > 0
    ensures pages[j].data[0].id != pages[k].data[0].id
  {
    assert pages[j].data[0] in pages[j].data && pages[k].data[0] in pages[k].data;
  }

  lemma {:induction false} FirstsCount(pages: seq<Page>, n: nat)
    requires NoRepeats(pages)
    requires n <= |pages| && forall k :: 0 <= k < n ==> |pages[k].data| > 0
    ensures |Firsts(pages, n)| == n
    decreases n
  {
    hide NoRepeats;
    if n > 0 {
      FirstsCount(pages, n - 1);
      FirstsAre(pages, n - 1, pages[n - 1].data[0].id);
      forall k | 0 <= k < n - 1 ensures pages[k].data[0].id != pages[n - 1].data[0].id {
        FirstsDiffer(pages, k, n - 1);
      }
    }
  }

  /** With finitely many records ever inserted the walk ends: at most one page each, and a last one. */
  lemma WalkTerminates(
      codec: Codec, m: Matcher, a: Args, view: View, births: Births, requests: seq<Request>, pages: seq<Page>)
    requires GoodCodec(codec) && Session(codec, m, a, view, births, requests, pages)
    requires KeepsPlace(a.order, births)
    ensures |pages| <= |births.Keys| + 1
  {
    hide GoodCodec, Session, Precedes, KeepsPlace;
    if |pages| > 0 {
      var n := |pages| - 1;
      forall k | 0 <= k < n ensures |pages[k].data| > 0 && pages[k].data[0].id in births {
        SessionNext(codec, m, a, view, births, requests, pages, k + 1);
        SessionNext(codec, m, a, view, births, requests, pages, k);
        assert pages[k].data[0] in pages[k].data;
      }
      NothingRepeats(codec, m, a, view, births, requests, pages);
      FirstsCount(pages, n);
      forall id | id in Firsts(pages, n) ensures id in births.Keys {
        FirstsAre(pages, n, id);
      }
      SubsetSize(Firsts(pages, n), births.Keys);
    }
  }

  lemma SubsetSize(a: set<string>, b: set<string>)
    requires a <= b
    ensures |a| <= |b|
  {
    assert b == a + (b - a);
  }

  // ------------------------------------- where the millisecond is not enough

  /** A record created at that time, and a request that asks for one record at a time and filters nothing. */
  function Bare(births: Births, id: string): Row
    requires id in births
  {
    Row(id, births[id], "t", "p", "s", 0, false, map[])
  }

  function AskAll(order: RecordOrder): Args {
    Args("t", "p", None, None, None, "", None, order, 1, None)
  }

  const NO_VIEW := View([], [])

  lemma BareFilters(codec: Codec, m: Matcher, order: RecordOrder, cursor: Option<string>, births: Births, id: string)
    requires id in births && GoodCodec(codec)
    requires cursor.Some? ==> exists c :: cursor.value == codec.encode(c)
    ensures var a := Ask(AskAll(order), 1, cursor);
            && Refuses(codec, a, NO_VIEW).None?
            && Selects(m, order, Filters(AskAll(order), NO_VIEW), Bare(births, id))
            && (Selects(m, order, Where(codec, a, NO_VIEW), Bare(births, id)) <==>
                  cursor.Some? ==> Precedes(order, CursorKey(codec.decode(cursor.value).value), Born(births, id)))
  {
    hide Precedes;
    var a := Ask(AskAll(order), 1, cursor);
    assert Filters(a, NO_VIEW) == [TenantIs("t"), ProcessIs("p")];
    if cursor.Some? {
      SelectsSplit(m, order, Filters(a, NO_VIEW), CursorKey(codec.decode(cursor.value).value), Bare(births, id));
    }
  }

  lemma QueryTwo(m: Matcher, order: RecordOrder, where: seq<Condition>, r: Row, q: Row)
    requires Precedes(order, KeyOf(r), KeyOf(q))
    ensures Query(m, order, where, [r, q])
            == (if Selects(m, order, where, r) then [r] else []) + (if Selects(m, order, where, q) then [q] else [])
  {
    hide Precedes, Selects;
    assert [r, q][1..] == [q] && [q][1..] == [];
    assert Query(m, order, where, [q]) == if Selects(m, order, where, q) then [q] else [];
  }

  /** The page such a request gets from a table of two records. */
  lemma PageOfTwo(codec: Codec, m: Matcher, order: RecordOrder, births: Births, x: string, y: string, cursor: Option<string>)
    requires GoodCodec(codec) && x in births && y in births && Precedes(order, Born(births, x), Born(births, y))
    requires cursor.Some? ==> cursor.value == codec.encode(CursorOf(Bare(births, x)))
    ensures var (r, at) := (Bare(births, x), Key(births[x] / 1000 * 1000, x));
            ListPage(codec, m, [r, Bare(births, y)], Ask(AskAll(order), 1, cursor), NO_VIEW)
            == Ok(if cursor.None? || (Precedes(order, at, Born(births, x)) && Precedes(order, at, Born(births, y)))
                  then Page([r], Some(codec.encode(CursorOf(r))), true)
                  else Page((if Precedes(order, at, Born(births, x)) then [r] else [])
                            + (if Precedes(order, at, Born(births, y)) then [Bare(births, y)] else []), None, false))
  {
    hide Precedes, Query, Where, Selects, Refuses;
    var (r, q, a) := (Bare(births, x), Bare(births, y), Ask(AskAll(order), 1, cursor));
    BareFilters(codec, m, order, cursor, births, x);
    BareFilters(codec, m, order, cursor, births, y);
    QueryTwo(m, order, Where(codec, a, NO_VIEW), r, q);
    if cursor.Some? {
      assert codec.decode(cursor.value) == Some(CursorOf(r));
    }
  }

  lemma TwoDrawn(births: Births, x: string, y: string, n: nat)
    requires x in births && y in births && x != y
    ensures Drawn(births, seq(n, _ => Request([Bare(births, x), Bare(births, y)], 1)))
  {
  }

  /**
   Oldest first, a record off the whole millisecond with one after it comes on every
   page of a walk as long as one likes, that asks for one record at a time of a table
   that never changes.
   */
  lemma OldestNeverEnds(codec: Codec, m: Matcher, births: Births, x: string, y: string, n: nat)
    returns (requests: seq<Request>, pages: seq<Page>)
    requires GoodCodec(codec) && x in births && y in births
    requires Precedes(Oldest, Born(births, x), Born(births, y)) && births[x] % 1000 != 0
    ensures Session(codec, m, AskAll(Oldest), NO_VIEW, births, requests, pages) && |pages| == n
    ensures forall k :: 0 <= k < n ==> pages[k].data == [Bare(births, x)] && pages[k].next.Some?
  {
    hide ListPage;
    var r := Bare(births, x);
    var page := Page([r], Some(codec.encode(CursorOf(r))), true);
    requests, pages := seq(n, _ => Request([r, Bare(births, y)], 1)), seq(n, _ => page);
    PrecedesTotal(Oldest, Born(births, x), Born(births, y));
    TwoDrawn(births, x, y, n);
    PrecedesTransitive(Oldest, Key(births[x] / 1000 * 1000, x), Born(births, x), Born(births, y));
    PageOfTwo(codec, m, Oldest, births, x, y, None);
    PageOfTwo(codec, m, Oldest, births, x, y, page.next);
  }

  /**
   Newest first, a record that follows another of the same millisecond, itself off the
   whole one, is on no page of a finished walk over a table it never leaves.
   */
  lemma NewestSkips(codec: Codec, m: Matcher, births: Births, x: string, y: string)
    returns (requests: seq<Request>, pages: seq<Page>)
    requires GoodCodec(codec) && x in births && y in births && births[x] / 1000 == births[y] / 1000
    requires Precedes(Newest, Born(births, x), Born(births, y))
    requires births[x] % 1000 != 0 && !(births[y] % 1000 == 0 && TextLess(y, x))
    ensures Session(codec, m, AskAll(Newest), NO_VIEW, births, requests, pages) && Finished(pages)
    ensures Throughout(m, AskAll(Newest), NO_VIEW, requests, y)
    ensures forall k :: 0 <= k < |pages| ==> !Returned(pages[k], y)
  {
    hide ListPage, Selects, Filters;
    var (r, q) := (Bare(births, x), Bare(births, y));
    var page := Page([r], Some(codec.encode(CursorOf(r))), true);
    requests, pages := seq(2, _ => Request([r, q], 1)), [page, Page([], None, false)];
    PrecedesTotal(Newest, Born(births, x), Born(births, y));
    TwoDrawn(births, x, y, 2);
    PageOfTwo(codec, m, Newest, births, x, y, None);
    PageOfTwo(codec, m, Newest, births, x, y, page.next);
    BareFilters(codec, m, Newest, None, births, y);
    assert q in [r, q];
  }

  /** Walks over records created at these times never repeat one exactly where the cursor keeps its place. */
  lemma RepeatsExactly(codec: Codec, order: RecordOrder, births: Births)
    requires GoodCodec(codec)
    ensures KeepsPlace(order, births) <==>
              forall m, a: Args, view, requests, pages ::
                a.order == order && Session(codec, m, a, view, births, requests, pages) ==> NoRepeats(pages)
  {
    hide GoodCodec, Session, Precedes;
    if KeepsPlace(order, births) {
      forall m, a: Args, view, requests, pages | a.order == order && Session(codec, m, a, view, births, requests, pages)
        ensures NoRepeats(pages)
      {
        NothingRepeats(codec, m, a, view, births, requests, pages);
      }
    } else {
      var x, y :| x in births && y in births && Precedes(order, Born(births, x), Born(births, y)) && births[x] % 1000 != 0;
      var m := Matcher((_, _) => false, (_, _) => false);
      var requests, pages := OldestNeverEnds(codec, m, births, x, y, 2);
      assert Bare(births, x) in pages[0].data && Bare(births, x) in pages[1].data;
    }
  }

  /** They are no longer than one page for each record and a last one exactly there. */
  lemma EndsExactly(codec: Codec, order: RecordOrder, births: Births)
    requires GoodCodec(codec)
    ensures KeepsPlace(order, births) <==>
              forall m, a: Args, view, requests, pages ::
                a.order == order && Session(codec, m, a, view, births, requests, pages) ==> |pages| <= |births.Keys| + 1
  {
    hide GoodCodec, Session, Precedes;
    if KeepsPlace(order, births) {
      forall m, a: Args, view, requests, pages | a.order == order && Session(codec, m, a, view, births, requests, pages)
        ensures |pages| <= |births.Keys| + 1
      {
        WalkTerminates(codec, m, a, view, births, requests, pages);
      }
    } else {
      var x, y :| x in births && y in births && Precedes(order, Born(births, x), Born(births, y)) && births[x] % 1000 != 0;
      var m := Matcher((_, _) => false, (_, _) => false);
      var requests, pages := OldestNeverEnds(codec, m, births, x, y, |births.Keys| + 2);
    }
  }

  /** Finished ones return every record present throughout exactly where the cursor loses nothing. */
  lemma SkipsExactly(codec: Codec, order: RecordOrder, births: Births)
    requires GoodCodec(codec)
    ensures LosesNothing(order, births) <==>
              forall m, a: Args, view, requests, pages ::
                a.order == order && Session(codec, m, a, view, births, requests, pages) && Finished(pages) ==>
                  NoneSkipped(m, a, view, requests, pages)
  {
    hide GoodCodec, Session, Precedes, Throughout, Returned;
    if LosesNothing(order, births) {
      forall m, a: Args, view, requests, pages
        | a.order == order && Session(codec, m, a, view, births, requests, pages) && Finished(pages)
        ensures NoneSkipped(m, a, view, requests, pages)
      {
        NothingIsSkipped(codec, m, a, view, births, requests, pages);
      }
    } else {
      var x, y :| x in births && y in births && Precedes(order, Born(births, x), Born(births, y))
                  && births[x] / 1000 == births[y] / 1000 && births[x] % 1000 != 0
                  && !(births[y] % 1000 == 0 && TextLess(y, x));
      var m := Matcher((_, _) => false, (_, _) => false);
      var requests, pages := NewestSkips(codec, m, births, x, y);
    }
  }
}
