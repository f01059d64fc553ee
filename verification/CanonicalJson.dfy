/**
 The canonical printer, used as an equality test on JSON values, and the proof
 that it decides equality up to key order.
 */
module CanonicalJson {

  function PowerOfTwo(k: nat): (p: int)
    ensures p > 0
  {
    if k == 0 then 1 else 2 * PowerOfTwo(k - 1)
  }

  predicate IsFraction(x: real, m: int, k: nat) {
    x == m as real / PowerOfTwo(k) as real
  }

  /** The finite numbers JavaScript has are binary fractions. */
  type Number = x: real | exists m: int, k: nat :: IsFraction(x, m, k)
    ghost witness assert IsFraction(0.0, 0, 0); 0.0

  /** A JSON value as the program holds it: an object is its entries in insertion order. */
  datatype Json =
    | JUndefined
    | JNull
    | JBool(b: bool)
    | JNum(n: Number)
    | JStr(s: string)
    | JList(items: seq<Json>)
    | JObj(entries: seq<Entry>)

  datatype Entry = Entry(key: string, value: Json)

  /** How numbers print, and the order `localeCompare` gives keys. */
  datatype Rules = Rules(numeral: Number -> string, less: (string, string) -> bool)

  // ------------------------------------------------------------ the printer

  function Hex(n: nat): (c: char)
    requires n < 16
    ensures c !in "\"\\"
    ensures c as int == if n < 10 then 48 + n else 87 + n
  {
    if n < 10 then (48 + n) as char else (87 + n) as char
  }

  /** The letter after the backslash, or a space for characters without a short escape. */
  function ShortEscape(c: char): char {
    if c == '"' || c == '\\' then c
    else if c == '\U{8}' then 'b'
    else if c == '\U{C}' then 'f'
    else if c == '\n' then 'n'
    else if c == '\r' then 'r'
    else if c == '\t' then 't'
    else ' '
  }

  /** JSON string escaping, as in section 7 of RFC 8259. */
  function Escape(c: char): (s: string)
    ensures s != "" && s[0] != '"'
  {
    if ShortEscape(c) != ' ' then ['\\', ShortEscape(c)]
    else if c < ' ' then ['\\', 'u', '0', '0', Hex(c as int / 16), Hex(c as int % 16)]
    else [c]
  }

  function EscapeAll(s: string): string {
    if s == "" then "" else Escape(s[0]) + EscapeAll(s[1..])
  }

  function Quote(s: string): string {
    "\"" + EscapeAll(s) + "\""
  }

  function Join(parts: seq<string>): string {
    if parts == [] then ""
    else if |parts| == 1 then parts[0]
    else parts[0] + "," + Join(parts[1..])
  }

  datatype Printed = Printed(key: string, text: string)

  /** Stable insertion by key. */
  function Insert(less: (string, string) -> bool, x: Printed, sorted: seq<Printed>): seq<Printed> {
    if sorted == [] then [x]
    else if less(x.key, sorted[0].key) then [x] + sorted
    else [sorted[0]] + Insert(less, x, sorted[1..])
  }

  function Sort(less: (string, string) -> bool, xs: seq<Printed>): seq<Printed> {
    if xs == [] then [] else Insert(less, xs[|xs| - 1], Sort(less, xs[..|xs| - 1]))
  }

  function PairTexts(ps: seq<Printed>): seq<string> {
    if ps == [] then [] else [Quote(ps[0].key) + ":" + ps[0].text] + PairTexts(ps[1..])
  }

  /** The text of a value; `join` gives an undefined list element no text at all. */
  function Text(rules: Rules, v: Json): string
    decreases v, 1
  {
    match v
    case JUndefined => ""
    case JNull => "null"
    case JBool(b) => if b then "true" else "false"
    case JNum(n) => rules.numeral(n)
    case JStr(s) => Quote(s)
    case JList(items) => "[" + Join(Texts(rules, items)) + "]"
    case JObj(entries) => "{" + Join(PairTexts(Sort(rules.less, DefinedTexts(rules, entries)))) + "}"
  }

  function Texts(rules: Rules, items: seq<Json>): (texts: seq<string>)
    ensures |texts| == |items|
    decreases items, 0
  {
    if items == [] then [] else [Text(rules, items[0])] + Texts(rules, items[1..])
  }

  /** The entries that are not undefined, printed. */
  function DefinedTexts(rules: Rules, entries: seq<Entry>): seq<Printed>
    decreases entries, 0
  {
    if entries == [] then []
    else (if entries[0].value == JUndefined then [] else [Printed(entries[0].key, Text(rules, entries[0].value))])
         + DefinedTexts(rules, entries[1..])
  }

  datatype Canon = NoText | Canon(text: string)

  function Canonical(rules: Rules, v: Json): Canon {
    if v == JUndefined then NoText else Canon(Text(rules, v))
  }

  // ------------------------------------------------------------ the meaning

  /** A value up to key order and dropped undefined entries. */
  datatype Meaning =
    | MUndefined
    | MNull
    | MBool(b: bool)
    | MNum(n: Number)
    | MStr(s: string)
    | MList(items: seq<Meaning>)
    | MObj(props: map<string, Meaning>)

  /** The one list the printer cannot tell from an empty one holds a single undefined. */
  function Mean(v: Json): Meaning
    decreases v, 1
  {
    match v
    case JUndefined => MUndefined
    case JNull => MNull
    case JBool(b) => MBool(b)
    case JNum(n) => MNum(n)
    case JStr(s) => MStr(s)
    case JList(items) => if items == [JUndefined] then MList([]) else MList(Means(items))
    case JObj(entries) => MObj(MeanEntries(entries))
  }

  function Means(items: seq<Json>): (ms: seq<Meaning>)
    ensures |ms| == |items|
    decreases items, 0
  {
    if items == [] then [] else [Mean(items[0])] + Means(items[1..])
  }

  function MeanEntries(entries: seq<Entry>): map<string, Meaning>
    decreases entries, 0
  {
    if entries == [] then map[]
    else MeanEntries(entries[1..])
         + if entries[0].value == JUndefined then map[] else map[entries[0].key := Mean(entries[0].value)]
  }

  /** No object repeats a key, which a JavaScript object cannot. */
  predicate WellFormed(v: Json) {
    match v
    case JList(items) => forall x :: x in items ==> WellFormed(x)
    case JObj(entries) =>
      DistinctKeys(entries) && forall e :: e in entries ==> WellFormed(e.value)
    case _ => true
  }

  predicate DistinctKeys(entries: seq<Entry>) {
    forall i, j :: 0 <= i < j < |entries| ==> entries[i].key != entries[j].key
  }

  // ---------------------------------------------------------- assumptions

  predicate NumeralChar(c: char) {
    c in "0123456789+-.e"
  }

  /** Numbers print as distinct nonempty numerals. */
  ghost predicate GoodNumerals(numeral: Number -> string) {
    && (forall x :: numeral(x) != "")
    && (forall x, i | 0 <= i < |numeral(x)| :: NumeralChar(numeral(x)[i]))
    && (forall x, y :: numeral(x) == numeral(y) ==> x == y)
  }

  /** No two distinct keys tie. */
  ghost predicate TotalKeys(less: (string, string) -> bool) {
    && (forall a :: !less(a, a))
    && (forall a, b, c :: less(a, b) && less(b, c) ==> less(a, c))
    && (forall a, b :: a == b || less(a, b) || less(b, a))
  }

  ghost predicate GoodRules(rules: Rules) {
    GoodNumerals(rules.numeral) && TotalKeys(rules.less)
  }

  // ------------------------------------------------ finding where a text ends

  /**
   How many characters come before the first comma or closing bracket at depth
   zero outside a string. `quoted` says whether the scan starts inside a string.
   */
  function Cut(s: string, depth: nat, quoted: bool): nat
    decreases |s|
  {
    if s == "" then 0
    else if quoted then
      if s[0] == '\\' && |s| >= 2 then 2 + Cut(s[2..], depth, true)
      else 1 + Cut(s[1..], depth, s[0] != '"')
    else if s[0] == '"' then 1 + Cut(s[1..], depth, true)
    else if s[0] == '[' || s[0] == '{' then 1 + Cut(s[1..], depth + 1, false)
    else if s[0] == ']' || s[0] == '}' then if depth == 0 then 0 else 1 + Cut(s[1..], depth - 1, false)
    else if s[0] == ',' && depth == 0 then 0
    else 1 + Cut(s[1..], depth, false)
  }

  /** A scan runs over `x` without stopping, at any depth and whatever follows. */
  ghost predicate Closed(x: string) {
    forall r: string, d: nat :: Cut(x + r, d, false) == |x| + Cut(r, d, false)
  }

  predicate Plain(c: char) {
    c !in "\"\\[]{},"
  }

  lemma {:induction false} PlainClosed(x: string)
    requires forall c :: c in x ==> Plain(c)
    ensures Closed(x)
  {
    forall r: string, d: nat ensures Cut(x + r, d, false) == |x| + Cut(r, d, false) {
      if x == "" {
        assert x + r == r;
      } else {
        PlainClosed(x[1..]);
        assert x[0] in x;
        assert (x + r)[1..] == x[1..] + r;
      }
    }
  }

  lemma ConcatClosed(x: string, y: string)
    requires Closed(x) && Closed(y)
    ensures Closed(x + y)
  {
    forall r: string, d: nat ensures Cut(x + y + r, d, false) == |x + y| + Cut(r, d, false) {
      assert x + y + r == x + (y + r);
    }
  }

  lemma PlainSkips(c: char, r: string, d: nat)
    requires c != '"' && c != '\\'
    ensures Cut([c] + r, d, true) == 1 + Cut(r, d, true)
  {
    assert ([c] + r)[1..] == r;
  }

  lemma EscapeSkips(c: char, r: string, d: nat)
    ensures Cut(Escape(c) + r, d, true) == |Escape(c)| + Cut(r, d, true)
  {
    if ShortEscape(c) != ' ' {
      assert (Escape(c) + r)[2..] == r;
    } else if c < ' ' {
      var (hi, lo) := (Hex(c as int / 16), Hex(c as int % 16));
      var (r1, r2, r3) := ([lo] + r, [hi] + ([lo] + r), ['0'] + ([hi] + ([lo] + r)));
      PlainSkips(lo, r, d);
      PlainSkips(hi, r1, d);
      PlainSkips('0', r2, d);
      PlainSkips('0', r3, d);
      assert (Escape(c) + r)[2..] == ['0'] + r3;
    } else {
      PlainSkips(c, r, d);
    }
  }

  lemma {:induction false} EscapeAllSkips(s: string, r: string, d: nat)
    ensures Cut(EscapeAll(s) + r, d, true) == |EscapeAll(s)| + Cut(r, d, true)
  {
    hide Escape, Cut;
    if s == "" {
      assert EscapeAll(s) + r == r;
    } else {
      EscapeAllSkips(s[1..], r, d);
      EscapeSkips(s[0], EscapeAll(s[1..]) + r, d);
      assert EscapeAll(s) + r == Escape(s[0]) + (EscapeAll(s[1..]) + r);
    }
  }

  lemma QuoteClosed(s: string)
    ensures Closed(Quote(s))
  {
    hide EscapeAll;
    forall r: string, d: nat ensures Cut(Quote(s) + r, d, false) == |Quote(s)| + Cut(r, d, false) {
      EscapeAllSkips(s, "\"" + r, d);
      assert (Quote(s) + r)[1..] == EscapeAll(s) + ("\"" + r);
      assert ("\"" + r)[1..] == r;
    }
  }

  lemma {:induction false} JoinSkips(parts: seq<string>, r: string, d: nat)
    requires forall p :: p in parts ==> Closed(p)
    requires d >= 1
    ensures Cut(Join(parts) + r, d, false) == |Join(parts)| + Cut(r, d, false)
  {
    if parts == [] {
      assert Join(parts) + r == r;
    } else if |parts| > 1 {
      JoinSkips(parts[1..], r, d);
      var rest := Join(parts[1..]) + r;
      assert Join(parts) + r == parts[0] + ("," + rest);
      assert ("," + rest)[1..] == rest;
      assert parts[0] in parts;
    } else {
      assert parts[0] in parts;
    }
  }

  lemma BracketsClosed(open: char, parts: seq<string>, close: char)
    requires (open == '[' && close == ']') || (open == '{' && close == '}')
    requires forall p :: p in parts ==> Closed(p)
    ensures Closed([open] + Join(parts) + [close])
  {
    var x := [open] + Join(parts) + [close];
    forall r: string, d: nat ensures Cut(x + r, d, false) == |x| + Cut(r, d, false) {
      JoinSkips(parts, [close] + r, d + 1);
      assert (x + r)[1..] == Join(parts) + ([close] + r);
      assert ([close] + r)[1..] == r;
    }
  }

  lemma {:induction false} PairTextsClosed(ps: seq<Printed>)
    requires forall p :: p in ps ==> Closed(p.text)
    ensures forall t :: t in PairTexts(ps) ==> Closed(t)
  {
    if ps != [] {
      PairTextsClosed(ps[1..]);
      QuoteClosed(ps[0].key);
      PlainClosed(":");
      ConcatClosed(Quote(ps[0].key), ":");
      ConcatClosed(Quote(ps[0].key) + ":", ps[0].text);
    }
  }

  lemma {:induction false} TextClosed(rules: Rules, v: Json)
    requires GoodRules(rules)
    ensures Closed(Text(rules, v))
    decreases v, 1
  {
    hide Closed, Sort, Join, Quote, DefinedTexts, Texts, PairTexts;
    match v {
      case JUndefined => PlainClosed("");
      case JNull => PlainClosed("null");
      case JBool(b) => PlainClosed(if b then "true" else "false");
      case JNum(n) =>
        forall c | c in rules.numeral(n) ensures Plain(c) {
          assert NumeralChar(c);
        }
        PlainClosed(rules.numeral(n));
      case JStr(s) => QuoteClosed(s);
      case JList(items) =>
        TextsClosed(rules, items);
        BracketsClosed('[', Texts(rules, items), ']');
      case JObj(entries) =>
        DefinedTextsClosed(rules, entries);
        var sorted := Sort(rules.less, DefinedTexts(rules, entries));
        SortKeeps(rules.less, DefinedTexts(rules, entries));
        PairTextsClosed(sorted);
        BracketsClosed('{', PairTexts(sorted), '}');
    }
  }

  lemma {:induction false} TextsClosed(rules: Rules, items: seq<Json>)
    requires GoodRules(rules)
    ensures forall t :: t in Texts(rules, items) ==> Closed(t)
    decreases items, 0
  {
    hide Closed;
    if items != [] {
      TextClosed(rules, items[0]);
      TextsClosed(rules, items[1..]);
    }
  }

  lemma {:induction false} DefinedTextsClosed(rules: Rules, entries: seq<Entry>)
    requires GoodRules(rules)
    ensures forall p :: p in DefinedTexts(rules, entries) ==> Closed(p.text)
    decreases entries, 0
  {
    hide Closed;
    if entries != [] {
      TextClosed(rules, entries[0].value);
      DefinedTextsClosed(rules, entries[1..]);
    }
  }

  // ------------------------------------------------------- unambiguity

  lemma EscapeInjective(c: char, d: char)
    requires Escape(c) == Escape(d)
    ensures c == d
  {
    if ShortEscape(c) == ' ' && c < ' ' {
      assert Escape(c)[4] == Escape(d)[4] && Escape(c)[5] == Escape(d)[5];
    } else {
      assert Escape(c)[|Escape(c)| - 1] == Escape(d)[|Escape(d)| - 1];
    }
  }

  lemma EscapePrefix(c: char, d: char, x: string, y: string)
    requires Escape(c) + x == Escape(d) + y
    ensures c == d && x == y
  {
    var (e, f) := (Escape(c), Escape(d));
    assert |e| == |f| by {
      assert e[0] == (e + x)[0] && f[0] == (f + y)[0];
      if e[0] == '\\' {
        assert e[1] == (e + x)[1] && f[1] == (f + y)[1];
      }
    }
    hide Escape;
    assert e == (e + x)[..|e|] && f == (f + y)[..|f|];
    assert x == (e + x)[|e|..] && y == (f + y)[|f|..];
    EscapeInjective(c, d);
  }

  lemma QuotedStart(s: string, x: string)
    ensures (EscapeAll(s) + ("\"" + x))[0] == '"' <==> s == ""
  {
    if s != "" {
      assert (EscapeAll(s) + ("\"" + x))[0] == Escape(s[0])[0];
    }
  }

  lemma {:induction false} EscapeAllPrefix(s: string, t: string, x: string, y: string)
    requires EscapeAll(s) + ("\"" + x) == EscapeAll(t) + ("\"" + y)
    ensures s == t && x == y
  {
    hide Escape;
    var (l, r) := (EscapeAll(s) + ("\"" + x), EscapeAll(t) + ("\"" + y));
    QuotedStart(s, x);
    QuotedStart(t, y);
    if s == "" {
      assert x == l[1..] && y == r[1..];
    } else {
      var (restS, restT) := (EscapeAll(s[1..]) + ("\"" + x), EscapeAll(t[1..]) + ("\"" + y));
      assert l == Escape(s[0]) + restS && r == Escape(t[0]) + restT;
      EscapePrefix(s[0], t[0], restS, restT);
      EscapeAllPrefix(s[1..], t[1..], x, y);
      assert s == [s[0]] + s[1..] && t == [t[0]] + t[1..];
    }
  }

  lemma QuotePrefix(s: string, t: string, x: string, y: string)
    requires Quote(s) + x == Quote(t) + y
    ensures s == t && x == y
  {
    hide EscapeAll;
    assert (Quote(s) + x)[1..] == EscapeAll(s) + ("\"" + x);
    assert (Quote(t) + y)[1..] == EscapeAll(t) + ("\"" + y);
    EscapeAllPrefix(s, t, x, y);
  }

  /** A closed text followed by a comma, or by nothing, ends where the scan says. */
  lemma FirstPart(parts: seq<string>)
    requires parts != [] && Closed(parts[0])
    ensures Cut(Join(parts), 0, false) == |parts[0]|
    ensures parts[0] == Join(parts)[..|parts[0]|]
  {
    if |parts| == 1 {
      assert parts[0] + "" == parts[0];
    } else {
      assert Join(parts) == parts[0] + ("," + Join(parts[1..]));
    }
  }

  /** Joined closed texts split one way only, but for the empty list and one empty part. */
  lemma {:induction false} JoinInjective(xs: seq<string>, ys: seq<string>)
    requires forall x :: x in xs ==> Closed(x)
    requires forall y :: y in ys ==> Closed(y)
    requires xs != [] && ys != []
    requires Join(xs) == Join(ys)
    ensures xs == ys
  {
    hide Closed;
    assert xs[0] in xs && ys[0] in ys;
    FirstPart(xs);
    FirstPart(ys);
    assert xs[0] == ys[0];
    if |xs| > 1 || |ys| > 1 {
      var n := |xs[0]|;
      assert |xs| > 1 ==> Join(xs) == xs[0] + "," + Join(xs[1..]);
      assert |ys| > 1 ==> Join(ys) == ys[0] + "," + Join(ys[1..]);
      assert |Join(xs)| > n;
      assert |xs| > 1 && |ys| > 1;
      assert Join(xs[1..]) == Join(xs)[n + 1..] == Join(ys[1..]);
      JoinInjective(xs[1..], ys[1..]);
    }
    assert xs == [xs[0]] + xs[1..] && ys == [ys[0]] + ys[1..];
  }

  lemma {:induction false} PairTextsInjective(ps: seq<Printed>, qs: seq<Printed>)
    requires PairTexts(ps) == PairTexts(qs)
    ensures ps == qs
  {
    if ps != [] && qs != [] {
      var (p, q) := (ps[0], qs[0]);
      assert PairTexts(ps)[0] == PairTexts(qs)[0];
      assert Quote(p.key) + (":" + p.text) == Quote(p.key) + ":" + p.text;
      assert Quote(q.key) + (":" + q.text) == Quote(q.key) + ":" + q.text;
      QuotePrefix(p.key, q.key, ":" + p.text, ":" + q.text);
      assert p.text == (":" + p.text)[1..] && q.text == (":" + q.text)[1..];
      assert PairTexts(ps)[1..] == PairTexts(ps[1..]) && PairTexts(qs)[1..] == PairTexts(qs[1..]);
      PairTextsInjective(ps[1..], qs[1..]);
      assert ps == [p] + ps[1..] && qs == [q] + qs[1..];
    } else {
      assert ps == [] <==> PairTexts(ps) == [];
      assert qs == [] <==> PairTexts(qs) == [];
    }
  }

  // ------------------------------------------------------------- sorting

  ghost predicate Sorted(less: (string, string) -> bool, xs: seq<Printed>) {
    forall i, j :: 0 <= i < j < |xs| ==> less(xs[i].key, xs[j].key)
  }

  lemma {:induction false} InsertKeeps(less: (string, string) -> bool, x: Printed, xs: seq<Printed>)
    ensures forall p :: p in Insert(less, x, xs) <==> p == x || p in xs
  {
    if xs != [] {
      InsertKeeps(less, x, xs[1..]);
      assert xs == [xs[0]] + xs[1..];
    }
  }

  lemma {:induction false} SortKeeps(less: (string, string) -> bool, xs: seq<Printed>)
    ensures forall p :: p in Sort(less, xs) <==> p in xs
  {
    if xs != [] {
      var (init, last) := (xs[..|xs| - 1], xs[|xs| - 1]);
      SortKeeps(less, init);
      InsertKeeps(less, last, Sort(less, init));
      assert xs == init + [last];
    }
  }

  lemma {:induction false} InsertSorts(less: (string, string) -> bool, x: Printed, xs: seq<Printed>)
    requires TotalKeys(less) && Sorted(less, xs)
    requires forall p :: p in xs ==> p.key != x.key
    ensures Sorted(less, Insert(less, x, xs))
  {
    if xs != [] && !less(x.key, xs[0].key) {
      assert forall i :: 0 <= i < |xs[1..]| ==> xs[1..][i] == xs[i + 1];
      InsertSorts(less, x, xs[1..]);
      InsertKeeps(less, x, xs[1..]);
      var rest := Insert(less, x, xs[1..]);
      forall j | 0 <= j < |rest| ensures less(xs[0].key, rest[j].key) {
        assert rest[j] in rest;
        assert xs[0] in xs;
      }
    }
  }

  ghost predicate DistinctPrinted(xs: seq<Printed>) {
    forall i, j :: 0 <= i < j < |xs| ==> xs[i].key != xs[j].key
  }

  lemma {:induction false} SortSorts(less: (string, string) -> bool, xs: seq<Printed>)
    requires TotalKeys(less) && DistinctPrinted(xs)
    ensures Sorted(less, Sort(less, xs))
  {
    if xs != [] {
      var (init, last) := (xs[..|xs| - 1], xs[|xs| - 1]);
      SortSorts(less, init);
      SortKeeps(less, init);
      InsertSorts(less, last, Sort(less, init));
    }
  }

  lemma SameEmptiness(xs: seq<Printed>, ys: seq<Printed>)
    requires forall p :: p in xs <==> p in ys
    ensures xs == [] <==> ys == []
  {
    if xs != [] {
      assert xs[0] in xs;
    }
    if ys != [] {
      assert ys[0] in ys;
    }
  }

  /** Sorted lists with the same members are the same list. */
  lemma {:induction false} SortedUnique(less: (string, string) -> bool, xs: seq<Printed>, ys: seq<Printed>)
    requires TotalKeys(less) && Sorted(less, xs) && Sorted(less, ys)
    requires forall p :: p in xs <==> p in ys
    ensures xs == ys
  {
    SameEmptiness(xs, ys);
    if xs != [] {
      assert xs[0] in ys && ys[0] in xs;
      assert xs[0] == ys[0];
      assert xs == [xs[0]] + xs[1..] && ys == [ys[0]] + ys[1..];
      forall p ensures p in xs[1..] <==> p in ys[1..] {
        assert p in xs[1..] ==> less(xs[0].key, p.key);
        assert p in ys[1..] ==> less(ys[0].key, p.key);
        assert p in xs[1..] <==> p in xs && p != xs[0];
        assert p in ys[1..] <==> p in ys && p != ys[0];
      }
      SortedUnique(less, xs[1..], ys[1..]);
      assert xs == [xs[0]] + xs[1..] && ys == [ys[0]] + ys[1..];
    }
  }

  // ------------------------------------------------- objects and their texts

  /** The printed entries are those of the defined entries. */
  lemma {:induction false} DefinedTextsAre(rules: Rules, entries: seq<Entry>, p: Printed)
    ensures p in DefinedTexts(rules, entries) <==>
              exists e :: e in entries && e.value != JUndefined && p == Printed(e.key, Text(rules, e.value))
  {
    if entries != [] {
      DefinedTextsAre(rules, entries[1..], p);
      assert entries == [entries[0]] + entries[1..];
    }
  }

  lemma {:induction false} DefinedTextsDistinct(rules: Rules, entries: seq<Entry>)
    requires DistinctKeys(entries)
    ensures DistinctPrinted(DefinedTexts(rules, entries))
  {
    if entries != [] {
      DefinedTextsDistinct(rules, entries[1..]);
      var rest := DefinedTexts(rules, entries[1..]);
      forall j | 0 <= j < |rest| ensures rest[j].key != entries[0].key {
        DefinedTextsAre(rules, entries[1..], rest[j]);
        assert rest[j] in rest;
      }
    }
  }

  /** What an object means at each key, entry by entry. */
  lemma {:induction false} MeanEntriesAre(entries: seq<Entry>, k: string)
    requires DistinctKeys(entries)
    ensures k in MeanEntries(entries) <==> exists e :: e in entries && e.key == k && e.value != JUndefined
    ensures forall e :: e in entries && e.key == k && e.value != JUndefined ==> MeanEntries(entries)[k] == Mean(e.value)
  {
    if entries != [] {
      MeanEntriesAre(entries[1..], k);
      assert entries == [entries[0]] + entries[1..];
    }
  }

  // ---------------------------------------------------------- the theorem

  lemma {:induction false} TextKinds(rules: Rules, v: Json)
    requires GoodRules(rules)
    ensures Text(rules, v) == "" <==> v == JUndefined
    ensures v.JNum? ==> NumeralChar(Text(rules, v)[0])
    ensures v.JStr? ==> Text(rules, v)[0] == '"'
    ensures v.JList? ==> Text(rules, v)[0] == '['
    ensures v.JObj? ==> Text(rules, v)[0] == '{'
  {
  }

  lemma {:induction false} ListTextsEqual(rules: Rules, xs: seq<Json>, ys: seq<Json>)
    requires GoodRules(rules)
    requires Text(rules, JList(xs)) == Text(rules, JList(ys))
    ensures Texts(rules, xs) == Texts(rules, ys) || (xs in {[], [JUndefined]} && ys in {[], [JUndefined]})
  {
    hide GoodRules, Closed, Cut;
    var (a, b) := (Texts(rules, xs), Texts(rules, ys));
    assert Join(a) == Text(rules, JList(xs))[1..|Text(rules, JList(xs))| - 1];
    assert Join(b) == Text(rules, JList(ys))[1..|Text(rules, JList(ys))| - 1];
    TextsClosed(rules, xs);
    TextsClosed(rules, ys);
    if a != [] && b != [] {
      JoinInjective(a, b);
    } else {
      EmptyJoin(rules, xs);
      EmptyJoin(rules, ys);
    }
  }

  lemma EmptyJoin(rules: Rules, xs: seq<Json>)
    requires GoodRules(rules)
    ensures Join(Texts(rules, xs)) == "" <==> xs == [] || xs == [JUndefined]
  {
    if |xs| == 1 {
      TextKinds(rules, xs[0]);
      assert xs == [xs[0]];
    }
  }

  lemma {:induction false} ObjectTextsEqual(rules: Rules, es: seq<Entry>, fs: seq<Entry>)
    requires GoodRules(rules)
    requires Text(rules, JObj(es)) == Text(rules, JObj(fs))
    ensures forall p :: p in DefinedTexts(rules, es) <==> p in DefinedTexts(rules, fs)
  {
    hide GoodRules, Closed, Cut, Sort, PairTexts, DefinedTexts;
    var (a, b) := (Sort(rules.less, DefinedTexts(rules, es)), Sort(rules.less, DefinedTexts(rules, fs)));
    var (x, y) := (PairTexts(a), PairTexts(b));
    assert Join(x) == Text(rules, JObj(es))[1..|Text(rules, JObj(es))| - 1];
    assert Join(y) == Text(rules, JObj(fs))[1..|Text(rules, JObj(fs))| - 1];
    SortKeeps(rules.less, DefinedTexts(rules, es));
    SortKeeps(rules.less, DefinedTexts(rules, fs));
    DefinedTextsClosed(rules, es);
    DefinedTextsClosed(rules, fs);
    PairTextsClosed(a);
    PairTextsClosed(b);
    PairTextsNonempty(a);
    PairTextsNonempty(b);
    if x != [] && y != [] {
      JoinInjective(x, y);
    }
    PairTextsInjective(a, b);
  }

  lemma PairTextsNonempty(ps: seq<Printed>)
    ensures Join(PairTexts(ps)) == "" <==> PairTexts(ps) == []
  {
  }

  /** Equal texts mean equal values. */
  lemma {:induction false} TextDecides(rules: Rules, v: Json, w: Json)
    requires GoodRules(rules) && WellFormed(v) && WellFormed(w)
    requires Text(rules, v) == Text(rules, w)
    ensures Mean(v) == Mean(w)
    decreases v, 1
  {
    hide GoodRules, Texts, DefinedTexts, Join, Sort, PairTexts, Means, MeanEntries;
    TextKinds(rules, v);
    TextKinds(rules, w);
    match v {
      case JList(xs) =>
        ListTextsEqual(rules, xs, w.items);
        if Texts(rules, xs) == Texts(rules, w.items) {
          TextsDecide(rules, xs, w.items);
          OnlyUndefinedPrintsNothing(rules, xs, w.items);
        } else {
          assert Means([]) == [];
        }
      case JObj(es) =>
        ObjectTextsEqual(rules, es, w.entries);
        EntriesDecide(rules, es, w.entries);
        ObjectsMeet(rules, es, w.entries);
      case JStr(s) =>
        assert Quote(s) + "" == Quote(s) && Quote(w.s) + "" == Quote(w.s);
        QuotePrefix(s, w.s, "", "");
      case JNum(_) =>
        assert GoodNumerals(rules.numeral) by { NumeralsOf(rules); }
      case _ =>
    }
  }

  lemma NumeralsOf(rules: Rules)
    requires GoodRules(rules)
    ensures GoodNumerals(rules.numeral)
  {
  }

  lemma OnlyUndefinedPrintsNothing(rules: Rules, xs: seq<Json>, ys: seq<Json>)
    requires GoodRules(rules) && Texts(rules, xs) == Texts(rules, ys)
    ensures xs == [JUndefined] <==> ys == [JUndefined]
  {
    hide Text, GoodRules;
    assert |xs| == |ys|;
    if |xs| == 1 {
      assert Texts(rules, xs)[0] == Texts(rules, ys)[0];
      TextKinds(rules, xs[0]);
      TextKinds(rules, ys[0]);
      assert xs == [xs[0]] && ys == [ys[0]];
    }
  }

  lemma {:induction false} TextsDecide(rules: Rules, xs: seq<Json>, ys: seq<Json>)
    requires GoodRules(rules)
    requires forall x :: x in xs ==> WellFormed(x)
    requires forall y :: y in ys ==> WellFormed(y)
    requires Texts(rules, xs) == Texts(rules, ys)
    ensures Means(xs) == Means(ys)
    decreases xs, 0
  {
    hide GoodRules, Text, WellFormed, Mean;
    assert |xs| == |ys|;
    if xs != [] {
      assert xs[0] in xs && ys[0] in ys;
      assert Texts(rules, xs)[0] == Texts(rules, ys)[0];
      assert Texts(rules, xs)[1..] == Texts(rules, xs[1..]) && Texts(rules, ys)[1..] == Texts(rules, ys[1..]);
      TextDecides(rules, xs[0], ys[0]);
      TextsDecide(rules, xs[1..], ys[1..]);
    }
  }

  /** Entries of `part` and `fs` that print alike mean alike. */
  lemma {:induction false} EntriesDecide(rules: Rules, part: seq<Entry>, fs: seq<Entry>)
    requires GoodRules(rules)
    requires forall e :: e in part ==> WellFormed(e.value)
    requires forall f :: f in fs ==> WellFormed(f.value)
    ensures forall e, f :: e in part && f in fs && Text(rules, e.value) == Text(rules, f.value) ==>
                             Mean(e.value) == Mean(f.value)
    decreases part, 0
  {
    hide GoodRules, WellFormed, Mean, Text;
    if part != [] {
      EntriesDecide(rules, part[1..], fs);
      assert part[0] in part;
      forall f | f in fs && Text(rules, part[0].value) == Text(rules, f.value)
        ensures Mean(part[0].value) == Mean(f.value)
      {
        TextDecides(rules, part[0].value, f.value);
      }
      assert part == [part[0]] + part[1..];
    }
  }

  lemma ObjectsMeet(rules: Rules, es: seq<Entry>, fs: seq<Entry>)
    requires DistinctKeys(es) && DistinctKeys(fs)
    requires forall p :: p in DefinedTexts(rules, es) <==> p in DefinedTexts(rules, fs)
    requires forall e, f :: e in es && f in fs && Text(rules, e.value) == Text(rules, f.value) ==>
                              Mean(e.value) == Mean(f.value)
    ensures MeanEntries(es) == MeanEntries(fs)
  {
    hide Text, Mean, DefinedTexts, MeanEntries;
    forall k
      ensures k in MeanEntries(es) <==> k in MeanEntries(fs)
      ensures k in MeanEntries(es) ==> MeanEntries(es)[k] == MeanEntries(fs)[k]
    {
      MeanEntriesAre(es, k);
      MeanEntriesAre(fs, k);
      if e :| e in es && e.key == k && e.value != JUndefined {
        var p := Printed(k, Text(rules, e.value));
        DefinedTextsAre(rules, es, p);
        DefinedTextsAre(rules, fs, p);
      }
      if f :| f in fs && f.key == k && f.value != JUndefined {
        var p := Printed(k, Text(rules, f.value));
        DefinedTextsAre(rules, es, p);
        DefinedTextsAre(rules, fs, p);
      }
    }
  }

  /** Equal values have equal texts. */
  lemma {:induction false} MeaningPrints(rules: Rules, v: Json, w: Json)
    requires GoodRules(rules) && WellFormed(v) && WellFormed(w)
    requires Mean(v) == Mean(w)
    ensures Text(rules, v) == Text(rules, w)
    decreases v, 1
  {
    hide GoodRules, DefinedTexts, Sort, PairTexts, MeanEntries, Join;
    match v {
      case JList(xs) =>
        var ys := w.items;
        if xs == [JUndefined] || ys == [JUndefined] {
          SingleHole(rules, xs);
          SingleHole(rules, ys);
        } else {
          MeaningsPrint(rules, xs, ys);
        }
      case JObj(es) =>
        EntriesPrint(rules, es, w.entries);
        ObjectsPrint(rules, es, w.entries);
      case _ =>
    }
  }

  lemma SingleHole(rules: Rules, xs: seq<Json>)
    requires GoodRules(rules)
    ensures Mean(JList(xs)) == MList([]) ==> Join(Texts(rules, xs)) == ""
  {
    EmptyJoin(rules, xs);
  }

  lemma {:induction false} MeaningsPrint(rules: Rules, xs: seq<Json>, ys: seq<Json>)
    requires GoodRules(rules)
    requires forall x :: x in xs ==> WellFormed(x)
    requires forall y :: y in ys ==> WellFormed(y)
    requires Means(xs) == Means(ys)
    ensures Texts(rules, xs) == Texts(rules, ys)
    decreases xs, 0
  {
    hide GoodRules, Text, WellFormed, Mean;
    assert |xs| == |ys|;
    if xs != [] {
      assert xs[0] in xs && ys[0] in ys;
      assert Means(xs)[0] == Means(ys)[0];
      assert Means(xs)[1..] == Means(xs[1..]) && Means(ys)[1..] == Means(ys[1..]);
      MeaningPrints(rules, xs[0], ys[0]);
      MeaningsPrint(rules, xs[1..], ys[1..]);
    }
  }

  lemma {:induction false} EntriesPrint(rules: Rules, part: seq<Entry>, fs: seq<Entry>)
    requires GoodRules(rules)
    requires forall e :: e in part ==> WellFormed(e.value)
    requires forall f :: f in fs ==> WellFormed(f.value)
    ensures forall e, f :: e in part && f in fs && Mean(e.value) == Mean(f.value) ==>
                             Text(rules, e.value) == Text(rules, f.value)
    decreases part, 0
  {
    hide GoodRules, WellFormed, Mean, Text;
    if part != [] {
      EntriesPrint(rules, part[1..], fs);
      assert part[0] in part;
      forall f | f in fs && Mean(part[0].value) == Mean(f.value)
        ensures Text(rules, part[0].value) == Text(rules, f.value)
      {
        MeaningPrints(rules, part[0].value, f.value);
      }
      assert part == [part[0]] + part[1..];
    }
  }

  lemma ObjectsPrint(rules: Rules, es: seq<Entry>, fs: seq<Entry>)
    requires GoodRules(rules) && DistinctKeys(es) && DistinctKeys(fs)
    requires MeanEntries(es) == MeanEntries(fs)
    requires forall e, f :: e in es && f in fs && Mean(e.value) == Mean(f.value) ==>
                              Text(rules, e.value) == Text(rules, f.value)
    ensures Text(rules, JObj(es)) == Text(rules, JObj(fs))
  {
    hide Mean, DefinedTexts, MeanEntries, PairTexts, Join, Sort;
    var (a, b) := (DefinedTexts(rules, es), DefinedTexts(rules, fs));
    forall p ensures p in a <==> p in b {
      DefinedTextsAre(rules, es, p);
      DefinedTextsAre(rules, fs, p);
      MeanEntriesAre(es, p.key);
      MeanEntriesAre(fs, p.key);
    }
    DefinedTextsDistinct(rules, es);
    DefinedTextsDistinct(rules, fs);
    SortSorts(rules.less, a);
    SortSorts(rules.less, b);
    SortKeeps(rules.less, a);
    SortKeeps(rules.less, b);
    SortedUnique(rules.less, Sort(rules.less, a), Sort(rules.less, b));
  }

  /** `canonical` decides equality up to key order and dropped undefined entries. */
  lemma CanonicalDecides(rules: Rules, v: Json, w: Json)
    requires GoodRules(rules) && WellFormed(v) && WellFormed(w)
    ensures Canonical(rules, v) == Canonical(rules, w) <==> Mean(v) == Mean(w)
  {
    hide GoodRules, WellFormed;
    if Canonical(rules, v) == Canonical(rules, w) && v != JUndefined {
      TextDecides(rules, v, w);
    }
    if Mean(v) == Mean(w) {
      MeaningPrints(rules, v, w);
    }
  }

  /** Where two distinct keys tie, two orders of the same object print differently. */
  lemma TiedKeysSplit(rules: Rules, k: string, l: string)
    requires k != l && !rules.less(k, l) && !rules.less(l, k)
    ensures var v := JObj([Entry(k, JNull), Entry(l, JNull)]);
            var w := JObj([Entry(l, JNull), Entry(k, JNull)]);
            Mean(v) == Mean(w) && Canonical(rules, v) != Canonical(rules, w)
  {
    var (e, f) := (Entry(k, JNull), Entry(l, JNull));
    var (v, w) := (JObj([e, f]), JObj([f, e]));
    assert [e, f][1..] == [f] && [f, e][1..] == [e];
    assert MeanEntries([e, f]) == MeanEntries([f, e]);
    TiedText(rules, k, l);
    TiedText(rules, l, k);
    hide Text, Quote;
    var (tail, tail') := (":null," + Quote(l) + ":null}", ":null," + Quote(k) + ":null}");
    if Text(rules, v) == Text(rules, w) {
      assert Quote(k) + tail == Text(rules, v)[1..] == Text(rules, w)[1..] == Quote(l) + tail';
      QuotePrefix(k, l, tail, tail');
    }
  }

  ghost predicate StrictOrder(less: (string, string) -> bool) {
    (forall a :: !less(a, a)) && (forall a, b, c :: less(a, b) && less(b, c) ==> less(a, c))
  }

  /** Under a strict order of keys the printer decides equality exactly when no two distinct keys tie. */
  lemma DecidesExactly(rules: Rules)
    requires GoodNumerals(rules.numeral) && StrictOrder(rules.less)
    ensures TotalKeys(rules.less) <==>
              forall v, w :: WellFormed(v) && WellFormed(w) ==>
                (Canonical(rules, v) == Canonical(rules, w) <==> Mean(v) == Mean(w))
  {
    hide GoodNumerals, WellFormed, Mean, Canonical;
    if TotalKeys(rules.less) {
      forall v, w | WellFormed(v) && WellFormed(w) ensures Canonical(rules, v) == Canonical(rules, w) <==> Mean(v) == Mean(w) {
        CanonicalDecides(rules, v, w);
      }
    } else {
      var k, l :| k != l && !rules.less(k, l) && !rules.less(l, k);
      TiedKeysSplit(rules, k, l);
      TiedAreWellFormed(k, l);
      TiedAreWellFormed(l, k);
    }
  }

  lemma TiedAreWellFormed(k: string, l: string)
    requires k != l
    ensures WellFormed(JObj([Entry(k, JNull), Entry(l, JNull)]))
  {
  }

  lemma TiedText(rules: Rules, k: string, l: string)
    requires !rules.less(l, k)
    ensures Text(rules, JObj([Entry(k, JNull), Entry(l, JNull)]))
            == "{" + (Quote(k) + (":null," + Quote(l) + ":null}"))
  {
    hide Quote;
    var (p, q) := (Printed(k, "null"), Printed(l, "null"));
    NullTexts(rules, k, l);
    SortTied(rules.less, p, q);
    hide Sort, DefinedTexts;
    assert [p, q][1..] == [q];
    assert PairTexts([q]) == [Quote(l) + ":" + "null"];
    var parts := [Quote(k) + ":" + "null", Quote(l) + ":" + "null"];
    assert PairTexts([p, q]) == parts;
    hide PairTexts;
    assert Join(parts) == parts[0] + "," + Join([parts[1]]) by {
      assert parts[1..] == [parts[1]];
    }
    assert Text(rules, JObj([Entry(k, JNull), Entry(l, JNull)]))
        == "{" + (Quote(k) + ":" + "null" + "," + (Quote(l) + ":" + "null")) + "}";
  }

  lemma NullTexts(rules: Rules, k: string, l: string)
    ensures DefinedTexts(rules, [Entry(k, JNull), Entry(l, JNull)]) == [Printed(k, "null"), Printed(l, "null")]
  {
    assert [Entry(k, JNull), Entry(l, JNull)][1..] == [Entry(l, JNull)];
    assert [Entry(l, JNull)][1..] == [];
    assert DefinedTexts(rules, [Entry(l, JNull)]) == [Printed(l, "null")];
  }

  lemma SortTied(less: (string, string) -> bool, p: Printed, q: Printed)
    requires !less(q.key, p.key)
    ensures Sort(less, [p, q]) == [p, q]
  {
    assert [p, q][..1] == [p] && [p][..0] == [] && [p][1..] == [];
    assert Sort(less, []) == [];
    assert Sort(less, [p]) == [p];
    assert Insert(less, q, [p]) == [p] + Insert(less, q, []);
  }
}
