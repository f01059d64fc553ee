/**
 The JavaScript values an answers map may hold, as far as the form code can tell
 them apart.

 `undefined` is a value here, so a missing key and a key holding `undefined` read
 the same through `Get`. `===` compares objects by identity, so an object carries
 a `ref` naming that identity; numbers are reals (NaN and the infinities never
 come out of a JSON body).
 */
module Values {

  datatype Option<+T> = None | Some(value: T)

  datatype Value =
    | Undefined
    | Null
    | Bool(b: bool)
    | Num(n: real)
    | Str(s: string)
    | List(items: seq<Value>)
    | Obj(ref: nat, props: map<string, Value>)

  type Answers = map<string, Value>

  lemma Regroup<T>(a: seq<T>, b: seq<T>, c: seq<T>)
    ensures a + (b + c) == (a + b) + c && a + [] == a
  {
  }

  /** `answers[key]`. */
  function Get(answers: Answers, key: string): Value {
    if key in answers then answers[key] else Undefined
  }

  /** The decimal numeral of an array index, which is the property key it has. */
  function Numeral(n: nat): (s: string)
    ensures s != "" && '0' <= s[0] <= '9'
  {
    var digit := [('0' as int + n % 10) as char];
    if n < 10 then digit else Numeral(n / 10) + digit
  }

  function IndexProps(items: seq<Value>): (m: map<string, Value>)
    ensures forall k :: k in m ==> k != "" && '0' <= k[0] <= '9'
  {
    if items == [] then map[]
    else IndexProps(items[..|items| - 1])[Numeral(|items| - 1) := items[|items| - 1]]
  }

  /** The own enumerable properties that `{...v}` copies. */
  function Spread(v: Value): map<string, Value> {
    match v
    case Obj(_, props) => props
    case List(items) => IndexProps(items)
    case Str(s) => IndexProps(seq(|s|, i requires 0 <= i < |s| => Str([s[i]])))
    case _ => map[]
  }

  /** `v?.[key]`, own properties only. */
  function Property(v: Value, key: string): Value {
    match v
    case Obj(_, props) => Get(props, key)
    case List(items) => if key == "length" then Num(|items| as real) else Get(Spread(v), key)
    case Str(s) => if key == "length" then Num(|s| as real) else Get(Spread(v), key)
    case _ => Undefined
  }

  /** `{...answers, ...row}`: the form as one row of a repeating group sees it. */
  function Overlay(answers: Answers, row: Value): Answers {
    answers + Spread(row)
  }

  /** The two maps read the same at every key of `keys`. */
  ghost predicate Agree(keys: set<string>, a: Answers, b: Answers) {
    forall k :: k in keys ==> Get(a, k) == Get(b, k)
  }

  lemma OverlayAgrees(keys: set<string>, a: Answers, b: Answers, row: Value)
    requires Agree(keys, a, b)
    ensures Agree(keys, Overlay(a, row), Overlay(b, row))
  {
  }

  /** `===` on scalars and objects, element by element on arrays. */
  predicate Same(a: Value, b: Value) {
    match (a, b)
    case (List(xs), List(ys)) => |xs| == |ys| && forall i :: 0 <= i < |xs| ==> Same(xs[i], ys[i])
    case (Obj(r, _), Obj(q, _)) => r == q
    case _ => a == b
  }

  /** Scalars are the same when equal, objects when identical, lists element by element; nothing else is. */
  lemma SameLaws(a: Value, b: Value)
    ensures Same(a, a) && (Same(a, b) <==> Same(b, a))
    ensures !a.List? && !a.Obj? ==> (Same(a, b) <==> a == b)
    ensures a.Obj? ==> (Same(a, b) <==> b.Obj? && a.ref == b.ref)
    ensures a.List? ==> (Same(a, b) <==> b.List? && |a.items| == |b.items| && forall i :: 0 <= i < |a.items| ==> Same(a.items[i], b.items[i]))
  {
    if a.List? {
      forall i | 0 <= i < |a.items| ensures Same(a.items[i], a.items[i]) {
        SameLaws(a.items[i], a.items[i]);
      }
      if b.List? && |a.items| == |b.items| {
        forall i | 0 <= i < |a.items| ensures Same(a.items[i], b.items[i]) <==> Same(b.items[i], a.items[i]) {
          SameLaws(a.items[i], b.items[i]);
        }
      }
    }
  }

  /** Of a form overlaid with a row, the row's own properties come first. */
  lemma OverlayReads(answers: Answers, row: Value, key: string)
    requires row.Obj?
    ensures Get(Overlay(answers, row), key)
            == if key in row.props then row.props[key] else if key in answers then answers[key] else Undefined
    ensures Property(row, key) == if key in row.props then row.props[key] else Undefined
  {
  }

  /** The characters `String.prototype.trim` strips. */
  predicate IsSpace(c: char) {
    c in "\t\n\r \U{000B}\U{000C}\U{00A0}\U{1680}\U{2028}\U{2029}\U{202F}\U{205F}\U{3000}\U{FEFF}"
    || '\U{2000}' <= c <= '\U{200A}'
  }

  predicate IsBlankText(s: string) {
    forall c :: c in s ==> IsSpace(c)
  }

  /** Absent, null, white space only, or an empty list. */
  predicate IsBlank(v: Value) {
    match v
    case Undefined => true
    case Null => true
    case Str(s) => IsBlankText(s)
    case List(items) => items == []
    case _ => false
  }

  /** `<` on strings: by code unit, a proper prefix first. */
  predicate TextLess(a: string, b: string) {
    if b == "" then false
    else if a == "" then true
    else if a[0] == b[0] then TextLess(a[1..], b[1..])
    else a[0] < b[0]
  }

  /** The first place where two texts differ decides, and of two that do not differ the shorter comes first. */
  lemma {:induction false} TextLessExactly(a: string, b: string)
    ensures TextLess(a, b) <==>
              exists n: nat :: n <= |a| && n < |b| && a[..n] == b[..n] && (n == |a| || a[n] < b[n])
  {
    if a == "" || b == "" {
      assert b != "" ==> a[..0] == b[..0];
    } else if a[0] != b[0] {
      assert a[..0] == b[..0];
      forall n: nat | n <= |a| && n < |b| && a[..n] == b[..n] && (n == |a| || a[n] < b[n]) ensures n == 0 {
        FirstsMeet(a, b, n);
      }
    } else {
      TextLessExactly(a[1..], b[1..]);
      if n: nat :| n <= |a[1..]| && n < |b[1..]| && a[1..][..n] == b[1..][..n] && (n == |a[1..]| || a[1..][n] < b[1..][n]) {
        assert a[..n + 1] == [a[0]] + a[1..][..n] && b[..n + 1] == [b[0]] + b[1..][..n];
      }
      if n: nat :| n <= |a| && n < |b| && a[..n] == b[..n] && (n == |a| || a[n] < b[n]) {
        assert n > 0;
        assert a[1..][..n - 1] == a[..n][1..] && b[1..][..n - 1] == b[..n][1..];
        assert n - 1 <= |a[1..]|;
      }
    }
  }

  lemma FirstsMeet(a: string, b: string, n: nat)
    requires n <= |a| && n <= |b| && a[..n] == b[..n]
    ensures n > 0 ==> a[0] == b[0]
  {
    if n > 0 {
      assert a[..n][0] == b[..n][0];
    }
  }

  lemma {:induction false} TextLessTotal(a: string, b: string)
    ensures (if TextLess(a, b) then 1 else 0) + (if a == b then 1 else 0) + (if TextLess(b, a) then 1 else 0) == 1
  {
    if a != "" && b != "" && a[0] == b[0] {
      TextLessTotal(a[1..], b[1..]);
      assert a == [a[0]] + a[1..] && b == [b[0]] + b[1..];
    }
  }

  lemma {:induction false} TextLessTransitive(a: string, b: string, c: string)
    requires TextLess(a, b) && TextLess(b, c)
    ensures TextLess(a, c)
  {
    if a != "" && a[0] == b[0] && b[0] == c[0] {
      TextLessTransitive(a[1..], b[1..], c[1..]);
    }
  }

  /** What counts as blank, and what does not. */
  lemma BlankLaws(v: Value)
    ensures IsBlank(Undefined) && IsBlank(Null) && IsBlank(Str("")) && IsBlank(Str(" \t\n")) && IsBlank(List([]))
    ensures v.Bool? || v.Num? || v.Obj? ==> !IsBlank(v)
    ensures v.List? && v.items != [] ==> !IsBlank(v)
    ensures v.Str? && (exists c :: c in v.s && ('!' <= c <= '~')) ==> !IsBlank(v)
  {
    if v.Str? {
      forall c | c in v.s && '!' <= c <= '~' ensures !IsSpace(c) {
      }
    }
  }

  predicate StartsAt(haystack: string, needle: string, i: nat) {
    i + |needle| <= |haystack| && haystack[i..i + |needle|] == needle
  }

  /** `haystack.includes(needle)`. */
  predicate Includes(haystack: string, needle: string) {
    exists i: nat :: i <= |haystack| && StartsAt(haystack, needle, i)
  }

  lemma IncludesExactly(haystack: string, needle: string)
    ensures Includes(haystack, needle) <==> exists before, after :: haystack == before + needle + after
  {
    if i: nat :| i <= |haystack| && StartsAt(haystack, needle, i) {
      assert haystack == haystack[..i] + needle + haystack[i + |needle|..];
    }
    if before, after :| haystack == before + needle + after {
      assert StartsAt(haystack, needle, |before|);
    }
  }
}
