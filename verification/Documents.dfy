/**
 Reading and overwriting one place in a JSON document, by a path of property keys,
 the way the revision walks a blueprint.
 */
module Documents {
  import opened Values
  import opened CanonicalJson

  // ------------------------------------------------------------ array keys

  predicate Digits(s: string) {
    s != "" && forall i :: 0 <= i < |s| ==> '0' <= s[i] <= '9'
  }

  /** `Number(s)` for a string of digits. */
  function ToNat(s: string): nat
    requires Digits(s)
  {
    var last := s[|s| - 1] as int - '0' as int;
    if |s| == 1 then last else 10 * ToNat(s[..|s| - 1]) + last
  }

  lemma {:induction false} NumeralReads(n: nat)
    ensures Digits(Numeral(n)) && ToNat(Numeral(n)) == n
  {
    if n >= 10 {
      NumeralReads(n / 10);
      assert Numeral(n) == Numeral(n / 10) + [('0' as int + n % 10) as char];
      assert Numeral(n)[..|Numeral(n)| - 1] == Numeral(n / 10);
    }
  }

  /** The key names an existing element of a list of length `n`. */
  predicate IsIndex(key: string, n: nat) {
    Digits(key) && ToNat(key) < n && Numeral(ToNat(key)) == key
  }

  // ------------------------------------------------------- own properties

  function Find(entries: seq<Entry>, key: string): Option<Json> {
    if entries == [] then None
    else if entries[0].key == key then Some(entries[0].value)
    else Find(entries[1..], key)
  }

  /** Assigning a property keeps its place, or adds it at the end. */
  function SetEntry(entries: seq<Entry>, key: string, v: Json): seq<Entry> {
    if entries == [] then [Entry(key, v)]
    else if entries[0].key == key then [Entry(key, v)] + entries[1..]
    else [entries[0]] + SetEntry(entries[1..], key, v)
  }

  predicate HasOwn(j: Json, key: string) {
    match j
    case JObj(entries) => Find(entries, key).Some?
    case JList(items) => IsIndex(key, |items|)
    case _ => false
  }

  /** `j?.[key]`, own properties only. */
  function Prop(j: Json, key: string): Json {
    match j
    case JObj(entries) => if Find(entries, key).Some? then Find(entries, key).value else JUndefined
    case JList(items) => if IsIndex(key, |items|) then items[ToNat(key)] else JUndefined
    case _ => JUndefined
  }

  predicate Container(j: Json) {
    j.JObj? || j.JList?
  }

  function SetProp(j: Json, key: string, v: Json): Json
    requires j.JObj? || HasOwn(j, key)
  {
    match j
    case JObj(entries) => JObj(SetEntry(entries, key, v))
    case JList(items) => JList(items[ToNat(key) := v])
  }

  lemma {:induction false} FindSetEntry(entries: seq<Entry>, key: string, v: Json, other: string)
    ensures Find(SetEntry(entries, key, v), other) == if other == key then Some(v) else Find(entries, other)
  {
    if entries != [] && entries[0].key != key {
      FindSetEntry(entries[1..], key, v, other);
    }
  }

  lemma {:induction false} SetEntryTwice(entries: seq<Entry>, key: string, v: Json, w: Json)
    ensures SetEntry(SetEntry(entries, key, v), key, w) == SetEntry(entries, key, w)
  {
    if entries != [] && entries[0].key != key {
      SetEntryTwice(entries[1..], key, v, w);
    }
  }

  /** A write to one property is read back, and no other property changes. */
  lemma PropSetProp(j: Json, key: string, v: Json, other: string)
    requires j.JObj? || HasOwn(j, key)
    ensures Prop(SetProp(j, key, v), key) == v && HasOwn(SetProp(j, key, v), key)
    ensures other != key ==> Prop(SetProp(j, key, v), other) == Prop(j, other)
    ensures other != key ==> HasOwn(SetProp(j, key, v), other) == HasOwn(j, other)
  {
    if j.JObj? {
      FindSetEntry(j.entries, key, v, other);
      FindSetEntry(j.entries, key, v, key);
    }
  }

  lemma SetPropTwice(j: Json, key: string, v: Json, w: Json)
    requires j.JObj? || HasOwn(j, key)
    ensures HasOwn(SetProp(j, key, v), key)
    ensures SetProp(SetProp(j, key, v), key, w) == SetProp(j, key, w)
  {
    PropSetProp(j, key, v, key);
    if j.JObj? {
      SetEntryTwice(j.entries, key, v, w);
    }
  }

  // ---------------------------------------------------------------- paths

  function Read(j: Json, path: seq<string>): Json
    decreases path
  {
    if path == [] then j else Read(Prop(j, path[0]), path[1..])
  }

  /**
   Walks to the parent, which must exist all the way, and assigns the last key.
   The parent of a whitelisted leaf of a parsed blueprint is always an object.
   */
  function Write(j: Json, path: seq<string>, v: Json): Option<Json>
    requires path != []
    decreases path
  {
    if |path| == 1 then
      if j.JObj? then Some(SetProp(j, path[0], v)) else None
    else if HasOwn(j, path[0]) && Container(Prop(j, path[0])) then
      match Write(Prop(j, path[0]), path[1..], v)
      case None => None
      case Some(child) => Some(SetProp(j, path[0], child))
    else None
  }

  /** The n-th step of a path is an own property holding an object or a list. */
  predicate Steps(j: Json, path: seq<string>, n: nat)
    requires n < |path|
  {
    HasOwn(Read(j, path[..n]), path[n]) && Container(Read(j, path[..n + 1]))
  }

  /** Every step up to the parent does, and the parent is an object. */
  predicate ParentExists(j: Json, path: seq<string>)
    requires path != []
  {
    && (forall n :: 0 <= n < |path| - 1 ==> Steps(j, path, n))
    && Read(j, path[..|path| - 1]).JObj?
  }

  /** A write asks for its parent, and for nothing at the leaf itself. */
  lemma {:induction false} WriteSucceedsExactly(j: Json, path: seq<string>, v: Json)
    requires path != []
    ensures Write(j, path, v).Some? <==> ParentExists(j, path)
    decreases path
  {
    if |path| == 1 {
      assert path[..0] == [];
      assert Read(j, []) == j;
    } else {
      var (child, rest) := (Prop(j, path[0]), path[1..]);
      WriteSucceedsExactly(child, rest, v);
      forall n: nat | n < |path| ensures Read(j, path[..n + 1]) == Read(child, rest[..n]) {
        assert path[..n + 1][0] == path[0] && path[..n + 1][1..] == rest[..n];
      }
      hide Write, Prop;
      ParentNext(j, path);
    }
  }

  lemma ParentNext(j: Json, path: seq<string>)
    requires |path| > 1
    requires forall n: nat :: n < |path| ==> Read(j, path[..n + 1]) == Read(Prop(j, path[0]), path[1..][..n])
    ensures ParentExists(j, path) <==>
              HasOwn(j, path[0]) && Container(Prop(j, path[0])) && ParentExists(Prop(j, path[0]), path[1..])
  {
    var (child, rest) := (Prop(j, path[0]), path[1..]);
    assert path[..0] == [] && Read(j, []) == j && rest[..0] == [] && Read(child, []) == child;
    assert Read(j, path[..0 + 1]) == child;
    hide Read, HasOwn, Container, Prop;
    assert Read(j, path[..|path| - 1]) == Read(child, rest[..|rest| - 1]) by {
      assert path[..|path| - 1] == path[..(|path| - 2) + 1];
    }
    forall n: nat | n < |rest| - 1 ensures Steps(child, rest, n) <==> Steps(j, path, n + 1) {
      assert Read(j, path[..n + 1]) == Read(child, rest[..n]);
      assert Read(j, path[..(n + 1) + 1]) == Read(child, rest[..n + 1]);
    }
    assert Steps(j, path, 0) <==> HasOwn(j, path[0]) && Container(child);
    hide Steps;
    if ParentExists(j, path) {
      forall n: nat | n < |rest| - 1 ensures Steps(child, rest, n) {
        assert Steps(j, path, n + 1);
      }
    }
    if Steps(j, path, 0) && ParentExists(child, rest) {
      forall m: nat | m < |path| - 1 ensures Steps(j, path, m) {
        if m > 0 {
          assert Steps(child, rest, m - 1);
        }
      }
    }
  }

  /** What the own properties of a document are: an object's entries, and a list's elements by their numerals. */
  lemma OwnProperties(j: Json, key: string)
    ensures j.JObj? ==> (HasOwn(j, key) <==> exists e :: e in j.entries && e.key == key)
    ensures j.JObj? && DistinctKeys(j.entries) ==> forall e :: e in j.entries && e.key == key ==> Prop(j, key) == e.value
    ensures j.JList? ==> (HasOwn(j, key) <==> exists i :: 0 <= i < |j.items| && key == Numeral(i))
    ensures j.JList? ==> forall i :: 0 <= i < |j.items| && key == Numeral(i) ==> Prop(j, key) == j.items[i]
    ensures !j.JObj? && !j.JList? ==> !HasOwn(j, key)
    ensures !HasOwn(j, key) ==> Prop(j, key) == JUndefined
  {
    if j.JObj? {
      FindExactly(j.entries, key);
    } else if j.JList? {
      forall i: nat | key == Numeral(i) ensures Digits(key) && ToNat(key) == i {
        NumeralReads(i);
      }
      if HasOwn(j, key) {
        assert key == Numeral(ToNat(key));
      }
    }
  }

  lemma {:induction false} FindExactly(entries: seq<Entry>, key: string)
    ensures Find(entries, key).Some? <==> exists e :: e in entries && e.key == key
    ensures DistinctKeys(entries) ==> forall e :: e in entries && e.key == key ==> Find(entries, key) == Some(e.value)
  {
    if entries != [] {
      assert entries == [entries[0]] + entries[1..];
      FindExactly(entries[1..], key);
      if DistinctKeys(entries) && entries[0].key == key {
        forall e | e in entries && e.key == key ensures e == entries[0] {
          var i :| 0 <= i < |entries| && entries[i] == e;
        }
      }
    }
  }

  predicate Prefix(p: seq<string>, q: seq<string>) {
    p == [] || (q != [] && p[0] == q[0] && Prefix(p[1..], q[1..]))
  }

  predicate Apart(p: seq<string>, q: seq<string>) {
    !Prefix(p, q) && !Prefix(q, p)
  }

  lemma {:induction false} PrefixSplits(p: seq<string>, q: seq<string>)
    requires Prefix(p, q)
    ensures |p| <= |q| && q == p + q[|p|..]
  {
    if p != [] {
      PrefixSplits(p[1..], q[1..]);
      assert q[1..] == p[1..] + q[1..][|p| - 1..];
    }
  }

  lemma {:induction false} PrefixSelf(p: seq<string>)
    ensures Prefix(p, p)
  {
    if p != [] {
      PrefixSelf(p[1..]);
    }
  }

  lemma ApartStep(p: seq<string>, q: seq<string>)
    requires Apart(p, q) && p[0] == q[0]
    ensures |p| > 1 && |q| > 1 && Apart(p[1..], q[1..])
  {
    assert Prefix(p[1..], q[1..]) ==> Prefix(p, q);
    assert Prefix(q[1..], p[1..]) ==> Prefix(q, p);
    assert Prefix([], q[1..]) && Prefix([], p[1..]);
  }

  lemma {:induction false} ReadWritten(j: Json, path: seq<string>, v: Json, below: seq<string>)
    requires path != [] && Write(j, path, v).Some?
    ensures Read(Write(j, path, v).value, path + below) == Read(v, below)
    decreases path
  {
    var k := Write(j, path, v).value;
    assert (path + below)[0] == path[0] && (path + below)[1..] == path[1..] + below;
    if |path| == 1 {
      PropSetProp(j, path[0], v, path[0]);
      assert path[1..] + below == below;
    } else {
      var child := Write(Prop(j, path[0]), path[1..], v).value;
      PropSetProp(j, path[0], child, path[0]);
      ReadWritten(Prop(j, path[0]), path[1..], v, below);
    }
  }

  lemma {:induction false} ReadElsewhere(j: Json, path: seq<string>, v: Json, q: seq<string>)
    requires path != [] && Write(j, path, v).Some? && Apart(path, q)
    ensures Read(Write(j, path, v).value, q) == Read(j, q)
    decreases path
  {
    var child := if |path| == 1 then v else Write(Prop(j, path[0]), path[1..], v).value;
    PropSetProp(j, path[0], child, q[0]);
    if q[0] == path[0] {
      ApartStep(path, q);
      ReadElsewhere(Prop(j, path[0]), path[1..], v, q[1..]);
    }
  }

  /** Nothing above the written leaf loses its kind, and no list its length. */
  predicate SameShape(a: Json, b: Json) {
    match a
    case JList(items) => b.JList? && |b.items| == |items|
    case JObj(_) => b.JObj?
    case _ => a == b
  }

  lemma {:induction false} ShapeAbove(j: Json, path: seq<string>, v: Json, q: seq<string>)
    requires path != [] && Write(j, path, v).Some?
    requires Prefix(q, path) && q != path
    ensures SameShape(Read(j, q), Read(Write(j, path, v).value, q))
    decreases path
  {
    if q != [] {
      assert q[0] == path[0];
      PrefixSplits(q, path);
      assert q == [q[0]] + q[1..] && path == [path[0]] + path[1..];
      var child := Write(Prop(j, path[0]), path[1..], v).value;
      PropSetProp(j, path[0], child, path[0]);
      ShapeAbove(Prop(j, path[0]), path[1..], v, q[1..]);
    }
  }

  /** The last write to a path wins. */
  lemma {:induction false} LastWriteWins(j: Json, path: seq<string>, v: Json, w: Json)
    requires path != [] && Write(j, path, v).Some?
    ensures Write(Write(j, path, v).value, path, w) == Write(j, path, w)
    decreases path
  {
    if |path| == 1 {
      SetPropTwice(j, path[0], v, w);
    } else {
      var child := Write(Prop(j, path[0]), path[1..], v).value;
      PropSetProp(j, path[0], child, path[0]);
      LastWriteWins(Prop(j, path[0]), path[1..], v, w);
      WriteKeepsContainer(Prop(j, path[0]), path[1..], v);
      WriteSucceedsAlike(Prop(j, path[0]), path[1..], v, w);
      SetPropTwice(j, path[0], child, Write(Prop(j, path[0]), path[1..], w).value);
    }
  }

  lemma WriteKeepsContainer(j: Json, path: seq<string>, v: Json)
    requires path != [] && Write(j, path, v).Some?
    ensures Container(Write(j, path, v).value)
  {
  }

  lemma {:induction false} WriteSucceedsAlike(j: Json, path: seq<string>, v: Json, w: Json)
    requires path != []
    ensures Write(j, path, v).Some? <==> Write(j, path, w).Some?
    decreases path
  {
    if |path| > 1 {
      WriteSucceedsAlike(Prop(j, path[0]), path[1..], v, w);
    }
  }

  /** A write leaves every write apart from it possible. */
  lemma {:induction false} StillWritable(j: Json, path: seq<string>, v: Json, q: seq<string>, w: Json)
    requires path != [] && q != [] && Write(j, path, v).Some? && Apart(path, q)
    ensures Write(Write(j, path, v).value, q, w).Some? <==> Write(j, q, w).Some?
    decreases path
  {
    var k := Write(j, path, v).value;
    var child := if |path| == 1 then v else Write(Prop(j, path[0]), path[1..], v).value;
    PropSetProp(j, path[0], child, q[0]);
    if q[0] == path[0] {
      ApartStep(path, q);
      WriteKeepsContainer(Prop(j, path[0]), path[1..], v);
      StillWritable(Prop(j, path[0]), path[1..], v, q[1..], w);
    }
  }

  /**
   Two writes apart from each other commute: either order succeeds or fails alike,
   and leaves the same at every place that is not above one of the two.
   */
  lemma WritesCommute(j: Json, p: seq<string>, v: Json, q: seq<string>, w: Json, at: seq<string>)
    requires p != [] && q != [] && Apart(p, q)
    requires Write(j, p, v).Some? && Write(j, q, w).Some?
    requires (Prefix(at, p) ==> at == p) && (Prefix(at, q) ==> at == q)
    ensures Write(Write(j, p, v).value, q, w).Some? && Write(Write(j, q, w).value, p, v).Some?
    ensures Read(Write(Write(j, p, v).value, q, w).value, at) == Read(Write(Write(j, q, w).value, p, v).value, at)
  {
    hide Write, Read;
    StillWritable(j, p, v, q, w);
    StillWritable(j, q, w, p, v);
    var (a, b) := (Write(j, p, v).value, Write(j, q, w).value);
    if Prefix(p, at) {
      PrefixSplits(p, at);
      var below := at[|p|..];
      ApartBelow(p, q, below);
      ReadElsewhere(a, q, w, at);
      ReadWritten(j, p, v, below);
      ReadWritten(b, p, v, below);
    } else if Prefix(q, at) {
      PrefixSplits(q, at);
      var below := at[|q|..];
      ApartBelow(q, p, below);
      ReadElsewhere(b, p, v, at);
      ReadWritten(j, q, w, below);
      ReadWritten(a, q, w, below);
    } else {
      ReadElsewhere(j, p, v, at);
      ReadElsewhere(a, q, w, at);
      ReadElsewhere(j, q, w, at);
      ReadElsewhere(b, p, v, at);
    }
  }

  lemma {:induction false} ApartBelow(p: seq<string>, q: seq<string>, below: seq<string>)
    requires Apart(p, q)
    ensures Apart(q, p + below)
  {
    assert (p + below)[0] == p[0] && (p + below)[1..] == p[1..] + below;
    if p[0] == q[0] {
      ApartBelow(p[1..], q[1..], below);
    }
  }
}
