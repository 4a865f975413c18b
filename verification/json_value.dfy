// The value tree of jsoncpp in its default build: arrays and objects are both ordered maps
// from CZString to Value, kept here as entry sequences sorted by key.

module JsonValue {
  import opened Integers
  import opened Options

  const MIN_INT := -2147483648
  const MAX_INT := 2147483647
  const MAX_UINT := 4294967295

  // A CZString: an array slot has no C string, a member name does. The index is kept in an int, whatever
  // unsigned one was asked for.
  datatype Key = Index(i: int) | Name(s: string)

  datatype Entry = Entry(key: Key, value: Value)

  // The C string of a string value may be a null pointer.
  datatype Value =
    | Null
    | Int(i: int)
    | UInt(u: int)
    | Real(r: real)
    | Str(cstr: Option<string>)
    | Bool(b: bool)
    | Array(entries: seq<Entry>)
    | Object(entries: seq<Entry>)
  {
    predicate IsContainer() { Array? || Object? }

    // A null value passes for either.
    predicate IsArray() { Null? || Array? }
    predicate IsObject() { Null? || Object? }
  }

  // ----- strings and keys

  // strcmp(a, b) < 0
  predicate StrLess(a: string, b: string) {
    if b == [] then false
    else if a == [] then true
    else a[0] < b[0] || (a[0] == b[0] && StrLess(a[1..], b[1..]))
  }

  predicate KeyLess(a: Key, b: Key) {
    match (a, b)
    case (Index(i), Index(j)) => i < j
    case (Name(s), Name(t)) => StrLess(s, t)
    case (Index(_), Name(_)) => true   // one map never mixes the two kinds
    case (Name(_), Index(_)) => false
  }

  lemma {:induction false} StrTrichotomy(a: string, b: string)
    ensures StrLess(a, b) || StrLess(b, a) <==> a != b
    ensures !(StrLess(a, b) && StrLess(b, a))
  {
    if a != [] && b != [] {
      StrTrichotomy(a[1..], b[1..]);
      assert a == [a[0]] + a[1..] && b == [b[0]] + b[1..];
    }
  }

  lemma {:induction false} StrTransitive(a: string, b: string, c: string)
    requires StrLess(a, b) && StrLess(b, c)
    ensures StrLess(a, c)
  {
    if a != [] && a[0] == b[0] == c[0] {
      StrTransitive(a[1..], b[1..], c[1..]);
    }
  }

  lemma KeyTrichotomy(a: Key, b: Key)
    ensures KeyLess(a, b) || KeyLess(b, a) <==> a != b
    ensures !(KeyLess(a, b) && KeyLess(b, a))
  {
    if a.Name? && b.Name? { StrTrichotomy(a.s, b.s); }
  }

  lemma KeyTransitive(a: Key, b: Key, c: Key)
    requires KeyLess(a, b) && KeyLess(b, c)
    ensures KeyLess(a, c)
  {
    if a.Name? && b.Name? && c.Name? { StrTransitive(a.s, b.s, c.s); }
  }

  // ----- the ordered map

  ghost predicate Sorted(es: seq<Entry>) {
    forall i, j :: 0 <= i < j < |es| ==> KeyLess(es[i].key, es[j].key)
  }

  predicate Has(es: seq<Entry>, k: Key) {
    exists i :: 0 <= i < |es| && es[i].key == k
  }

  // find: the value stored under k, or the shared null value
  function Lookup(es: seq<Entry>, k: Key): (v: Value)
    ensures Height(v) <= MaxHeight(es)
  {
    if es == [] then Null
    else if es[0].key == k then es[0].value
    else Lookup(es[1..], k)
  }

  // insert at lower_bound, or overwrite the entry found there
  function Put(es: seq<Entry>, k: Key, v: Value): seq<Entry> {
    if es == [] then [Entry(k, v)]
    else if es[0].key == k then [Entry(k, v)] + es[1..]
    else if KeyLess(k, es[0].key) then [Entry(k, v)] + es
    else [es[0]] + Put(es[1..], k, v)
  }

  // Nesting depth, the measure of the writers' recursion.
  function Height(v: Value): nat
    decreases v
  {
    if v.IsContainer() then 1 + MaxHeight(v.entries) else 0
  }

  function MaxHeight(es: seq<Entry>): nat
    decreases es
  {
    if es == [] then 0
    else
      var h := EntryHeight(es[0]);
      var m := MaxHeight(es[1..]);
      if h > m then h else m
  }

  function EntryHeight(e: Entry): nat
    decreases e
  {
    Height(e.value)
  }

  lemma HeightOfEntry(es: seq<Entry>, j: nat)
    requires j < |es|
    ensures Height(es[j].value) <= MaxHeight(es)
  {
    if j > 0 { HeightOfEntry(es[1..], j - 1); }
  }

  lemma {:induction false} LookupAt(es: seq<Entry>, j: nat)
    requires Sorted(es) && j < |es|
    ensures Lookup(es, es[j].key) == es[j].value
  {
    if j > 0 {
      KeyTrichotomy(es[0].key, es[j].key);
      LookupAt(es[1..], j - 1);
    }
  }

  lemma {:induction false} LookupMissing(es: seq<Entry>, k: Key)
    requires !Has(es, k)
    ensures Lookup(es, k) == Null
  {
    if es != [] {
      assert es[0].key != k;
      assert forall i :: 0 <= i < |es[1..]| ==> es[1..][i] == es[i + 1];
      LookupMissing(es[1..], k);
    }
  }

  lemma {:induction false} LookupPut(es: seq<Entry>, k: Key, v: Value)
    ensures Has(Put(es, k, v), k)
    ensures Lookup(Put(es, k, v), k) == v
    ensures forall l :: l != k ==> Lookup(Put(es, k, v), l) == Lookup(es, l)
  {
    var ps := Put(es, k, v);
    if es == [] || es[0].key == k || KeyLess(k, es[0].key) {
      assert ps[0] == Entry(k, v);
      assert ps[1..] == if es != [] && es[0].key == k then es[1..] else es;
    } else {
      LookupPut(es[1..], k, v);
      assert ps[1..] == Put(es[1..], k, v);
      var i :| 0 <= i < |ps[1..]| && ps[1..][i].key == k;
      assert ps[i + 1].key == k;
    }
  }

  lemma {:induction false} PutPut(es: seq<Entry>, k: Key, v: Value, w: Value)
    ensures Put(Put(es, k, v), k, w) == Put(es, k, w)
  {
    KeyTrichotomy(k, k);
    if es != [] && es[0].key != k && !KeyLess(k, es[0].key) {
      PutPut(es[1..], k, v, w);
      assert Put(es, k, v)[1..] == Put(es[1..], k, v);
    }
  }

  // Putting back what is there changes nothing.
  lemma {:induction false} PutSame(es: seq<Entry>, k: Key)
    requires Sorted(es) && Has(es, k)
    ensures Put(es, k, Lookup(es, k)) == es
  {
    var i :| 0 <= i < |es| && es[i].key == k;
    if i == 0 {
      assert [Entry(k, es[0].value)] + es[1..] == es;
    } else {
      assert es[0].key != k && !KeyLess(k, es[0].key) by { KeyTrichotomy(es[0].key, k); }
      assert es[1..][i - 1].key == k;
      PutSame(es[1..], k);
    }
  }

  lemma {:induction false} PutSorted(es: seq<Entry>, k: Key, v: Value)
    requires Sorted(es)
    ensures Sorted(Put(es, k, v))
    ensures forall e :: e in Put(es, k, v) ==> e == Entry(k, v) || e in es
  {
    if es == [] {
    } else if es[0].key == k {
    } else if KeyLess(k, es[0].key) {
      forall j | 0 < j < |es| ensures KeyLess(k, es[j].key) {
        KeyTransitive(k, es[0].key, es[j].key);
      }
    } else {
      KeyTrichotomy(k, es[0].key);
      PutSorted(es[1..], k, v);
      var ps := Put(es[1..], k, v);
      forall j | 0 <= j < |ps| ensures KeyLess(es[0].key, ps[j].key) {
        assert ps[j] in ps;
        if ps[j] != Entry(k, v) {
          var m :| 0 <= m < |es[1..]| && es[1..][m] == ps[j];
          assert es[m + 1] == ps[j];
        }
      }
    }
  }

  // A key above all others is appended.
  lemma {:induction false} PutLast(es: seq<Entry>, k: Key, v: Value)
    requires forall i :: 0 <= i < |es| ==> KeyLess(es[i].key, k)
    ensures Put(es, k, v) == es + [Entry(k, v)]
  {
    if es != [] {
      KeyTrichotomy(es[0].key, k);
      PutLast(es[1..], k, v);
    }
  }

  // ----- the container view the printers use

  // size(): one more than the last index of an array, as an unsigned int; the number of members of an object
  function Size(v: Value): nat {
    match v
    case Array(es) =>
      if es == [] then 0
      else match es[|es| - 1].key { case Index(i) => (i + 1) % 0x1_0000_0000 case Name(_) => 0 }
    case Object(es) => |es|
    case _ => 0
  }

  // The slots or members that a loop up to the size sees; in an array it is kept in an int.
  function Shown(v: Value): (n: nat)
    ensures n == Size(v) || (v.Array? && n == 0 && Size(v) > MAX_INT)
  {
    if v.Array? && Size(v) > MAX_INT then 0 else Size(v)
  }

  lemma IntSize(v: Value)
    requires v.Array?
    ensures Wrap32(Size(v)) == Shown(v) || (Wrap32(Size(v)) < 0 && Shown(v) == 0)
  {
  }

  // operator[] const: a missing slot or member reads as null
  function At(v: Value, k: Key): (w: Value)
    requires v.IsContainer()
    ensures Height(w) < Height(v)
  {
    Lookup(v.entries, k)
  }

  function With(v: Value, k: Key, w: Value): Value
    requires v.IsContainer()
  {
    v.(entries := Put(v.entries, k, w))
  }

  // operator[] on a container: the slot exists afterwards
  function Resolve(v: Value, k: Key): Value
    requires v.IsContainer()
  {
    if Has(v.entries, k) then v else With(v, k, Null)
  }

  // A C string ends at its first NUL.
  function CStr(s: string): (c: string)
    ensures c <= s && '\0' !in c
  {
    if s == [] || s[0] == '\0' then [] else [s[0]] + CStr(s[1..])
  }

  lemma {:induction false} CStrOfClean(s: string)
    requires '\0' !in s
    ensures CStr(s) == s
  {
    if s != [] { CStrOfClean(s[1..]); }
  }

  // What every tree built through the interface satisfies.
  ghost predicate Valid(v: Value)
    decreases v
  {
    match v
    case Int(i) => MIN_INT <= i <= MAX_INT
    case UInt(u) => 0 <= u <= MAX_UINT
    case Str(c) => c.Some? ==> '\0' !in c.value
    case Array(es) =>
      Sorted(es) && forall e | e in es :: e.key.Index? && MIN_INT <= e.key.i <= MAX_INT && Valid(e.value)
    case Object(es) => Sorted(es) && forall e | e in es :: e.key.Name? && '\0' !in e.key.s && Valid(e.value)
    case _ => true
  }

  lemma {:induction false} LookupValid(es: seq<Entry>, k: Key)
    requires forall e | e in es :: Valid(e.value)
    ensures Valid(Lookup(es, k))
  {
    if es != [] && es[0].key != k { LookupValid(es[1..], k); }
  }
}
