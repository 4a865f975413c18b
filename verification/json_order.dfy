// Value::operator< and Value::operator==.

module JsonOrder {
  import opened Options
  import opened JsonValue

  // The ValueType enumeration.
  function TypeRank(v: Value): int {
    match v
    case Null => 0
    case Int(_) => 1
    case UInt(_) => 2
    case Real(_) => 3
    case Str(_) => 4
    case Bool(_) => 5
    case Array(_) => 6
    case Object(_) => 7
  }

  // operator<: by type, then by value; maps by number of entries, then entry by entry
  predicate Less(a: Value, b: Value)
    decreases Height(a) + Height(b), 0
  {
    if TypeRank(a) != TypeRank(b) then TypeRank(a) < TypeRank(b)
    else match a
      case Null => false
      case Int(i) => i < b.i
      case UInt(u) => u < b.u
      case Real(r) => r < b.r
      case Str(s) =>
        (s.None? && b.cstr.Some?) || (b.cstr.Some? && s.Some? && StrLess(s.value, b.cstr.value))
      case Bool(p) => !p && b.b
      case _ =>
        if |a.entries| != |b.entries| then |a.entries| < |b.entries| else EntriesLess(a.entries, b.entries)
  }

  // operator< of std::map: lexicographical_compare with operator< of std::pair
  predicate EntriesLess(xs: seq<Entry>, ys: seq<Entry>)
    decreases MaxHeight(xs) + MaxHeight(ys), 1 + |xs|
  {
    if ys == [] then false
    else if xs == [] then true
    else if PairLess(xs, ys) then true
    else if PairLess(ys, xs) then false
    else EntriesLess(xs[1..], ys[1..])
  }

  // The first entry of xs is below the first entry of ys.
  predicate PairLess(xs: seq<Entry>, ys: seq<Entry>)
    requires xs != [] && ys != []
    decreases MaxHeight(xs) + MaxHeight(ys), 1
  {
    HeightOfEntry(xs, 0);
    HeightOfEntry(ys, 0);
    var x, y := xs[0], ys[0];
    KeyLess(x.key, y.key) || (!KeyLess(y.key, x.key) && Less(x.value, y.value))
  }

  // operator==
  predicate Equal(a: Value, b: Value)
    decreases Height(a), 0
  {
    if TypeRank(a) != TypeRank(b) then false
    else match a
      case Null => true
      case Int(i) => i == b.i
      case UInt(u) => u == b.u
      case Real(r) => r == b.r
      case Str(s) =>
        (s.None? && b.cstr.None?) || (b.cstr.Some? && s.Some? && s.value == b.cstr.value)
      case Bool(p) => p == b.b
      case _ => |a.entries| == |b.entries| && EntriesEqual(a.entries, b.entries)
  }

  // operator== of std::map on maps of the same size
  predicate EntriesEqual(xs: seq<Entry>, ys: seq<Entry>)
    requires |xs| == |ys|
    decreases MaxHeight(xs), 1 + |xs|
  {
    xs == [] ||
    (HeightOfEntry(xs, 0); xs[0].key == ys[0].key && Equal(xs[0].value, ys[0].value) && EntriesEqual(xs[1..], ys[1..]))
  }

  predicate Greater(a: Value, b: Value) { Less(b, a) }

  // operator<= and operator>= as they are written
  predicate LessOrEqual(a: Value, b: Value) { !Greater(b, a) }

  predicate GreaterOrEqual(a: Value, b: Value) { !Less(a, b) }

  // ----- the theorems

  lemma {:induction false} EqualIsIdentity(a: Value, b: Value)
    ensures Equal(a, b) <==> a == b
    decreases Height(a), 0
  {
    if a.IsContainer() && TypeRank(a) == TypeRank(b) && |a.entries| == |b.entries| {
      EntriesEqualIsIdentity(a.entries, b.entries);
    }
  }

  lemma {:induction false} EntriesEqualIsIdentity(xs: seq<Entry>, ys: seq<Entry>)
    requires |xs| == |ys|
    ensures EntriesEqual(xs, ys) <==> xs == ys
    decreases MaxHeight(xs), 1 + |xs|
  {
    if xs != [] {
      HeightOfEntry(xs, 0);
      EqualIsIdentity(xs[0].value, ys[0].value);
      EntriesEqualIsIdentity(xs[1..], ys[1..]);
      assert xs == [xs[0]] + xs[1..] && ys == [ys[0]] + ys[1..];
    }
  }

  // Exactly one of a < b, b < a and a == b holds, for all trees.
  lemma {:induction false} LessTrichotomy(a: Value, b: Value)
    ensures Less(a, b) || Less(b, a) <==> !Equal(a, b)
    ensures !(Less(a, b) && Less(b, a))
  {
    EqualIsIdentity(a, b);
    Trichotomy(a, b);
  }

  // operator<= holds exactly of values that are not less, so it is the wrong way round unless they are equal;
  // operator>= is right.
  lemma LessOrEqualIff(a: Value, b: Value)
    ensures (LessOrEqual(a, b) <==> Less(a, b) || Equal(a, b)) <==> a == b
    ensures LessOrEqual(a, b) <==> GreaterOrEqual(a, b)
    ensures GreaterOrEqual(a, b) <==> Greater(a, b) || Equal(a, b)
  {
    EqualIsIdentity(a, b);
    Trichotomy(a, b);
  }

  lemma {:induction false} Trichotomy(a: Value, b: Value)
    ensures Less(a, b) || Less(b, a) <==> a != b
    ensures !(Less(a, b) && Less(b, a))
    decreases Height(a) + Height(b), 0
  {
    if TypeRank(a) == TypeRank(b) {
      if a.Str? && a.cstr.Some? && b.cstr.Some? { StrTrichotomy(a.cstr.value, b.cstr.value); }
      if a.IsContainer() && |a.entries| == |b.entries| { EntriesTrichotomy(a.entries, b.entries); }
    }
  }

  lemma {:induction false} EntriesTrichotomy(xs: seq<Entry>, ys: seq<Entry>)
    requires |xs| == |ys|
    ensures EntriesLess(xs, ys) || EntriesLess(ys, xs) <==> xs != ys
    ensures !(EntriesLess(xs, ys) && EntriesLess(ys, xs))
    decreases MaxHeight(xs) + MaxHeight(ys), 1 + |xs|
  {
    if xs != [] {
      HeightOfEntry(xs, 0);
      HeightOfEntry(ys, 0);
      KeyTrichotomy(xs[0].key, ys[0].key);
      Trichotomy(xs[0].value, ys[0].value);
      EntriesTrichotomy(xs[1..], ys[1..]);
      assert xs == [xs[0]] + xs[1..] && ys == [ys[0]] + ys[1..];
    }
  }

  lemma {:induction false} LessTransitive(a: Value, b: Value, c: Value)
    requires Less(a, b) && Less(b, c)
    ensures Less(a, c)
    decreases Height(a) + Height(b), 0
  {
    if TypeRank(a) == TypeRank(b) == TypeRank(c) {
      if a.Str? && a.cstr.Some? { StrTransitive(a.cstr.value, b.cstr.value, c.cstr.value); }
      if a.IsContainer() && |a.entries| == |b.entries| == |c.entries| {
        EntriesTransitive(a.entries, b.entries, c.entries);
      }
    }
  }

  lemma {:induction false} EntriesTransitive(xs: seq<Entry>, ys: seq<Entry>, zs: seq<Entry>)
    requires |xs| == |ys| == |zs|
    requires EntriesLess(xs, ys) && EntriesLess(ys, zs)
    ensures EntriesLess(xs, zs)
    decreases MaxHeight(xs) + MaxHeight(ys), 1 + |xs|
  {
    HeightOfEntry(xs, 0);
    HeightOfEntry(ys, 0);
    var x, y, z := xs[0], ys[0], zs[0];
    KeyTrichotomy(x.key, y.key);
    KeyTrichotomy(y.key, z.key);
    KeyTrichotomy(x.key, z.key);
    Trichotomy(x.value, y.value);
    Trichotomy(y.value, z.value);
    Trichotomy(x.value, z.value);
    if PairLess(xs, ys) && PairLess(ys, zs) {
      if KeyLess(x.key, y.key) && KeyLess(y.key, z.key) {
        KeyTransitive(x.key, y.key, z.key);
      } else if x.key == y.key == z.key {
        LessTransitive(x.value, y.value, z.value);
      }
      assert PairLess(xs, zs);
    } else if x == y == z {
      EntriesTransitive(xs[1..], ys[1..], zs[1..]);
    } else if x == y {
      assert PairLess(ys, zs);
    } else {
      assert PairLess(xs, ys) && y == z;
    }
  }

  // ----- the order, said without the recursion

  // Null before numbers before texts before flags before arrays before objects.
  lemma TypesInOrder(a: Value, b: Value)
    ensures a.Null? && !b.Null? ==> Less(a, b)
    ensures a.Int? && (b.UInt? || b.Real? || b.Str? || b.Bool? || b.Array? || b.Object?) ==> Less(a, b)
    ensures a.UInt? && (b.Real? || b.Str? || b.Bool? || b.Array? || b.Object?) ==> Less(a, b)
    ensures a.Real? && (b.Str? || b.Bool? || b.Array? || b.Object?) ==> Less(a, b)
    ensures a.Str? && (b.Bool? || b.Array? || b.Object?) ==> Less(a, b)
    ensures a.Bool? && (b.Array? || b.Object?) ==> Less(a, b)
    ensures a.Array? && b.Object? ==> Less(a, b)
  {
  }

  lemma SmallerNumbers(i: int, j: int, x: real, y: real)
    ensures Less(Int(i), Int(j)) <==> i < j
    ensures Less(UInt(i), UInt(j)) <==> i < j
    ensures Less(Real(x), Real(y)) <==> x < y
    ensures Less(Bool(false), Bool(true))
  {
  }

  lemma FirstAgrees<T>(a: seq<T>, b: seq<T>, i: nat)
    ensures 0 < i <= |a| && i <= |b| && a[..i] == b[..i] ==> a[0] == b[0]
  {
    if 0 < i <= |a| && i <= |b| {
      assert a[..i][0] == a[0] && b[..i][0] == b[0];
    }
  }

  // The first i characters agree, and then a ends or has the smaller one.
  predicate StringBefore(a: string, b: string, i: nat) {
    i <= |a| && i < |b| && a[..i] == b[..i] && (i < |a| ==> a[i] < b[i])
  }

  lemma {:induction false} StrLessIff(a: string, b: string)
    ensures StrLess(a, b) <==> exists i: nat :: StringBefore(a, b, i)
  {
    if b == [] {
    } else if a == [] {
      assert StringBefore(a, b, 0);
    } else if a[0] != b[0] {
      assert a[0] < b[0] ==> StringBefore(a, b, 0);
      forall i: nat | StringBefore(a, b, i) ensures i == 0 {
        FirstAgrees(a, b, i);
      }
    } else {
      StrLessIff(a[1..], b[1..]);
      forall i: nat ensures StringBefore(a[1..], b[1..], i) <==> StringBefore(a, b, i + 1) {
        StringBeforeStep(a, b, i);
      }
      if exists i: nat :: StringBefore(a, b, i) {
        var i: nat :| StringBefore(a, b, i);
        assert i > 0 && StringBefore(a[1..], b[1..], i - 1);
      }
      if exists i: nat :: StringBefore(a[1..], b[1..], i) {
        var i: nat :| StringBefore(a[1..], b[1..], i);
        assert StringBefore(a, b, i + 1);
      }
    }
  }

  lemma StringBeforeStep(a: string, b: string, i: nat)
    requires a != [] && b != [] && a[0] == b[0]
    ensures StringBefore(a[1..], b[1..], i) <==> StringBefore(a, b, i + 1)
  {
    if i < |a| && i < |b| {
      assert a[..i + 1] == [a[0]] + a[1..][..i] && b[..i + 1] == [b[0]] + b[1..][..i];
      assert a[..i + 1][1..] == a[1..][..i] && b[..i + 1][1..] == b[1..][..i];
    }
  }

  lemma SmallerStrings(a: string, b: string)
    ensures Less(Str(Some(a)), Str(Some(b))) <==> exists i: nat :: StringBefore(a, b, i)
    ensures Less(Str(None), Str(Some(b)))
  {
    StrLessIff(a, b);
  }

  // The first i entries agree, and then the key of a is smaller, or the value at the same key.
  predicate EntryBefore(xs: seq<Entry>, ys: seq<Entry>, i: nat) {
    && i < |xs| && i < |ys| && xs[..i] == ys[..i]
    && (KeyBefore(xs[i].key, ys[i].key) || (xs[i].key == ys[i].key && Less(xs[i].value, ys[i].value)))
  }

  predicate KeyBefore(a: Key, b: Key) {
    (a.Index? && b.Index? && a.i < b.i) || (a.Name? && b.Name? && StrLess(a.s, b.s)) || (a.Index? && b.Name?)
  }

  // Fewer entries come first; as many are compared entry by entry.
  lemma SmallerContainers(a: Value, b: Value)
    requires (a.Array? && b.Array?) || (a.Object? && b.Object?)
    ensures |a.entries| != |b.entries| ==> (Less(a, b) <==> |a.entries| < |b.entries|)
    ensures |a.entries| == |b.entries| ==> (Less(a, b) <==> exists i: nat :: EntryBefore(a.entries, b.entries, i))
  {
    hide EntryBefore;
    if |a.entries| == |b.entries| {
      EntriesLessIff(a.entries, b.entries);
    }
  }

  lemma {:induction false} EntriesLessIff(xs: seq<Entry>, ys: seq<Entry>)
    requires |xs| == |ys|
    ensures EntriesLess(xs, ys) <==> exists i: nat :: EntryBefore(xs, ys, i)
  {
    if xs != [] {
      var x, y := xs[0], ys[0];
      KeyTrichotomy(x.key, y.key);
      Trichotomy(x.value, y.value);
      assert EntryBefore(xs, ys, 0) <==> PairLess(xs, ys);
      hide EntryBefore, PairLess, KeyLess;
      if x == y {
        EntriesLessIff(xs[1..], ys[1..]);
        forall i: nat ensures EntryBefore(xs[1..], ys[1..], i) <==> EntryBefore(xs, ys, i + 1) {
          EntryBeforeStep(xs, ys, i);
        }
        if exists i: nat :: EntryBefore(xs, ys, i) {
          var i: nat :| EntryBefore(xs, ys, i);
          assert i > 0 && EntryBefore(xs[1..], ys[1..], i - 1);
        }
        if exists i: nat :: EntryBefore(xs[1..], ys[1..], i) {
          var i: nat :| EntryBefore(xs[1..], ys[1..], i);
          assert EntryBefore(xs, ys, i + 1);
        }
      } else {
        forall i: nat | EntryBefore(xs, ys, i) ensures i == 0 {
          FirstAgrees(xs, ys, i);
        }
      }
    }
  }

  lemma EntryBeforeStep(xs: seq<Entry>, ys: seq<Entry>, i: nat)
    requires xs != [] && ys != [] && xs[0] == ys[0]
    ensures EntryBefore(xs[1..], ys[1..], i) <==> EntryBefore(xs, ys, i + 1)
  {
    if i + 1 < |xs| && i + 1 < |ys| {
      assert xs[..i + 1] == [xs[0]] + xs[1..][..i] && ys[..i + 1] == [ys[0]] + ys[1..][..i];
      assert xs[..i + 1][1..] == xs[1..][..i] && ys[..i + 1][1..] == ys[1..][..i];
    }
  }
}
