// Slots inside a value tree. A Value* that the reader keeps on its node stack is the path of
// keys from the root to that slot; writing through the pointer is Set.

module JsonPaths {
  import opened JsonValue

  type Path = seq<Key>

  ghost predicate IsMap(v: Value) { v.IsContainer() && Sorted(v.entries) }

  lemma EmptyIsMap()
    ensures IsMap(Object([])) && IsMap(Array([]))
  {}

  lemma WithIsMap(v: Value, k: Key, w: Value)
    requires IsMap(v)
    ensures IsMap(With(v, k, w)) && (With(v, k, w).Object? <==> v.Object?)
  {
    PutSorted(v.entries, k, w);
  }

  ghost predicate HasSlot(v: Value, p: Path)
    decreases |p|
  {
    p == [] || (IsMap(v) && Has(v.entries, p[0]) && HasSlot(At(v, p[0]), p[1..]))
  }

  function Get(v: Value, p: Path): Value
    requires HasSlot(v, p)
    decreases |p|
  {
    if p == [] then v else Get(At(v, p[0]), p[1..])
  }

  function Set(v: Value, p: Path, w: Value): Value
    requires HasSlot(v, p)
    decreases |p|
  {
    if p == [] then w else With(v, p[0], Set(At(v, p[0]), p[1..], w))
  }

  lemma {:induction false} GetSet(v: Value, p: Path, w: Value)
    requires HasSlot(v, p)
    ensures HasSlot(Set(v, p, w), p) && Get(Set(v, p, w), p) == w
    decreases |p|
  {
    if p != [] {
      GetSet(At(v, p[0]), p[1..], w);
      LookupPut(v.entries, p[0], Set(At(v, p[0]), p[1..], w));
      PutSorted(v.entries, p[0], Set(At(v, p[0]), p[1..], w));
    }
  }

  lemma {:induction false} SetGet(v: Value, p: Path)
    requires HasSlot(v, p)
    ensures Set(v, p, Get(v, p)) == v
    decreases |p|
  {
    if p != [] {
      SetGet(At(v, p[0]), p[1..]);
      PutSame(v.entries, p[0]);
    }
  }

  lemma {:induction false} SetSet(v: Value, p: Path, w: Value, x: Value)
    requires HasSlot(v, p)
    ensures HasSlot(Set(v, p, w), p) && Set(Set(v, p, w), p, x) == Set(v, p, x)
    decreases |p|
  {
    if p != [] {
      var c := At(v, p[0]);
      GetSet(v, p, w);
      SetSet(c, p[1..], w, x);
      LookupPut(v.entries, p[0], Set(c, p[1..], w));
      PutPut(v.entries, p[0], Set(c, p[1..], w), Set(c, p[1..], x));
    }
  }

  // Writing into a child slot is writing the changed container into its own slot.
  lemma {:induction false} SetChild(v: Value, p: Path, k: Key, w: Value)
    requires HasSlot(v, p) && IsMap(Get(v, p)) && Has(Get(v, p).entries, k)
    ensures HasSlot(v, p + [k]) && Get(v, p + [k]) == At(Get(v, p), k)
    ensures Set(v, p + [k], w) == Set(v, p, With(Get(v, p), k, w))
    decreases |p|
  {
    var q := p + [k];
    if p == [] {
      assert q[1..] == [];
    } else {
      assert q[1..] == p[1..] + [k];
      SetChild(At(v, p[0]), p[1..], k, w);
    }
  }

  // operator[] makes the slot exist without changing what is read or written through it.
  lemma ResolveSlot(v: Value, k: Key, w: Value)
    requires IsMap(v)
    ensures IsMap(Resolve(v, k)) && IsMap(With(v, k, w))
    ensures Has(Resolve(v, k).entries, k)
    ensures At(Resolve(v, k), k) == At(v, k)
    ensures With(Resolve(v, k), k, w) == With(v, k, w)
  {
    PutSorted(v.entries, k, w);
    if !Has(v.entries, k) {
      PutSorted(v.entries, k, Null);
      LookupMissing(v.entries, k);
      LookupPut(v.entries, k, Null);
      PutPut(v.entries, k, Null, w);
    }
  }

  // Storing w in slot k of the container at path p, by way of the child's own path.
  lemma StoreInChild(root: Value, p: Path, c: Value, k: Key, w: Value)
    requires HasSlot(root, p) && IsMap(c)
    ensures var r := Set(root, p, Resolve(c, k));
            HasSlot(r, p + [k]) && Get(r, p + [k]) == At(c, k) &&
            Set(r, p + [k], w) == Set(root, p, With(c, k, w))
  {
    var d := Resolve(c, k);
    ResolveSlot(c, k, w);
    GetSet(root, p, d);
    SetChild(Set(root, p, d), p, k, w);
    SetSet(root, p, d, With(d, k, w));
  }
}
