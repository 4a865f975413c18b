// cListObject and cListBase: a doubly linked list whose links are kept in the objects themselves.

module ObjectList {

  class ListObject {
    var prev: ListObject?
    var next: ListObject?

    constructor ()
      ensures prev == null && next == null
    {
      prev, next := null, null;
    }

    method Append(item: ListObject)
      modifies this`next, item`prev
      ensures next == item && item.prev == this
    {
      next := item;
      item.prev := this;
    }

    method Insert(item: ListObject)
      modifies this`prev, item`next
      ensures prev == item && item.next == this
    {
      prev := item;
      item.next := this;
    }

    // Leaves the rest of the chain s a chain and the object by itself.
    method Unlink(ghost s: seq<ListObject>, ghost k: nat)
      requires IsChain(s) && k < |s| && s[k] == this
      modifies s
      ensures prev == null && next == null && IsChain(RemoveAt(s, k))
    {
      assert s[k].next == At(s, k + 1) && s[k].prev == At(s, k - 1);
      if next != null {
        next.prev := prev;
      }
      if prev != null {
        prev.next := next;
      }
      next, prev := null, null;
      assert LinkedOut(s, k);
      RemoveChain(s, k);
    }

    // The number of objects in front of this one.
    method Index(ghost s: seq<ListObject>) returns (i: nat)
      requires IsChain(s) && this in s
      ensures i < |s| && s[i] == this
    {
      ghost var k := IndexOf(s, this);
      assert s[k].prev == At(s, k - 1);
      var p := prev;
      i := 0;
      while p != null
        invariant i <= k
        invariant p == At(s, k - 1 - i)
        decreases k - i
      {
        assert s[k - 1 - i].prev == At(s, k - 2 - i);
        i := i + 1;
        p := p.prev;
      }
    }
  }

  // ----- chains

  ghost predicate Distinct(s: seq<ListObject>) {
    forall i, j :: 0 <= i < j < |s| ==> s[i] != s[j]
  }

  // Forward along next and backward along prev, the objects of s in order.
  ghost predicate IsChain(s: seq<ListObject>)
    reads s
  {
    && Distinct(s)
    && (forall i {:trigger s[i].prev} :: 0 <= i < |s| ==> s[i].prev == At(s, i - 1))
    && (forall i {:trigger s[i].next} :: 0 <= i < |s| ==> s[i].next == At(s, i + 1))
  }

  lemma ChainIsDistinct(s: seq<ListObject>)
    requires IsChain(s)
    ensures Distinct(s)
  {}

  lemma EmptyChain()
    ensures IsChain([])
  {}

  // The object at a position, null outside.
  ghost function At(s: seq<ListObject>, i: int): ListObject? {
    if 0 <= i < |s| then s[i] else null
  }

  ghost function IndexOf(s: seq<ListObject>, x: ListObject): (k: nat)
    requires x in s
    ensures k < |s| && s[k] == x
  {
    var k :| 0 <= k < |s| && s[k] == x;
    k
  }

  function RemoveAt<T>(s: seq<T>, k: nat): seq<T>
    requires k < |s|
  {
    s[..k] + s[k + 1..]
  }

  function InsertAt<T>(s: seq<T>, k: nat, x: T): seq<T>
    requires k <= |s|
  {
    s[..k] + [x] + s[k..]
  }

  // Taken out at f and put in again at t.
  function Moved<T>(s: seq<T>, f: nat, t: nat): seq<T>
    requires f < |s| && t < |s|
  {
    InsertAt(RemoveAt(s, f), t, s[f])
  }

  // Moving rearranges, puts the object where the other one was, keeps the order of all others,
  // and is undone by moving back.
  lemma MovedProperties<T>(s: seq<T>, f: nat, t: nat)
    requires f < |s| && t < |s|
    ensures multiset(Moved(s, f, t)) == multiset(s)
    ensures Moved(s, f, t)[t] == s[f] && RemoveAt(Moved(s, f, t), t) == RemoveAt(s, f)
    ensures Moved(Moved(s, f, t), t, f) == s
  {
    hide InsertAt;
    var r := RemoveAt(s, f);
    RemoveAtMultiset(s, f);
    InsertAtProperties(r, t, s[f]);
    assert InsertAt(r, f, s[f]) == s by { PutBack(s, f); }
  }

  lemma InsertAtProperties<T>(r: seq<T>, t: nat, x: T)
    requires t <= |r|
    ensures |InsertAt(r, t, x)| == |r| + 1 && InsertAt(r, t, x)[t] == x
    ensures RemoveAt(InsertAt(r, t, x), t) == r
    ensures multiset(InsertAt(r, t, x)) == multiset(r) + multiset{x}
  {
    assert r == r[..t] + r[t..];
  }

  lemma PutBack<T>(s: seq<T>, f: nat)
    requires f < |s|
    ensures InsertAt(RemoveAt(s, f), f, s[f]) == s
  {}

  // No chain runs through an object linked to itself, as Move leaves it when both are the same.
  lemma SelfLinkedIsLost(s: seq<ListObject>, x: ListObject)
    requires IsChain(s) && (x.next == x || x.prev == x)
    ensures x !in s
  {
    forall i: int | 0 <= i < |s| ensures s[i] != x {
      assert s[i].next == At(s, i + 1) != s[i] && s[i].prev == At(s, i - 1) != s[i];
    }
  }

  lemma IndexIsUnique(s: seq<ListObject>, k: nat)
    requires Distinct(s) && k < |s|
    ensures IndexOf(s, s[k]) == k
  {}

  lemma PositionOf(s: seq<ListObject>, k: nat, x: ListObject?)
    requires Distinct(s) && k <= |s| && x == At(s, k)
    ensures x == null <==> k == |s|
    ensures x != null ==> x in s && IndexOf(s, x) == k
  {}

  lemma RemoveAtMembers(s: seq<ListObject>, k: nat)
    requires Distinct(s) && k < |s|
    ensures Distinct(RemoveAt(s, k)) && forall x :: x in RemoveAt(s, k) <==> x in s && x != s[k]
  {
    forall x | x in s && x != s[k] ensures x in RemoveAt(s, k) {
      var i :| 0 <= i < |s| && s[i] == x;
      assert RemoveAt(s, k)[if i < k then i else i - 1] == x;
    }
  }

  // With s[f] gone, position t is where s[t] was if it came before s[f], its successor otherwise.
  lemma Destination(s: seq<ListObject>, f: nat, t: nat)
    requires Distinct(s) && f < |s| && t < |s|
    ensures f != t ==> At(RemoveAt(s, f), t) == At(s, if f < t then t + 1 else t)
    ensures |RemoveAt(s, f)| == |s| - 1
  {}

  lemma AllOf(done: seq<ListObject>, rest: seq<ListObject>, order: seq<ListObject>, i: nat, s: seq<ListObject>)
    requires i <= |order| && done == order[..i] && multiset(rest) == multiset(order[i..])
    requires multiset(order) == multiset(s)
    ensures forall j :: 0 <= j < |done| ==> done[j] in s
    ensures forall j :: 0 <= j < |rest| ==> rest[j] in s
  {
    assert order == done + order[i..] && multiset(order) == multiset(done) + multiset(order[i..]);
    forall j | 0 <= j < |rest| ensures rest[j] in s {
      assert rest[j] in multiset(order[i..]) && rest[j] in multiset(s);
    }
    forall j | 0 <= j < |done| ensures done[j] in s {
      assert done[j] == order[j] && order[j] in multiset(s);
    }
  }

  lemma RemoveAtMultiset<T>(s: seq<T>, k: nat)
    requires k < |s|
    ensures multiset(RemoveAt(s, k)) == multiset(s) - multiset{s[k]}
  {
    assert s == s[..k] + [s[k]] + s[k + 1..];
  }

  // The chain s with the links around position k redirected to x.
  ghost predicate LinkedIn(s: seq<ListObject>, k: nat, x: ListObject)
    requires k <= |s|
    reads s, x
  {
    && x.prev == At(s, k - 1) && x.next == At(s, k)
    && (forall i {:trigger s[i].next} :: 0 <= i < |s| ==> s[i].next == if i == k - 1 then x else At(s, i + 1))
    && (forall i {:trigger s[i].prev} :: 0 <= i < |s| ==> s[i].prev == if i == k then x else At(s, i - 1))
  }

  // The chain s with the links of its neighbours led past s[k].
  ghost predicate LinkedOut(s: seq<ListObject>, k: nat)
    requires k < |s|
    reads s
  {
    && (forall i {:trigger s[i].next} :: 0 <= i < |s| && i != k ==>
          s[i].next == At(s, if i == k - 1 then k + 1 else i + 1))
    && (forall i {:trigger s[i].prev} :: 0 <= i < |s| && i != k ==>
          s[i].prev == At(s, if i == k + 1 then k - 1 else i - 1))
  }

  lemma RemoveChain(s: seq<ListObject>, k: nat)
    requires Distinct(s) && k < |s| && LinkedOut(s, k)
    ensures IsChain(RemoveAt(s, k))
  {
    RemoveAtMembers(s, k);
    forall i: int {:trigger At(RemoveAt(s, k), i)}
      ensures At(RemoveAt(s, k), i) == At(s, if i < k then i else i + 1)
    {
      AtRemoved(s, k, i);
    }
    hide RemoveAt, Distinct;
    var t := RemoveAt(s, k);
    forall i: int | 0 <= i < |t| ensures t[i].prev == At(t, i - 1) && t[i].next == At(t, i + 1) {
      assert t[i] == At(t, i);
    }
  }

  lemma AtRemoved(s: seq<ListObject>, k: nat, i: int)
    requires k < |s|
    ensures At(RemoveAt(s, k), i) == At(s, if i < k then i else i + 1)
  {}

  lemma InsertChain(s: seq<ListObject>, k: nat, x: ListObject)
    requires Distinct(s) && k <= |s| && x !in s && LinkedIn(s, k, x)
    ensures IsChain(InsertAt(s, k, x))
    ensures At(InsertAt(s, k, x), 0) == if k == 0 then x else At(s, 0)
    ensures |InsertAt(s, k, x)| == |s| + 1
    ensures At(InsertAt(s, k, x), |s|) == if k == |s| then x else At(s, |s| - 1)
  {
    var t := InsertAt(s, k, x);
    forall i | 0 <= i < |t| ensures t[i].prev == At(t, i - 1) && t[i].next == At(t, i + 1) {
      assert t[i] == if i < k then s[i] else if i == k then x else s[i - 1];
    }
  }

  ghost predicate Apart(s: seq<ListObject>, t: seq<ListObject>) {
    (forall i :: 0 <= i < |s| ==> s[i] !in t) && (forall i :: 0 <= i < |t| ==> t[i] !in s)
  }

  lemma StillApart(s: seq<ListObject>, rest: seq<ListObject>, x: ListObject, left: seq<ListObject>)
    requires Apart(s, rest) && forall y :: y in left <==> y in rest && y != x
    requires x in rest
    ensures Apart(s + [x], left)
  {
    forall i | 0 <= i < |left| ensures left[i] !in s + [x] {
      assert left[i] in rest;
      var j :| 0 <= j < |rest| && rest[j] == left[i];
    }
  }

  lemma NothingApart(s: seq<ListObject>)
    ensures Apart([], s)
  {}

  // One object of order goes over: what is left is a permutation of what is left of order.
  lemma SortRound(order: seq<ListObject>, i: nat, rest: seq<ListObject>)
    requires i < |order| && multiset(rest) == multiset(order[i..]) && Distinct(rest)
    ensures order[i] in rest
    ensures var left := RemoveAt(rest, IndexOf(rest, order[i]));
            multiset(left) == multiset(order[i + 1..]) && Distinct(left) &&
            forall x :: x in left <==> x in rest && x != order[i]
  {
    assert order[i..] == [order[i]] + order[i + 1..];
    assert order[i] in multiset(order[i..]);
    RemoveAtMultiset(rest, IndexOf(rest, order[i]));
    RemoveAtMembers(rest, IndexOf(rest, order[i]));
  }

  class ListBase {
    var objects: ListObject?
    var lastObject: ListObject?
    var count: int
    ghost var nodes: seq<ListObject>

    constructor ()
      ensures Valid() && nodes == []
    {
      objects, lastObject, count, nodes := null, null, 0, [];
    }

    ghost predicate Linked()
      reads this, nodes
    {
      && IsChain(nodes)
      && objects == At(nodes, 0)
      && lastObject == At(nodes, |nodes| - 1)
    }

    ghost predicate Valid()
      reads this, nodes
    {
      Linked() && count == |nodes|
    }

    method Add(item: ListObject, after: ListObject?)
      requires Linked() && item !in nodes && item.prev == null && item.next == null
      requires after != null ==> after in nodes
      modifies this, nodes, item
      ensures Linked() && count == old(count) + 1
      ensures nodes ==
              InsertAt(old(nodes), if after == null then |old(nodes)| else IndexOf(old(nodes), after) + 1, item)
    {
      hide InsertAt, IndexOf;
      ChainIsDistinct(nodes);
      ghost var k := if after == null then |nodes| else IndexOf(nodes, after) + 1;
      assert 0 < k ==> nodes[k - 1].next == At(nodes, k);
      if after != null && after != lastObject {
        after.next.Insert(item);
        after.Append(item);
      } else {
        if lastObject != null {
          lastObject.Append(item);
        } else {
          objects := item;
        }
        lastObject := item;
      }
      count := count + 1;
      assert LinkedIn(nodes, k, item);
      assert objects == (if k == 0 then item else At(nodes, 0));
      assert lastObject == (if k == |nodes| then item else At(nodes, |nodes| - 1));
      hide LinkedIn, IsChain, Distinct;
      InsertChain(nodes, k, item);
      nodes := InsertAt(nodes, k, item);
    }

    method Ins(item: ListObject, before: ListObject?)
      requires Linked() && item !in nodes && item.prev == null && item.next == null
      requires before != null ==> before in nodes
      modifies this, nodes, item
      ensures Linked() && count == old(count) + 1
      ensures nodes == InsertAt(old(nodes), if before == null then 0 else IndexOf(old(nodes), before), item)
    {
      hide InsertAt, IndexOf;
      ChainIsDistinct(nodes);
      ghost var k := if before == null then 0 else IndexOf(nodes, before);
      if before != null && before != objects {
        assert nodes[k].prev == At(nodes, k - 1);
        before.prev.Append(item);
        before.Insert(item);
      } else {
        if objects != null {
          objects.Insert(item);
        } else {
          lastObject := item;
        }
        objects := item;
      }
      count := count + 1;
      assert LinkedIn(nodes, k, item);
      assert objects == (if k == 0 then item else At(nodes, 0));
      assert lastObject == (if k == |nodes| then item else At(nodes, |nodes| - 1));
      hide LinkedIn, IsChain, Distinct;
      InsertChain(nodes, k, item);
      nodes := InsertAt(nodes, k, item);
    }

    // Takes an object out of the chain: the common beginning of Del and Move.
    method Detach(item: ListObject)
      requires Linked() && item in nodes
      modifies this, nodes
      ensures Linked() && nodes == RemoveAt(old(nodes), IndexOf(old(nodes), item))
      ensures item.prev == null && item.next == null && count == old(count)
    {
      ghost var k: int := IndexOf(nodes, item);
      assert nodes[k].next == At(nodes, k + 1) && nodes[k].prev == At(nodes, k - 1);
      if item == objects {
        objects := item.next;
      }
      if item == lastObject {
        lastObject := item.prev;
      }
      item.Unlink(nodes, k);
      nodes := RemoveAt(nodes, k);
    }

    // The chain stays well formed in either case, but count follows only a deletion.
    method Del(item: ListObject, deleteObject: bool)
      requires Linked() && item in nodes
      modifies this, nodes
      ensures Linked() && nodes == RemoveAt(old(nodes), IndexOf(old(nodes), item))
      ensures count == old(count) - (if deleteObject then 1 else 0)
      ensures item.prev == null && item.next == null
      ensures old(Valid()) ==> (Valid() <==> deleteObject)
    {
      Detach(item);
      if deleteObject {
        count := count - 1;
      }
    }

    // The object is taken out and put in at the old position of the other one. Moved onto itself
    // it is lost: out of the chain, linked to itself, and still counted.
    method Move(from: ListObject?, to: ListObject?)
      requires Linked()
      requires (from != null ==> from in nodes) && (to != null ==> to in nodes)
      modifies this, nodes
      ensures Linked() && count == old(count)
      ensures nodes == if from == null || to == null then old(nodes)
                       else if from == to then RemoveAt(old(nodes), IndexOf(old(nodes), from))
                       else Moved(old(nodes), IndexOf(old(nodes), from), IndexOf(old(nodes), to))
      ensures from != null && from == to ==> from.next == from && from.prev == from
      ensures old(Valid()) ==> (Valid() <==> from == null || from != to)
    {
      if from != null && to != null {
        ghost var f, t, s := IndexOf(nodes, from), IndexOf(nodes, to), nodes;
        var dest := Target(from, to);
        ChainIsDistinct(s);
        RemoveAtMembers(s, f);
        hide IsChain, RemoveAt, InsertAt, Distinct, IndexOf;
        Detach(from);
        if from != to {
          ChainIsDistinct(nodes);
          PositionOf(nodes, t, dest);
        }
        Attach(from, dest);
      }
    }

    // The object that will be behind from: the one at the position of to when from is gone.
    method Target(from: ListObject, to: ListObject) returns (dest: ListObject?)
      requires Linked() && from in nodes && to in nodes
      ensures dest == if from == to then from
                      else At(RemoveAt(nodes, IndexOf(nodes, from)), IndexOf(nodes, to))
    {
      ghost var f, t := IndexOf(nodes, from), IndexOf(nodes, to);
      dest := to;
      var indexFrom := from.Index(nodes);
      var indexTo := to.Index(nodes);
      IndexIsUnique(nodes, indexFrom);
      IndexIsUnique(nodes, indexTo);
      assert nodes[t].next == At(nodes, t + 1);
      if indexFrom < indexTo {
        dest := to.next;
      }
      Destination(nodes, f, t);
    }

    // The second half of Move: in front of dest, or at the end. dest is the object itself when it
    // was to be moved onto itself.
    method Attach(from: ListObject, dest: ListObject?)
      requires Linked() && (nodes != [] || dest == from)
      requires from !in nodes && from.prev == null && from.next == null
      requires dest == null || dest == from || dest in nodes
      modifies this, nodes, from
      ensures Linked() && count == old(count)
      ensures nodes == if dest == from then old(nodes)
                       else InsertAt(old(nodes), if dest == null then |old(nodes)| else IndexOf(old(nodes), dest), from)
      ensures dest == from ==> from.next == from && from.prev == from
    {
      ghost var k: int := if dest == null || dest == from then |nodes| else IndexOf(nodes, dest);
      assert k < |nodes| ==> nodes[k].prev == At(nodes, k - 1);
      if dest != null {
        if dest.prev != null {
          dest.prev.Append(from);
        }
        from.Append(dest);
      } else {
        lastObject.Append(from);
        lastObject := from;
      }
      if from.prev == null {
        objects := from;
      }
      if from != dest {
        assert LinkedIn(nodes, k, from);
        InsertChain(nodes, k, from);
        nodes := InsertAt(nodes, k, from);
      }
    }

    method MoveAt(from: int, to: int)
      requires Linked()
      modifies this, nodes
      ensures Linked() && count == old(count)
      ensures nodes == if !(0 <= from < |old(nodes)| && 0 <= to < |old(nodes)|) then old(nodes)
                       else if from == to then RemoveAt(old(nodes), from)
                       else Moved(old(nodes), from, to)
    {
      ChainIsDistinct(nodes);
      hide IsChain;
      if 0 <= from < |nodes| { IndexIsUnique(nodes, from); }
      if 0 <= to < |nodes| { IndexIsUnique(nodes, to); }
      var f := Get(from);
      var t := Get(to);
      Move(f, t);
    }

    // delete on every object, each exactly once and in order: freed
    method Clear() returns (ghost freed: seq<ListObject>)
      requires Linked()
      modifies this
      ensures Valid() && nodes == [] && freed == old(nodes)
    {
      freed := [];
      while objects != null
        invariant |freed| <= |nodes| && freed == nodes[..|freed|]
        invariant nodes == old(nodes) && IsChain(nodes) && objects == At(nodes, |freed|)
        decreases |nodes| - |freed|
      {
        assert nodes[|freed|].next == At(nodes, |freed| + 1);
        var item := objects.next;
        freed := freed + [objects];
        objects := item;
      }
      objects, lastObject, count := null, null, 0;
      nodes := [];
    }

    // One round of Sort: from the chain rest to the end of this one.
    method MoveOver(item: ListObject, ghost rest: seq<ListObject>) returns (ghost left: seq<ListObject>)
      requires Linked() && IsChain(rest) && item in rest
      requires Apart(nodes, rest)
      modifies this, nodes, rest
      ensures Linked() && nodes == old(nodes) + [item] && count == old(count)
      ensures left == RemoveAt(rest, IndexOf(rest, item)) && IsChain(left)
    {
      hide IsChain, Distinct, RemoveAt;
      ghost var k := IndexOf(rest, item);
      ghost var before := nodes;
      assert item !in nodes;
      RemoveAtMembers(rest, k) by { ChainIsDistinct(rest); }
      item.Unlink(rest, k);
      left := RemoveAt(rest, k);
      assert Apart(nodes, left);
      count := count - 1;
      Add(item, null);
      assert InsertAt(before, |before|, item) == before + [item];
    }

    // The walk that fills the array.
    method Collect() returns (a: array<ListObject?>)
      requires Valid()
      ensures fresh(a) && a.Length == |nodes| && forall i :: 0 <= i < |nodes| ==> a[i] == nodes[i]
    {
      a := new ListObject?[count];
      var object_, i := objects, 0;
      while object_ != null && i < count
        invariant 0 <= i <= count && object_ == At(nodes, i)
        invariant forall j :: 0 <= j < i ==> a[j] == nodes[j]
        decreases count - i
      {
        assert nodes[i].next == At(nodes, i + 1);
        a[i] := object_;
        i := i + 1;
        object_ := object_.next;
      }
    }

    // qsort makes some permutation of the array, given as order.
    method Sort(order: seq<ListObject>)
      requires Valid() && multiset(order) == multiset(nodes)
      modifies this, nodes
      ensures Valid() && nodes == order
    {
      var a := Collect();
      QSort(a, order);
      Relink(a, order);
    }

    // The array is rearranged, its elements being those of order.
    method QSort(a: array<ListObject?>, order: seq<ListObject>)
      requires a.Length == |nodes| && (forall i :: 0 <= i < |nodes| ==> a[i] == nodes[i])
      requires multiset(order) == multiset(nodes)
      modifies a
      ensures |order| == a.Length && forall i :: 0 <= i < |order| ==> a[i] == order[i]
    {
      assert |order| == |multiset(order)| == |multiset(nodes)|;
      var i := 0;
      while i < a.Length
        invariant 0 <= i <= a.Length == |order|
        invariant forall j :: 0 <= j < i ==> a[j] == order[j]
      {
        a[i] := order[i];
        i := i + 1;
      }
    }

    // The objects not yet moved over always form a chain of their own.
    method Relink(a: array<ListObject?>, ghost order: seq<ListObject>)
      requires Valid() && multiset(order) == multiset(nodes)
      requires a.Length == |order| && forall i :: 0 <= i < |order| ==> a[i] == order[i]
      modifies this, nodes
      ensures Valid() && nodes == order
    {
      var n := count;
      ghost var rest := nodes;
      assert |order| == |multiset(order)| == n;
      ChainIsDistinct(nodes);
      hide IsChain, Distinct, RemoveAt, IndexOf, Apart;
      objects, lastObject := null, null;
      nodes := [];
      EmptyChain();
      NothingApart(rest);
      var i := 0;
      assert order[i..] == order;
      assert Linked();
      hide Linked;
      while i < n
        invariant 0 <= i <= n == count
        invariant Linked() && nodes == order[..i]
        invariant IsChain(rest) && Distinct(rest) && multiset(rest) == multiset(order[i..])
        invariant Apart(nodes, rest)
      {
        AllOf(nodes, rest, order, i, old(nodes));
        rest := RelinkOne(a[i], order, i, rest);
        i := i + 1;
      }
      assert order[..i] == order;
    }

    method RelinkOne(item: ListObject, ghost order: seq<ListObject>, ghost i: nat, ghost rest: seq<ListObject>)
      returns (ghost left: seq<ListObject>)
      requires Linked() && i < |order| && nodes == order[..i] && item == order[i]
      requires IsChain(rest) && Distinct(rest) && multiset(rest) == multiset(order[i..]) && Apart(nodes, rest)
      modifies this, nodes, rest
      ensures Linked() && nodes == order[..i + 1] && count == old(count)
      ensures IsChain(left) && Distinct(left) && multiset(left) == multiset(order[i + 1..]) && Apart(nodes, left)
    {
      hide IsChain, Distinct, RemoveAt, IndexOf, Apart, Linked;
      SortRound(order, i, rest);
      assert order[..i] + [item] == order[..i + 1];
      StillApart(nodes, rest, item, RemoveAt(rest, IndexOf(rest, item)));
      left := MoveOver(item, rest);
    }

    // The object at a position, null for any other index.
    method Get(index: int) returns (item: ListObject?)
      requires Linked()
      ensures item == At(nodes, index)
    {
      if index < 0 {
        return null;
      }
      item := objects;
      var i := index;
      while item != null && i > 0
        invariant 0 <= i <= index
        invariant item == At(nodes, index - i)
        decreases i
      {
        assert nodes[index - i].next == At(nodes, index - i + 1);
        i := i - 1;
        item := item.next;
      }
    }
  }
}
