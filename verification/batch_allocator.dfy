// BatchAllocator: objects carved from pages, with the list of released objects kept inside the objects.

module BatchAllocation {
  import opened Division

  // AllocatedType *: an object is known by its page and its place in the page's buffer
  datatype Pointer = Null | At(batch: Batch, offset: nat)

  // A place of the buffer holds the link of a released object or what the caller put there.
  datatype Cell = Link(next: Pointer) | Content(value: int)

  class Batch {
    var next: Batch?
    var used: nat
    const end: nat
    const buffer: array<Cell>

    // allocateBatch: room for every object, but the end is counted in places
    constructor (objectPerAllocation: Positive, objectsPerPage: nat)
      ensures next == null && used == 0 && end == objectsPerPage && fresh(buffer)
      ensures buffer.Length == objectPerAllocation * objectsPerPage
    {
      next, used, end := null, 0, objectsPerPage;
      buffer := new Cell[objectPerAllocation * objectsPerPage](i => Content(0));
    }
  }

  type Positive = n: int | 0 < n witness 1

  // ----- one page

  // Where used_ is after n objects were asked of one page, the test for its end being an equality.
  function Fill(perAllocation: nat, perPage: nat, n: nat): nat {
    if n == 0 then 0
    else
      var used := Fill(perAllocation, perPage, n - 1);
      if used == perPage then used else used + perAllocation
  }

  lemma {:induction false} FillOfDivisor(a: nat, p: nat, slots: nat, n: nat)
    requires a > 0 && p == slots * a
    ensures Fill(a, p, n) == (if n < slots then n else slots) * a
  {
    if n > 0 {
      FillOfDivisor(a, p, slots, n - 1);
      SmallerFactor(n - 1, slots, a);
    }
  }

  lemma {:induction false} FillOfOther(a: nat, p: nat, n: nat)
    requires a > 0 && p % a != 0
    ensures Fill(a, p, n) == n * a
  {
    if n > 0 {
      FillOfOther(a, p, n - 1);
      if (n - 1) * a == p {
        Residue(p, a, n - 1, 0);
      }
    }
  }

  // The objects asked for lie in the memory of the page exactly if they fill it without remainder or there
  // are no more of them than places up to the end.
  lemma FillStaysIff(a: nat, p: nat, n: nat)
    requires a > 0
    ensures Fill(a, p, n) <= a * p <==> p % a == 0 || n <= p
  {
    if p % a == 0 {
      FillOfDivisor(a, p, p / a, n);
      SmallerFactor(n, p / a, a);
      AtLeast(a, p);
    } else {
      FillOfOther(a, p, n);
      SmallerFactor(p, n, a);
    }
  }

  // No run of allocations leaves the memory of the page exactly if the objects fill it without remainder.
  lemma StaysInPageIff(a: nat, p: nat)
    requires a > 0
    ensures (forall n :: Fill(a, p, n) <= a * p) <==> p % a == 0
  {
    if p % a == 0 {
      forall n
        ensures Fill(a, p, n) <= a * p
      {
        FillStaysIff(a, p, n);
      }
    } else {
      FillStaysIff(a, p, p + 1);
    }
  }

  // The pages of arrays hold objects of eight values and are asked for with the default size.
  lemma ArrayPagesOverflow()
    ensures Fill(8, 255, 256) > 8 * 255
  {
    FillStaysIff(8, 255, 256);
  }

  // After a multiple u of a, the next one is u + a.
  lemma NextMultiple(u: nat, x: nat, a: nat)
    requires a > 0 && u % a == 0 && x % a == 0
    ensures (u + a) % a == 0
    ensures x < u + a <==> x <= u
    ensures u < x <==> u + a <= x
  {
    Residue(u + a, a, u / a + 1, 0);
    SmallerFactor(u / a, x / a, a);
    SmallerFactor(x / a, u / a + 1, a);
  }

  // ----- the objects of an allocator

  // The pages, the first one current, and what is used of each; the objects ever carved from them; those
  // released, in the order of their list; those in use.
  datatype Layout = Layout(pages: seq<Batch>, usage: map<Batch, nat>, carved: set<Pointer>,
                           free: seq<Pointer>, live: set<Pointer>)

  ghost predicate Sound(l: Layout, a: Positive, p: Positive) {
    && Filled(l.pages, l.usage, a, p) && Shaped(l.pages, l.usage, l.carved, a)
    && Partitioned(l.carved, l.free, l.live) && Compact(l.pages, l.usage, |l.carved|, a, p)
  }

  // Every page has room for the same number of objects but the empty one of the start, which is the last,
  // and all pages behind the current one are full.
  ghost predicate Filled(pages: seq<Batch>, usage: map<Batch, nat>, a: Positive, p: Positive) {
    && |pages| > 0
    && (forall i, j | 0 <= i < j < |pages| :: pages[i] != pages[j] && pages[i].buffer != pages[j].buffer)
    && (forall i | 0 <= i < |pages| ::
          && pages[i] in usage && usage[pages[i]] % a == 0
          && HasRoom(pages[i], a, if i + 1 < |pages| then p else 0)
          && (p % a == 0 ==> usage[pages[i]] <= pages[i].end)
          && (i > 0 || |pages| == 1 ==> usage[pages[i]] == pages[i].end))
  }

  ghost predicate HasRoom(b: Batch, a: nat, end: nat) {
    b.end == end && b.buffer.Length == a * end
  }

  // A page is current from its first object on.
  ghost predicate Begun(pages: seq<Batch>, usage: map<Batch, nat>) {
    |pages| > 0 && pages[0] in usage && (|pages| > 1 ==> usage[pages[0]] > 0)
  }

  // The carved objects are the multiples of the object size below the used part of each page.
  ghost predicate Shaped(pages: seq<Batch>, usage: map<Batch, nat>, carved: set<Pointer>, a: Positive) {
    && (forall o | o in carved :: o.At? && o.batch in pages && Carved(usage, a, o.batch, o.offset))
    && (forall b, x: nat | b in pages && Carved(usage, a, b, x) :: At(b, x) in carved)
  }

  ghost predicate Carved(usage: map<Batch, nat>, a: Positive, b: Batch, x: nat) {
    b in usage && x % a == 0 && x < usage[b]
  }

  // What was carved is in use or released, and not both.
  ghost predicate Partitioned(carved: set<Pointer>, free: seq<Pointer>, live: set<Pointer>) {
    && live <= carved
    && (forall o | o in carved :: o in live || o in free)
    && (forall o | o in free :: o in carved && o !in live)
    && (forall i, j | 0 <= i < j < |free| :: free[i] != free[j])
    && |carved| == |live| + |free|
  }

  // No page was taken before it was needed: the pages have room for the carved objects and what is left
  // of the current page.
  ghost predicate Compact(pages: seq<Batch>, usage: map<Batch, nat>, carved: nat, a: Positive, p: Positive) {
    && |pages| > 0 && pages[0] in usage
    && carved * a + (pages[0].end - usage[pages[0]]) == (|pages| - 1) * p
  }

  ghost function Reused(l: Layout): Layout
    requires l.free != []
  {
    l.(free := l.free[1..], live := l.live + {l.free[0]})
  }

  lemma ReusedIsSound(l: Layout, a: Positive, p: Positive)
    requires Sound(l, a, p) && l.free != []
    ensures Sound(Reused(l), a, p)
  {
    hide Filled, Shaped, Compact;
    assert l.free == [l.free[0]] + l.free[1..];
  }

  ghost function Paged(l: Layout, b: Batch): Layout {
    l.(pages := [b] + l.pages, usage := l.usage[b := 0])
  }

  lemma PagedIsSound(l: Layout, a: Positive, p: Positive, b: Batch)
    requires Sound(l, a, p) && l.usage[l.pages[0]] == l.pages[0].end
    requires HasRoom(b, a, p) && forall q | q in l.pages :: q != b && q.buffer != b.buffer
    ensures Sound(Paged(l, b), a, p)
  {
    hide Filled, Shaped, Partitioned;
    PagedFilled(l.pages, l.usage, a, p, b);
    PagedShaped(l, a, b);
  }

  lemma PagedFilled(pages: seq<Batch>, usage: map<Batch, nat>, a: Positive, p: Positive, b: Batch)
    requires Filled(pages, usage, a, p) && usage[pages[0]] == pages[0].end
    requires HasRoom(b, a, p) && forall q | q in pages :: q != b && q.buffer != b.buffer
    ensures Filled([b] + pages, usage[b := 0], a, p)
  {
    hide HasRoom;
    var m := [b] + pages;
    assert forall i | 0 < i < |m| :: m[i] == pages[i - 1] && pages[i - 1] in pages;
    forall i | 0 < i < |m|
      ensures m[i] in usage && m[i] != b && usage[m[i]] % a == 0 && usage[m[i]] == m[i].end
      ensures HasRoom(m[i], a, if i + 1 < |m| then p else 0)
    {
      assert m[i] == pages[i - 1];
    }
    forall i, j | 0 <= i < j < |m|
      ensures m[i] != m[j] && m[i].buffer != m[j].buffer
    {
      assert m[j] == pages[j - 1] && (i > 0 ==> m[i] == pages[i - 1]);
    }
    assert b.end == p by {
      BeginsEmpty(b, a, p);
    }
  }

  lemma BeginsEmpty(b: Batch, a: nat, p: nat)
    requires HasRoom(b, a, p)
    ensures b.end == p
  {
  }

  lemma PagedShaped(l: Layout, a: Positive, b: Batch)
    requires Shaped(l.pages, l.usage, l.carved, a) && b !in l.pages
    ensures Shaped([b] + l.pages, l.usage[b := 0], l.carved, a)
  {
  }

  ghost function CarvedMore(l: Layout, a: Positive): Layout
    requires |l.pages| > 0 && l.pages[0] in l.usage
  {
    var b := l.pages[0];
    var o := At(b, l.usage[b]);
    l.(usage := l.usage[b := l.usage[b] + a], carved := l.carved + {o}, live := l.live + {o})
  }

  lemma CarvedMoreIsSound(l: Layout, a: Positive, p: Positive)
    requires Sound(l, a, p) && l.free == [] && l.usage[l.pages[0]] != l.pages[0].end
    ensures Sound(CarvedMore(l, a), a, p) && Begun(l.pages, CarvedMore(l, a).usage)
    ensures At(l.pages[0], l.usage[l.pages[0]]) !in l.carved
  {
    hide Shaped, Carved, Partitioned, Compact, HasRoom;
    CarvedMoreFilled(l, a, p);
    CarvedMoreShaped(l, a, p);
    CarvedMorePartitioned(l.carved, l.live, At(l.pages[0], l.usage[l.pages[0]]));
    CarvedMoreCompact(l, a, p);
  }

  lemma CarvedMoreFilled(l: Layout, a: Positive, p: Positive)
    requires Filled(l.pages, l.usage, a, p) && l.usage[l.pages[0]] != l.pages[0].end
    ensures Filled(l.pages, CarvedMore(l, a).usage, a, p)
  {
    var u := l.usage[l.pages[0]];
    assert |l.pages| > 1 && l.pages[0].end == p;
    NextMultiple(u, u, a);
    if p % a == 0 {
      NextMultiple(u, p, a);
    }
    hide HasRoom;
  }

  lemma CarvedMoreShaped(l: Layout, a: Positive, p: Positive)
    requires |l.pages| > 0 && l.pages[0] in l.usage && l.usage[l.pages[0]] % a == 0
    requires Shaped(l.pages, l.usage, l.carved, a)
    ensures Shaped(l.pages, CarvedMore(l, a).usage, CarvedMore(l, a).carved, a)
    ensures At(l.pages[0], l.usage[l.pages[0]]) !in l.carved
  {
    var m := CarvedMore(l, a);
    var u := l.usage[l.pages[0]];
    forall b, x: nat | b in l.pages && Carved(m.usage, a, b, x)
      ensures At(b, x) in m.carved
    {
      NextMultiple(u, x, a);
      assert (b == l.pages[0] && x == u) || Carved(l.usage, a, b, x);
    }
  }

  lemma CarvedMorePartitioned(carved: set<Pointer>, live: set<Pointer>, o: Pointer)
    requires Partitioned(carved, [], live) && o !in carved
    ensures Partitioned(carved + {o}, [], live + {o})
  {
  }

  lemma CarvedMoreCompact(l: Layout, a: Positive, p: Positive)
    requires Compact(l.pages, l.usage, |l.carved|, a, p)
    requires At(l.pages[0], l.usage[l.pages[0]]) !in l.carved
    ensures Compact(l.pages, CarvedMore(l, a).usage, |CarvedMore(l, a).carved|, a, p)
  {
    assert |CarvedMore(l, a).carved| == |l.carved| + 1;
    OneMore(|l.carved|, a);
  }

  ghost function Released(l: Layout, o: Pointer): Layout {
    l.(free := [o] + l.free, live := l.live - {o})
  }

  lemma ReleasedIsSound(l: Layout, a: Positive, p: Positive, o: Pointer)
    requires Sound(l, a, p) && o in l.live
    ensures Sound(Released(l, o), a, p)
  {
    hide Filled, Shaped, Compact;
  }

  // ----- what a layout tells

  lemma SecondFull(pages: seq<Batch>, usage: map<Batch, nat>, a: Positive, p: Positive)
    requires Filled(pages, usage, a, p) && |pages| > 2
    ensures p % a == 0
  {
    assert usage[pages[1]] == p;
  }

  // One page is enough, however much is used of it, if the objects do not fill it without remainder.
  lemma OnePage(pages: seq<Batch>, usage: map<Batch, nat>, carved: nat, a: Positive, p: Positive)
    requires Filled(pages, usage, a, p) && Begun(pages, usage) && Compact(pages, usage, carved, a, p)
    requires p % a != 0
    ensures |pages| == if carved == 0 then 1 else 2
    ensures usage[pages[0]] == carved * a
    ensures |pages| == 2 ==> usage[pages[1]] == 0
  {
    AtLeast(carved, a);
    if |pages| > 2 {
      SecondFull(pages, usage, a, p);
    }
  }

  lemma PageCount(pages: seq<Batch>, usage: map<Batch, nat>, carved: nat, a: Positive, p: Positive)
    requires Filled(pages, usage, a, p) && Begun(pages, usage) && Compact(pages, usage, carved, a, p)
    ensures PagesFor(|pages|, carved, a, p)
  {
    if p % a != 0 {
      OnePage(pages, usage, carved, a, p);
    } else {
      OneMore(|pages| - 2, p);
    }
  }

  lemma EndsInPage(l: Layout, a: Positive, p: Positive, o: Pointer)
    requires Filled(l.pages, l.usage, a, p) && Begun(l.pages, l.usage) && Compact(l.pages, l.usage, |l.carved|, a, p)
    requires Shaped(l.pages, l.usage, l.carved, a) && o in l.carved
    ensures o.At? && o.batch in l.pages
    ensures p % a == 0 ==> o.offset + a <= o.batch.end
    ensures p % a == 0 || |l.carved| <= p ==> InMemory(o, a)
  {
    var u := l.usage[o.batch];
    NextMultiple(u, o.offset, a);
    NextMultiple(o.offset, u, a);
    AtLeast(a, p);
    if p % a != 0 {
      OnePage(l.pages, l.usage, |l.carved|, a, p);
      SmallerFactor(p, |l.carved|, a);
    }
  }

  lemma Overflowing(l: Layout, a: Positive, p: Positive) returns (o: Pointer)
    requires Filled(l.pages, l.usage, a, p) && Begun(l.pages, l.usage) && Compact(l.pages, l.usage, |l.carved|, a, p)
    requires Shaped(l.pages, l.usage, l.carved, a) && p % a != 0 && |l.carved| > p
    ensures o in l.carved && !InMemory(o, a)
  {
    var n := |l.carved|;
    OnePage(l.pages, l.usage, n, a, p);
    SmallerFactor(p, n, a);
    OneMore(n - 1, a);
    Residue((n - 1) * a, a, n - 1, 0);
    o := At(l.pages[0], (n - 1) * a);
    assert Carved(l.usage, a, l.pages[0], (n - 1) * a);
  }

  lemma FirstUsage(l: Layout, a: Positive, p: Positive)
    requires Filled(l.pages, l.usage, a, p) && Begun(l.pages, l.usage) && Compact(l.pages, l.usage, |l.carved|, a, p)
    requires |l.pages| > 1
    ensures l.usage[l.pages[|l.pages| - 2]] == Fill(a, p, |l.carved|)
  {
    var n := |l.carved|;
    if p % a != 0 {
      OnePage(l.pages, l.usage, n, a, p);
      FillOfOther(a, p, n);
    } else {
      FillOfDivisor(a, p, p / a, n);
      FirstSlots(|l.pages|, n, l.usage[l.pages[0]], a, p);
    }
  }

  lemma FirstSlots(pages: nat, n: nat, used: nat, a: Positive, p: Positive)
    requires p % a == 0 && 0 < used <= p && pages > 1 && n * a + (p - used) == (pages - 1) * p
    ensures if pages == 2 then n * a == used && n <= p / a else n >= p / a
  {
    SmallerFactor(n, p / a, a);
    OneMore(pages - 2, p);
    AtLeast(pages - 2, p);
  }

  // ----- the allocator

  // No place of the memory belongs to both.
  ghost predicate Disjoint(o: Pointer, q: Pointer, a: Positive) {
    o.At? && q.At? && (o.batch == q.batch ==> o.offset + a <= q.offset || q.offset + a <= o.offset)
  }

  // Beside the empty page of the start, no page more than the objects need; one that they do not fill
  // without remainder never ends.
  predicate PagesFor(pages: nat, objects: nat, a: Positive, p: nat) {
    if p % a == 0 then (pages - 2) * p < objects * a <= (pages - 1) * p
    else pages == if objects == 0 then 1 else 2
  }

  ghost predicate InMemory(o: Pointer, a: nat) {
    o.At? && o.offset + a <= o.batch.buffer.Length
  }

  // Objects that fill the pages without remainder, or no more of them than places up to the end of one.
  predicate Fit(a: Positive, p: nat, objects: nat) { p % a == 0 || objects <= p }

  lemma FewerFit(a: Positive, p: nat, objects: nat, fewer: nat)
    requires Fit(a, p, objects) && fewer <= objects
    ensures Fit(a, p, fewer)
  {
  }

  ghost function ItemAt(pages: seq<Batch>, i: nat): Batch? { if i < |pages| then pages[i] else null }

  ghost function FreeAt(free: seq<Pointer>, i: nat): Pointer { if i < |free| then free[i] else Null }

  ghost predicate Chained(pages: seq<Batch>, usage: map<Batch, nat>)
    reads pages
  {
    forall i | 0 <= i < |pages| ::
      pages[i].next == ItemAt(pages, i + 1) && pages[i] in usage && pages[i].used == usage[pages[i]]
  }

  lemma ChainedMore(pages: seq<Batch>, usage: map<Batch, nat>, b: Batch)
    requires Chained(pages, usage) && pages != [] && b !in pages && b.next == pages[0] && b.used == 0
    ensures Chained([b] + pages, usage[b := 0])
  {
    var m := [b] + pages;
    forall i | 0 < i < |m|
      ensures m[i].next == ItemAt(m, i + 1) && m[i] in usage && m[i].used == usage[m[i]] && m[i] != b
    {
      assert m[i] == pages[i - 1];
    }
  }

  class BatchAllocator {
    const objectPerAllocation: Positive
    const objectsPerPage: Positive
    var freeHead: Pointer
    var currentBatch: Batch?
    var batches: Batch?
    ghost var layout: Layout
    // the largest number of objects there ever were in use
    ghost var most: nat

    // The allocator, its pages and what is in them.
    ghost function Memory(): set<object>
      reads this
    {
      {this} + (set b: Batch | b in layout.pages) + (set b: Batch | b in layout.pages :: b.buffer)
    }

    // The pages are a linked list.
    ghost predicate Linked(pages: seq<Batch>, usage: map<Batch, nat>)
      reads `batches, pages
    {
      |pages| > 0 && batches == pages[0] && Chained(pages, usage)
    }

    // The list of released objects goes through their first places.
    ghost predicate Threaded(pages: seq<Batch>, free: seq<Pointer>)
      reads `freeHead, set b | b in pages :: b.buffer
    {
      && freeHead == FreeAt(free, 0)
      && (forall i | 0 <= i < |free| :: LinksTo(pages, free[i], FreeAt(free, i + 1)))
    }

    ghost predicate LinksTo(pages: seq<Batch>, o: Pointer, next: Pointer)
      reads set b | b in pages :: b.buffer
    {
      o.At? && o.batch in pages && o.offset < o.batch.buffer.Length && o.batch.buffer[o.offset] == Link(next)
    }

    ghost predicate Valid()
      reads this, layout.pages, set b | b in layout.pages :: b.buffer
    {
      Laid() && Begun(layout.pages, layout.usage)
    }

    ghost predicate Laid()
      reads this, layout.pages, set b | b in layout.pages :: b.buffer
    {
      && Linked(layout.pages, layout.usage) && currentBatch == batches && Threaded(layout.pages, layout.free)
      && Sound(layout, objectPerAllocation, objectsPerPage) && most == |layout.carved|
    }

    constructor (perAllocation: Positive, perPage: nat)
      requires perPage >= 16
      ensures Valid() && layout.live == {} && most == 0
      ensures objectPerAllocation == perAllocation && objectsPerPage == perPage
      ensures fresh(Memory())
    {
      objectPerAllocation, objectsPerPage := perAllocation, perPage;
      freeHead := Null;
      var dummy := new Batch(perAllocation, 0);
      batches, currentBatch := dummy, dummy;
      layout, most := Layout([dummy], map[dummy := 0], {}, [], {}), 0;
    }

    lemma HeadOfList(pages: seq<Batch>, free: seq<Pointer>)
      requires Threaded(pages, free)
      ensures freeHead == Null <==> free == []
    {
      if free != [] {
        assert LinksTo(pages, free[0], FreeAt(free, 1));
      }
    }

    lemma HeadNotInUse()
      requires Valid() && layout.free != []
      ensures layout.free[0] in layout.carved && layout.free[0] !in layout.live
    {
    }

    // The head of the list of released objects.
    method Reuse() returns (o: Pointer)
      requires Valid() && freeHead != Null
      modifies `freeHead, `layout
      ensures Valid() && old(layout.free) != [] && o == old(layout.free[0]) && layout == Reused(old(layout))
      ensures o !in old(layout.live)
    {
      hide Linked, Sound, Begun;
      HeadNotInUse();
      o := freeHead;
      assert layout.free[0] == o && LinksTo(layout.pages, o, FreeAt(layout.free, 1));
      freeHead := o.batch.buffer[o.offset].next;
      ReusedIsSound(layout, objectPerAllocation, objectsPerPage);
      layout := Reused(layout);
    }

    // The search for a page that is not full never finds one, and a new page becomes the first.
    method NextPage()
      requires Valid() && currentBatch != null && currentBatch.used == currentBatch.end
      modifies `currentBatch, `batches, `layout
      ensures Laid() && layout == Paged(old(layout), layout.pages[0])
      ensures fresh(layout.pages[0]) && fresh(layout.pages[0].buffer)
      ensures currentBatch != null && currentBatch.used != currentBatch.end
    {
      SkipFull();
      if currentBatch == null {
        AddPage();
      }
    }

    // A new page at the head of the list.
    method AddPage()
      requires Linked(layout.pages, layout.usage) && Threaded(layout.pages, layout.free)
      requires Sound(layout, objectPerAllocation, objectsPerPage) && most == |layout.carved|
      requires layout.usage[layout.pages[0]] == layout.pages[0].end
      modifies `currentBatch, `batches, `layout
      ensures Laid() && layout == Paged(old(layout), layout.pages[0])
      ensures fresh(layout.pages[0]) && fresh(layout.pages[0].buffer)
      ensures currentBatch != null && currentBatch.used != currentBatch.end
    {
      hide Sound, Threaded, Chained;
      var batch := new Batch(objectPerAllocation, objectsPerPage);
      batch.next := batches;
      currentBatch, batches := batch, batch;
      ghost var l := layout;
      PagedIsSound(l, objectPerAllocation, objectsPerPage, batch);
      ThreadedMore(l.pages, l.free, batch);
      ChainedMore(l.pages, l.usage, batch);
      layout := Paged(l, batch);
    }

    lemma ThreadedMore(pages: seq<Batch>, free: seq<Pointer>, b: Batch)
      requires Threaded(pages, free)
      ensures Threaded([b] + pages, free)
    {
      assert forall i | 0 <= i < |free| :: LinksTo(pages, free[i], FreeAt(free, i + 1));
    }

    method SkipFull()
      requires Valid() && currentBatch != null && currentBatch.used == currentBatch.end
      modifies `currentBatch
      ensures currentBatch == null
    {
      ghost var k := 1;
      assert layout.pages[0].next == ItemAt(layout.pages, 1);
      currentBatch := currentBatch.next;
      while currentBatch != null && currentBatch.used == currentBatch.end
        invariant 1 <= k <= |layout.pages|
        invariant currentBatch == ItemAt(layout.pages, k)
        decreases |layout.pages| - k
      {
        assert layout.pages[k].next == ItemAt(layout.pages, k + 1);
        currentBatch := currentBatch.next;
        k := k + 1;
      }
    }

    // Room at the end of the current page.
    method Carve() returns (o: Pointer)
      requires Laid() && layout.free == [] && currentBatch != null && currentBatch.used != currentBatch.end
      modifies `layout, `most, currentBatch`used
      ensures Valid() && o == At(currentBatch, old(currentBatch.used)) && o !in old(layout.carved)
      ensures currentBatch.used == o.offset + objectPerAllocation && most == old(most) + 1
      ensures layout.pages == old(layout.pages) && layout.free == []
      ensures layout.carved == old(layout.carved) + {o} && layout.live == old(layout.live) + {o}
    {
      hide Sound, Threaded, Begun;
      o := At(currentBatch, currentBatch.used);
      CarvedMoreIsSound(layout, objectPerAllocation, objectsPerPage);
      ghost var l := CarvedMore(layout, objectPerAllocation);
      assert l.pages == layout.pages && l.free == layout.free;
      assert l.carved == layout.carved + {o} && l.live == layout.live + {o};
      assert l.usage == layout.usage[currentBatch := currentBatch.used + objectPerAllocation];
      assert forall i | 0 <= i < |l.pages| :: l.pages[i].next == ItemAt(l.pages, i + 1);
      hide CarvedMore, ItemAt;
      currentBatch.used := currentBatch.used + objectPerAllocation;
      layout, most := l, most + 1;
    }

    // The object is not one in use, and lies in the memory of its page if they all fit. No page is added
    // while there is another place.
    method Allocate() returns (o: Pointer)
      requires Valid()
      modifies this, layout.pages
      ensures Valid()
      ensures o !in old(layout.live) && layout.live == old(layout.live) + {o}
      ensures o.At? && o.batch in layout.pages && (Fits() ==> InMemory(o, objectPerAllocation))
      ensures objectsPerPage % objectPerAllocation == 0 ==> o.offset + objectPerAllocation <= o.batch.end
      ensures most == if |layout.live| > old(most) then |layout.live| else old(most)
      ensures || layout.pages == old(layout.pages)
              || (|layout.pages| > 0 && layout.pages[1..] == old(layout.pages) && old(layout.free) == []
                  && fresh(layout.pages[0]) && fresh(layout.pages[0].buffer))
      ensures forall b | b in layout.pages :: b in old(layout.pages) || (fresh(b) && fresh(b.buffer))
    {
      hide Sound, Begun, InMemory, Linked, Threaded;
      HeadOfList(layout.pages, layout.free);
      NotAboveMost();
      if freeHead != Null {
        o := Reuse();
        NotAboveMost();
      } else {
        NoneReleased();
        o := FromPage();
        NoneReleased();
      }
      InPage(o);
    }

    // The next place of the current page, or the first one of a new page.
    method FromPage() returns (o: Pointer)
      requires Valid() && layout.free == []
      modifies this, layout.pages
      ensures Valid() && layout.free == [] && o !in old(layout.carved) && most == old(most) + 1
      ensures layout.carved == old(layout.carved) + {o} && layout.live == old(layout.live) + {o}
      ensures || layout.pages == old(layout.pages)
              || (|layout.pages| > 0 && layout.pages[1..] == old(layout.pages)
                  && fresh(layout.pages[0]) && fresh(layout.pages[0].buffer))
    {
      hide Sound, Begun, Threaded;
      if currentBatch.used == currentBatch.end {
        NextPage();
      }
      o := Carve();
    }

    ghost predicate Fits()
      reads this
    {
      Fit(objectPerAllocation, objectsPerPage, most)
    }

    // An object ends inside its page.
    lemma InPage(o: Pointer)
      requires Valid() && (o in layout.carved || o in layout.live)
      ensures o.At? && o.batch in layout.pages && (Fits() ==> InMemory(o, objectPerAllocation))
      ensures objectsPerPage % objectPerAllocation == 0 ==> o.offset + objectPerAllocation <= o.batch.end
    {
      hide Linked, Threaded, Filled, Compact, Begun;
      EndsInPage(layout, objectPerAllocation, objectsPerPage, o);
    }

    // All of them lie in memory exactly if they fit.
    lemma InMemoryIff()
      requires Valid()
      ensures (forall o | o in layout.carved :: InMemory(o, objectPerAllocation)) <==> Fits()
    {
      hide Linked, Threaded, Partitioned;
      if Fits() {
        forall o | o in layout.carved
          ensures InMemory(o, objectPerAllocation)
        {
          EndsInPage(layout, objectPerAllocation, objectsPerPage, o);
        }
      } else {
        var o := Overflowing(layout, objectPerAllocation, objectsPerPage);
      }
    }

    // The first page taken is used as the count for one page says.
    lemma FirstPageUsed()
      requires Valid() && |layout.pages| > 1
      ensures layout.pages[|layout.pages| - 2] in layout.usage
      ensures layout.usage[layout.pages[|layout.pages| - 2]] == Fill(objectPerAllocation, objectsPerPage, most)
    {
      hide Linked, Threaded, Partitioned, Shaped;
      FirstUsage(layout, objectPerAllocation, objectsPerPage);
    }

    // Two objects have no place in common.
    lemma Apart(o: Pointer, q: Pointer)
      requires Sound(layout, objectPerAllocation, objectsPerPage)
      requires o in layout.carved && q in layout.carved && o != q
      ensures o.At? && q.At? && o.batch in layout.pages && q.batch in layout.pages
      ensures o.batch != q.batch ==> o.batch.buffer != q.batch.buffer
      ensures Disjoint(o, q, objectPerAllocation)
    {
      NextMultiple(o.offset, q.offset, objectPerAllocation);
      NextMultiple(q.offset, o.offset, objectPerAllocation);
    }

    lemma Outcome(objects: seq<Pointer>)
      requires Valid() && Listed(objects, layout.live)
      ensures Fits() ==> forall o | o in objects :: InMemory(o, objectPerAllocation)
      ensures forall i, j | 0 <= i < j < |objects| :: Disjoint(objects[i], objects[j], objectPerAllocation)
    {
      if Fits() {
        forall o | o in objects
          ensures InMemory(o, objectPerAllocation)
        {
          InPage(o);
        }
      }
      forall i, j | 0 <= i < j < |objects|
        ensures Disjoint(objects[i], objects[j], objectPerAllocation)
      {
        Apart(objects[i], objects[j]);
      }
    }

    lemma NotAboveMost()
      requires Valid()
      ensures layout.live <= layout.carved && |layout.live| <= most
    {
    }

    // As long as nothing is given back, what was carved is in use.
    lemma AllInUse()
      requires Valid() && most == |layout.live|
      ensures layout.live == layout.carved
    {
      assert layout.free == [];
    }

    lemma NoneReleased()
      requires Valid() && layout.free == []
      ensures |layout.live| == most && layout.live == layout.carved
    {
    }

    // The pages are those the peak needs.
    lemma PagesNeeded()
      requires Valid()
      ensures PagesFor(|layout.pages|, most, objectPerAllocation, objectsPerPage)
    {
      hide Linked, Threaded, Partitioned, Shaped;
      PageCount(layout.pages, layout.usage, |layout.carved|, objectPerAllocation, objectsPerPage);
    }

    // A place of an object in use is not the link of a released one.
    lemma Untouched(o: Pointer, i: nat, k: nat)
      requires Valid() && o.At? && o in layout.live && i < objectPerAllocation && k < |layout.free|
      ensures LinksTo(layout.pages, layout.free[k], FreeAt(layout.free, k + 1))
      ensures layout.free[k].batch != o.batch ==> layout.free[k].batch.buffer != o.batch.buffer
      ensures layout.free[k].batch == o.batch ==> layout.free[k].offset != o.offset + i
    {
      hide Linked, Filled, Shaped, Compact;
      Apart(o, layout.free[k]);
    }

    // What the owner of an object puts into it does not disturb the list of released objects.
    method Write(o: Pointer, i: nat, value: int)
      requires Valid() && o in layout.live && InMemory(o, objectPerAllocation) && i < objectPerAllocation
      modifies o.batch.buffer
      ensures Valid() && o.offset + i < o.batch.buffer.Length
      ensures o.batch.buffer[..] == old(o.batch.buffer[..])[o.offset + i := Content(value)]
    {
      hide Linked, Sound, Begun;
      InPage(o);
      forall k: nat | k < |layout.free|
        ensures LinksTo(layout.pages, layout.free[k], FreeAt(layout.free, k + 1))
        ensures layout.free[k].batch != o.batch ==> layout.free[k].batch.buffer != o.batch.buffer
        ensures layout.free[k].batch == o.batch ==> layout.free[k].offset != o.offset + i
      {
        Untouched(o, i, k);
      }
      o.batch.buffer[o.offset + i] := Content(value);
    }

    // The object becomes the head of the list, and no other place of the memory changes.
    method Release(o: Pointer)
      requires Valid() && o in layout.live && InMemory(o, objectPerAllocation)
      modifies `freeHead, `layout, o.batch.buffer
      ensures Valid() && layout == Released(old(layout), o) && o.offset < o.batch.buffer.Length
      ensures o.batch.buffer[..] == old(o.batch.buffer[..])[o.offset := Link(old(freeHead))]
    {
      hide Linked, Sound, Begun;
      InPage(o);
      ghost var l := Released(layout, o);
      ReleasedIsSound(layout, objectPerAllocation, objectsPerPage, o);
      forall k: nat | k < |layout.free|
        ensures LinksTo(layout.pages, layout.free[k], FreeAt(layout.free, k + 1))
        ensures layout.free[k].batch != o.batch ==> layout.free[k].batch.buffer != o.batch.buffer
        ensures layout.free[k].batch == o.batch ==> layout.free[k].offset != o.offset
      {
        Untouched(o, 0, k);
      }
      o.batch.buffer[o.offset] := Link(freeHead);
      freeHead := o;
      Pushed(layout.pages, layout.free, o);
      hide Threaded;
      layout := l;
    }

    lemma Pushed(pages: seq<Batch>, free: seq<Pointer>, o: Pointer)
      requires freeHead == o && LinksTo(pages, o, FreeAt(free, 0))
      requires forall k: nat | k < |free| :: LinksTo(pages, free[k], FreeAt(free, k + 1))
      ensures Threaded(pages, [o] + free)
    {
      hide LinksTo;
    }

    // The destructor frees every page once.
    method Destroy() returns (ghost freed: seq<Batch>, pages: nat)
      requires Valid()
      ensures freed == layout.pages && pages == |layout.pages|
    {
      var batch := batches;
      freed, pages := [], 0;
      while batch != null
        invariant freed <= layout.pages && pages == |freed|
        invariant batch == ItemAt(layout.pages, pages)
        decreases |layout.pages| - pages
      {
        var nextBatch := batch.next;
        freed, pages := freed + [batch], pages + 1;
        batch := nextBatch;
      }
    }
  }

  // ----- whole runs

  datatype Request = Take | Give(choice: nat)

  // How many objects are in use after the requests, and the most there were on the way. Giving back when
  // nothing is in use does nothing.
  function InUse(requests: seq<Request>): nat {
    if requests == [] then 0
    else
      var n := InUse(requests[..|requests| - 1]);
      if requests[|requests| - 1].Take? then n + 1 else if n > 0 then n - 1 else 0
  }

  function Peak(requests: seq<Request>): nat {
    if requests == [] then 0
    else
      var n, most := InUse(requests), Peak(requests[..|requests| - 1]);
      if n > most then n else most
  }

  method Serve(allocator: BatchAllocator, objects: seq<Pointer>, request: Request) returns (left: seq<Pointer>)
    requires allocator.Valid() && (request.Give? ==> allocator.Fits()) && Listed(objects, allocator.layout.live)
    modifies allocator.Memory()
    ensures allocator.Valid() && Listed(left, allocator.layout.live)
    ensures |left| == if request.Take? then |objects| + 1 else if |objects| > 0 then |objects| - 1 else 0
    ensures allocator.most == if |left| > old(allocator.most) then |left| else old(allocator.most)
    ensures forall x | x in allocator.Memory() :: x in old(allocator.Memory()) || fresh(x)
  {
    hide Sound, Begun, Listed;
    ghost var live := allocator.layout.live;
    left := objects;
    match request {
    case Take =>
      var o := allocator.Allocate();
      ListedMore(objects, live, o);
      left := objects + [o];
    case Give(choice) =>
      if |objects| > 0 {
        var i := choice % |objects|;
        ListedLess(objects, live, i);
        allocator.InPage(objects[i]);
        allocator.Release(objects[i]);
        left := objects[..i] + objects[i + 1..];
      }
      allocator.NotAboveMost();
    }
    assert |left| == |allocator.layout.live| by {
      ListedSize(left, allocator.layout.live);
    }
  }

  // After any run the objects in use are as many as they should be, lie in memory and have no place in
  // common, and the pages are those the peak needs. Only objects that do not fill the pages without
  // remainder may not be more than places up to the end of one.
  method Run(perAllocation: Positive, perPage: nat, requests: seq<Request>)
    returns (objects: seq<Pointer>, pages: nat)
    requires perPage >= 16 && Fit(perAllocation, perPage, Peak(requests))
    ensures |objects| == InUse(requests)
    ensures forall o | o in objects :: InMemory(o, perAllocation)
    ensures forall i, j | 0 <= i < j < |objects| :: Disjoint(objects[i], objects[j], perAllocation)
    ensures PagesFor(pages, Peak(requests), perAllocation, perPage)
  {
    var allocator := new BatchAllocator(perAllocation, perPage);
    hide Disjoint, InMemory, PagesFor, Fit, InUse, Peak;
    objects := ServeAll(allocator, requests);
    allocator.Outcome(objects);
    allocator.PagesNeeded();
    ghost var freed;
    freed, pages := allocator.Destroy();
  }

  method ServeAll(allocator: BatchAllocator, requests: seq<Request>) returns (objects: seq<Pointer>)
    requires allocator.Valid() && allocator.layout.live == {} && allocator.most == 0
    requires Fit(allocator.objectPerAllocation, allocator.objectsPerPage, Peak(requests))
    modifies allocator.Memory()
    ensures allocator.Valid() && Listed(objects, allocator.layout.live)
    ensures |objects| == InUse(requests) && allocator.most == Peak(requests)
  {
    hide BatchAllocator.Valid, BatchAllocator.Memory;
    hide Listed, Fit, InUse, Peak;
    objects := [];
    NoneListed();
    assert InUse(requests[..0]) == 0 && Peak(requests[..0]) == 0 by {
      NoRequest(requests);
    }
    for n := 0 to |requests|
      invariant allocator.Valid() && Listed(objects, allocator.layout.live)
      invariant forall x | x in allocator.Memory() :: x in old(allocator.Memory()) || fresh(x)
      invariant |objects| == InUse(requests[..n]) && allocator.most == Peak(requests[..n])
    {
      PeakGrows(requests, n);
      FewerFit(allocator.objectPerAllocation, allocator.objectsPerPage, Peak(requests), allocator.most);
      OneRequest(requests, n);
      objects := Serve(allocator, objects, requests[n]);
    }
    assert requests[..|requests|] == requests;
  }

  // A run of n allocations stays in memory exactly if the objects fill the pages without remainder or are no
  // more than places up to the end of one.
  method TakeAll(perAllocation: Positive, perPage: nat, n: nat) returns (objects: seq<Pointer>)
    requires perPage >= 16
    ensures |objects| == n
    ensures forall i, j | 0 <= i < j < |objects| :: Disjoint(objects[i], objects[j], perAllocation)
    ensures (forall o | o in objects :: InMemory(o, perAllocation)) <==> Fit(perAllocation, perPage, n)
  {
    var allocator := new BatchAllocator(perAllocation, perPage);
    hide Listed, Disjoint, InMemory, Fit;
    objects := TakeMany(allocator, n);
    ListedSize(objects, allocator.layout.live);
    allocator.Outcome(objects);
    allocator.InMemoryIff();
    allocator.AllInUse();
    AllListed(objects, allocator.layout.live);
  }

  method TakeMany(allocator: BatchAllocator, n: nat) returns (objects: seq<Pointer>)
    requires allocator.Valid() && allocator.layout.live == {} && allocator.most == 0
    modifies allocator.Memory()
    ensures allocator.Valid() && Listed(objects, allocator.layout.live)
    ensures |objects| == allocator.most == n
  {
    hide BatchAllocator.Valid, BatchAllocator.Memory;
    hide Listed;
    objects := [];
    NoneListed();
    for i := 0 to n
      invariant allocator.Valid() && Listed(objects, allocator.layout.live)
      invariant forall x | x in allocator.Memory() :: x in old(allocator.Memory()) || fresh(x)
      invariant |objects| == allocator.most == i
    {
      objects := Serve(allocator, objects, Take);
    }
  }

  lemma {:induction false} PeakGrows(requests: seq<Request>, n: nat)
    requires n <= |requests|
    ensures Peak(requests[..n]) <= Peak(requests)
  {
    if n < |requests| {
      var shorter := requests[..|requests| - 1];
      PeakGrows(shorter, n);
      assert shorter[..n] == requests[..n];
    } else {
      assert requests[..n] == requests;
    }
  }

  lemma NoRequest(requests: seq<Request>)
    ensures InUse(requests[..0]) == 0 && Peak(requests[..0]) == 0
  {
  }

  lemma OneRequest(requests: seq<Request>, n: nat)
    requires n < |requests|
    ensures var m := InUse(requests[..n]);
            InUse(requests[..n + 1]) == if requests[n].Take? then m + 1 else if m > 0 then m - 1 else 0
    ensures var m, most := InUse(requests[..n + 1]), Peak(requests[..n]);
            Peak(requests[..n + 1]) == if m > most then m else most
  {
    assert requests[..n + 1][..n] == requests[..n];
  }

  ghost predicate Listed(objects: seq<Pointer>, live: set<Pointer>) {
    && (forall o | o in objects :: o in live)
    && (forall o | o in live :: o in objects)
    && (forall i, j | 0 <= i < j < |objects| :: objects[i] != objects[j])
    && |objects| == |live|
  }

  lemma AllListed(objects: seq<Pointer>, live: set<Pointer>)
    requires Listed(objects, live)
    ensures forall o :: o in objects <==> o in live
  {
  }

  lemma ListedSize(objects: seq<Pointer>, live: set<Pointer>)
    requires Listed(objects, live)
    ensures |objects| == |live|
  {
  }

  lemma NoneListed()
    ensures Listed([], {})
  {
  }

  lemma ListedMore(objects: seq<Pointer>, live: set<Pointer>, o: Pointer)
    requires Listed(objects, live) && o !in live
    ensures Listed(objects + [o], live + {o})
  {
  }

  lemma ListedLess(objects: seq<Pointer>, live: set<Pointer>, i: nat)
    requires Listed(objects, live) && i < |objects|
    ensures objects[i] in live && Listed(objects[..i] + objects[i + 1..], live - {objects[i]})
  {
    var left := objects[..i] + objects[i + 1..];
    assert forall k | 0 <= k < |left| :: left[k] == objects[if k < i then k else k + 1];
    forall o | o in live - {objects[i]}
      ensures o in left
    {
      var k :| 0 <= k < |objects| && objects[k] == o;
      assert left[if k < i then k else k - 1] == o;
    }
  }
}
