// The m61 allocator: malloc, free, calloc and realloc over an 8 MiB buffer.

module Heap {
  import opened Basics
  import opened HeapSpec
  import opened HeapTold

  function Wrap(x: int): (w: int)
    ensures 0 <= w < 0x1_0000_0000_0000_0000
  {
    x % 0x1_0000_0000_0000_0000
  }

  // The counters after a successful allocation of sz bytes.
  function Counted(s: Stats, sz: nat): Stats {
    Stats(s.nactive + 1, s.activeSize + sz, Wrap(s.ntotal + 1), Wrap(s.totalSize + sz), s.nfail, s.failSize)
  }

  // The counters after a refused one, and after a free.
  function Refused(s: Stats, sz: nat): Stats {
    s.(nfail := Wrap(s.nfail + 1), failSize := Wrap(s.failSize + sz))
  }

  function Uncounted(s: Stats, sz: nat): Stats {
    s.(nactive := s.nactive - 1, activeSize := s.activeSize - sz)
  }

  predicate Aborts(r: FreeResult) { r != Nothing && r != Freed }

  // ---- What each call does, on values ----

  // The free list is a function of the allocated blocks, so most of these
  // leave it to the heap's invariant.

  // b written over [lo, hi).
  function Painted(bytes: seq<Byte>, lo: nat, hi: nat, b: Byte): (out: seq<Byte>)
    ensures |out| == |bytes|
  {
    seq(|bytes|, i requires 0 <= i < |bytes| => if lo <= i < hi then b else bytes[i])
  }

  // n bytes copied from one place to another.
  function Copied(bytes: seq<Byte>, from: nat, to: nat, n: nat): (out: seq<Byte>)
    requires from + n <= |bytes|
    ensures |out| == |bytes|
  {
    seq(|bytes|, i requires 0 <= i < |bytes| => if to <= i < to + n then bytes[from + (i - to)] else bytes[i])
  }

  // A new live block of sz bytes at p, its padding marked.
  function AfterTake(v: View, p: nat, sz: nat, line: nat): View {
    View(v.free, v.live[p := Meta(sz, Need(sz) - sz, line)], v.freed - {p},
         Painted(v.bytes, p + sz, p + Need(sz), MARKER), Counted(v.stats, sz))
  }

  function AfterFill(v: View, lo: nat, hi: nat, b: Byte): View {
    v.(bytes := Painted(v.bytes, lo, hi, b))
  }

  function AfterFree(v: View, p: nat): View
    requires p in v.live
  {
    v.(live := v.live - {p}, freed := v.freed + {p}, stats := Uncounted(v.stats, v.live[p].sz))
  }

  // The same but for the free list.
  ghost predicate Same(v: View, w: View) { v == w.(free := v.free) }

  // The lowest gap that holds n bytes.
  ghost predicate LowestGap(alloc: map<nat, Meta>, s: nat, n: nat) {
    Gap(alloc, s, n) && forall t: nat | t < s :: !Gap(alloc, t, n)
  }

  ghost predicate NoRoom(alloc: map<nat, Meta>, sz: nat) {
    sz >= SIZE || forall s: nat :: !Gap(alloc, s, Need(sz))
  }

  // m61_malloc: refused exactly without room, else at the lowest gap.
  ghost predicate MallocDid(v: View, sz: nat, line: nat, p: Ptr, v': View) {
    if NoRoom(v.live, sz) then p.None? && v' == v.(stats := Refused(v.stats, sz))
    else
      p.Some? && p.at >= 0 && p.at !in v.live && LowestGap(v.live, p.at, Need(sz)) && Same(v', AfterTake(v, p.at, sz, line))
  }

  function Bytes(count: nat, sz: nat): nat { count * sz }

  // m61_calloc: the same, and the payload is zero.
  ghost predicate CallocDid(v: View, count: nat, sz: nat, line: nat, p: Ptr, v': View) {
    var n := Bytes(count, sz);
    if count > SIZE || sz > SIZE || NoRoom(v.live, n) then p.None? && v' == v.(stats := Refused(v.stats, n))
    else
      && p.Some? && p.at >= 0 && p.at !in v.live && LowestGap(v.live, p.at, Need(n))
      && Same(v', AfterFill(AfterTake(v, p.at, n, line), p.at, p.at + n, 0))
  }

  // Every padding byte of the block is the marker.
  ghost predicate MarkedIn(bytes: seq<Byte>, p: nat, m: Meta) {
    p + m.sz + m.pad <= |bytes| && forall i | p + m.sz <= i < p + m.sz + m.pad :: bytes[i] == MARKER
  }

  // m61_free: each result exactly on its condition.
  ghost predicate FreeDid(v: View, ptr: Ptr, r: FreeResult, v': View) {
    if ptr.None? then r == Nothing && v' == v
    else if ptr.at in v.live then
      if MarkedIn(v.bytes, ptr.at, v.live[ptr.at]) then r == Freed && Same(v', AfterFree(v, ptr.at))
      else r == WildWrite && v' == v.(freed := v.freed + {ptr.at})
    else
      && v' == v
      && if ptr.at in v.freed then r == DoubleFree
         else if !(0 <= ptr.at < SIZE) then r == NotInHeap
         else r.NotAllocated? && InsideOk(v.live, ptr.at, r.inside)
  }

  // The growing branch of m61_realloc: a new block, the old payload copied
  // to its beginning, the old block freed.
  ghost predicate GrowDid(v: View, from: nat, sz: nat, line: nat, p: Ptr, r: FreeResult, v': View)
    requires from in v.live && from + v.live[from].sz <= |v.bytes|
  {
    if NoRoom(v.live, sz) then p.None? && r == Nothing && v' == v.(stats := Refused(v.stats, sz))
    else
      && p.Some? && p.at >= 0 && p.at !in v.live && LowestGap(v.live, p.at, Need(sz))
      && var w := AfterCopy(AfterTake(v, p.at, sz, line), from, p.at, v.live[from].sz);
         from in w.live && FreeDid(w.(free := v'.free), Some(from), r, v')
  }

  function AfterCopy(v: View, from: nat, to: nat, n: nat): View
    requires from + n <= |v.bytes|
  {
    v.(bytes := Copied(v.bytes, from, to, n))
  }

  class M61 {
    const buffer: array<Byte>
    var freeBlocks: seq<Block>
    var live: map<nat, Meta>
    var freed: set<int>
    var stats: Stats

    ghost predicate Valid()
      reads this
    {
      buffer.Length == SIZE && HeapOk(freeBlocks, live) && StatsOk()
    }

    ghost predicate StatsOk()
      reads this
    {
      stats.nactive == |live| && stats.activeSize == SizeBelow(live, buffer.Length)
    }

    ghost function V(): View
      reads this, buffer
    {
      View(freeBlocks, live, freed, buffer[..], stats)
    }

    // Every padding byte of a live block still holds the marker.
    ghost predicate MarkersOk()
      reads this, buffer
    {
      AllMarked(V())
    }

    constructor ()
      ensures Valid() && MarkersOk() && fresh(buffer) && live == map[] && freeBlocks == [Block(0, SIZE)]
    {
      buffer := new Byte[SIZE](_ => 0);
      freeBlocks, live, freed := [Block(0, SIZE)], map[], {};
      stats := Stats(0, 0, 0, 0, 0, 0);
      new;
      EmptySize(buffer.Length);
      EmptyHeapOk();
    }

    method Malloc(sz: nat, line: nat) returns (p: Ptr)
      requires Valid()
      modifies this, buffer
      ensures Valid() && MallocDid(old(V()), sz, line, p, V())
      ensures old(MarkersOk()) ==> MarkersOk()
    {
      hide HeapOk, AllMarked, NoRoom, LowestGap, Painted;
      var k := FindFit(sz);
      if k == |freeBlocks| {
        MarkersKept(V(), V().(stats := Refused(stats, sz)));
        stats := Refused(stats, sz);
        return None;
      }
      p := Some(freeBlocks[k].start);
      Take(k, p.at, sz, line);
    }

    // The first-fit loop; |freeBlocks| when nothing fits.
    method FindFit(sz: nat) returns (k: nat)
      requires Valid()
      ensures k <= |freeBlocks|
      ensures k == |freeBlocks| <==> NoRoom(live, sz)
      ensures k < |freeBlocks| ==> Need(sz) <= freeBlocks[k].size && LowestGap(live, freeBlocks[k].start, Need(sz))
    {
      k := 0;
      while k < |freeBlocks|
        invariant k <= |freeBlocks| && (sz >= SIZE ==> k == 0)
        invariant forall i | 0 <= i < k :: freeBlocks[i].size < Need(sz)
      {
        if sz >= SIZE { return |freeBlocks|; }
        assert BlockOk(freeBlocks[k]);
        FitTestExact(freeBlocks[k].size, sz);
        if freeBlocks[k].size >= sz + (if sz % ALIGNMENT == 0 then ALIGNMENT else 0) { break; }
        k := k + 1;
      }
      FirstFitIsLowest(freeBlocks, live, k, Need(sz));
    }

    // The successful end of m61_malloc: mark the padding, cut the block.
    method Take(k: nat, p: nat, sz: nat, line: nat)
      requires Valid() && k < |freeBlocks| && p == freeBlocks[k].start && Need(sz) <= freeBlocks[k].size
      modifies this, buffer
      ensures Valid() && p !in old(live) && Same(V(), AfterTake(old(V()), p, sz, line))
      ensures old(MarkersOk()) ==> MarkersOk()
    {
      hide HeapOk, StatsOk, Need, AllMarked, Painted;
      ghost var was := V();
      var newStart := p + sz;
      var pad := (ALIGNMENT - newStart % ALIGNMENT) % ALIGNMENT;
      pad := pad + (if sz % ALIGNMENT == 0 then ALIGNMENT else 0);
      PaddingFits(freeBlocks, live, k, sz, pad);
      Paint(newStart, newStart + pad, MARKER);
      CutBlock(k, p, Meta(sz, pad, line));
      TakeMarks(was, p, sz, line);
      MarkersKept(AfterTake(was, p, sz, line), V());
    }

    // memset
    method Paint(lo: nat, hi: nat, b: Byte)
      requires lo <= hi <= buffer.Length
      modifies buffer
      ensures buffer[..] == Painted(old(buffer[..]), lo, hi, b)
    {
      forall i | lo <= i < hi {
        buffer[i] := b;
      }
    }

    method CutBlock(k: nat, p: nat, m: Meta)
      requires Valid() && k < |freeBlocks| && p == freeBlocks[k].start
      requires m.sz + m.pad == Need(m.sz) <= freeBlocks[k].size
      modifies this
      ensures Valid() && p !in old(live) && live == old(live)[p := m]
      ensures freed == old(freed) - {p} && stats == Counted(old(stats), m.sz)
    {
      hide HeapOk;
      MallocOk(freeBlocks, live, k, m);
      FreeInside(freeBlocks, live, k);
      StatsAfterMalloc(live, p, m, buffer.Length);
      freeBlocks := Cut(freeBlocks, k, p + m.sz + m.pad);
      live := live[p := m];
      freed := freed - {p};
      stats := Counted(stats, m.sz);
    }

    // m61_free; every result but Nothing and Freed ends the process.
    method Free(ptr: Ptr) returns (r: FreeResult)
      requires Valid()
      modifies this
      ensures Valid() && FreeDid(old(V()), ptr, r, V())
      ensures old(MarkersOk()) ==> MarkersOk()
    {
      hide HeapOk, AllMarked, MarkedIn, InsideOk;
      ghost var was := V();
      if ptr.None? { return Nothing; }
      var p := ptr.at;
      if p !in live {
        if p in freed { return DoubleFree; }
        if p >= SIZE || p < 0 { return NotInHeap; }
        var inside := Containing(p);
        return NotAllocated(inside);
      }
      freed := freed + {p};
      var intact := PaddingIntact(p);
      if !intact {
        MarkersKept(was, V());
        return WildWrite;
      }
      Release(p);
      FreeMarks(was, p, V());
      r := Freed;
    }

    method PaddingIntact(p: nat) returns (intact: bool)
      requires Valid() && p in live
      ensures intact <==> MarkedIn(buffer[..], p, live[p])
    {
      var m := live[p];
      assert p + m.sz + m.pad <= SIZE;
      var i := m.sz;
      while i < m.sz + m.pad
        invariant m.sz <= i <= m.sz + m.pad
        invariant forall j | p + m.sz <= j < p + i :: buffer[j] == MARKER
      {
        if buffer[p + i] != MARKER { return false; }
        i := i + 1;
      }
      intact := true;
    }

    // The block the report calls the containing one: the nearest below, if
    // its payload reaches over the pointer.
    method Containing(p: nat) returns (inside: Ptr)
      requires Valid() && p < SIZE && p !in live
      ensures InsideOk(live, p, inside)
    {
      hide HeapOk, StatsOk, InsideOk;
      var q: nat := p;
      while q > 0 && q !in live
        invariant q <= p && forall x | q < x <= p :: x !in live
      {
        q := q - 1;
      }
      NearestBelow(freeBlocks, live, p, q);
      inside := if q in live && q + live[q].sz > p then Some(q) else None;
    }

    method Release(p: nat)
      requires Valid() && p in live
      modifies `freeBlocks, `live, `stats
      ensures Valid() && live == old(live) - {p} && stats == Uncounted(old(stats), old(live)[p].sz)
    {
      hide HeapOk;
      var m := live[p];
      LiveInside(freeBlocks, live, p);
      FreeOneOk(freeBlocks, live, p);
      StatsAfterFree(live, p, buffer.Length);
      stats := Uncounted(stats, m.sz);
      live := live - {p};
      Coalesce(p, m.sz + m.pad);
    }

    // Insert the freed block and join it with its neighbours.
    method Coalesce(p: nat, size: nat)
      modifies `freeBlocks
      ensures freeBlocks == Returned(old(freeBlocks), p, size)
    {
      hide Rank, Returned, Inserted, Merged;
      ReturnedStepwise(freeBlocks, p, size);
      var k := Rank(freeBlocks, p);
      freeBlocks := Inserted(freeBlocks, k, Block(p, size));
      if k + 1 < |freeBlocks| {
        var dist := freeBlocks[k + 1].start - freeBlocks[k].start;
        if freeBlocks[k].size == dist {
          freeBlocks := Merged(freeBlocks, k);
        }
      }
      if k > 0 {
        var dist := freeBlocks[k].start - freeBlocks[k - 1].start;
        if freeBlocks[k - 1].size == dist {
          freeBlocks := Merged(freeBlocks, k - 1);
        }
      }
    }

    method Calloc(count: nat, sz: nat, line: nat) returns (p: Ptr)
      requires Valid()
      modifies this, buffer
      ensures Valid() && CallocDid(old(V()), count, sz, line, p, V())
      ensures old(MarkersOk()) ==> MarkersOk()
    {
      hide HeapOk, AllMarked, NoRoom, LowestGap, Painted, Bytes;
      if count > SIZE || sz > SIZE {
        MarkersKept(V(), V().(stats := Refused(stats, Bytes(count, sz))));
        stats := Refused(stats, Bytes(count, sz));
        return None;
      }
      var n := Bytes(count, sz);
      p := Malloc(n, line);
      if p.Some? {
        Fill(p.at, 0, n, 0);
      }
    }

    // memset or a client's store inside a live payload.
    method Fill(p: nat, from: nat, to: nat, b: Byte)
      requires Valid() && p in live && from <= to <= live[p].sz
      modifies buffer
      ensures V() == AfterFill(old(V()), p + from, p + to, b)
      ensures old(MarkersOk()) ==> MarkersOk()
    {
      hide HeapOk, StatsOk, AllMarked, Painted, Clear;
      ghost var was := V();
      PayloadClear(freeBlocks, live, p, p + from, p + to);
      Paint(p + from, p + to, b);
      ClearPaint(was, p + from, p + to, b);
    }

    // m61_realloc. Growing keeps the old contents; shrinking does not keep
    // the heap tiled.
    method Realloc(ptr: Ptr, sz: nat, line: nat) returns (p: Ptr, r: FreeResult)
      requires Valid()
      modifies this, buffer
      ensures ptr.None? ==> r == Nothing && MallocDid(old(V()), sz, line, p, V())
      ensures ptr.Some? && sz == 0 ==> p == None && FreeDid(old(V()), ptr, r, V())
      ensures ptr.Some? && sz > 0 && ptr.at !in old(live) ==> p == None && r == Nothing && V() == old(V())
      ensures ptr.Some? && ptr.at in old(live) && 0 < sz <= old(live)[ptr.at].sz ==>
                && p == ptr && r == Nothing && ShrinkTold(old(V()), ptr.at, sz, line, V())
                && (HeapOk(freeBlocks, live) <==> sz == old(live)[ptr.at].sz)
      ensures ptr.Some? && ptr.at in old(live) && sz > old(live)[ptr.at].sz ==>
                && ptr.at + old(live)[ptr.at].sz <= |old(V()).bytes| && GrowDid(old(V()), ptr.at, sz, line, p, r, V())
      ensures !(ptr.Some? && ptr.at in old(live) && 0 < sz < old(live)[ptr.at].sz) ==>
                Valid() && (old(MarkersOk()) ==> MarkersOk())
    {
      hide HeapOk, StatsOk, AllMarked, MallocDid, FreeDid, GrowDid, ShrinkTold;
      r := Nothing;
      if ptr.None? {
        p := Malloc(sz, line);
        return;
      }
      if sz == 0 {
        r := Free(ptr);
        return None, r;
      }
      if ptr.at !in live {
        // already freed, or never allocated: both only print
        return None, Nothing;
      }
      LiveInside(freeBlocks, live, ptr.at);
      if sz <= live[ptr.at].sz {
        Shrink(ptr.at, sz, line);
        return ptr, Nothing;
      }
      p, r := Grow(ptr.at, sz, line);
    }

    // The branch that overwrites the size before using the old one.
    method Shrink(p: nat, sz: nat, line: nat)
      requires Valid() && p in live && 0 < sz <= live[p].sz
      modifies this, buffer
      ensures ShrinkTold(old(V()), p, sz, line, V())
      ensures HeapOk(freeBlocks, live) <==> sz == old(live)[p].sz
      ensures sz == old(live)[p].sz ==> Valid() && (old(MarkersOk()) ==> MarkersOk())
    {
      hide HeapOk, Painted, ShrinkTold, AllMarked;
      ghost var was, v := live, V();
      LiveInside(freeBlocks, live, p);
      live := live[p := live[p].(sz := sz)];
      live := live[p := live[p].(pad := live[p].pad + (live[p].sz - sz), line := line)];
      Paint(p + sz, p + sz + live[p].pad, MARKER);
      ShrinkLosesBytes(freeBlocks, was, p, live[p]);
      ShrinkMarks(v, p, sz, line, V());
      if sz == was[p].sz { SizeSame(was, p, live[p], buffer.Length); }
    }

    method Grow(from: nat, sz: nat, line: nat) returns (p: Ptr, r: FreeResult)
      requires Valid() && from in live && sz > live[from].sz
      modifies this, buffer
      ensures from in old(live) && from + old(live)[from].sz <= |old(V()).bytes|
      ensures Valid() && GrowDid(old(V()), from, sz, line, p, r, V())
      ensures old(MarkersOk()) ==> MarkersOk()
    {
      hide HeapOk, StatsOk, AllMarked, NoRoom, LowestGap, FreeDid, Painted, Copied;
      ghost var was := V();
      var n := live[from].sz;
      LiveInside(freeBlocks, live, from);
      r := Nothing;
      p := Malloc(sz, line);
      if p.None? { return; }
      CopyPayload(from, p.at, n);
      ghost var w := V();
      r := Free(Some(from));
      FreeListAside(w, V().free, from, r, V());
    }

    // memcpy between two live payloads.
    method CopyPayload(from: nat, to: nat, n: nat)
      requires Valid() && from in live && to in live && from != to
      requires n <= live[from].sz && n <= live[to].sz
      modifies buffer
      ensures from + n <= buffer.Length && V() == AfterCopy(old(V()), from, to, n)
      ensures old(MarkersOk()) ==> MarkersOk()
    {
      hide HeapOk, StatsOk, AllMarked, Clear;
      ghost var was := V();
      PayloadClear(freeBlocks, live, from, from, from + n);
      PayloadClear(freeBlocks, live, to, to, to + n);
      forall i | to <= i < to + n {
        buffer[i] := buffer[from + (i - to)];
      }
      assert buffer[..] == Copied(was.bytes, from, to, n);
      ClearCopy(was, from, to, n);
    }
  }

  // ---- The same block by block and byte by byte ----

  lemma NeedIsRounded(sz: nat, n: nat)
    ensures Rounded(sz, n) <==> n == Need(sz)
  {
  }

  lemma GapIsVacant(live: map<nat, Meta>, s: nat, n: nat)
    requires AllocOk(live) && n > 0
    ensures Gap(live, s, n) <==> Vacant(live, s, n)
  {
    if Gap(live, s, n) {
      forall q | q in live
        ensures q + live[q].sz + live[q].pad <= s || s + n <= q
      {
        var x := if q < s then s else q;
        assert Spans(q, live[q], x) ==> Taken(live, x);
      }
    }
  }

  lemma NoRoomIsNoVacancy(live: map<nat, Meta>, sz: nat)
    requires AllocOk(live)
    ensures NoRoom(live, sz) <==> NoVacancy(live, sz)
  {
    hide Vacant, Gap, Need, Rounded, AllocOk;
    NeedIsRounded(sz, Need(sz));
    forall s: nat
      ensures Gap(live, s, Need(sz)) <==> Vacant(live, s, Need(sz))
    {
      GapIsVacant(live, s, Need(sz));
    }
    forall n: nat
      ensures Rounded(sz, n) <==> n == Need(sz)
    {
      NeedIsRounded(sz, n);
    }
  }

  lemma TakenIsAllotted(live: map<nat, Meta>, p: nat, sz: nat, line: nat)
    requires AllocOk(live) && p !in live && LowestGap(live, p, Need(sz))
    ensures Allotted(live, sz, line, p, Meta(sz, Need(sz) - sz, line))
  {
    hide Vacant, Gap, Need, Rounded, AllocOk;
    NeedIsRounded(sz, Need(sz));
    forall t: nat
      ensures Gap(live, t, Need(sz)) <==> Vacant(live, t, Need(sz))
    {
      GapIsVacant(live, t, Need(sz));
    }
  }

  lemma MallocSays(v: View, sz: nat, line: nat, p: Ptr, w: View)
    requires HeapOk(v.free, v.live) && |v.bytes| == SIZE && MallocDid(v, sz, line, p, w)
    ensures MallocTold(v, sz, line, p, w)
  {
    hide NoRoom, NoVacancy, Allotted, LowestGap, Need, FreeOk, Tiled, AllocOk;
    NoRoomIsNoVacancy(v.live, sz);
    if p.Some? {
      TakenIsAllotted(v.live, p.at, sz, line);
      EndInside(v.live, p.at, Need(sz));
    }
  }

  lemma EndInside(live: map<nat, Meta>, p: nat, n: nat)
    requires LowestGap(live, p, n)
    ensures p + n <= SIZE
  {
  }

  lemma CallocSays(v: View, count: nat, sz: nat, line: nat, p: Ptr, w: View)
    requires HeapOk(v.free, v.live) && |v.bytes| == SIZE && CallocDid(v, count, sz, line, p, w)
    ensures CallocTold(v, count, sz, line, p, w)
  {
    hide NoRoom, NoVacancy, Allotted, LowestGap, Need, FreeOk, Tiled, AllocOk;
    NoRoomIsNoVacancy(v.live, count * sz);
    if p.Some? {
      TakenIsAllotted(v.live, p.at, count * sz, line);
      EndInside(v.live, p.at, Need(count * sz));
    }
  }

  lemma FreeSays(v: View, ptr: Ptr, r: FreeResult, w: View)
    requires HeapOk(v.free, v.live) && |v.bytes| == SIZE && FreeDid(v, ptr, r, w)
    ensures FreeTold(v, ptr, r, w)
  {
    if ptr.Some? && r.NotAllocated? {
      OneContains(v.free, v.live, ptr.at, r.inside);
    }
  }

  lemma OneContains(free: seq<Block>, live: map<nat, Meta>, p: int, inside: Ptr)
    requires HeapOk(free, live) && InsideOk(live, p, inside)
    ensures forall q | q in live :: (inside == Some(q) <==> q < p < q + live[q].sz)
  {
    hide Tiled, FreeOk;
  }

  lemma GrowSays(v: View, from: nat, sz: nat, line: nat, p: Ptr, r: FreeResult, w: View)
    requires HeapOk(v.free, v.live) && |v.bytes| == SIZE && from in v.live && sz > v.live[from].sz
    requires from + v.live[from].sz <= |v.bytes| && GrowDid(v, from, sz, line, p, r, w)
    ensures GrowTold(v, from, sz, line, p, r, w)
  {
    hide NoRoom, NoVacancy, Allotted, LowestGap, Need, FreeOk, Tiled, AllocOk,
         Padded, PayloadKept, Moved, Painted, Copied, Intact, MarkedIn;
    NoRoomIsNoVacancy(v.live, sz);
    if p.Some? {
      TakenIsAllotted(v.live, p.at, sz, line);
      EndInside(v.live, p.at, Need(sz));
      LiveInside(v.free, v.live, from);
      AllottedApart(v.live, p.at, sz, line, from);
      PaddingSame(v, from, sz, line, p.at);
      GrownBytes(v, from, sz, line, p.at);
    }
  }

  lemma GrownBytes(v: View, from: nat, sz: nat, line: nat, p: nat)
    requires from in v.live && from + v.live[from].sz <= |v.bytes| && v.live[from].sz <= sz && p + Need(sz) <= |v.bytes|
    requires from + v.live[from].sz + v.live[from].pad <= p || p + Need(sz) <= from
    ensures var bytes := AfterCopy(AfterTake(v, p, sz, line), from, p, v.live[from].sz).bytes;
            && Padded(v.bytes, p, Meta(sz, Need(sz) - sz, line), bytes) && PayloadKept(v.bytes, p, v.live[from].sz, sz, bytes)
            && Moved(v.bytes, from, p, v.live[from].sz, bytes)
  {
  }

  lemma AllottedApart(live: map<nat, Meta>, p: nat, sz: nat, line: nat, q: nat)
    requires Allotted(live, sz, line, p, Meta(sz, Need(sz) - sz, line)) && q in live
    ensures q + live[q].sz + live[q].pad <= p || p + Need(sz) <= q
  {
  }

  // Copying into a new block leaves the padding of the old one alone.
  lemma PaddingSame(v: View, from: nat, sz: nat, line: nat, p: nat)
    requires from in v.live && from + v.live[from].sz + v.live[from].pad <= |v.bytes| && v.live[from].sz <= sz
    requires p + Need(sz) <= |v.bytes|
    requires from + v.live[from].sz + v.live[from].pad <= p || p + Need(sz) <= from
    ensures MarkedIn(AfterCopy(AfterTake(v, p, sz, line), from, p, v.live[from].sz).bytes, from, v.live[from])
            <==> Intact(v.bytes, from, v.live[from])
  {
    hide Need;
    var m, bytes := v.live[from], AfterCopy(AfterTake(v, p, sz, line), from, p, v.live[from].sz).bytes;
    assert forall i | from + m.sz <= i < from + m.sz + m.pad :: bytes[i] == v.bytes[i];
  }

  // Freeing a pointer once more, with nothing allocated there since.
  lemma FreedTwice(v: View, ptr: Ptr, w: View, again: FreeResult, x: View)
    requires FreeDid(v, ptr, Freed, w) && FreeDid(w, ptr, again, x)
    ensures again == DoubleFree && x == w
  {
  }

  lemma ShrinkMarks(v: View, p: nat, sz: nat, line: nat, w: View)
    requires p in v.live && sz <= v.live[p].sz && p + v.live[p].sz + v.live[p].pad <= |v.bytes|
    requires w == v.(live := v.live[p := Meta(sz, v.live[p].pad, line)],
                     bytes := Painted(v.bytes, p + sz, p + sz + v.live[p].pad, MARKER))
    ensures ShrinkTold(v, p, sz, line, w)
    ensures sz == v.live[p].sz && AllMarked(v) ==> AllMarked(w)
  {
  }

  // ---- Markers ----

  ghost predicate AllMarked(v: View) {
    forall p | p in v.live :: MarkedIn(v.bytes, p, v.live[p])
  }

  lemma MarkersKept(v: View, w: View)
    requires w.live == v.live && w.bytes == v.bytes
    ensures AllMarked(v) ==> AllMarked(w)
  {
  }

  // Writing clear of every padding keeps the markers.
  lemma ClearPaint(v: View, lo: nat, hi: nat, b: Byte)
    requires Clear(v.live, lo, hi)
    ensures AllMarked(v) ==> AllMarked(AfterFill(v, lo, hi, b))
  {
  }

  lemma ClearCopy(v: View, from: nat, to: nat, n: nat)
    requires Clear(v.live, to, to + n) && from + n <= |v.bytes|
    ensures AllMarked(v) ==> AllMarked(AfterCopy(v, from, to, n))
  {
  }

  lemma TakeMarks(v: View, p: nat, sz: nat, line: nat)
    requires p !in v.live && Clear(v.live, p + sz, p + Need(sz)) && p + Need(sz) <= |v.bytes|
    ensures AllMarked(v) ==> AllMarked(AfterTake(v, p, sz, line))
  {
  }

  lemma FreeMarks(v: View, p: nat, w: View)
    requires p in v.live && Same(w, AfterFree(v, p))
    ensures AllMarked(v) ==> AllMarked(w)
  {
  }

  // What a free does, seen from a state with another free list.
  lemma FreeListAside(v: View, free: seq<Block>, p: nat, r: FreeResult, w: View)
    requires p in v.live && FreeDid(v, Some(p), r, w) && free == w.free
    ensures FreeDid(v.(free := free), Some(p), r, w)
  {
  }

  // [lo, hi) misses the padding of every block.
  ghost predicate Clear(alloc: map<nat, Meta>, lo: nat, hi: nat) {
    forall q | q in alloc :: q + alloc[q].sz + alloc[q].pad <= lo || hi <= q + alloc[q].sz
  }

  lemma PayloadClear(free: seq<Block>, alloc: map<nat, Meta>, p: nat, lo: nat, hi: nat)
    requires HeapOk(free, alloc) && p in alloc && p <= lo <= hi <= p + alloc[p].sz
    ensures Clear(alloc, lo, hi) && hi <= SIZE
  {
  }

  lemma LiveInside(free: seq<Block>, alloc: map<nat, Meta>, p: nat)
    requires HeapOk(free, alloc) && p in alloc
    ensures alloc[p].sz + alloc[p].pad == Need(alloc[p].sz) && p + alloc[p].sz + alloc[p].pad <= SIZE
  {
  }

  lemma FreeInside(free: seq<Block>, alloc: map<nat, Meta>, k: nat)
    requires HeapOk(free, alloc) && k < |free|
    ensures BlockOk(free[k])
  {
  }

  // The padding m61_malloc computes fills the block up to Need(sz) and lies
  // clear of every live block.
  lemma PaddingFits(free: seq<Block>, alloc: map<nat, Meta>, k: nat, sz: nat, pad: nat)
    requires HeapOk(free, alloc) && k < |free| && Need(sz) <= free[k].size
    requires pad == (16 - (free[k].start + sz) % 16) % 16 + if sz % 16 == 0 then 16 else 0
    ensures sz + pad == Need(sz) && free[k].start + sz + pad <= SIZE
    ensures Clear(alloc, free[k].start + sz, free[k].start + sz + pad)
  {
    hide HeapOk, Clear, Need;
    FreeInside(free, alloc, k);
    PaddingRounds(free[k].start, sz);
    FreeClear(free, alloc, k, free[k].start + sz, free[k].start + sz + pad);
  }

  lemma FreeClear(free: seq<Block>, alloc: map<nat, Meta>, k: nat, lo: nat, hi: nat)
    requires HeapOk(free, alloc) && k < |free| && free[k].start <= lo <= hi <= End(free[k])
    ensures Clear(alloc, lo, hi)
  {
    hide Tiled, FreeOk, Need;
    NothingInside(free, alloc, k);
  }

  // From a multiple of 16 on, size and padding together are rounded up.
  lemma PaddingRounds(start: nat, sz: nat)
    requires start % 16 == 0
    ensures sz + (16 - (start + sz) % 16) % 16 + (if sz % 16 == 0 then 16 else 0) == Need(sz)
  {
    assert (start + sz) % 16 == sz % 16;
  }

  function Cut(free: seq<Block>, k: nat, newStart: nat): (out: seq<Block>)
    requires k < |free| && free[k].start <= newStart <= End(free[k])
    ensures out == Carve(free, k, newStart - free[k].start)
  {
    free[..k]
    + (if newStart < End(free[k]) then [Block(newStart, End(free[k]) - newStart)] else [])
    + free[k + 1..]
  }

  lemma StatsAfterMalloc(alloc: map<nat, Meta>, p: nat, m: Meta, n: nat)
    requires p !in alloc && p < n
    ensures |alloc[p := m]| == |alloc| + 1
    ensures SizeBelow(alloc[p := m], n) == SizeBelow(alloc, n) + m.sz
  {
    SizeAdd(alloc, p, m, n);
  }

  lemma StatsAfterFree(alloc: map<nat, Meta>, p: nat, n: nat)
    requires p in alloc && p < n
    ensures |alloc - {p}| == |alloc| - 1
    ensures SizeBelow(alloc - {p}, n) == SizeBelow(alloc, n) - alloc[p].sz
  {
    var rest := alloc - {p};
    assert rest[p := alloc[p]] == alloc;
    SizeAdd(rest, p, alloc[p], n);
    assert rest.Keys == alloc.Keys - {p};
  }

  lemma EmptyHeapOk()
    ensures HeapOk([Block(0, SIZE)], map[])
  {
    assert forall x: nat | x < SIZE :: Covers([Block(0, SIZE)][0], x);
  }

  // What the report about a pointer inside a block may say.
  ghost predicate InsideOk(alloc: map<nat, Meta>, p: int, inside: Ptr) {
    match inside
    case Some(q) => q in alloc && q < p < q + alloc[q].sz
    case None => forall q: nat | q in alloc && q < p :: q + alloc[q].sz <= p
  }

  // Only the nearest block below can reach over p.
  lemma NearestBelow(free: seq<Block>, alloc: map<nat, Meta>, p: nat, q: nat)
    requires HeapOk(free, alloc) && p !in alloc && q <= p && (q == 0 || q in alloc)
    requires forall x | q < x <= p :: x !in alloc
    ensures InsideOk(alloc, p, if q in alloc && q + alloc[q].sz > p then Some(q) else None)
  {
    hide Tiled, FreeOk;
    forall x: nat | x in alloc && x < q && q in alloc
      ensures x + alloc[x].sz <= q
    {
    }
  }

  lemma {:induction false} EmptySize(n: nat)
    ensures SizeBelow(map[], n) == 0
  {
    if n > 0 { EmptySize(n - 1); }
  }

  // Shrinking a block leaves bytes that are neither free nor allocated.
  lemma ShrinkLosesBytes(freeBlocks: seq<Block>, alloc: map<nat, Meta>, p: nat, m: Meta)
    requires HeapOk(freeBlocks, alloc) && p in alloc && m.sz <= alloc[p].sz && m.pad == alloc[p].pad
    ensures HeapOk(freeBlocks, alloc[p := m]) <==> m.sz == alloc[p].sz
  {
    if m.sz == alloc[p].sz {
      SameExtents(alloc, p, m);
    } else {
      var x := p + m.sz + m.pad;
      assert Spans(p, alloc[p], x) && Taken(alloc, x);
      assert !Taken(alloc[p := m], x) by { OnlyOneSpans(alloc, p, x); }
    }
  }

  // A heap with one block of 24 bytes, which is then made one byte smaller.
  lemma ShrinkByOne()
    ensures HeapOk([Block(32, SIZE - 32)], map[0 := Meta(24, 8, 1)])
    ensures !HeapOk([Block(32, SIZE - 32)], map[0 := Meta(24, 8, 1)][0 := Meta(23, 8, 1)])
  {
    var free, alloc := [Block(32, SIZE - 32)], map[0 := Meta(24, 8, 1)];
    forall x: nat | x < SIZE
      ensures InFree(free, x) <==> x >= 32
      ensures Taken(alloc, x) <==> x < 32
    {
      assert Covers(free[0], x) <==> x >= 32;
      assert Spans(0, alloc[0], x) <==> x < 32;
    }
    ShrinkLosesBytes(free, alloc, 0, Meta(23, 8, 1));
  }

  lemma SameExtents(alloc: map<nat, Meta>, p: nat, m: Meta)
    requires p in alloc && m.sz == alloc[p].sz && m.pad == alloc[p].pad
    ensures forall x: nat :: Taken(alloc[p := m], x) <==> Taken(alloc, x)
  {
    var alloc' := alloc[p := m];
    forall x: nat
      ensures Taken(alloc', x) <==> Taken(alloc, x)
    {
      if Taken(alloc, x) {
        var q :| q in alloc && Spans(q, alloc[q], x);
        assert q in alloc' && Spans(q, alloc'[q], x);
      }
      if Taken(alloc', x) {
        var q :| q in alloc' && Spans(q, alloc'[q], x);
        assert q in alloc && Spans(q, alloc[q], x);
      }
    }
  }

  lemma OnlyOneSpans(alloc: map<nat, Meta>, p: nat, x: nat)
    requires AllocOk(alloc) && p in alloc && Spans(p, alloc[p], x)
    ensures forall q | q in alloc && q != p :: !Spans(q, alloc[q], x)
  {
  }
}
