// What the calls of the allocator do, told block by block, byte by byte and
// counter by counter.

module HeapTold {
  import opened Basics
  import opened HeapSpec

  // Pointers are offsets into the buffer; None is the null pointer.
  datatype Ptr = None | Some(at: int)

  // The counters of m61_statistics. The active ones never pass the size of
  // the buffer; the others are unsigned and wrap around.
  datatype Stats = Stats(nactive: int, activeSize: int, ntotal: nat, totalSize: nat, nfail: nat, failSize: nat)

  datatype FreeResult = Nothing | Freed | DoubleFree | NotInHeap | NotAllocated(inside: Ptr) | WildWrite

  // The whole state of the allocator.
  datatype View = View(free: seq<Block>, live: map<nat, Meta>, freed: set<int>, bytes: seq<Byte>, stats: Stats)

  // sz bytes and from 1 to 16 more, up to a multiple of 16.
  predicate Rounded(sz: nat, n: nat) { n % 16 == 0 && sz < n <= sz + 16 }

  // n bytes at s inside the 8 MiB that overlap no block.
  ghost predicate Vacant(live: map<nat, Meta>, s: nat, n: nat) {
    s + n <= 8388608 && forall q | q in live :: q + live[q].sz + live[q].pad <= s || s + n <= q
  }

  ghost predicate NoVacancy(live: map<nat, Meta>, sz: nat) {
    sz >= 8388608 || forall s: nat, n: nat | Rounded(sz, n) :: !Vacant(live, s, n)
  }

  // Nothing but the two counters of failures changes.
  predicate Fails(v: View, sz: nat, w: View) {
    && w.live == v.live && w.freed == v.freed && w.bytes == v.bytes
    && w.stats == Stats(v.stats.nactive, v.stats.activeSize, v.stats.ntotal, v.stats.totalSize,
                        (v.stats.nfail + 1) % 0x1_0000_0000_0000_0000, (v.stats.failSize + sz) % 0x1_0000_0000_0000_0000)
  }

  // One block more, and sz bytes.
  predicate OneMore(s: Stats, sz: nat, t: Stats) {
    t == Stats(s.nactive + 1, s.activeSize + sz,
               (s.ntotal + 1) % 0x1_0000_0000_0000_0000, (s.totalSize + sz) % 0x1_0000_0000_0000_0000, s.nfail, s.failSize)
  }

  // One block less.
  predicate OneLess(s: Stats, sz: nat, t: Stats) {
    t == Stats(s.nactive - 1, s.activeSize - sz, s.ntotal, s.totalSize, s.nfail, s.failSize)
  }

  // The block m at p is what a request for sz bytes gets.
  ghost predicate Allotted(live: map<nat, Meta>, sz: nat, line: nat, p: nat, m: Meta) {
    && p !in live && m.sz == sz && m.line == line && Rounded(sz, sz + m.pad)
    && LowestVacancy(live, p, sz + m.pad)
  }

  ghost predicate LowestVacancy(live: map<nat, Meta>, p: nat, n: nat) {
    Vacant(live, p, n) && forall t: nat | t < p :: !Vacant(live, t, n)
  }

  // Outside the payload of the block m at p only its padding changed, and that
  // is all exclamation marks.
  predicate Padded(before: seq<Byte>, p: nat, m: Meta, after: seq<Byte>) {
    && |after| == |before| && p + m.sz + m.pad <= |before|
    && forall i | 0 <= i < |before| && !(p <= i < p + m.sz) ::
         after[i] == if p + m.sz <= i < p + m.sz + m.pad then '!' as int else before[i]
  }

  predicate PayloadKept(before: seq<Byte>, p: nat, from: nat, to: nat, after: seq<Byte>) {
    |after| == |before| && p + to <= |before| && forall i | p + from <= i < p + to :: after[i] == before[i]
  }

  predicate Moved(before: seq<Byte>, from: nat, to: nat, n: nat, after: seq<Byte>) {
    from + n <= |before| && to + n <= |after| && forall i | to <= i < to + n :: after[i] == before[from + (i - to)]
  }

  ghost predicate MallocTold(v: View, sz: nat, line: nat, p: Ptr, w: View) {
    if NoVacancy(v.live, sz) then p.None? && Fails(v, sz, w)
    else
      && p.Some? && p.at >= 0 && p.at in w.live && Allotted(v.live, sz, line, p.at, w.live[p.at])
      && w.live == v.live[p.at := w.live[p.at]] && w.freed == v.freed - {p.at} && OneMore(v.stats, sz, w.stats)
      && Padded(v.bytes, p.at, w.live[p.at], w.bytes) && PayloadKept(v.bytes, p.at, 0, sz, w.bytes)
  }

  ghost predicate CallocTold(v: View, count: nat, sz: nat, line: nat, p: Ptr, w: View) {
    var n := count * sz;
    if count > 8388608 || sz > 8388608 || NoVacancy(v.live, n) then p.None? && Fails(v, n, w)
    else
      && p.Some? && p.at >= 0 && p.at in w.live && Allotted(v.live, n, line, p.at, w.live[p.at])
      && w.live == v.live[p.at := w.live[p.at]] && w.freed == v.freed - {p.at} && OneMore(v.stats, n, w.stats)
      && Padded(v.bytes, p.at, w.live[p.at], w.bytes) && forall i | p.at <= i < p.at + n :: w.bytes[i] == 0
  }

  predicate Intact(bytes: seq<Byte>, p: nat, m: Meta) {
    p + m.sz + m.pad <= |bytes| && forall i | p + m.sz <= i < p + m.sz + m.pad :: bytes[i] == '!' as int
  }

  ghost predicate FreeTold(v: View, ptr: Ptr, r: FreeResult, w: View) {
    w.bytes == v.bytes
    && if ptr.Some? && ptr.at in v.live then
         && w.freed == v.freed + {ptr.at}
         && if Intact(v.bytes, ptr.at, v.live[ptr.at]) then
              r == Freed && w.live == v.live - {ptr.at} && OneLess(v.stats, v.live[ptr.at].sz, w.stats)
            else r == WildWrite && w.live == v.live && w.stats == v.stats
       else
         && w == v
         && if ptr.None? then r == Nothing
            else if ptr.at in v.freed then r == DoubleFree
            else if ptr.at < 0 || ptr.at >= 8388608 then r == NotInHeap
            else
              && r.NotAllocated?
              && forall q | q in v.live :: (r.inside == Some(q) <==> q < ptr.at < q + v.live[q].sz)
  }

  // Growing: the new block begins with the old payload, and the old block is
  // freed.
  ghost predicate GrowTold(v: View, from: nat, sz: nat, line: nat, p: Ptr, r: FreeResult, w: View)
    requires from in v.live
  {
    var old_ := v.live[from];
    if NoVacancy(v.live, sz) then p.None? && r == Nothing && Fails(v, sz, w)
    else
      && p.Some? && p.at >= 0 && p.at in w.live && Allotted(v.live, sz, line, p.at, w.live[p.at])
      && Padded(v.bytes, p.at, w.live[p.at], w.bytes) && PayloadKept(v.bytes, p.at, old_.sz, sz, w.bytes)
      && Moved(v.bytes, from, p.at, old_.sz, w.bytes)
      && w.freed == v.freed - {p.at} + {from}
      && if Intact(v.bytes, from, old_) then
           && r == Freed && w.live == v.live[p.at := w.live[p.at]] - {from}
           && w.stats == Stats(v.stats.nactive, v.stats.activeSize + sz - old_.sz, (v.stats.ntotal + 1) % 0x1_0000_0000_0000_0000,
                               (v.stats.totalSize + sz) % 0x1_0000_0000_0000_0000, v.stats.nfail, v.stats.failSize)
         else r == WildWrite && w.live == v.live[p.at := w.live[p.at]] && OneMore(v.stats, sz, w.stats)
  }

  // Shrinking, or asking for the same size again: the block keeps the number
  // of its padding bytes.
  ghost predicate ShrinkTold(v: View, p: nat, sz: nat, line: nat, w: View)
    requires p in v.live
  {
    && w.free == v.free && w.live == v.live[p := Meta(sz, v.live[p].pad, line)] && w.freed == v.freed && w.stats == v.stats
    && Padded(v.bytes, p, w.live[p], w.bytes) && PayloadKept(v.bytes, p, 0, sz, w.bytes)
  }
}
