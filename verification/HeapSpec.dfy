// The m61 heap as values: the ordered map of free blocks, the map of
// allocated blocks, and what it means for them to tile the buffer.

module HeapSpec {
  import opened Basics

  const SIZE: nat := 8388608   // 8 MiB
  const ALIGNMENT: nat := 16
  const MARKER: Byte := 33     // '!'

  // One entry of free_blocks: (start, size).
  datatype Block = Block(start: nat, size: nat)

  // One entry of allocated_blocks.
  datatype Meta = Meta(sz: nat, pad: nat, line: nat)

  function End(b: Block): nat { b.start + b.size }
  predicate Covers(b: Block, x: nat) { b.start <= x < End(b) }
  predicate Spans(p: nat, m: Meta, x: nat) { p <= x < p + m.sz + m.pad }

  // The bytes m61_malloc(sz) takes: sz rounded up past the next multiple.
  function Need(sz: nat): (n: nat)
    ensures sz < n <= sz + 16
  {
    16 * (sz / 16 + 1)
  }

  predicate InFree(free: seq<Block>, x: nat) {
    exists i | 0 <= i < |free| :: Covers(free[i], x)
  }

  predicate Taken(alloc: map<nat, Meta>, x: nat) {
    exists p | p in alloc :: Spans(p, alloc[p], x)
  }

  predicate BlockOk(b: Block) {
    b.size > 0 && b.start % 16 == 0 && b.size % 16 == 0 && End(b) <= SIZE
  }

  // Blocks in order that do not even touch.
  predicate Apart(b: Block, c: Block) { End(b) < c.start }

  ghost predicate AllApart(f: seq<Block>, g: seq<Block>) {
    forall i, j | 0 <= i < |f| && 0 <= j < |g| :: Apart(f[i], g[j])
  }

  // Free blocks in order, multiples of 16, and never touching each other.
  ghost predicate FreeOk(free: seq<Block>) {
    && (forall i | 0 <= i < |free| :: BlockOk(free[i]))
    && (forall i, j | 0 <= i < j < |free| :: Apart(free[i], free[j]))
  }

  ghost predicate AllocOk(alloc: map<nat, Meta>) {
    && (forall p | p in alloc ::
          p % 16 == 0 && alloc[p].sz + alloc[p].pad == Need(alloc[p].sz) && p + Need(alloc[p].sz) <= SIZE)
    && (forall p, q | p in alloc && q in alloc && p < q :: p + alloc[p].sz + alloc[p].pad <= q)
  }

  // Every byte is free or allocated, never both.
  ghost predicate Tiled(free: seq<Block>, alloc: map<nat, Meta>) {
    forall x: nat | x < SIZE :: InFree(free, x) <==> !Taken(alloc, x)
  }

  ghost predicate HeapOk(free: seq<Block>, alloc: map<nat, Meta>) {
    FreeOk(free) && AllocOk(alloc) && Tiled(free, alloc)
  }

  // n bytes at s that no allocated block touches.
  ghost predicate Gap(alloc: map<nat, Meta>, s: nat, n: nat) {
    s + n <= SIZE && forall x: nat | s <= x < s + n :: !Taken(alloc, x)
  }

  // ---- Putting free lists together ----

  lemma InFreeConcat(f: seq<Block>, g: seq<Block>)
    ensures forall x: nat :: InFree(f + g, x) <==> InFree(f, x) || InFree(g, x)
  {
    forall x: nat
      ensures InFree(f + g, x) <==> InFree(f, x) || InFree(g, x)
    {
      if InFree(f, x) {
        var i :| 0 <= i < |f| && Covers(f[i], x);
        assert (f + g)[i] == f[i];
      }
      if InFree(g, x) {
        var i :| 0 <= i < |g| && Covers(g[i], x);
        assert (f + g)[|f| + i] == g[i];
      }
    }
  }

  lemma InFreeThree(l: seq<Block>, b: Block, r: seq<Block>)
    ensures forall x: nat :: InFree(l + [b] + r, x) <==> InFree(l, x) || Covers(b, x) || InFree(r, x)
  {
    InFreeConcat(l + [b], r);
    InFreeConcat(l, [b]);
    assert forall x: nat :: Covers([b][0], x) ==> InFree([b], x);
  }

  lemma FreeOkConcat(f: seq<Block>, g: seq<Block>)
    requires FreeOk(f) && FreeOk(g) && AllApart(f, g)
    ensures FreeOk(f + g)
  {
  }

  lemma FreeOkThree(l: seq<Block>, b: Block, r: seq<Block>)
    requires FreeOk(l) && FreeOk(r) && BlockOk(b)
    requires AllApart(l, [b]) && AllApart([b], r) && AllApart(l, r)
    ensures FreeOk(l + [b] + r)
  {
    FreeOkConcat(l, [b]);
    assert AllApart(l + [b], r);
    FreeOkConcat(l + [b], r);
  }

  // A free list around its block k.
  lemma SplitAt(free: seq<Block>, k: nat)
    requires FreeOk(free) && k < |free|
    ensures free == free[..k] + [free[k]] + free[k + 1..]
    ensures FreeOk(free[..k]) && FreeOk(free[k + 1..])
    ensures AllApart(free[..k], [free[k]]) && AllApart([free[k]], free[k + 1..]) && AllApart(free[..k], free[k + 1..])
  {
  }

  // ---- free_blocks is a function of allocated_blocks ----

  lemma {:induction false} FreeListUnique(f: seq<Block>, g: seq<Block>)
    requires FreeOk(f) && FreeOk(g)
    requires forall x: nat :: InFree(f, x) <==> InFree(g, x)
    ensures f == g
    decreases |f|
  {
    if f == [] {
      NoBytesNoBlocks(g);
    } else {
      SameFirst(f, g);
      TailBytes(f);
      TailBytes(g);
      FreeListUnique(f[1..], g[1..]);
      assert f == [f[0]] + f[1..] && g == [g[0]] + g[1..];
    }
  }

  lemma NoBytesNoBlocks(g: seq<Block>)
    requires FreeOk(g)
    ensures (forall x: nat :: !InFree(g, x)) ==> g == []
  {
    if g != [] {
      assert BlockOk(g[0]) && Covers(g[0], g[0].start) && InFree(g, g[0].start);
    }
  }

  lemma FirstIsLowest(f: seq<Block>, x: nat)
    requires FreeOk(f) && InFree(f, x)
    ensures f != [] && f[0].start <= x
    ensures x < End(f[0]) || End(f[0]) < x
  {
    var i :| 0 <= i < |f| && Covers(f[i], x);
    if i > 0 {
      assert Apart(f[0], f[i]);
    }
  }

  lemma SameFirst(f: seq<Block>, g: seq<Block>)
    requires FreeOk(f) && FreeOk(g) && f != []
    requires forall x: nat :: InFree(f, x) <==> InFree(g, x)
    ensures g != [] && f[0] == g[0]
  {
    assert BlockOk(f[0]) && Covers(f[0], f[0].start) && InFree(f, f[0].start);
    FirstIsLowest(g, f[0].start);
    assert BlockOk(g[0]) && Covers(g[0], g[0].start) && InFree(g, g[0].start);
    FirstIsLowest(f, g[0].start);
    if End(f[0]) < End(g[0]) {
      assert Covers(g[0], End(f[0])) && InFree(g, End(f[0]));
      FirstIsLowest(f, End(f[0]));
    }
    if End(g[0]) < End(f[0]) {
      assert Covers(f[0], End(g[0])) && InFree(f, End(g[0]));
      FirstIsLowest(g, End(g[0]));
    }
  }

  lemma TailBytes(f: seq<Block>)
    requires FreeOk(f) && f != []
    ensures FreeOk(f[1..])
    ensures forall x: nat :: InFree(f[1..], x) <==> InFree(f, x) && !Covers(f[0], x)
  {
    SplitAt(f, 0);
    InFreeThree(f[..0], f[0], f[1..]);
    forall x: nat | InFree(f[1..], x)
      ensures !Covers(f[0], x)
    {
      var i :| 0 <= i < |f[1..]| && Covers(f[1..][i], x);
      assert Apart(f[0], f[i + 1]);
    }
  }

  // Two heaps with the same allocated blocks have the same free blocks.
  lemma FreeIsFunctionOfAllocated(f: seq<Block>, g: seq<Block>, alloc: map<nat, Meta>)
    requires HeapOk(f, alloc) && HeapOk(g, alloc)
    ensures f == g
  {
    forall x: nat
      ensures InFree(f, x) <==> InFree(g, x)
    {
      InFreeBelowSize(f, x);
      InFreeBelowSize(g, x);
    }
    FreeListUnique(f, g);
  }

  lemma InFreeBelowSize(f: seq<Block>, x: nat)
    requires FreeOk(f)
    ensures InFree(f, x) ==> x < SIZE
  {
    if i :| 0 <= i < |f| && Covers(f[i], x) {
      assert BlockOk(f[i]);
    }
  }

  // ---- Allocation ----

  // The test at m61.cc:87 leaves out the padding; on blocks that are multiples
  // of 16 it is the right one all the same.
  lemma FitTestExact(size: nat, sz: nat)
    requires size % 16 == 0
    ensures size >= sz + (if sz % 16 == 0 then 16 else 0) <==> size >= Need(sz)
  {
  }

  // A run of free bytes lies in one free block.
  lemma {:induction false} RunInOneBlock(free: seq<Block>, s: nat, n: nat) returns (i: nat)
    requires FreeOk(free) && n > 0 && forall x: nat | s <= x < s + n :: InFree(free, x)
    ensures i < |free| && free[i].start <= s && s + n <= End(free[i])
  {
    if n == 1 {
      assert InFree(free, s);
      i :| 0 <= i < |free| && Covers(free[i], s);
    } else {
      i := RunInOneBlock(free, s, n - 1);
      var last := s + n - 1;
      assert InFree(free, last);
      var j :| 0 <= j < |free| && Covers(free[j], last);
      if j != i {
        assert false;
      }
    }
  }

  // First fit returns the lowest gap, and there is one when any block fits.
  lemma FirstFitIsLowest(free: seq<Block>, alloc: map<nat, Meta>, k: nat, need: nat)
    requires HeapOk(free, alloc) && k <= |free| && need > 0
    requires forall i | 0 <= i < k :: free[i].size < need
    requires k < |free| ==> free[k].size >= need
    ensures k < |free| ==>
              Gap(alloc, free[k].start, need) && forall s: nat | s < free[k].start :: !Gap(alloc, s, need)
    ensures k == |free| ==> forall s: nat :: !Gap(alloc, s, need)
  {
    if k < |free| {
      forall x: nat | free[k].start <= x < free[k].start + need
        ensures !Taken(alloc, x)
      {
        assert Covers(free[k], x) && InFree(free, x);
      }
    }
    forall s: nat | Gap(alloc, s, need)
      ensures k < |free| && free[k].start <= s
    {
      var i := RunInOneBlock(free, s, need);
      assert free[i].size >= need;
      if k < i {
        assert Apart(free[k], free[i]);
      }
    }
  }

  // free_blocks after taking `need` bytes off the front of block k.
  function Carve(free: seq<Block>, k: nat, need: nat): (out: seq<Block>)
    requires k < |free| && need <= free[k].size
  {
    free[..k]
    + (if need < free[k].size then [Block(free[k].start + need, free[k].size - need)] else [])
    + free[k + 1..]
  }

  lemma CarveOk(free: seq<Block>, k: nat, need: nat)
    requires FreeOk(free) && k < |free| && 0 < need <= free[k].size && need % 16 == 0
    ensures FreeOk(Carve(free, k, need))
    ensures forall x: nat ::
              InFree(Carve(free, k, need), x) <==> InFree(free, x) && !(free[k].start <= x < free[k].start + need)
  {
    var l, b, r := free[..k], free[k], free[k + 1..];
    SplitAt(free, k);
    InFreeThree(l, b, r);
    assert BlockOk(b);
    NeighboursMiss(l, b, r);
    if need < b.size {
      var c := Block(b.start + need, b.size - need);
      assert AllApart(l, [c]) by { assert forall i | 0 <= i < |l| :: Apart(l[i], [b][0]); }
      assert AllApart([c], r) by { assert forall i | 0 <= i < |r| :: Apart([b][0], r[i]); }
      FreeOkThree(l, c, r);
      InFreeThree(l, c, r);
    } else {
      FreeOkConcat(l, r);
      InFreeConcat(l, r);
      assert l + [] + r == l + r;
    }
  }

  lemma NeighboursMiss(l: seq<Block>, b: Block, r: seq<Block>)
    requires AllApart(l, [b]) && AllApart([b], r)
    ensures forall x: nat | InFree(l, x) || InFree(r, x) :: !Covers(b, x)
  {
    forall x: nat | InFree(l, x) || InFree(r, x)
      ensures !Covers(b, x)
    {
      if i :| 0 <= i < |l| && Covers(l[i], x) {
        assert Apart(l[i], [b][0]);
      } else {
        var i :| 0 <= i < |r| && Covers(r[i], x);
        assert Apart([b][0], r[i]);
      }
    }
  }

  lemma MallocOk(free: seq<Block>, alloc: map<nat, Meta>, k: nat, m: Meta)
    requires HeapOk(free, alloc) && k < |free|
    requires m.sz + m.pad == Need(m.sz) <= free[k].size
    ensures free[k].start !in alloc
    ensures HeapOk(Carve(free, k, Need(m.sz)), alloc[free[k].start := m])
  {
    var p, need := free[k].start, Need(m.sz);
    var free', alloc' := Carve(free, k, need), alloc[p := m];
    assert BlockOk(free[k]);
    CarveOk(free, k, need);
    NothingInside(free, alloc, k);
    forall x: nat | x < SIZE
      ensures Taken(alloc', x) <==> Taken(alloc, x) || p <= x < p + need
    {
      TakenAdd(alloc, p, m, x);
    }
  }

  lemma TakenAdd(alloc: map<nat, Meta>, p: nat, m: Meta, x: nat)
    requires p !in alloc
    ensures Taken(alloc[p := m], x) <==> Taken(alloc, x) || Spans(p, m, x)
  {
    var alloc' := alloc[p := m];
    if Taken(alloc, x) {
      var q :| q in alloc && Spans(q, alloc[q], x);
      assert q in alloc' && Spans(q, alloc'[q], x);
    }
    if Spans(p, m, x) {
      assert p in alloc' && Spans(p, alloc'[p], x);
    }
  }

  // No allocated extent meets a free block.
  lemma NothingInside(free: seq<Block>, alloc: map<nat, Meta>, k: nat)
    requires HeapOk(free, alloc) && k < |free|
    ensures forall q | q in alloc :: q + Need(alloc[q].sz) <= free[k].start || End(free[k]) <= q
  {
    forall q | q in alloc
      ensures q + Need(alloc[q].sz) <= free[k].start || End(free[k]) <= q
    {
      var x := if q < free[k].start then free[k].start else q;
      assert BlockOk(free[k]);
      assert Covers(free[k], x) ==> InFree(free, x);
      assert Spans(q, alloc[q], x) ==> Taken(alloc, x);
    }
  }

  // ---- Freeing ----

  // Where a block starting at p goes in the ordered map.
  function Rank(free: seq<Block>, p: nat): (k: nat)
    ensures k <= |free|
    ensures forall i | 0 <= i < k :: free[i].start < p
    ensures k < |free| ==> p <= free[k].start
  {
    if free == [] || p <= free[0].start then 0 else 1 + Rank(free[1..], p)
  }

  // A block joined with the block right after it, if they touch.
  function JoinRight(b: Block, r: seq<Block>): (out: (Block, seq<Block>)) {
    if r != [] && End(b) == r[0].start then (Block(b.start, b.size + r[0].size), r[1..]) else (b, r)
  }

  function JoinLeft(l: seq<Block>, b: Block): (out: (seq<Block>, Block)) {
    if l != [] && End(l[|l| - 1]) == b.start
    then (l[..|l| - 1], Block(l[|l| - 1].start, l[|l| - 1].size + b.size))
    else (l, b)
  }

  // free_blocks after freeing `size` bytes at p.
  function Returned(free: seq<Block>, p: nat, size: nat): (out: seq<Block>) {
    var k := Rank(free, p);
    var (b, r) := JoinRight(Block(p, size), free[k..]);
    var (l, c) := JoinLeft(free[..k], b);
    l + [c] + r
  }

  // The same step by step, as the program does it on its list.
  function Inserted(free: seq<Block>, k: nat, b: Block): (out: seq<Block>)
    requires k <= |free|
    ensures |out| == |free| + 1
  {
    free[..k] + [b] + free[k..]
  }

  predicate Touching(free: seq<Block>, k: nat) {
    k + 1 < |free| && free[k].size == free[k + 1].start - free[k].start
  }

  function Merged(free: seq<Block>, k: nat): (out: seq<Block>)
    requires k + 1 < |free|
    ensures |out| == |free| - 1
  {
    free[..k] + [Block(free[k].start, free[k].size + free[k + 1].size)] + free[k + 2..]
  }

  lemma ReturnedStepwise(free: seq<Block>, p: nat, size: nat)
    ensures var k := Rank(free, p);
            var a := Inserted(free, k, Block(p, size));
            var b := if Touching(a, k) then Merged(a, k) else a;
            Returned(free, p, size) == if k > 0 && Touching(b, k - 1) then Merged(b, k - 1) else b
  {
    hide JoinRight, JoinLeft, Rank;
    var k := Rank(free, p);
    var (c, r) := JoinRight(Block(p, size), free[k..]);
    JoinedRight(free[..k], Block(p, size), free[k..]);
    JoinedLeft(free[..k], c, r);
  }

  lemma JoinedRight(l: seq<Block>, b: Block, r: seq<Block>)
    ensures var a, joined := l + [b] + r, JoinRight(b, r);
            l + [joined.0] + joined.1 == if Touching(a, |l|) then Merged(a, |l|) else a
  {
    var a, k := l + [b] + r, |l|;
    assert a[..k] == l;
    assert r != [] ==> a[k + 1] == r[0] && a[k + 2..] == r[1..];
  }

  lemma JoinedLeft(l: seq<Block>, b: Block, r: seq<Block>)
    ensures var a, joined := l + [b] + r, JoinLeft(l, b);
            joined.0 + [joined.1] + r == if l != [] && Touching(a, |l| - 1) then Merged(a, |l| - 1) else a
  {
    var a, k := l + [b] + r, |l|;
    assert a[k + 1..] == r;
    assert l != [] ==> a[..k - 1] == l[..k - 1] && a[k - 1] == l[k - 1];
  }

  // In order, but possibly touching.
  predicate NotAfter(b: Block, c: Block) { End(b) <= c.start }

  lemma JoinRightOk(b: Block, r: seq<Block>)
    requires BlockOk(b) && FreeOk(r) && forall i | 0 <= i < |r| :: NotAfter(b, r[i])
    ensures var (c, r') := JoinRight(b, r);
            && BlockOk(c) && c.start == b.start && FreeOk(r') && AllApart([c], r')
            && (forall i | 0 <= i < |r'| :: r'[i] in r)
            && forall x: nat :: Covers(c, x) || InFree(r', x) <==> Covers(b, x) || InFree(r, x)
  {
    if r != [] {
      assert BlockOk(r[0]);
      assert forall i | 0 < i < |r| :: Apart(r[0], r[i]);
      TailBytes(r);
    }
  }

  lemma JoinLeftOk(l: seq<Block>, b: Block)
    requires BlockOk(b) && FreeOk(l) && forall i | 0 <= i < |l| :: NotAfter(l[i], b)
    ensures var (l', c) := JoinLeft(l, b);
            && BlockOk(c) && End(c) == End(b) && FreeOk(l') && AllApart(l', [c])
            && (forall i | 0 <= i < |l'| :: l'[i] in l)
            && forall x: nat :: Covers(c, x) || InFree(l', x) <==> Covers(b, x) || InFree(l, x)
  {
    if l != [] {
      var n := |l| - 1;
      SplitAt(l, n);
      InFreeThree(l[..n], l[n], l[n + 1..]);
      assert BlockOk(l[n]);
      assert forall i | 0 <= i < n :: Apart(l[i], l[n]);
    }
  }

  // Coalescing makes a good list again, with the freed bytes added.
  lemma ReturnedOk(free: seq<Block>, b: Block)
    requires FreeOk(free) && BlockOk(b)
    requires forall i | 0 <= i < |free| :: NotAfter(b, free[i]) || NotAfter(free[i], b)
    ensures FreeOk(Returned(free, b.start, b.size))
    ensures forall x: nat :: InFree(Returned(free, b.start, b.size), x) <==> InFree(free, x) || Covers(b, x)
  {
    hide Rank, JoinRight, JoinLeft, InFree;
    var k := Rank(free, b.start);
    var l, r := free[..k], free[k..];
    assert free == l + r;
    InFreeConcat(l, r);
    RankSplits(free, b, k);
    JoinRightOk(b, r);
    var (b', r') := JoinRight(b, r);
    JoinLeftOk(l, b');
    var (l', c) := JoinLeft(l, b');
    SameEnd(b', c, r');
    FarApart(l', c, r');
    FreeOkThree(l', c, r');
    InFreeThree(l', c, r');
  }

  lemma SameEnd(b: Block, c: Block, r: seq<Block>)
    requires End(b) == End(c) && AllApart([b], r)
    ensures AllApart([c], r)
  {
    forall i | 0 <= i < |r|
      ensures Apart(c, r[i])
    {
      assert Apart([b][0], r[i]);
    }
  }

  lemma FarApart(l: seq<Block>, c: Block, r: seq<Block>)
    requires BlockOk(c) && AllApart(l, [c]) && AllApart([c], r)
    ensures AllApart(l, r)
  {
    forall i, j | 0 <= i < |l| && 0 <= j < |r|
      ensures Apart(l[i], r[j])
    {
      assert Apart(l[i], [c][0]) && Apart([c][0], r[j]);
    }
  }

  lemma RankSplits(free: seq<Block>, b: Block, k: nat)
    requires FreeOk(free) && BlockOk(b) && k == Rank(free, b.start)
    requires forall i | 0 <= i < |free| :: NotAfter(b, free[i]) || NotAfter(free[i], b)
    ensures FreeOk(free[..k]) && FreeOk(free[k..])
    ensures forall i | 0 <= i < k :: NotAfter(free[..k][i], b)
    ensures forall i | 0 <= i < |free| - k :: NotAfter(b, free[k..][i])
  {
    forall i | k <= i < |free|
      ensures NotAfter(b, free[i])
    {
      assert BlockOk(free[k]) && BlockOk(free[i]) && (i > k ==> Apart(free[k], free[i]));
    }
  }

  lemma FreeOneOk(free: seq<Block>, alloc: map<nat, Meta>, p: nat)
    requires HeapOk(free, alloc) && p in alloc
    ensures HeapOk(Returned(free, p, alloc[p].sz + alloc[p].pad), alloc - {p})
  {
    var b := Block(p, alloc[p].sz + alloc[p].pad);
    forall i | 0 <= i < |free|
      ensures NotAfter(b, free[i]) || NotAfter(free[i], b)
    {
      NothingInside(free, alloc, i);
    }
    ReturnedOk(free, b);
    TiledAfterFree(free, alloc, p, Returned(free, p, b.size));
  }

  lemma TiledAfterFree(free: seq<Block>, alloc: map<nat, Meta>, p: nat, free': seq<Block>)
    requires HeapOk(free, alloc) && p in alloc
    requires forall x: nat :: InFree(free', x) <==> InFree(free, x) || Spans(p, alloc[p], x)
    ensures Tiled(free', alloc - {p}) && AllocOk(alloc - {p})
  {
    var alloc' := alloc - {p};
    forall x: nat | x < SIZE
      ensures InFree(free', x) <==> !Taken(alloc', x)
    {
      assert p !in alloc' && alloc'[p := alloc[p]] == alloc;
      TakenAdd(alloc', p, alloc[p], x);
      if Taken(alloc', x) {
        var q :| q in alloc' && Spans(q, alloc'[q], x);
        assert q in alloc && alloc[q] == alloc'[q] && q != p;
        assert !Spans(p, alloc[p], x);
      }
    }
  }

  // malloc followed by free of the result gives back the same heap.
  lemma FreeUndoesMalloc(free: seq<Block>, alloc: map<nat, Meta>, k: nat, m: Meta)
    requires HeapOk(free, alloc) && k < |free|
    requires m.sz + m.pad == Need(m.sz) <= free[k].size
    ensures var p := free[k].start;
            && alloc[p := m] - {p} == alloc
            && Returned(Carve(free, k, Need(m.sz)), p, Need(m.sz)) == free
  {
    hide HeapOk, Returned, Carve, Need;
    var p := free[k].start;
    MallocOk(free, alloc, k, m);
    var alloc' := alloc[p := m];
    FreeOneOk(Carve(free, k, Need(m.sz)), alloc', p);
    assert alloc' - {p} == alloc;
    FreeIsFunctionOfAllocated(Returned(Carve(free, k, Need(m.sz)), p, Need(m.sz)), free, alloc);
  }

  // ---- The statistics ----

  // Total payload of the blocks that start below n.
  function SizeBelow(alloc: map<nat, Meta>, n: nat): nat {
    if n == 0 then 0 else SizeBelow(alloc, n - 1) + if n - 1 in alloc then alloc[n - 1].sz else 0
  }

  lemma {:induction false} SizeAdd(alloc: map<nat, Meta>, p: nat, m: Meta, n: nat)
    requires p !in alloc
    ensures SizeBelow(alloc[p := m], n) == SizeBelow(alloc, n) + if p < n then m.sz else 0
  {
    if n > 0 { SizeAdd(alloc, p, m, n - 1); }
  }

  lemma {:induction false} SizeSame(alloc: map<nat, Meta>, p: nat, m: Meta, n: nat)
    requires p in alloc && m.sz == alloc[p].sz
    ensures SizeBelow(alloc[p := m], n) == SizeBelow(alloc, n)
  {
    if n > 0 { SizeSame(alloc, p, m, n - 1); }
  }
}
