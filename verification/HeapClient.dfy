// Whole runs of the heap under a client that keeps inside its payloads: the
// heap is a map from live blocks to their payload bytes.

module HeapClient {
  import opened Basics
  import opened HeapSpec
  import opened HeapTold
  import opened Heap

  type Payloads = map<nat, seq<Byte>>

  datatype Op = OpMalloc(sz: nat) | OpCalloc(count: nat, size: nat) | OpFree(p: nat) | OpRealloc(ptr: Ptr, sz: nat)
              | OpStore(p: nat, off: nat, b: Byte)

  datatype Answer = Denied | Got(p: nat) | Released | Stored | Aborted

  // ---- The heap as its client sees it ----

  ghost predicate Covered(pl: Payloads, x: nat) {
    exists q | q in pl :: q <= x < q + Need(|pl[q]|)
  }

  ghost predicate Room(pl: Payloads, s: nat, n: nat) {
    s + n <= SIZE && forall x: nat | s <= x < s + n :: !Covered(pl, x)
  }

  ghost predicate Lowest(pl: Payloads, s: nat, n: nat) {
    Room(pl, s, n) && forall t: nat | t < s :: !Room(pl, t, n)
  }

  ghost predicate Full(pl: Payloads, sz: nat) {
    sz >= SIZE || forall s: nat :: !Room(pl, s, Need(sz))
  }

  function Stored1(bytes: seq<Byte>, off: nat, b: Byte): seq<Byte>
    requires off < |bytes|
  {
    bytes[off := b]
  }

  function Zeros(n: nat): seq<Byte> { seq(n, _ => 0) }

  // The pointers and offsets a well-behaved client may use. It does not make
  // blocks smaller, which breaks the heap.
  predicate Behaved(pl: Payloads, op: Op) {
    match op
    case OpFree(p) => p in pl
    case OpRealloc(ptr, sz) => ptr.Some? ==> ptr.at in pl && (sz == 0 || sz >= |pl[ptr.at]|)
    case OpStore(p, off, _) => p in pl && off < |pl[p]|
    case _ => true
  }

  // A new block of sz bytes at the lowest room there is.
  ghost predicate Placed(pl: Payloads, sz: nat, ans: Answer, pl': Payloads) {
    ans.Got? && ans.p !in pl && Lowest(pl, ans.p, Need(sz)) && ans.p in pl' && |pl'[ans.p]| == sz
  }

  ghost predicate Mallocs(pl: Payloads, sz: nat, ans: Answer, pl': Payloads) {
    if Full(pl, sz) then ans == Denied && pl' == pl
    else Placed(pl, sz, ans, pl') && pl' == pl[ans.p := pl'[ans.p]]
  }

  ghost predicate Frees(pl: Payloads, p: nat, ans: Answer, pl': Payloads) {
    ans == Released && pl' == pl - {p}
  }

  // One call: its answer, and the payloads after it.
  ghost predicate Steps(pl: Payloads, op: Op, ans: Answer, pl': Payloads)
    requires Behaved(pl, op)
  {
    match op
    case OpMalloc(sz) => Mallocs(pl, sz, ans, pl')
    case OpCalloc(count, size) =>
      if count > SIZE || size > SIZE || Full(pl, count * size) then ans == Denied && pl' == pl
      else Placed(pl, count * size, ans, pl') && pl' == pl[ans.p := Zeros(count * size)]
    case OpFree(p) => Frees(pl, p, ans, pl')
    case OpRealloc(ptr, sz) =>
      if ptr.None? then Mallocs(pl, sz, ans, pl')
      else if sz == 0 then Frees(pl, ptr.at, ans, pl')
      else if sz == |pl[ptr.at]| then ans == Got(ptr.at) && pl' == pl
      else if Full(pl, sz) then ans == Denied && pl' == pl
      else
        && Placed(pl, sz, ans, pl') && pl' == pl[ans.p := pl'[ans.p]] - {ptr.at}
        && pl'[ans.p][..|pl[ptr.at]|] == pl[ptr.at]
    case OpStore(p, off, b) => ans == Stored && pl' == pl[p := Stored1(pl[p], off, b)]
  }

  // The states, answers and calls of a run belong together.
  ghost predicate Ran(states: seq<Payloads>, ops: seq<Op>, answers: seq<Answer>) {
    && |states| == |answers| + 1 && |answers| <= |ops| && states[0] == map[]
    && forall i | 0 <= i < |answers| :: Behaved(states[i], ops[i]) && Steps(states[i], ops[i], answers[i], states[i + 1])
  }

  // A payload byte stays what it is until its block is freed or reallocated or
  // the byte itself is stored to.
  predicate Touches(op: Op, p: nat, off: nat) {
    match op
    case OpFree(q) => q == p
    case OpRealloc(ptr, _) => ptr == Some(p)
    case OpStore(q, o, _) => q == p && o == off
    case _ => false
  }

  lemma {:induction false} Retained(states: seq<Payloads>, ops: seq<Op>, answers: seq<Answer>, i: nat, j: nat, p: nat, off: nat)
    requires Ran(states, ops, answers) && i <= j < |states| && p in states[i] && off < |states[i][p]|
    requires forall k | i <= k < j :: !Touches(ops[k], p, off)
    ensures p in states[j] && |states[j][p]| == |states[i][p]| && states[j][p][off] == states[i][p][off]
    decreases j - i
  {
    if i < j {
      Retained(states, ops, answers, i, j - 1, p, off);
      assert Steps(states[j - 1], ops[j - 1], answers[j - 1], states[j]);
    }
  }

  // The byte stored last is the byte found.
  lemma LastStored(states: seq<Payloads>, ops: seq<Op>, answers: seq<Answer>, i: nat, j: nat, p: nat, off: nat, b: Byte)
    requires Ran(states, ops, answers) && i < j < |states| && ops[i] == OpStore(p, off, b)
    requires forall k | i < k < j :: !Touches(ops[k], p, off)
    ensures p in states[j] && off < |states[j][p]| && states[j][p][off] == b
  {
    assert Behaved(states[i], ops[i]) && Steps(states[i], ops[i], answers[i], states[i + 1]);
    Retained(states, ops, answers, i + 1, j, p, off);
  }

  // ---- From the heap's state to payloads ----

  function Part(bytes: seq<Byte>, q: nat, n: nat): (part: seq<Byte>)
    ensures q + n <= |bytes| ==> |part| == n
  {
    if q + n <= |bytes| then bytes[q..q + n] else []
  }

  function PayloadsOf(v: View): Payloads {
    map q | q in v.live :: Part(v.bytes, q, v.live[q].sz)
  }

  // Blocks inside the buffer that do not overlap.
  ghost predicate Laid(v: View) {
    && |v.bytes| == SIZE
    && (forall p | p in v.live :: v.live[p].sz + v.live[p].pad == Need(v.live[p].sz) && p + Need(v.live[p].sz) <= SIZE)
    && (forall p, q | p in v.live && q in v.live && p < q :: p + Need(v.live[p].sz) <= q)
  }

  lemma HeapLaid(v: View)
    requires HeapOk(v.free, v.live) && |v.bytes| == SIZE
    ensures Laid(v)
  {
  }

  lemma AllThere(v: View)
    requires Laid(v)
    ensures PayloadsOf(v).Keys == v.live.Keys
    ensures forall q | q in v.live ::
              && q + v.live[q].sz <= SIZE == |v.bytes| && |PayloadsOf(v)[q]| == v.live[q].sz
              && v.live[q].sz + v.live[q].pad == Need(v.live[q].sz)
              && PayloadsOf(v)[q] == Part(v.bytes, q, v.live[q].sz)
  {
    hide Part;
  }

  lemma SameCover(v: View, x: nat)
    requires Laid(v)
    ensures Covered(PayloadsOf(v), x) <==> Taken(v.live, x)
  {
    AllThere(v);
    var pl := PayloadsOf(v);
    if Covered(pl, x) {
      var q: nat :| q in pl && q <= x < q + Need(|pl[q]|);
      assert Spans(q, v.live[q], x);
    }
    if Taken(v.live, x) {
      var q: nat :| q in v.live && Spans(q, v.live[q], x);
      assert q in pl && q <= x < q + Need(|pl[q]|);
    }
  }

  lemma SameRoom(v: View, s: nat, n: nat)
    requires Laid(v)
    ensures Room(PayloadsOf(v), s, n) <==> Gap(v.live, s, n)
  {
    forall x: nat
      ensures Covered(PayloadsOf(v), x) <==> Taken(v.live, x)
    {
      SameCover(v, x);
    }
  }

  lemma SameLowest(v: View, s: nat, n: nat)
    requires Laid(v)
    ensures Lowest(PayloadsOf(v), s, n) <==> LowestGap(v.live, s, n)
  {
    forall t: nat
      ensures Room(PayloadsOf(v), t, n) <==> Gap(v.live, t, n)
    {
      SameRoom(v, t, n);
    }
  }

  lemma SameFull(v: View, sz: nat)
    requires Laid(v)
    ensures Full(PayloadsOf(v), sz) <==> NoRoom(v.live, sz)
  {
    forall s: nat
      ensures Room(PayloadsOf(v), s, Need(sz)) <==> Gap(v.live, s, Need(sz))
    {
      SameRoom(v, s, Need(sz));
    }
  }

  // ---- Bytes that a write leaves alone, and bytes it does not ----

  lemma PaintElsewhere(bytes: seq<Byte>, lo: nat, hi: nat, b: Byte, q: nat, n: nat)
    requires q + n <= lo || hi <= q
    ensures Part(Painted(bytes, lo, hi, b), q, n) == Part(bytes, q, n)
  {
  }

  lemma PaintInside(bytes: seq<Byte>, p: nat, n: nat, from: nat, to: nat, b: Byte)
    requires p + n <= |bytes| && from <= to <= n
    ensures Part(Painted(bytes, p + from, p + to, b), p, n) == Painted(Part(bytes, p, n), from, to, b)
  {
  }

  lemma CopyElsewhere(bytes: seq<Byte>, from: nat, to: nat, n: nat, q: nat, k: nat)
    requires from + n <= |bytes| && (q + k <= to || to + n <= q)
    ensures Part(Copied(bytes, from, to, n), q, k) == Part(bytes, q, k)
  {
  }

  lemma CopyInside(bytes: seq<Byte>, from: nat, to: nat, n: nat, m: nat)
    requires from + n <= |bytes| && n <= m && to + m <= |bytes|
    ensures Part(Copied(bytes, from, to, n), to, m)[..n] == Part(bytes, from, n)
  {
  }

  // One block new or rewritten: one payload differs.
  lemma OneDiffers(v: View, w: View, p: nat)
    requires w.live.Keys == v.live.Keys + {p}
    requires forall q | q in v.live && q != p ::
               w.live[q].sz == v.live[q].sz && Part(w.bytes, q, v.live[q].sz) == Part(v.bytes, q, v.live[q].sz)
    ensures p in PayloadsOf(w) && PayloadsOf(w) == PayloadsOf(v)[p := PayloadsOf(w)[p]]
  {
    hide Part;
    assert PayloadsOf(w).Keys == PayloadsOf(v).Keys + {p};
    forall q | q in PayloadsOf(v) && q != p
      ensures q in PayloadsOf(w) && PayloadsOf(w)[q] == PayloadsOf(v)[q]
    {
      assert q in v.live.Keys && q in w.live.Keys;
    }
    DifferAt(PayloadsOf(v), PayloadsOf(w), p);
  }

  lemma DifferAt(a: Payloads, b: Payloads, p: nat)
    requires b.Keys == a.Keys + {p} && forall q | q in a && q != p :: q in b && b[q] == a[q]
    ensures p in b && b == a[p := b[p]]
  {
    assert p in b.Keys;
    assert a[p := b[p]].Keys == b.Keys;
  }

  lemma GapApart(v: View, s: nat, n: nat)
    requires Laid(v) && Gap(v.live, s, n) && n > 0
    ensures forall q | q in v.live :: q + Need(v.live[q].sz) <= s || s + n <= q
  {
    forall q | q in v.live
      ensures q + Need(v.live[q].sz) <= s || s + n <= q
    {
      var x := if q < s then s else q;
      assert Spans(q, v.live[q], x) ==> Taken(v.live, x);
    }
  }

  lemma TakeLaid(v: View, p: nat, sz: nat, line: nat)
    requires Laid(v) && p !in v.live && Gap(v.live, p, Need(sz))
    ensures Laid(AfterTake(v, p, sz, line))
  {
    GapApart(v, p, Need(sz));
  }

  // A new block changes no other payload.
  lemma TakePayloads(v: View, p: nat, sz: nat, line: nat)
    requires Laid(v) && p !in v.live && Gap(v.live, p, Need(sz))
    ensures var w := AfterTake(v, p, sz, line);
            && Laid(w) && p in PayloadsOf(w) && |PayloadsOf(w)[p]| == sz
            && PayloadsOf(w) == PayloadsOf(v)[p := PayloadsOf(w)[p]]
  {
    hide Painted, PayloadsOf, Gap, Need, Laid, Part;
    var w := AfterTake(v, p, sz, line);
    GapApart(v, p, Need(sz));
    TakeLaid(v, p, sz, line);
    forall q | q in v.live
      ensures Part(w.bytes, q, v.live[q].sz) == Part(v.bytes, q, v.live[q].sz)
    {
      PaintElsewhere(v.bytes, p + sz, p + Need(sz), MARKER, q, v.live[q].sz);
    }
    OneDiffers(v, w, p);
    AllThere(w);
  }

  // A write inside one payload changes that one only.
  lemma FillPayloads(v: View, p: nat, from: nat, to: nat, b: Byte)
    requires Laid(v) && p in v.live && from <= to <= v.live[p].sz
    ensures p in PayloadsOf(v) && |PayloadsOf(v)[p]| == v.live[p].sz
    ensures PayloadsOf(AfterFill(v, p + from, p + to, b)) == PayloadsOf(v)[p := Painted(PayloadsOf(v)[p], from, to, b)]
  {
    hide Painted, PayloadsOf, Need, Laid, Part;
    var w := AfterFill(v, p + from, p + to, b);
    forall q | q in v.live && q != p
      ensures Part(w.bytes, q, v.live[q].sz) == Part(v.bytes, q, v.live[q].sz)
    {
      OnePayload(v, p, q);
      PaintElsewhere(v.bytes, p + from, p + to, b, q, v.live[q].sz);
    }
    AllThere(v);
    FillLaid(v, p + from, p + to, b);
    OneDiffers(v, w, p);
    PaintInside(v.bytes, p, v.live[p].sz, from, to, b);
    AllThere(w);
  }

  lemma FillLaid(v: View, lo: nat, hi: nat, b: Byte)
    requires Laid(v)
    ensures Laid(AfterFill(v, lo, hi, b))
  {
  }

  lemma OnePayload(v: View, p: nat, q: nat)
    requires Laid(v) && p in v.live && q in v.live && p != q
    ensures q + v.live[q].sz <= p || p + v.live[p].sz <= q
  {
  }

  lemma FreePayloads(v: View, p: nat)
    requires p in v.live
    ensures PayloadsOf(AfterFree(v, p)) == PayloadsOf(v) - {p}
  {
  }

  lemma CopyLaid(v: View, from: nat, to: nat)
    requires Laid(v) && from in v.live && to in v.live && v.live[from].sz <= v.live[to].sz
    ensures from + v.live[from].sz <= SIZE && to + v.live[from].sz <= SIZE
    ensures Laid(AfterCopy(v, from, to, v.live[from].sz))
  {
  }

  // A copy to the beginning of one payload changes that one only.
  lemma CopyPayloads(v: View, from: nat, to: nat)
    requires Laid(v) && from in v.live && to in v.live && from != to && v.live[from].sz <= v.live[to].sz
    ensures from + v.live[from].sz <= SIZE && to in PayloadsOf(v) && from in PayloadsOf(v)
    ensures var w := AfterCopy(v, from, to, v.live[from].sz);
            && to in PayloadsOf(w) && |PayloadsOf(w)[to]| == v.live[to].sz
            && PayloadsOf(w) == PayloadsOf(v)[to := PayloadsOf(w)[to]]
            && PayloadsOf(w)[to][..v.live[from].sz] == PayloadsOf(v)[from]
  {
    hide Copied, PayloadsOf, Laid, Need, Part;
    AllThere(v);
    CopyLaid(v, from, to);
    var n := v.live[from].sz;
    var w := AfterCopy(v, from, to, n);
    forall q | q in v.live && q != to
      ensures Part(w.bytes, q, v.live[q].sz) == Part(v.bytes, q, v.live[q].sz)
    {
      OnePayload(v, to, q);
      CopyElsewhere(v.bytes, from, to, n, q, v.live[q].sz);
    }
    OneDiffers(v, w, to);
    AllThere(w);
    CopyInside(v.bytes, from, to, n, v.live[to].sz);
  }

  // ---- Each call is a step on payloads ----

  lemma MallocSteps(v: View, sz: nat, line: nat, p: Ptr, w: View)
    requires Laid(v) && MallocDid(v, sz, line, p, w)
    ensures p.Some? ==> p.at >= 0
    ensures Steps(PayloadsOf(v), OpMalloc(sz), if p.None? then Denied else Got(p.at), PayloadsOf(w))
  {
    hide Full, NoRoom, Lowest, AfterTake, PayloadsOf, Laid, Gap, Room;
    SameFull(v, sz);
    if p.Some? {
      SameLowest(v, p.at, Need(sz));
      TakePayloads(v, p.at, sz, line);
      AllThere(v);
      FreeAside(w, AfterTake(v, p.at, sz, line));
    } else {
      FreeAside(w, v);
    }
  }

  lemma FreeAside(v: View, w: View)
    requires v.live == w.live && v.bytes == w.bytes
    ensures PayloadsOf(v) == PayloadsOf(w)
  {
  }

  lemma CallocSteps(v: View, count: nat, size: nat, line: nat, p: Ptr, w: View)
    requires Laid(v) && CallocDid(v, count, size, line, p, w)
    ensures p.Some? ==> p.at >= 0
    ensures Steps(PayloadsOf(v), OpCalloc(count, size), if p.None? then Denied else Got(p.at), PayloadsOf(w))
  {
    hide Full, NoRoom, Lowest, Painted, PayloadsOf, Laid, Gap, Room, Bytes, Need;
    var n := Bytes(count, size);
    BytesAre(count, size);
    SameFull(v, n);
    if p.Some? {
      SameLowest(v, p.at, Need(n));
      TakePayloads(v, p.at, n, line);
      AllThere(v);
      var mid := AfterTake(v, p.at, n, line);
      FillPayloads(mid, p.at, 0, n, 0);
      FreeAside(w, AfterFill(mid, p.at, p.at + n, 0));
      AllPainted(PayloadsOf(mid)[p.at], n);
    } else {
      FreeAside(w, v);
    }
  }

  lemma BytesAre(count: nat, size: nat)
    ensures Bytes(count, size) == count * size
  {
  }

  lemma AllPainted(bytes: seq<Byte>, n: nat)
    requires |bytes| == n
    ensures Painted(bytes, 0, n, 0) == Zeros(n)
  {
  }

  lemma GrowSteps(v: View, from: nat, sz: nat, line: nat, p: Ptr, r: FreeResult, w: View)
    requires Laid(v) && from in v.live && sz > v.live[from].sz && from + v.live[from].sz <= |v.bytes|
    requires AllMarked(v) && GrowDid(v, from, sz, line, p, r, w)
    ensures p.Some? ==> p.at >= 0 && r == Freed
    ensures from in PayloadsOf(v) && sz > |PayloadsOf(v)[from]|
    ensures Steps(PayloadsOf(v), OpRealloc(Some(from), sz), if p.None? then Denied else Got(p.at), PayloadsOf(w))
  {
    hide Full, NoRoom, Lowest, Copied, Painted, PayloadsOf, Laid, Gap, Room, MarkedIn, AllMarked;
    SameFull(v, sz);
    AllThere(v);
    if p.Some? {
      var n := v.live[from].sz;
      SameLowest(v, p.at, Need(sz));
      TakePayloads(v, p.at, sz, line);
      var mid := AfterTake(v, p.at, sz, line);
      CopyPayloads(mid, from, p.at);
      var c := AfterCopy(mid, from, p.at, n);
      GrownMarks(v, from, sz, line, p.at);
      FreePayloads(c.(free := w.free), from);
      FreeAside(c.(free := w.free), c);
      FreeAside(w, AfterFree(c.(free := w.free), from));
    } else {
      FreeAside(w, v);
    }
  }

  // The padding of the old block is as it was.
  lemma GrownMarks(v: View, from: nat, sz: nat, line: nat, p: nat)
    requires Laid(v) && AllMarked(v) && from in v.live && p !in v.live && sz > v.live[from].sz
    requires Gap(v.live, p, Need(sz)) && from + v.live[from].sz <= |v.bytes|
    ensures MarkedIn(AfterCopy(AfterTake(v, p, sz, line), from, p, v.live[from].sz).bytes, from, v.live[from])
  {
    GapApart(v, p, Need(sz));
    assert MarkedIn(v.bytes, from, v.live[from]);
  }

  // Which branch of m61_realloc a call takes, and what it comes to.
  lemma ReallocSteps(v: View, ptr: Ptr, sz: nat, line: nat, p: Ptr, r: FreeResult, w: View)
    requires Laid(v) && AllMarked(v) && Behaved(PayloadsOf(v), OpRealloc(ptr, sz))
    requires ptr.None? ==> r == Nothing && MallocDid(v, sz, line, p, w)
    requires ptr.Some? && sz == 0 ==> p == None && FreeDid(v, ptr, r, w)
    requires ptr.Some? && ptr.at in v.live && 0 < sz <= v.live[ptr.at].sz ==>
               p == ptr && r == Nothing && ShrinkTold(v, ptr.at, sz, line, w)
    requires ptr.Some? && ptr.at in v.live && sz > v.live[ptr.at].sz ==>
               ptr.at + v.live[ptr.at].sz <= |v.bytes| && GrowDid(v, ptr.at, sz, line, p, r, w)
    ensures !Aborts(r) && (p.Some? ==> p.at >= 0)
    ensures Steps(PayloadsOf(v), OpRealloc(ptr, sz),
                  if p.Some? then Got(p.at) else if ptr.Some? && sz == 0 then Released else Denied, PayloadsOf(w))
  {
    hide AllMarked, MallocDid, FreeDid, GrowDid, ShrinkTold, PayloadsOf, Laid, Full, Placed;
    AllThere(v);
    if ptr.None? {
      MallocSteps(v, sz, line, p, w);
    } else if sz == 0 {
      FreeSteps(v, ptr.at, r, w);
    } else if sz == v.live[ptr.at].sz {
      SameSizeSteps(v, ptr.at, line, w);
    } else {
      GrowSteps(v, ptr.at, sz, line, p, r, w);
      GrowNoAbort(v, ptr.at, sz, line, p, r, w);
    }
  }

  lemma GrowNoAbort(v: View, from: nat, sz: nat, line: nat, p: Ptr, r: FreeResult, w: View)
    requires from in v.live && from + v.live[from].sz <= |v.bytes| && GrowDid(v, from, sz, line, p, r, w)
    ensures p.None? ==> r == Nothing
  {
  }

  lemma StoreSteps(v: View, p: nat, off: nat, b: Byte)
    requires Laid(v) && p in v.live && off < v.live[p].sz
    ensures p in PayloadsOf(v) && off < |PayloadsOf(v)[p]|
    ensures Steps(PayloadsOf(v), OpStore(p, off, b), Stored, PayloadsOf(AfterFill(v, p + off, p + off + 1, b)))
  {
    hide PayloadsOf, Laid;
    FillPayloads(v, p, off, off + 1, b);
    assert Painted(PayloadsOf(v)[p], off, off + 1, b) == Stored1(PayloadsOf(v)[p], off, b);
  }

  lemma SameSizeSteps(v: View, p: nat, line: nat, w: View)
    requires Laid(v) && p in v.live && v.live[p].sz > 0 && ShrinkTold(v, p, v.live[p].sz, line, w)
    ensures p in PayloadsOf(v) && |PayloadsOf(v)[p]| == v.live[p].sz
    ensures Steps(PayloadsOf(v), OpRealloc(Some(p), v.live[p].sz), Got(p), PayloadsOf(w))
  {
    hide PayloadsOf, Part, Laid;
    AllThere(v);
    forall q | q in v.live
      ensures Part(w.bytes, q, v.live[q].sz) == Part(v.bytes, q, v.live[q].sz)
    {
      PaddingElsewhere(v, p, line, w, q);
    }
    OneDiffers(v, w, p);
    OnePart(w, p);
  }

  lemma OnePart(v: View, p: nat)
    requires p in v.live
    ensures p in PayloadsOf(v) && PayloadsOf(v)[p] == Part(v.bytes, p, v.live[p].sz)
  {
  }

  // Marking padding again leaves every payload alone.
  lemma PaddingElsewhere(v: View, p: nat, line: nat, w: View, q: nat)
    requires Laid(v) && p in v.live && q in v.live && ShrinkTold(v, p, v.live[p].sz, line, w)
    ensures Part(w.bytes, q, v.live[q].sz) == Part(v.bytes, q, v.live[q].sz)
  {
    hide Need;
    var m := v.live[p];
    assert q == p || q + v.live[q].sz <= p || p + m.sz + m.pad <= q;
  }

  lemma FreeSteps(v: View, p: nat, r: FreeResult, w: View)
    requires Laid(v) && p in v.live && AllMarked(v) && FreeDid(v, Some(p), r, w)
    ensures r == Freed && p in PayloadsOf(v)
    ensures Steps(PayloadsOf(v), OpFree(p), Released, PayloadsOf(w))
  {
    AllThere(v);
    FreePayloads(v, p);
    FreeAside(w, AfterFree(v, p));
  }

  // ---- The runs ----

  ghost predicate Healthy(h: M61)
    reads h, h.buffer
  {
    h.Valid() && h.MarkersOk()
  }

  lemma HealthyIs(h: M61)
    requires Healthy(h)
    ensures h.Valid() && h.MarkersOk() && AllMarked(h.V()) && Laid(h.V())
    ensures PayloadsOf(h.V()).Keys == h.live.Keys
    ensures forall p | p in h.live :: |PayloadsOf(h.V())[p]| == h.live[p].sz && p + h.live[p].sz <= |h.V().bytes|
  {
    HeapLaid(h.V());
    AllThere(h.V());
  }

  method DoMalloc(h: M61, sz: nat) returns (ans: Answer)
    requires Healthy(h)
    modifies h, h.buffer
    ensures Healthy(h) && Steps(old(PayloadsOf(h.V())), OpMalloc(sz), ans, PayloadsOf(h.V()))
  {
    hide HeapOk, AllMarked, MallocDid, Steps, PayloadsOf, Laid;
    HealthyIs(h);
    ghost var v := h.V();
    var p := h.Malloc(sz, 0);
    MallocSteps(v, sz, 0, p, h.V());
    ans := if p.None? then Denied else Got(p.at);
  }

  method DoCalloc(h: M61, count: nat, size: nat) returns (ans: Answer)
    requires Healthy(h)
    modifies h, h.buffer
    ensures Healthy(h) && Steps(old(PayloadsOf(h.V())), OpCalloc(count, size), ans, PayloadsOf(h.V()))
  {
    hide HeapOk, AllMarked, CallocDid, Steps, PayloadsOf, Laid;
    HealthyIs(h);
    ghost var v := h.V();
    var p := h.Calloc(count, size, 0);
    CallocSteps(v, count, size, 0, p, h.V());
    ans := if p.None? then Denied else Got(p.at);
  }

  method DoFree(h: M61, p: nat) returns (ans: Answer)
    requires Healthy(h) && Behaved(PayloadsOf(h.V()), OpFree(p))
    modifies h, h.buffer
    ensures Healthy(h) && Steps(old(PayloadsOf(h.V())), OpFree(p), ans, PayloadsOf(h.V()))
  {
    hide HeapOk, AllMarked, FreeDid, Steps, PayloadsOf, Laid;
    HealthyIs(h);
    ghost var v := h.V();
    var r := h.Free(Some(p));
    FreeSteps(v, p, r, h.V());
    ans := if Aborts(r) then Aborted else Released;
  }

  method DoRealloc(h: M61, ptr: Ptr, sz: nat) returns (ans: Answer)
    requires Healthy(h) && Behaved(PayloadsOf(h.V()), OpRealloc(ptr, sz))
    modifies h, h.buffer
    ensures Healthy(h) && Steps(old(PayloadsOf(h.V())), OpRealloc(ptr, sz), ans, PayloadsOf(h.V()))
  {
    hide HeapOk, AllMarked, MallocDid, FreeDid, GrowDid, ShrinkTold, Steps, PayloadsOf, Laid;
    HealthyIs(h);
    ghost var v := h.V();
    var q, r := h.Realloc(ptr, sz, 0);
    ReallocSteps(v, ptr, sz, 0, q, r, h.V());
    ans := if Aborts(r) then Aborted
           else if q.Some? then Got(q.at)
           else if ptr.Some? && sz == 0 then Released
           else Denied;
  }

  method DoStore(h: M61, p: nat, off: nat, b: Byte) returns (ans: Answer)
    requires Healthy(h) && Behaved(PayloadsOf(h.V()), OpStore(p, off, b))
    modifies h, h.buffer
    ensures Healthy(h) && Steps(old(PayloadsOf(h.V())), OpStore(p, off, b), ans, PayloadsOf(h.V()))
  {
    hide HeapOk, AllMarked, Steps, PayloadsOf, Laid;
    HealthyIs(h);
    StoreSteps(h.V(), p, off, b);
    h.Fill(p, off, off + 1, b);
    ans := Stored;
  }

  // Any call a well-behaved client makes is the step it should be, keeps the
  // heap well formed and every marker in place, and never aborts.
  method ClientStep(h: M61, op: Op) returns (ans: Answer)
    requires Healthy(h) && Behaved(PayloadsOf(h.V()), op)
    modifies h, h.buffer
    ensures Healthy(h) && Steps(old(PayloadsOf(h.V())), op, ans, PayloadsOf(h.V()))
  {
    hide Healthy, Steps, PayloadsOf, Behaved;
    match op {
      case OpMalloc(sz) => ans := DoMalloc(h, sz);
      case OpCalloc(count, size) => ans := DoCalloc(h, count, size);
      case OpFree(p) => ans := DoFree(h, p);
      case OpRealloc(ptr, sz) => ans := DoRealloc(h, ptr, sz);
      case OpStore(p, off, b) => ans := DoStore(h, p, off, b);
    }
  }

  // What a client has to know of the heap to keep inside its payloads.
  method MayCall(h: M61, op: Op) returns (ok: bool)
    requires Healthy(h)
    ensures ok <==> Behaved(PayloadsOf(h.V()), op)
  {
    hide PayloadsOf, Laid, Healthy;
    HealthyIs(h);
    ok := match op
          case OpFree(p) => p in h.live
          case OpRealloc(ptr, sz) => ptr.None? || (ptr.at in h.live && (sz == 0 || sz >= h.live[ptr.at].sz))
          case OpStore(p, off, _) => p in h.live && off < h.live[p].sz
          case _ => true;
  }

  // Over whole runs from the empty heap: every call is made, up to the first
  // that is not inside the payloads live at the time.
  method ClientRun(ops: seq<Op>) returns (h: M61, answers: seq<Answer>, ghost states: seq<Payloads>)
    ensures fresh(h) && fresh(h.buffer) && Healthy(h)
    ensures Ran(states, ops, answers) && states[|answers|] == PayloadsOf(h.V())
    ensures |answers| < |ops| ==> !Behaved(PayloadsOf(h.V()), ops[|answers|])
  {
    hide Steps, PayloadsOf, Behaved, Ran;
    h := new M61();
    answers, states := [], [map[]];
    NothingLive(h);
    RanNothing(ops);
    while |answers| < |ops|
      invariant fresh(h) && fresh(h.buffer) && Healthy(h) && |answers| <= |ops|
      invariant Ran(states, ops, answers) && |states| == |answers| + 1 && states[|answers|] == PayloadsOf(h.V())
    {
      var op := ops[|answers|];
      var may := MayCall(h, op);
      if !may { return; }
      ghost var before := PayloadsOf(h.V());
      var ans := ClientStep(h, op);
      RanMore(states, ops, answers, before, ans, PayloadsOf(h.V()));
      answers, states := answers + [ans], states + [PayloadsOf(h.V())];
    }
  }

  lemma RanNothing(ops: seq<Op>)
    ensures Ran([map[]], ops, [])
  {
  }

  lemma RanMore(states: seq<Payloads>, ops: seq<Op>, answers: seq<Answer>, pl: Payloads, ans: Answer, pl': Payloads)
    requires Ran(states, ops, answers) && |answers| < |ops| && |states| == |answers| + 1
    requires states[|answers|] == pl && Behaved(pl, ops[|answers|]) && Steps(pl, ops[|answers|], ans, pl')
    ensures Ran(states + [pl'], ops, answers + [ans])
  {
    hide Steps, Behaved;
    var s', a' := states + [pl'], answers + [ans];
    forall i | 0 <= i < |a'|
      ensures Behaved(s'[i], ops[i]) && Steps(s'[i], ops[i], a'[i], s'[i + 1])
    {
      if i < |answers| {
        assert s'[i] == states[i] && s'[i + 1] == states[i + 1] && a'[i] == answers[i];
      }
    }
  }

  lemma NothingLive(h: M61)
    requires h.live == map[]
    ensures PayloadsOf(h.V()) == map[]
  {
  }
}
