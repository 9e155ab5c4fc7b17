// The machine WeensyOS is compared with: every process has its own pages and
// fork copies them all at once.

module Eager {
  import opened Basics
  import opened KernelSpec

  // The live processes and the bytes of each page they have mapped.
  datatype State = State(live: set<nat>, mem: map<Slot, seq<Byte>>)

  // The first v pages of process p, copied to the slots of process c.
  function CopyBelow<T>(m: map<Slot, T>, p: nat, c: nat, v: nat): map<Slot, T> {
    map i: nat | i < v && Slot(p, i) in m :: Slot(c, i) := m[Slot(p, i)]
  }

  function DropBelow<T>(m: map<Slot, T>, p: nat, v: nat): map<Slot, T> {
    map s | s in m && !(s.pid == p && s.v < v) :: m[s]
  }

  function Without<T>(m: map<Slot, T>, p: nat): map<Slot, T> {
    map s | s in m && s.pid != p :: m[s]
  }

  // Without the pages [a, end) of process p.
  function Cut<T>(m: map<Slot, T>, p: nat, a: nat, end: nat): map<Slot, T> {
    map s | s in m && !(s.pid == p && a <= s.v < end) :: m[s]
  }

  function Zeros(p: nat, from: nat, to: nat): map<Slot, seq<Byte>> {
    map i: nat | from <= i < to :: Slot(p, i) := Fill(0)
  }

  function DoFork(st: State, p: nat, c: nat): State {
    State(st.live + {c}, st.mem + CopyBelow(st.mem, p, c, 768))
  }

  function DoExit(st: State, p: nat): State {
    State(st.live - {p}, Without(st.mem, p))
  }

  function DoMmap(st: State, p: nat, a: nat, n: nat): State {
    st.(mem := st.mem + Zeros(p, a, a + n))
  }

  function DoMunmap(st: State, p: nat, a: nat, n: nat): State {
    st.(mem := Cut(st.mem, p, a, a + n))
  }

  // Pages a length reaches into from the start of a page on.
  function PagesTouched(len: nat): nat { (len + 4095) / 4096 }

  function DoStore(st: State, p: nat, v: nat, off: nat, b: Byte): State
    requires Slot(p, v) in st.mem && off < |st.mem[Slot(p, v)]|
  {
    var page: seq<Byte> := st.mem[Slot(p, v)];
    var page': seq<Byte> := page[off := b];
    st.(mem := st.mem[Slot(p, v) := page'])
  }

  // What a process can do, and what it gets back.
  datatype Call = Load(v: nat, off: nat) | Store(v: nat, off: nat, b: Byte) | Fork | Exit | Kill(pid: nat)
                | Mmap(addr: nat, len: nat, w: bool, c: bool) | Munmap(addr: nat, len: nat)

  datatype Answer = Value(b: Byte) | Done | Failed | Number(n: nat) | Gone | Fault | Console

  // Answers the eager machine may give.
  ghost predicate Fits(st: State, p: nat, call: Call, ans: Answer) {
    match call
    case Load(v, off) =>
      (match ans
       case Value(b) => Slot(p, v) in st.mem && off < |st.mem[Slot(p, v)]| && st.mem[Slot(p, v)][off] == b
       case Fault => Slot(p, v) !in st.mem
       case Console => v == 184
       case _ => false)
    case Store(v, off, b) =>
      (match ans
       case Done => Slot(p, v) in st.mem && off < |st.mem[Slot(p, v)]|
       case Gone => Slot(p, v) in st.mem   // out of memory: the process exits
       case Fault => Slot(p, v) !in st.mem
       case Console => v == 184
       case _ => false)
    case Fork => ans == Failed || (ans.Number? && ans.n !in st.live && 1 <= ans.n < 16)
    case Exit => ans == Gone
    case Kill(q) => if q in st.live then ans == Done || ans == Failed else ans == Failed
    case Mmap(addr, len, _, _) =>
      ans == Failed || (ans.Number? && len > 0 && 256 <= ans.n && ans.n + len / 4096 <= 768
                        && forall i: nat | ans.n <= i < ans.n + len / 4096 :: Slot(p, i) !in st.mem)
    case Munmap(addr, len) => ans == Done
  }

  function Next(st: State, p: nat, call: Call, ans: Answer): State {
    match call
    case Load(_, _) => st
    case Store(v, off, b) =>
      if ans == Done && Slot(p, v) in st.mem && off < |st.mem[Slot(p, v)]| then DoStore(st, p, v, off, b)
      else if ans == Gone then DoExit(st, p) else st
    case Fork => if ans.Number? then DoFork(st, p, ans.n) else st
    case Exit => DoExit(st, p)
    case Kill(q) => if ans == Done then DoExit(st, q) else st
    case Mmap(_, len, _, _) => if ans.Number? then DoMmap(st, p, ans.n, len / 4096) else st
    case Munmap(addr, len) => DoMunmap(st, p, addr / 4096, PagesTouched(len))
  }

  datatype Event = Event(pid: nat, call: Call, ans: Answer)

  // The eager machine gives these answers and ends in st'.
  ghost predicate Explains(st: State, trace: seq<Event>, st': State)
    decreases |trace|
  {
    if trace == [] then st' == st
    else
      var e := trace[0];
      e.pid in st.live && Fits(st, e.pid, e.call, e.ans) && Explains(Next(st, e.pid, e.call, e.ans), trace[1..], st')
  }

  lemma {:induction false} ExplainsMore(st: State, trace: seq<Event>, st1: State, e: Event)
    requires Explains(st, trace, st1) && e.pid in st1.live && Fits(st1, e.pid, e.call, e.ans)
    ensures Explains(st, trace + [e], Next(st1, e.pid, e.call, e.ans))
    decreases |trace|
  {
    if trace == [] {
      assert ([e])[1..] == [];
    } else {
      var f := trace[0];
      assert (trace + [e])[1..] == trace[1..] + [e];
      ExplainsMore(Next(st, f.pid, f.call, f.ans), trace[1..], st1, e);
    }
  }

  // Isolation: whatever the others do, a process that makes no call and is
  // not killed keeps every byte.
  lemma {:induction false} Isolated(st: State, trace: seq<Event>, st': State, p: nat)
    requires Explains(st, trace, st') && p in st.live
    requires forall e | e in trace :: e.pid != p && e.call != Call.Kill(p)
    ensures p in st'.live
    ensures forall v: nat :: Slot(p, v) in st'.mem <==> Slot(p, v) in st.mem
    ensures forall v: nat | Slot(p, v) in st.mem :: st'.mem[Slot(p, v)] == st.mem[Slot(p, v)]
    decreases |trace|
  {
    if trace != [] {
      var e := trace[0];
      assert e in trace;
      IsolatedStep(st, e, p);
      Isolated(Next(st, e.pid, e.call, e.ans), trace[1..], st', p);
    }
  }

  lemma IsolatedStep(st: State, e: Event, p: nat)
    requires p in st.live && Fits(st, e.pid, e.call, e.ans) && e.pid != p && e.call != Call.Kill(p)
    ensures var n := Next(st, e.pid, e.call, e.ans);
            && p in n.live
            && (forall v: nat :: Slot(p, v) in n.mem <==> Slot(p, v) in st.mem)
            && forall v: nat | Slot(p, v) in st.mem :: n.mem[Slot(p, v)] == st.mem[Slot(p, v)]
  {
  }

  lemma CopyStep<T>(m: map<Slot, T>, p: nat, c: nat, v: nat)
    ensures CopyBelow(m, p, c, v + 1) ==
            if Slot(p, v) in m then CopyBelow(m, p, c, v)[Slot(c, v) := m[Slot(p, v)]] else CopyBelow(m, p, c, v)
  {
  }

  lemma DropStep<T>(m: map<Slot, T>, p: nat, v: nat)
    ensures DropBelow(m, p, v + 1) == DropBelow(m, p, v) - {Slot(p, v)}
    ensures Slot(p, v) in DropBelow(m, p, v) <==> Slot(p, v) in m
    ensures Slot(p, v) in m ==> DropBelow(m, p, v)[Slot(p, v)] == m[Slot(p, v)]
  {
  }

  lemma DropAll<T>(m: map<Slot, T>, p: nat, v: nat)
    requires forall s | s in m && s.pid == p :: s.v < v
    ensures DropBelow(m, p, v) == Without(m, p)
  {
  }

  lemma DropNone<T>(m: map<Slot, T>, p: nat)
    ensures DropBelow(m, p, 0) == m
  {
  }

  lemma CopyNone<T>(m: map<Slot, T>, p: nat, c: nat)
    ensures m + CopyBelow(m, p, c, 0) == m
  {
  }

  // One page copied from p to c.
  function CopyOne<T>(m: map<Slot, T>, p: nat, c: nat, v: nat): map<Slot, T> {
    if Slot(p, v) in m then m[Slot(c, v) := m[Slot(p, v)]] else m
  }

  // Copying page after page copies them all; the slot of c is still empty.
  lemma CopyTurn<T>(m: map<Slot, T>, m': map<Slot, T>, p: nat, c: nat, v: nat)
    requires p != c && forall s | s in m :: s.pid != c
    requires m'.Keys == (m + CopyBelow(m, p, c, v)).Keys
    ensures Slot(c, v) !in m'
    ensures CopyOne(m', p, c, v).Keys == (m + CopyBelow(m, p, c, v + 1)).Keys
    ensures m' == m + CopyBelow(m, p, c, v) ==> CopyOne(m', p, c, v) == m + CopyBelow(m, p, c, v + 1)
  {
    CopyStep(m, p, c, v);
    assert Slot(p, v) in m' <==> Slot(p, v) in m;
  }

  // Taking process c away again leaves what was there before the copying.
  lemma CopyUndone<T>(m: map<Slot, T>, m': map<Slot, T>, p: nat, c: nat, v: nat)
    requires forall s | s in m :: s.pid != c
    requires m'.Keys == (m + CopyBelow(m, p, c, v)).Keys
    ensures Without(m', c).Keys == m.Keys
    ensures m' == m + CopyBelow(m, p, c, v) ==> Without(m', c) == m
  {
    forall s | s in m
      ensures s in Without(m', c)
    {
    }
  }

  lemma NoZeros(keys: set<Slot>, m: map<Slot, seq<Byte>>, p: nat, a: nat)
    ensures m + Zeros(p, a, a) == m && keys + Zeros(p, a, a).Keys == keys
  {
  }

  // One more zeroed page at the end.
  lemma MoreZeros(keys: set<Slot>, m: map<Slot, seq<Byte>>, p: nat, a: nat, v: nat)
    requires a <= v && Slot(p, v) !in keys
    ensures Slot(p, v) !in keys + Zeros(p, a, v).Keys
    ensures (m + Zeros(p, a, v))[Slot(p, v) := Fill(0)] == m + Zeros(p, a, v + 1)
    ensures keys + Zeros(p, a, v).Keys + {Slot(p, v)} == keys + Zeros(p, a, v + 1).Keys
  {
  }

  // One zeroed page less at the front.
  lemma FewerZeros(keys: set<Slot>, m: map<Slot, seq<Byte>>, p: nat, v: nat, end: nat)
    requires v < end && m.Keys <= keys && Slot(p, v) !in keys
    ensures Slot(p, v) in keys + Zeros(p, v, end).Keys
    ensures m + Zeros(p, v, end) - {Slot(p, v)} == m + Zeros(p, v + 1, end)
    ensures keys + Zeros(p, v, end).Keys - {Slot(p, v)} == keys + Zeros(p, v + 1, end).Keys
  {
  }

  lemma CutMore<T>(m: map<Slot, T>, p: nat, a: nat, v: nat)
    requires a <= v
    ensures Cut(m, p, a, v + 1) == Cut(m, p, a, v) - {Slot(p, v)}
    ensures Cut(m, p, a, v + 1).Keys == Cut(m, p, a, v).Keys - {Slot(p, v)}
    ensures Slot(p, v) !in Cut(m, p, a, v) ==> Cut(m, p, a, v + 1) == Cut(m, p, a, v)
  {
  }

  // Nothing to cut so far.
  lemma CutEarly<T>(m: map<Slot, T>, p: nat, a: nat, v: nat)
    requires v <= a
    ensures Cut(m, p, a, v) == m
  {
  }

  // No page below b is there.
  lemma CutLow<T>(m: map<Slot, T>, p: nat, a: nat, b: nat, end: nat)
    requires a == b || (a <= b && forall s | s in m && s.pid == p :: s.v >= b)
    ensures Cut(m, p, a, end) == Cut(m, p, b, end)
  {
  }

  // Pages from 768 on do not exist.
  lemma CutRest<T>(m: map<Slot, T>, p: nat, a: nat, v: nat, end: nat)
    requires v == end || (end <= a && v <= a) || (768 <= v <= end && forall s | s in m :: s.v < 768)
    ensures Cut(m, p, a, v) == Cut(m, p, a, end)
  {
  }
}
