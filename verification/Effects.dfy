// What each call does to what the processes see, page by page and byte by
// byte, and what a process finds in its memory over whole runs.

module Effects {
  import opened Basics
  import opened KernelSpec
  import opened Eager

  // Page s is there as before, with the same bytes.
  ghost predicate Kept(st: State, st': State, s: Slot) {
    (s in st'.mem <==> s in st.mem) && (s in st.mem ==> st'.mem[s] == st.mem[s])
  }

  // One byte of one page is b now; nothing else changed.
  ghost predicate Stored(st: State, p: nat, v: nat, off: nat, b: Byte, st': State) {
    && st'.live == st.live
    && (forall s: Slot | s != Slot(p, v) :: Kept(st, st', s))
    && Slot(p, v) in st.mem && Slot(p, v) in st'.mem
    && |st'.mem[Slot(p, v)]| == |st.mem[Slot(p, v)]| && off < |st.mem[Slot(p, v)]|
    && st'.mem[Slot(p, v)][off] == b
    && forall i | 0 <= i < |st.mem[Slot(p, v)]| && i != off :: st'.mem[Slot(p, v)][i] == st.mem[Slot(p, v)][i]
  }

  // Process q is gone with all its pages; nothing else changed.
  ghost predicate Ended(st: State, q: nat, st': State) {
    && (forall x: nat :: x in st'.live <==> x in st.live && x != q)
    && (forall s: Slot | s.pid == q :: s !in st'.mem)
    && (forall s: Slot | s.pid != q :: Kept(st, st', s))
  }

  // Process c is new and has every page p has, with the same bytes.
  ghost predicate Forked(st: State, p: nat, c: nat, st': State) {
    && 1 <= c < 16 && c !in st.live && (forall x: nat :: x in st'.live <==> x in st.live || x == c)
    && (forall v: nat :: Slot(c, v) in st'.mem <==> Slot(p, v) in st.mem)
    && (forall v: nat | Slot(p, v) in st.mem :: st'.mem[Slot(c, v)] == st.mem[Slot(p, v)])
    && (forall s: Slot | s.pid != c :: Kept(st, st', s))
  }

  // Pages a to a + n - 1 of p were not there and hold 4096 zero bytes now.
  ghost predicate Zeroed(st: State, p: nat, a: nat, n: nat, st': State) {
    && st'.live == st.live && 256 <= a && a + n <= 768
    && (forall v: nat | a <= v < a + n ::
          && Slot(p, v) !in st.mem && Slot(p, v) in st'.mem && |st'.mem[Slot(p, v)]| == 4096
          && forall i | 0 <= i < 4096 :: st'.mem[Slot(p, v)][i] == 0)
    && (forall s: Slot | !(s.pid == p && a <= s.v < a + n) :: Kept(st, st', s))
  }

  // The pages of p that start in the range are gone; nothing else changed.
  ghost predicate Unmapped(st: State, p: nat, addr: nat, len: nat, st': State) {
    && st'.live == st.live
    && (forall v: nat | addr <= 4096 * v < addr + len :: Slot(p, v) !in st'.mem)
    && (forall s: Slot | !(s.pid == p && addr <= 4096 * s.v < addr + len) :: Kept(st, st', s))
  }

  // What one call with its answer does.
  ghost predicate Effect(st: State, p: nat, call: Call, ans: Answer, st': State) {
    match call
    case Load(v, off) =>
      && st' == st && (ans.Value? <==> Slot(p, v) in st.mem)
      && (ans.Value? ==> off < |st.mem[Slot(p, v)]| && st.mem[Slot(p, v)][off] == ans.b)
    case Store(v, off, b) =>
      && (ans == Done || ans == Gone <==> Slot(p, v) in st.mem)
      && if ans == Done then Stored(st, p, v, off, b, st') else if ans == Gone then Ended(st, p, st') else st' == st
    case Fork => if ans.Number? then Forked(st, p, ans.n, st') else st' == st
    case Exit => Ended(st, p, st')
    case Kill(q) => if ans == Done then Ended(st, q, st') else st' == st
    case Mmap(_, len, _, _) => if ans.Number? then len > 0 && Zeroed(st, p, ans.n, len / 4096, st') else st' == st
    case Munmap(addr, len) => if addr % 4096 == 0 then Unmapped(st, p, addr, len, st') else st' == st
  }

  // Only live processes have pages, from 0x100000 to 0x300000.
  ghost predicate OwnMem(st: State) {
    forall s: Slot | s in st.mem :: s.pid in st.live && 256 <= s.v < 768
  }

  // Unmapping starts at a page, or finds no page.
  ghost predicate MunmapFinds(st: State, p: nat, call: Call) {
    call.Munmap? && call.addr % 4096 != 0 ==>
      forall v: nat | call.addr / 4096 <= v < call.addr / 4096 + PagesTouched(call.len) :: Slot(p, v) !in st.mem
  }

  // The eager machine's next state is that.
  lemma NextEffect(st: State, p: nat, call: Call, ans: Answer)
    requires Fits(st, p, call, ans) && OwnMem(st) && MunmapFinds(st, p, call)
    ensures Effect(st, p, call, ans, Next(st, p, call, ans))
  {
    hide Stored, Ended, Forked, Zeroed, Unmapped, DoStore, DoExit, DoFork, DoMmap, DoMunmap, PagesTouched, OwnMem;
    match call
    case Load(v, off) => NoConsolePage(st, p);
    case Store(v, off, b) =>
      NoConsolePage(st, p);
      if ans == Done { StoreEffect(st, p, v, off, b); } else if ans == Gone { ExitEffect(st, p); }
    case Fork => if ans.Number? { ForkEffect(st, p, ans.n); }
    case Exit => ExitEffect(st, p);
    case Kill(q) => if ans == Done { ExitEffect(st, q); }
    case Mmap(_, len, _, _) => if ans.Number? { MmapEffect(st, p, ans.n, len / 4096); }
    case Munmap(addr, len) => MunmapEffect(st, p, addr, len);
  }

  // The console's page is no page of a process.
  lemma NoConsolePage(st: State, p: nat)
    requires OwnMem(st)
    ensures Slot(p, 184) !in st.mem
  {
  }

  lemma StoreEffect(st: State, p: nat, v: nat, off: nat, b: Byte)
    requires Slot(p, v) in st.mem && off < |st.mem[Slot(p, v)]|
    ensures Stored(st, p, v, off, b, DoStore(st, p, v, off, b))
  {
  }

  lemma ExitEffect(st: State, p: nat)
    ensures Ended(st, p, DoExit(st, p))
  {
  }

  lemma ForkEffect(st: State, p: nat, c: nat)
    requires OwnMem(st) && c !in st.live && 1 <= c < 16
    ensures Forked(st, p, c, DoFork(st, p, c))
  {
  }

  lemma MmapEffect(st: State, p: nat, a: nat, n: nat)
    requires 256 <= a && a + n <= 768 && forall v: nat | a <= v < a + n :: Slot(p, v) !in st.mem
    ensures Zeroed(st, p, a, n, DoMmap(st, p, a, n))
  {
  }

  lemma MunmapEffect(st: State, p: nat, addr: nat, len: nat)
    requires addr % 4096 == 0
          || forall v: nat | addr / 4096 <= v < addr / 4096 + PagesTouched(len) :: Slot(p, v) !in st.mem
    ensures var st' := DoMunmap(st, p, addr / 4096, PagesTouched(len));
            if addr % 4096 == 0 then Unmapped(st, p, addr, len, st') else st' == st
  {
    forall v: nat
      ensures addr % 4096 == 0 ==> (addr <= 4096 * v < addr + len <==> addr / 4096 <= v < addr / 4096 + PagesTouched(len))
    {
    }
    if addr % 4096 != 0 {
      assert Cut(st.mem, p, addr / 4096, addr / 4096 + PagesTouched(len)) == st.mem;
    }
  }

  // ---- Whole runs ----

  // Each event does to the state before it what its call does.
  ghost predicate Steps(states: seq<State>, trace: seq<Event>) {
    && |states| == |trace| + 1
    && forall i | 0 <= i < |trace| ::
         trace[i].pid in states[i].live && Effect(states[i], trace[i].pid, trace[i].call, trace[i].ans, states[i + 1])
  }

  // The event ends p, or p itself stores to this byte or unmaps this page.
  predicate Touches(e: Event, p: nat, v: nat, off: nat) {
    || (e.pid == p && (e.ans == Gone || e.call == Exit))
    || (e.call == Kill(p) && e.ans == Done)
    || (e.pid == p && e.call.Store? && e.call.v == v && e.call.off == off)
    || (e.pid == p && e.call.Munmap? && e.call.addr <= 4096 * v < e.call.addr + e.call.len)
  }

  // A byte p sees stays until p stores there, unmaps the page or ends.
  lemma {:induction false} ByteStays(states: seq<State>, trace: seq<Event>, i: nat, j: nat, p: nat, v: nat, off: nat)
    requires Steps(states, trace) && i <= j < |states| && p in states[i].live
    requires Slot(p, v) in states[i].mem && off < |states[i].mem[Slot(p, v)]|
    requires forall k | i <= k < j :: !Touches(trace[k], p, v, off)
    ensures p in states[j].live && Slot(p, v) in states[j].mem && off < |states[j].mem[Slot(p, v)]|
    ensures states[j].mem[Slot(p, v)][off] == states[i].mem[Slot(p, v)][off]
    decreases j - i
  {
    if i < j {
      ByteStays(states, trace, i, j - 1, p, v, off);
      StepKeepsByte(states[j - 1], trace[j - 1], states[j], p, v, off);
    }
  }

  lemma StepKeepsByte(st: State, e: Event, st': State, p: nat, v: nat, off: nat)
    requires e.pid in st.live && Effect(st, e.pid, e.call, e.ans, st') && !Touches(e, p, v, off)
    requires p in st.live && Slot(p, v) in st.mem && off < |st.mem[Slot(p, v)]|
    ensures p in st'.live && Slot(p, v) in st'.mem && off < |st'.mem[Slot(p, v)]|
    ensures st'.mem[Slot(p, v)][off] == st.mem[Slot(p, v)][off]
  {
    match e.call
    case Store(w, o, b) =>
      if e.ans == Done {
        assert Slot(p, v) != Slot(e.pid, w) ==> Kept(st, st', Slot(p, v));
      } else if e.ans == Gone {
        assert Kept(st, st', Slot(p, v));
      }
    case Fork => assert e.ans.Number? ==> Kept(st, st', Slot(p, v));
    case Exit => assert Kept(st, st', Slot(p, v));
    case Kill(q) => assert e.ans == Done ==> Kept(st, st', Slot(p, v));
    case Mmap(_, len, _, _) => assert e.ans.Number? ==> Kept(st, st', Slot(p, v));
    case Munmap(addr, len) => assert addr % 4096 == 0 ==> Kept(st, st', Slot(p, v));
    case Load(_, _) =>
  }

  // The byte p stored last is the byte it finds and the byte it loads.
  lemma LastStored(states: seq<State>, trace: seq<Event>, i: nat, j: nat, p: nat, v: nat, off: nat, b: Byte)
    requires Steps(states, trace) && i < j < |states| && trace[i] == Event(p, Store(v, off, b), Done)
    requires forall k | i < k < j :: !Touches(trace[k], p, v, off)
    ensures Slot(p, v) in states[j].mem && off < |states[j].mem[Slot(p, v)]| && states[j].mem[Slot(p, v)][off] == b
    ensures j < |trace| && trace[j].pid == p && trace[j].call == Load(v, off) ==> trace[j].ans == Value(b)
  {
    assert Effect(states[i], p, Store(v, off, b), Done, states[i + 1]);
    ByteStays(states, trace, i + 1, j, p, v, off);
    assert j < |trace| ==> Effect(states[j], trace[j].pid, trace[j].call, trace[j].ans, states[j + 1]);
  }

  // The child of a fork finds what its parent had at the fork, whatever either
  // of them or anybody else does to other memory.
  lemma ChildFinds(states: seq<State>, trace: seq<Event>, i: nat, j: nat, p: nat, c: nat, v: nat, off: nat)
    requires Steps(states, trace) && i < j < |states| && trace[i] == Event(p, Fork, Number(c))
    requires Slot(p, v) in states[i].mem && off < |states[i].mem[Slot(p, v)]|
    requires forall k | i < k < j :: !Touches(trace[k], c, v, off)
    ensures Slot(c, v) in states[j].mem && off < |states[j].mem[Slot(c, v)]|
    ensures states[j].mem[Slot(c, v)][off] == states[i].mem[Slot(p, v)][off]
  {
    assert Effect(states[i], p, Fork, Number(c), states[i + 1]);
    ByteStays(states, trace, i + 1, j, c, v, off);
  }
}
