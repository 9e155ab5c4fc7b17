// Any number of threads using one lock table through io61_lock, io61_try_lock
// and io61_unlock. Each section under the mutex is one step; a thread that
// finds a conflict sleeps on the condition variable in the same step.

module LockMachine {
  import opened LockSpec

  // A range some thread has locked and not yet unlocked.
  datatype Hold = Hold(t: Tid, r: Range)

  // Retrying: woken up, about to test the same range again.
  datatype Status = Running | Asleep(r: Range) | Retrying(r: Range)

  datatype State = State(tab: Table, held: seq<Hold>, status: seq<Status>)

  datatype Op = TryLock(r: Range) | Lock(r: Range) | Retry | SpuriousWake | Unlock(r: Range)

  predicate Covers(chunk: nat, r: Range, i: int) {
    chunk > 0 && r.len > 0 && Touches(chunk, r, i)
  }

  // Number of outstanding ranges touching chunk i.
  function Count(held: seq<Hold>, chunk: nat, i: int): (n: nat)
    ensures n > 0 <==> exists h | h in held :: Covers(chunk, h.r, i)
  {
    if held == [] then 0
    else
      var h := held[|held| - 1];
      assert held == held[..|held| - 1] + [h];
      Count(held[..|held| - 1], chunk, i) + if Covers(chunk, h.r, i) then 1 else 0
  }

  ghost predicate Inv(s: State) {
    && TableOk(s.tab)
    && HoldsFit(s)
    && CountsExact(s)
    && OwnersExact(s)
    && SleepersBlocked(s)
  }

  ghost predicate HoldsFit(s: State)
    requires TableOk(s.tab)
  {
    forall h | h in s.held :: h.t < |s.status| && InTable(s.tab, h.r)
  }

  ghost predicate CountsExact(s: State)
    requires TableOk(s.tab)
  {
    forall i: nat | i < |s.tab.nlocked| :: s.tab.nlocked[i] == Count(s.held, s.tab.chunk, i)
  }

  ghost predicate OwnersExact(s: State)
    requires TableOk(s.tab)
  {
    forall h, i: nat | h in s.held && i < |s.tab.nlocked| && Covers(s.tab.chunk, h.r, i) :: s.tab.owner[i] == h.t
  }

  // No lost wakeup: whoever sleeps still has a conflicting chunk.
  ghost predicate SleepersBlocked(s: State)
    requires TableOk(s.tab)
  {
    forall t: Tid | t < |s.status| && s.status[t].Asleep? ::
      InTable(s.tab, s.status[t].r) && Conflict(s.tab, t, s.status[t].r)
  }

  ghost predicate Enabled(s: State, t: Tid, op: Op)
    requires Inv(s)
  {
    && t < |s.status|
    && match op
       case TryLock(r) => s.status[t].Running? && InTable(s.tab, r)
       case Lock(r) => s.status[t].Running? && InTable(s.tab, r)
       case Retry => s.status[t].Retrying? && InTable(s.tab, s.status[t].r)
       case SpuriousWake => s.status[t].Asleep?
       case Unlock(r) => s.status[t].Running? && Hold(t, r) in s.held
  }

  ghost function Step(s: State, t: Tid, op: Op): (out: State)
    requires Inv(s) && Enabled(s, t, op)
  {
    match op
    case TryLock(r) => if Conflict(s.tab, t, r) then s else Take(s, t, r)
    case Lock(r) => Attempt(s, t, r)
    case Retry => Attempt(s, t, s.status[t].r)
    case SpuriousWake => s.(status := s.status[t := Retrying(s.status[t].r)])
    case Unlock(r) => UnlockAssertionHolds(s, Hold(t, r)); Drop(s, t, r)
  }

  ghost function Attempt(s: State, t: Tid, r: Range): (out: State)
    requires TableOk(s.tab) && InTable(s.tab, r) && t < |s.status|
  {
    if Conflict(s.tab, t, r) then s.(status := s.status[t := Asleep(r)]) else Take(s, t, r)
  }

  ghost function Take(s: State, t: Tid, r: Range): (out: State)
    requires TableOk(s.tab) && InTable(s.tab, r) && t < |s.status|
  {
    State(Acquire(s.tab, t, r), s.held + [Hold(t, r)], s.status[t := Running])
  }

  ghost function Drop(s: State, t: Tid, r: Range): (out: State)
    requires TableOk(s.tab) && InTable(s.tab, r) && Holds(s.tab, t, r) && Hold(t, r) in s.held
  {
    State(Release(s.tab, t, r), Remove(s.held, Hold(t, r)), WakeAll(s.status))
  }

  // cv.notify_all
  function WakeAll(status: seq<Status>): (out: seq<Status>) {
    seq(|status|, i requires 0 <= i < |status| =>
      if status[i].Asleep? then Retrying(status[i].r) else status[i])
  }

  // `held` without its last occurrence of `h`.
  function Remove(held: seq<Hold>, h: Hold): (out: seq<Hold>)
    requires h in held
    ensures multiset(out) == multiset(held) - multiset{h}
  {
    var n := |held| - 1;
    assert held == held[..n] + [held[n]];
    if held[n] == h then held[..n] else Remove(held[..n], h) + [held[n]]
  }

  lemma {:induction false} CountRemove(held: seq<Hold>, h: Hold, chunk: nat, i: int)
    requires h in held
    ensures Count(Remove(held, h), chunk, i) == Count(held, chunk, i) - if Covers(chunk, h.r, i) then 1 else 0
  {
    var n := |held| - 1;
    assert held == held[..n] + [held[n]];
    if held[n] != h {
      CountRemove(held[..n], h, chunk, i);
      assert (Remove(held[..n], h) + [held[n]])[..|Remove(held[..n], h)|] == Remove(held[..n], h);
    }
  }

  lemma RemoveSubset(held: seq<Hold>, h: Hold)
    requires h in held
    ensures forall x | x in Remove(held, h) :: x in held
  {
    forall x | x in Remove(held, h)
      ensures x in held
    {
      assert x in multiset(Remove(held, h));
      assert x in multiset(held);
    }
  }

  lemma RemoveOnlyOne(held: seq<Hold>, h: Hold)
    requires h in held && multiset(held)[h] == 1
    ensures forall x :: x in Remove(held, h) <==> x in held && x != h
    ensures forall x | x != h :: multiset(Remove(held, h))[x] == multiset(held)[x]
  {
    var before, after := multiset(held), multiset(Remove(held, h));
    assert after == before - multiset{h};
    forall x
      ensures x in Remove(held, h) <==> x in held && x != h
    {
      assert x in Remove(held, h) <==> x in after;
      assert x in held <==> x in before;
    }
  }

  lemma InvTable(s: State)
    requires Inv(s)
    ensures TableOk(s.tab)
  {
  }

  // The assertions of io61_unlock never fail on an outstanding range.
  lemma UnlockAssertionHolds(s: State, h: Hold)
    requires Inv(s) && h in s.held
    ensures InTable(s.tab, h.r) && Holds(s.tab, h.t, h.r)
  {
    forall i: nat | i < |s.tab.nlocked| && Touches(s.tab.chunk, h.r, i)
      ensures s.tab.nlocked[i] > 0 && s.tab.owner[i] == h.t
    {
      assert Covers(s.tab.chunk, h.r, i);
    }
  }

  lemma TakeInv(s: State, t: Tid, r: Range)
    requires Inv(s) && t < |s.status| && InTable(s.tab, r) && !Conflict(s.tab, t, r)
    ensures Inv(Take(s, t, r))
  {
    var s' := Take(s, t, r);
    assert s'.held[..|s'.held| - 1] == s.held;
    TakeOwners(s, t, r);
    TakeSleepers(s, t, r);
  }

  lemma TakeOwners(s: State, t: Tid, r: Range)
    requires Inv(s) && t < |s.status| && InTable(s.tab, r) && !Conflict(s.tab, t, r)
    ensures OwnersExact(Take(s, t, r))
  {
    var s' := Take(s, t, r);
    forall h, i: nat | h in s'.held && i < |s'.tab.nlocked| && Covers(s'.tab.chunk, h.r, i)
      ensures s'.tab.owner[i] == h.t
    {
      if h in s.held {
        assert Count(s.held, s.tab.chunk, i) > 0;
        assert !Touches(s.tab.chunk, r, i) || !Foreign(s.tab, t, i);
      }
    }
  }

  lemma TakeSleepers(s: State, t: Tid, r: Range)
    requires Inv(s) && t < |s.status| && InTable(s.tab, r) && !Conflict(s.tab, t, r)
    ensures SleepersBlocked(Take(s, t, r))
  {
    var s' := Take(s, t, r);
    forall u: Tid | u < |s'.status| && s'.status[u].Asleep?
      ensures InTable(s'.tab, s'.status[u].r) && Conflict(s'.tab, u, s'.status[u].r)
    {
      assert s.status[u].Asleep?;
      var q := s.status[u].r;
      var i: nat :| i < |s.tab.nlocked| && Touches(s.tab.chunk, q, i) && Foreign(s.tab, u, i);
      assert u != t;
      assert Foreign(s'.tab, u, i);
    }
  }

  lemma DropInv(s: State, t: Tid, r: Range)
    requires Inv(s) && t < |s.status| && Hold(t, r) in s.held && InTable(s.tab, r) && Holds(s.tab, t, r)
    ensures Inv(Drop(s, t, r))
  {
    var h := Hold(t, r);
    var s' := Drop(s, t, r);
    RemoveSubset(s.held, h);
    forall i: nat | i < |s'.tab.nlocked|
      ensures s'.tab.nlocked[i] == Count(s'.held, s'.tab.chunk, i)
    {
      CountRemove(s.held, h, s.tab.chunk, i);
    }
    assert OwnersExact(s') by {
      forall x, i: nat | x in s'.held && i < |s'.tab.nlocked| && Covers(s'.tab.chunk, x.r, i)
        ensures s'.tab.owner[i] == x.t
      {
        assert x in s.held;
      }
    }
  }

  // Every step keeps the lock-table invariant.
  lemma StepInv(s: State, t: Tid, op: Op)
    requires Inv(s) && Enabled(s, t, op)
    ensures Inv(Step(s, t, op))
  {
    match op
    case TryLock(r) =>
      if !Conflict(s.tab, t, r) { TakeInv(s, t, r); }
    case Lock(r) =>
      AttemptInv(s, t, r);
    case Retry =>
      AttemptInv(s, t, s.status[t].r);
    case SpuriousWake =>
    case Unlock(r) =>
      UnlockAssertionHolds(s, Hold(t, r));
      DropInv(s, t, r);
  }

  lemma AttemptInv(s: State, t: Tid, r: Range)
    requires Inv(s) && t < |s.status| && InTable(s.tab, r)
    ensures Inv(Attempt(s, t, r))
  {
    if !Conflict(s.tab, t, r) {
      TakeInv(s, t, r);
    }
  }

  // Two ranges with bytes in one chunk.
  ghost predicate ShareChunk(chunk: nat, a: Range, b: Range)
    requires chunk > 0
  {
    exists x: nat, y: nat ::
      a.start <= x < a.start + a.len && b.start <= y < b.start + b.len && ChunkOf(chunk, x) == ChunkOf(chunk, y)
  }

  // A thread has to wait if and only if another one holds a range that shares
  // a chunk with the range it wants.
  lemma ConflictIff(s: State, t: Tid, r: Range)
    requires Inv(s) && InTable(s.tab, r)
    ensures Conflict(s.tab, t, r) <==> exists h :: h in s.held && h.t != t && ShareChunk(s.tab.chunk, h.r, r)
  {
    hide Touches, ChunkOf;
    var chunk := s.tab.chunk;
    if Conflict(s.tab, t, r) {
      var i: nat :| i < |s.tab.nlocked| && Touches(chunk, r, i) && Foreign(s.tab, t, i);
      var h :| h in s.held && Covers(chunk, h.r, i);
      TouchesIffByte(chunk, h.r, i);
      TouchesIffByte(chunk, r, i);
      var x: nat, y: nat :| Has(h.r, x) && ChunkOf(chunk, x) == i && Has(r, y) && ChunkOf(chunk, y) == i;
      assert ShareChunk(chunk, h.r, r);
    }
    if h :| h in s.held && h.t != t && ShareChunk(chunk, h.r, r) {
      var x: nat, y: nat :| Has(h.r, x) && Has(r, y) && ChunkOf(chunk, x) == ChunkOf(chunk, y);
      var i := ChunkOf(chunk, x);
      TouchesIffByte(chunk, h.r, i);
      TouchesIffByte(chunk, r, i);
      ChunkInTable(s.tab, r, i);
      assert Covers(chunk, h.r, i) && Foreign(s.tab, t, i);
    }
  }

  lemma ChunkInTable(tab: Table, r: Range, i: nat)
    requires TableOk(tab) && InTable(tab, r) && Touches(tab.chunk, r, i)
    ensures i < |tab.nlocked|
  {
  }

  // Trying for `r`: the thread either gets it or sleeps (or stays) on it.
  lemma LockOpShape(s: State, t: Tid, op: Op, r: Range)
    requires Inv(s) && Enabled(s, t, op)
    requires op == Lock(r) || ((op == Retry || op == SpuriousWake) && s.status[t].r == r)
    ensures var s' := Step(s, t, op);
            && |s'.status| == |s.status| && s'.tab.chunk == s.tab.chunk && |s'.tab.nlocked| == |s.tab.nlocked|
            && (forall u: Tid | u < |s.status| && u != t :: s'.status[u] == s.status[u])
            && if s'.status[t].Running? then s'.held == s.held + [Hold(t, r)]
               else s'.status[t].r == r && s'.held == s.held && s'.tab == s.tab
    ensures Step(s, t, op).status[t].Running? == (op != SpuriousWake && !Conflict(s.tab, t, r))
  {
  }

  lemma UnlockShape(s: State, t: Tid, r: Range)
    requires Inv(s) && Enabled(s, t, Unlock(r))
    ensures var s' := Step(s, t, Unlock(r));
            && s'.tab.chunk == s.tab.chunk && |s'.tab.nlocked| == |s.tab.nlocked|
            && s'.held == Remove(s.held, Hold(t, r)) && s'.status == WakeAll(s.status)
  {
    UnlockAssertionHolds(s, Hold(t, r));
  }

  datatype Event = Event(t: Tid, op: Op)
  datatype Outcome = Stuck | Reached(s: State)

  // The state after a whole run; Stuck when some event was not possible.
  ghost function Exec(s: State, run: seq<Event>): (out: Outcome)
    requires Inv(s)
    ensures out.Reached? ==> Inv(out.s)
    decreases |run|
  {
    if run == [] then Reached(s)
    else if !Enabled(s, run[0].t, run[0].op) then Stuck
    else
      StepInv(s, run[0].t, run[0].op);
      Exec(Step(s, run[0].t, run[0].op), run[1..])
  }

  function Fresh(chunk: nat, nchunks: nat, nthreads: nat): (s: State) {
    State(Table(chunk, seq(nchunks, _ => 0), seq(nchunks, _ => 0)), [], seq(nthreads, _ => Running))
  }

  lemma FreshInv(chunk: nat, nchunks: nat, nthreads: nat)
    requires chunk > 0
    ensures Inv(Fresh(chunk, nchunks, nthreads))
  {
  }

  // Two outstanding ranges of different threads never share a byte.
  lemma RangesDisjoint(s: State, h1: Hold, h2: Hold, b: nat)
    requires Inv(s) && h1 in s.held && h2 in s.held && h1.t != h2.t
    requires Has(h1.r, b)
    ensures !Has(h2.r, b)
  {
    var i := ChunkOf(s.tab.chunk, b);
    TouchesIffByte(s.tab.chunk, h1.r, i);
    TouchesIffByte(s.tab.chunk, h2.r, i);
    assert Covers(s.tab.chunk, h1.r, i) && s.tab.owner[i] == h1.t;
    assert Has(h2.r, b) ==> Covers(s.tab.chunk, h2.r, i);
  }

  // The main theorem over runs of any clients from an empty table: counts,
  // owners and sleepers are exact, and no byte is locked by two threads.
  lemma LockTableOverRuns(chunk: nat, nchunks: nat, nthreads: nat, run: seq<Event>)
    requires chunk > 0
    ensures Inv(Fresh(chunk, nchunks, nthreads))
    ensures var out := Exec(Fresh(chunk, nchunks, nthreads), run);
            out.Reached? ==>
              && (forall i: nat | i < |out.s.tab.nlocked| ::
                    && out.s.tab.nlocked[i] == Count(out.s.held, out.s.tab.chunk, i)
                    && (out.s.tab.nlocked[i] > 0 <==> exists h | h in out.s.held :: Covers(out.s.tab.chunk, h.r, i))
                    && (forall h | h in out.s.held && Covers(out.s.tab.chunk, h.r, i) :: out.s.tab.owner[i] == h.t))
              && (forall h1, h2, b: nat | h1 in out.s.held && h2 in out.s.held && h1.t != h2.t ::
                    !(Has(h1.r, b) && Has(h2.r, b)))
              && (forall t: Tid | t < |out.s.status| && out.s.status[t].Asleep? ::
                    InTable(out.s.tab, out.s.status[t].r) && Conflict(out.s.tab, t, out.s.status[t].r))
  {
    FreshInv(chunk, nchunks, nthreads);
    var out := Exec(Fresh(chunk, nchunks, nthreads), run);
    if out.Reached? {
      var s := out.s;
      forall h1, h2, b: nat | h1 in s.held && h2 in s.held && h1.t != h2.t && Has(h1.r, b)
        ensures !Has(h2.r, b)
      {
        RangesDisjoint(s, h1, h2, b);
      }
    }
  }
}
