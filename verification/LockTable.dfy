// The range-lock table of an io61 file: a lock count and an owner per chunk.
// Specification functions on values first, then the class that updates the
// two arrays in place under the file's mutex.

module LockSpec {
  type Tid = nat

  // A byte range [start, start + len).
  datatype Range = Range(start: nat, len: nat)

  predicate Has(r: Range, b: nat) {
    r.start <= b < r.start + r.len
  }

  // The value of the lock table: chunk size, count and owner per chunk.
  datatype Table = Table(chunk: nat, nlocked: seq<nat>, owner: seq<Tid>)

  function FirstChunk(chunk: nat, r: Range): nat
    requires chunk > 0
  {
    r.start / chunk
  }

  function LastChunk(chunk: nat, r: Range): nat
    requires chunk > 0 && r.len > 0
  {
    (r.start + r.len - 1) / chunk
  }

  // The chunk numbers the loops of io61.cc visit for `r`.
  predicate Touches(chunk: nat, r: Range, i: int)
    requires chunk > 0 && r.len > 0
  {
    FirstChunk(chunk, r) <= i <= LastChunk(chunk, r)
  }

  predicate TableOk(tab: Table) {
    tab.chunk > 0 && |tab.nlocked| == |tab.owner|
  }

  // The table is long enough for `r`.
  predicate InTable(tab: Table, r: Range)
    requires TableOk(tab)
  {
    r.len > 0 && LastChunk(tab.chunk, r) < |tab.nlocked|
  }

  predicate Foreign(tab: Table, t: Tid, i: nat)
    requires TableOk(tab) && i < |tab.nlocked|
  {
    tab.nlocked[i] > 0 && tab.owner[i] != t
  }

  predicate Conflict(tab: Table, t: Tid, r: Range)
    requires TableOk(tab) && InTable(tab, r)
  {
    exists i: nat | i < |tab.nlocked| :: Touches(tab.chunk, r, i) && Foreign(tab, t, i)
  }

  function Acquire(tab: Table, t: Tid, r: Range): (out: Table)
    requires TableOk(tab) && InTable(tab, r)
  {
    Table(tab.chunk,
          seq(|tab.nlocked|, i requires 0 <= i < |tab.nlocked| =>
            if Touches(tab.chunk, r, i) then tab.nlocked[i] + 1 else tab.nlocked[i]),
          seq(|tab.owner|, i requires 0 <= i < |tab.owner| =>
            if Touches(tab.chunk, r, i) then t else tab.owner[i]))
  }

  // Every chunk of `r` is held by `t`: what the unlock loop asserts.
  predicate Holds(tab: Table, t: Tid, r: Range)
    requires TableOk(tab) && InTable(tab, r)
  {
    forall i: nat | i < |tab.nlocked| && Touches(tab.chunk, r, i) :: tab.nlocked[i] > 0 && tab.owner[i] == t
  }

  function Release(tab: Table, t: Tid, r: Range): (out: Table)
    requires TableOk(tab) && InTable(tab, r) && Holds(tab, t, r)
  {
    Table(tab.chunk,
          seq(|tab.nlocked|, i requires 0 <= i < |tab.nlocked| =>
            if Touches(tab.chunk, r, i) then tab.nlocked[i] - 1 else tab.nlocked[i]),
          tab.owner)
  }

  function ChunkOf(chunk: nat, b: nat): nat
    requires chunk > 0
  {
    b / chunk
  }

  lemma MulMono(x: nat, y: nat, c: nat)
    requires x <= y
    ensures x * c <= y * c
  {}

  lemma DivMono(a: nat, b: nat, c: nat)
    requires a <= b && c > 0
    ensures a / c <= b / c
  {
    var p, q := a / c, b / c;
    assert a == p * c + a % c && b == q * c + b % c;
    assert (q + 1) * c == q * c + c;
    if q + 1 <= p {
      MulMono(q + 1, p, c);
      assert false;
    }
  }

  // The loop guard `i * chunk < end` stops exactly after the last chunk.
  lemma GuardIsLastChunk(chunk: nat, end: nat, i: nat)
    requires chunk > 0 && end > 0
    ensures i * chunk < end <==> i <= (end - 1) / chunk
  {
    var q := (end - 1) / chunk;
    assert chunk * q <= end - 1 < chunk * q + chunk;
    if i <= q {
      assert i * chunk <= q * chunk;
    } else {
      assert i * chunk >= (q + 1) * chunk;
    }
  }

  lemma MultipleDiv(i: nat, c: nat)
    requires c > 0
    ensures (i * c) / c == i
  {
    GuardIsLastChunk(c, i * c + 1, i);
    GuardIsLastChunk(c, i * c + 1, i + 1);
    assert (i + 1) * c == i * c + c;
  }

  // A range touches exactly the chunks that hold one of its bytes.
  lemma TouchesIffByte(chunk: nat, r: Range, i: nat)
    requires chunk > 0 && r.len > 0
    ensures Touches(chunk, r, i) <==>
            exists b: nat :: Has(r, b) && ChunkOf(chunk, b) == i
  {
    var lo, hi := r.start, r.start + r.len - 1;
    if Touches(chunk, r, i) {
      var b := if i == lo / chunk then lo else i * chunk;
      if i != lo / chunk {
        GuardIsLastChunk(chunk, lo + 1, i);
        GuardIsLastChunk(chunk, hi + 1, i);
        MultipleDiv(i, chunk);
      }
      assert Has(r, b) && ChunkOf(chunk, b) == i;
    }
    if b: nat :| Has(r, b) && ChunkOf(chunk, b) == i {
      DivMono(lo, b, chunk);
      DivMono(b, hi, chunk);
    }
  }
}

module LockTable {
  import opened LockSpec

  class RegionLocks {
    const chunk: nat
    const nlocked: array<nat>
    const owner: array<Tid>

    ghost predicate Valid()
      reads this, nlocked, owner
    {
      chunk > 0 && nlocked.Length == owner.Length && nlocked as object != owner
    }

    ghost function Value(): (tab: Table)
      reads this, nlocked, owner
      requires Valid()
      ensures TableOk(tab)
    {
      Table(chunk, nlocked[..], owner[..])
    }

    constructor (filesize: nat, nchunks: nat)
      requires nchunks > 0
      ensures Valid() && fresh(nlocked) && fresh(owner)
      ensures chunk == if filesize / nchunks < 16 then 16 else filesize / nchunks
      ensures |Value().nlocked| == nchunks
      ensures forall i: nat | i < nchunks :: Value().nlocked[i] == 0 && Value().owner[i] == 0
    {
      var c := filesize / nchunks;
      chunk := if c < 16 then 16 else c;
      var counts := new nat[nchunks](_ => 0);
      nlocked := counts;
      owner := new Tid[nchunks](_ => 0);
    }

    method IsOverlap(me: Tid, start: nat, len: nat) returns (overlap: bool)
      requires Valid() && InTable(Value(), Range(start, len))
      ensures overlap <==> Conflict(Value(), me, Range(start, len))
    {
      ghost var r := Range(start, len);
      var i := start / chunk;
      GuardIsLastChunk(chunk, start + len, i);
      DivMono(start, start + len - 1, chunk);
      while i * chunk < start + len
        invariant FirstChunk(chunk, r) <= i <= LastChunk(chunk, r) + 1
        invariant i * chunk < start + len <==> i <= LastChunk(chunk, r)
        invariant forall j: nat | j < i && j < nlocked.Length && Touches(chunk, r, j) :: !Foreign(Value(), me, j)
        decreases LastChunk(chunk, r) + 1 - i
      {
        if nlocked[i] != 0 && owner[i] != me {
          assert Touches(chunk, r, i) && Foreign(Value(), me, i);
          return true;
        }
        i := i + 1;
        GuardIsLastChunk(chunk, start + len, i);
      }
      overlap := false;
    }

    method LockRegion(me: Tid, start: nat, len: nat)
      requires Valid() && InTable(Value(), Range(start, len))
      requires !Conflict(Value(), me, Range(start, len))
      modifies nlocked, owner
      ensures Value() == Acquire(old(Value()), me, Range(start, len))
    {
      ghost var r := Range(start, len);
      ghost var was := Value();
      var i := start / chunk;
      GuardIsLastChunk(chunk, start + len, i);
      DivMono(start, start + len - 1, chunk);
      while i * chunk < start + len
        invariant FirstChunk(chunk, r) <= i <= LastChunk(chunk, r) + 1
        invariant i * chunk < start + len <==> i <= LastChunk(chunk, r)
        invariant forall j: nat | j < nlocked.Length ::
            nlocked[j] == (if Touches(chunk, r, j) && j < i then was.nlocked[j] + 1 else was.nlocked[j])
        invariant forall j: nat | j < owner.Length ::
            owner[j] == (if Touches(chunk, r, j) && j < i then me else was.owner[j])
        decreases LastChunk(chunk, r) + 1 - i
      {
        // the assertion of lock_region: no conflict means the chunk is free or mine
        assert nlocked[i] == 0 || owner[i] == me by { assert !Foreign(was, me, i); }
        nlocked[i] := nlocked[i] + 1;
        owner[i] := me;
        i := i + 1;
        GuardIsLastChunk(chunk, start + len, i);
      }
      assert Value() == Acquire(was, me, r);
    }

    // io61_try_lock: all of the range or none of it.
    method TryLock(me: Tid, start: nat, len: nat) returns (res: int)
      requires Valid() && (len > 0 ==> InTable(Value(), Range(start, len)))
      modifies nlocked, owner
      ensures len == 0 ==> res == 0 && Value() == old(Value())
      ensures len > 0 && old(Conflict(Value(), me, Range(start, len))) ==> res == -1 && Value() == old(Value())
      ensures len > 0 && !old(Conflict(Value(), me, Range(start, len))) ==>
                res == 0 && Value() == Acquire(old(Value()), me, Range(start, len))
    {
      if len == 0 { return 0; }
      var overlap := IsOverlap(me, start, len);
      if overlap { return -1; }
      LockRegion(me, start, len);
      res := 0;
    }

    // One turn of the loop in io61_lock, from holding the mutex to either
    // having the range or falling asleep on the condition variable.
    method LockTurn(me: Tid, start: nat, len: nat) returns (asleep: bool)
      requires Valid() && (len > 0 ==> InTable(Value(), Range(start, len)))
      modifies nlocked, owner
      ensures asleep <==> len > 0 && old(Conflict(Value(), me, Range(start, len)))
      ensures asleep || len == 0 ==> Value() == old(Value())
      ensures !asleep && len > 0 ==> Value() == Acquire(old(Value()), me, Range(start, len))
    {
      if len == 0 { return false; }
      asleep := IsOverlap(me, start, len);
      if !asleep {
        LockRegion(me, start, len);
      }
    }

    method Unlock(me: Tid, start: nat, len: nat)
      requires Valid()
      requires len > 0 ==> InTable(Value(), Range(start, len)) && Holds(Value(), me, Range(start, len))
      modifies nlocked
      ensures len == 0 ==> Value() == old(Value())
      ensures len > 0 ==> Value() == Release(old(Value()), me, Range(start, len))
    {
      if len == 0 { return; }
      ghost var r := Range(start, len);
      ghost var was := Value();
      var i := start / chunk;
      GuardIsLastChunk(chunk, start + len, i);
      DivMono(start, start + len - 1, chunk);
      while i * chunk < start + len
        invariant FirstChunk(chunk, r) <= i <= LastChunk(chunk, r) + 1
        invariant i * chunk < start + len <==> i <= LastChunk(chunk, r)
        invariant owner[..] == was.owner
        invariant forall j: nat | j < nlocked.Length ::
            nlocked[j] == (if Touches(chunk, r, j) && j < i then was.nlocked[j] - 1 else was.nlocked[j])
        decreases LastChunk(chunk, r) + 1 - i
      {
        // the assertion of io61_unlock
        assert nlocked[i] != 0 && owner[i] == me;
        nlocked[i] := nlocked[i] - 1;
        i := i + 1;
        GuardIsLastChunk(chunk, start + len, i);
      }
      assert Value() == Release(was, me, r);
    }
  }
}
