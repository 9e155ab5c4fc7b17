// The positioned mode of an io61 file: one 8192-byte slot over the disk file,
// written back with pwrite calls that may be short, be interrupted or fail.

module PosCache {
  import opened Basics

  const SLOT: nat := 8192

  // What the kernel answers to one system call: some progress, an interrupted
  // call to try again, or a failure.
  datatype Answer = Did(n: nat) | Interrupted | Failed

  predicate NeverFails(kernel: seq<Answer>) {
    forall a | a in kernel :: a.Did?
  }

  predicate NeverFailsWriting(kernel: seq<Answer>) {
    forall a | a in kernel :: !a.Failed?
  }

  // The answers not yet used.
  predicate Remains(answers: seq<Answer>, rest: seq<Answer>) {
    |rest| <= |answers| && rest == answers[|answers| - |rest|..]
  }

  lemma AllRemains(answers: seq<Answer>)
    ensures Remains(answers, answers)
  {
  }

  lemma TailRemains(answers: seq<Answer>, rest: seq<Answer>)
    requires Remains(answers, rest)
    ensures rest != [] ==> rest[0] in answers && Remains(answers, rest[1..])
  {
    if rest != [] {
      assert rest[0] == answers[|answers| - |rest|];
      PartOfPart(answers, |answers| - |rest|, |answers|, 1, |rest| - 1);
    }
  }

  lemma RestNeverFails(answers: seq<Answer>, rest: seq<Answer>)
    requires Remains(answers, rest)
    ensures NeverFails(answers) ==> NeverFails(rest) && NeverFailsWriting(answers)
  {
  }

  function SlotStart(off: nat): nat { off - off % SLOT }
  function SlotEnd(off: nat, size: nat): nat { Least(SlotStart(off) + SLOT, size) }

  // A slot ends at the next multiple of 8192, or with the file.
  lemma SlotEndSays(off: nat, size: nat)
    ensures SlotEnd(off, size) == Least(8192 * (off / 8192) + 8192, size)
  {
  }

  // Only the bytes from `at` on differ, and they are the ones of `data`.
  predicate Replaced(before: seq<Byte>, after: seq<Byte>, at: nat, data: seq<Byte>) {
    && |after| == |before| && at + |data| <= |before| && after[at..at + |data|] == data
    && forall i | 0 <= i < |before| && !(at <= i < at + |data|) :: after[i] == before[i]
  }

  // `data` laid over `file` from position `at`.
  function Overlay(file: seq<Byte>, at: nat, data: seq<Byte>): (out: seq<Byte>)
    requires at + |data| <= |file|
  {
    seq(|file|, i requires 0 <= i < |file| => if at <= i < at + |data| then data[i - at] else file[i])
  }

  lemma OverlayReplaces(file: seq<Byte>, at: nat, data: seq<Byte>)
    requires at + |data| <= |file|
    ensures Replaced(file, Overlay(file, at, data), at, data)
  {
  }

  lemma OverlaidPart(file: seq<Byte>, at: nat, data: seq<Byte>, from: nat, n: nat)
    requires at + |data| <= |file| && at <= from && from + n <= at + |data|
    ensures Overlay(file, at, data)[from..from + n] == data[from - at..from - at + n]
  {
    var part := Overlay(file, at, data)[from..from + n];
    forall i | 0 <= i < |part|
      ensures part[i] == data[from - at..from - at + n][i]
    {
      assert part[i] == Overlay(file, at, data)[from + i];
    }
  }

  lemma FrontReplaced(was: seq<Byte>, front: seq<Byte>, now: seq<Byte>)
    requires |front| <= |was| == |now|
    requires forall i | 0 <= i < |now| :: now[i] == if i < |front| then front[i] else was[i]
    ensures now == front + was[|front|..]
  {
  }

  lemma PartOfPart<T>(s: seq<T>, a: nat, b: nat, at: nat, n: nat)
    requires a <= b <= |s| && at + n <= b - a
    ensures s[a..b][at..at + n] == s[a + at..a + at + n]
  {
    var part := s[a..b][at..at + n];
    forall i | 0 <= i < |part|
      ensures part[i] == s[a + at..a + at + n][i]
    {
      assert part[i] == s[a..b][at + i];
    }
  }

  lemma ArrayPart(a: array<Byte>, end: nat, at: nat, n: nat)
    requires at + n <= end <= a.Length
    ensures a[..end][at..at + n] == a[at..at + n]
  {
    var part := a[..end][at..at + n];
    forall i | 0 <= i < |part|
      ensures part[i] == a[at..at + n][i]
    {
      assert part[i] == a[..end][at + i];
    }
  }

  // Writing part of what covers the file anyway does not show.
  lemma FlushStep(file: seq<Byte>, at: nat, data: seq<Byte>, lo: nat, hi: nat)
    requires at + |data| <= |file| && lo <= hi <= |data|
    requires file[at..at + lo] == data[..lo]
    ensures var after := Overlay(file, at + lo, data[lo..hi]);
            after[at..at + hi] == data[..hi] && Overlay(after, at, data) == Overlay(file, at, data)
  {
    var after := Overlay(file, at + lo, data[lo..hi]);
    forall i: nat | i < hi
      ensures after[at + i] == data[i]
    {
      if i < lo { assert file[at..at + lo][i] == data[..lo][i]; }
    }
  }

  // The first k bytes of what covers the file have been written to it.
  ghost predicate Written(was: seq<Byte>, now: seq<Byte>, at: nat, data: seq<Byte>, k: nat) {
    && |now| == |was| && at + |data| <= |was| && k <= |data|
    && now[at..at + k] == data[..k] && Overlay(now, at, data) == Overlay(was, at, data)
  }

  lemma NothingWritten(file: seq<Byte>, at: nat, data: seq<Byte>)
    requires at + |data| <= |file|
    ensures Written(file, file, at, data, 0)
  {
  }

  lemma MoreWritten(was: seq<Byte>, now: seq<Byte>, at: nat, data: seq<Byte>, k: nat, n: nat)
    requires Written(was, now, at, data, k) && k + n <= |data|
    ensures at + k + n <= |now| && Written(was, Overlay(now, at + k, data[k..k + n]), at, data, k + n)
  {
    FlushStep(now, at, data, k, k + n);
  }

  lemma WrittenShows(was: seq<Byte>, now: seq<Byte>, at: nat, data: seq<Byte>, k: nat)
    requires Written(was, now, at, data, k)
    ensures at + |data| <= |now| == |was| && Overlay(now, at, data) == Overlay(was, at, data)
    ensures k == |data| ==> now[at..at + |data|] == data
  {
    assert data[..|data|] == data;
  }

  // Changing the covering data is the same as writing through it.
  lemma OverlayInside(file: seq<Byte>, at: nat, data: seq<Byte>, lo: nat, part: seq<Byte>)
    requires at + |data| <= |file| && lo + |part| <= |data|
    ensures Overlay(file, at, Overlay(data, lo, part)) == Overlay(Overlay(file, at, data), at + lo, part)
  {
  }

  class File {
    var disk: seq<Byte>
    const cbuf: array<Byte>
    var tag: nat
    var endTag: nat
    var dirty: bool
    var positioned: bool
    // the answers still to come; when they run out every call succeeds in full
    var kernel: seq<Answer>

    ghost predicate Valid()
      reads this, cbuf
    {
      && cbuf.Length == SLOT
      && (positioned ==>
            && tag % SLOT == 0 && tag <= |disk| && endTag == Least(tag + SLOT, |disk|)
            && (!dirty ==> cbuf[..endTag - tag] == disk[tag..endTag]))
      && (!positioned ==> !dirty)
    }

    ghost predicate SlotFits()
      reads this
    {
      cbuf.Length == SLOT && tag <= endTag <= |disk| && endTag - tag <= SLOT
    }

    ghost function Slot(): (bytes: seq<Byte>)
      reads this, cbuf
      requires SlotFits()
    {
      cbuf[..endTag - tag]
    }

    // The file as its user sees it: the disk overlaid with the slot.
    ghost function Logical(): (bytes: seq<Byte>)
      reads this, cbuf
      requires Valid()
      ensures |bytes| == |disk|
    {
      if positioned then Overlay(disk, tag, cbuf[..endTag - tag]) else disk
    }

    // The slot reaches from `off` on as far as a slot can.
    predicate Cached(off: nat)
      reads this
    {
      positioned && tag <= off <= endTag && tag == SlotStart(off)
    }

    // A file just opened for reading and writing.
    constructor (bytes: seq<Byte>, answers: seq<Answer>)
      ensures Valid() && fresh(cbuf) && Logical() == bytes && kernel == answers && !positioned
    {
      disk := bytes;
      cbuf := new Byte[SLOT](_ => 0);
      tag, endTag, dirty, positioned := 0, 0, false, false;
      kernel := answers;
    }

    // pwrite(fd, &cbuf[at - tag], n, at)
    method SysPwrite(at: nat, n: nat) returns (nw: int, again: bool)
      requires SlotFits() && tag <= at && at + n <= endTag && n > 0
      modifies `disk, `kernel
      ensures -1 <= nw <= n
      ensures |disk| == |old(disk)|
      ensures nw == -1 ==> disk == old(disk)
      ensures nw >= 0 ==> disk == Overlay(old(disk), at, Slot()[at - tag..at - tag + nw])
      ensures kernel == if old(kernel) == [] then [] else old(kernel)[1..]
      ensures old(kernel) == [] ==> nw == n
      ensures nw == -1 && !again ==> old(kernel) != [] && old(kernel)[0].Failed?
    {
      again := false;
      if kernel == [] {
        nw := n;
      } else {
        match kernel[0] {
          case Did(k) => nw := Least(k, n);
          case Interrupted => nw, again := -1, true;
          case Failed => nw := -1;
        }
        kernel := kernel[1..];
      }
      if nw >= 0 {
        ArrayPart(cbuf, endTag - tag, at - tag, nw);
        disk := Overlay(disk, at, cbuf[at - tag..at - tag + nw]);
      }
    }

    // The write-back loop: it only ever writes what covers the disk anyway.
    method WriteBack() returns (res: int)
      requires SlotFits()
      modifies `disk, `kernel
      ensures |disk| == |old(disk)| && res in {0, -1}
      ensures Overlay(disk, tag, Slot()) == Overlay(old(disk), tag, Slot())
      ensures res == 0 ==> disk[tag..endTag] == Slot()
      ensures Remains(old(kernel), kernel)
      ensures NeverFailsWriting(old(kernel)) ==> res == 0
    {
      hide Overlay, Remains, Written;
      ghost var slot := Slot();
      AllRemains(kernel);
      NothingWritten(disk, tag, slot);
      var flushTag := tag;
      while flushTag != endTag
        invariant tag <= flushTag <= endTag && |disk| == |old(disk)|
        invariant Remains(old(kernel), kernel) && Written(old(disk), disk, tag, slot, flushTag - tag)
        decreases |kernel|, endTag - flushTag
      {
        ghost var before := disk;
        TailRemains(old(kernel), kernel);
        var nw, again := SysPwrite(flushTag, endTag - flushTag);
        if nw >= 0 {
          MoreWritten(old(disk), before, tag, slot, flushTag - tag, nw);
          flushTag := flushTag + nw;
        } else if !again {
          WrittenShows(old(disk), disk, tag, slot, flushTag - tag);
          return -1;
        }
      }
      WrittenShows(old(disk), disk, tag, slot, endTag - tag);
      res := 0;
    }

    // io61_flush_dirty_positioned: whatever happens, the logical file stays.
    method FlushDirtyPositioned() returns (res: int)
      requires Valid() && positioned && dirty
      modifies `disk, `kernel, `dirty
      ensures Valid() && Logical() == old(Logical()) && |disk| == |old(disk)|
      ensures res in {0, -1}
      ensures res == 0 ==> !dirty && disk == Logical()
      ensures res == -1 ==> dirty
      ensures Remains(old(kernel), kernel)
      ensures NeverFailsWriting(old(kernel)) ==> res == 0
    {
      res := WriteBack();
      if res == 0 {
        dirty := false;
        CleanShowsDisk();
      }
    }

    // io61_pfill: bring the slot that holds `off` into the cache.
    method Pfill(off: nat) returns (res: int)
      requires Valid() && off <= |disk|
      modifies this, cbuf
      ensures Valid() && Logical() == old(Logical())
      ensures res == 0 || res == -1
      ensures res == 0 ==> Cached(off) && endTag == SlotEnd(off, |disk|)
      ensures NeverFails(old(kernel)) ==> res == 0 && NeverFails(kernel)
    {
      hide Overlay, Remains;
      AllRemains(kernel);
      if dirty {
        var r := FlushDirtyPositioned();
        RestNeverFails(old(kernel), kernel);
        if r == -1 { return -1; }
      }
      if kernel != [] {
        var answer := kernel[0];
        kernel := kernel[1..];
        if !answer.Did? { return -1; }
      }
      CleanShowsDisk();
      SysPread(SlotStart(off));
      res := 0;
    }

    lemma CleanShowsDisk()
      requires Valid() && !dirty
      ensures Logical() == disk
    {
    }

    // pread(fd, cbuf, SLOT, start), then the new tags.
    method SysPread(start: nat)
      requires Valid() && !dirty && start % SLOT == 0 && start <= |disk|
      modifies `tag, `endTag, `positioned, cbuf
      ensures Valid() && positioned && tag == start && endTag == Least(start + SLOT, |disk|)
      ensures Logical() == disk
    {
      var nr := Least(SLOT, |disk| - start);
      forall i | 0 <= i < nr {
        cbuf[i] := disk[start + i];
      }
      tag, endTag, positioned := start, start + nr, true;
      assert cbuf[..nr] == disk[tag..endTag];
    }

    // memcpy between the slot and the caller's buffer.
    method CopyOut(buf: array<Byte>, n: nat, off: nat)
      requires Valid() && Cached(off) && buf != cbuf && n <= buf.Length && off + n <= endTag
      modifies buf
      ensures buf[..] == Logical()[off..off + n] + old(buf[n..])
    {
      hide Overlay;
      ghost var was, from := buf[..], cbuf[off - tag..off - tag + n];
      ArrayPart(cbuf, endTag - tag, off - tag, n);
      OverlaidPart(disk, tag, cbuf[..endTag - tag], off, n);
      forall i | 0 <= i < n {
        buf[i] := cbuf[off - tag + i];
      }
      FrontReplaced(was, from, buf[..]);
    }

    method CopyIn(buf: array<Byte>, from: nat, n: nat, off: nat)
      requires Valid() && Cached(off) && buf != cbuf && from + n <= buf.Length && off + n <= endTag
      modifies cbuf, `dirty
      ensures Valid()
      ensures Logical() == Overlay(old(Logical()), off, buf[from..from + n])
    {
      ghost var slot := cbuf[..endTag - tag];
      forall i | 0 <= i < n {
        cbuf[off - tag + i] := buf[from + i];
      }
      dirty := true;
      assert cbuf[..endTag - tag] == Overlay(slot, off - tag, buf[from..from + n]);
      OverlayInside(disk, tag, slot, off - tag, buf[from..from + n]);
    }

    // io61_pread up to the end of the file, where there is nothing to read.
    method Pread(buf: array<Byte>, sz: nat, off: nat) returns (n: int)
      requires Valid() && off <= |disk| && buf != cbuf && sz <= buf.Length
      modifies this, cbuf, buf
      ensures Valid() && Logical() == old(Logical())
      ensures n == -1 || n == Least(sz, SlotEnd(off, |Logical()|) - off)
                      == Least(sz, Least(8192 * (off / 8192) + 8192, |Logical()|) - off)
      ensures n >= 0 ==> buf[..] == Logical()[off..off + n] + old(buf[n..])
      ensures n == -1 ==> buf[..] == old(buf[..])
      ensures NeverFails(old(kernel)) ==> n >= 0 && NeverFails(kernel)
    {
      if !positioned || off < tag || off >= endTag {
        var r := Pfill(off);
        if r == -1 { return -1; }
      } else {
        SlotUnique(tag, off);
      }
      SlotEndSays(off, |disk|);
      var ncopy := Least(sz, endTag - off);
      CopyOut(buf, ncopy, off);
      n := ncopy;
    }

    // io61_pwrite up to the end of the file: only the target bytes change.
    method Pwrite(buf: array<Byte>, from: nat, sz: nat, off: nat) returns (n: int)
      requires Valid() && off <= |disk| && buf != cbuf && from + sz <= buf.Length
      modifies this, cbuf
      ensures Valid()
      ensures n == -1 || n == Least(sz, SlotEnd(off, |old(Logical())|) - off)
                      == Least(sz, Least(8192 * (off / 8192) + 8192, |Logical()|) - off)
      ensures n >= 0 ==> Replaced(old(Logical()), Logical(), off, buf[from..from + n])
      ensures n >= 0 ==> Logical() == Overlay(old(Logical()), off, buf[from..from + n])
      ensures n == -1 ==> Logical() == old(Logical())
      ensures NeverFails(old(kernel)) ==> n >= 0 && NeverFails(kernel)
    {
      if !positioned || off < tag || off >= endTag {
        var r := Pfill(off);
        if r == -1 { return -1; }
      } else {
        SlotUnique(tag, off);
      }
      SlotEndSays(off, |disk|);
      var ncopy := Least(sz, endTag - off);
      CopyIn(buf, from, ncopy, off);
      OverlayReplaces(old(Logical()), off, buf[from..from + ncopy]);
      n := ncopy;
    }
  }

  // An offset lies in one slot only.
  lemma SlotUnique(tag: nat, off: nat)
    requires tag % SLOT == 0 && tag <= off < tag + SLOT
    ensures SlotStart(off) == tag
  {
  }
}
