// The buffered sequential writer, and that it leaves the file the unbuffered
// writer leaves.

module SeqWrite {
  import opened Basics
  import opened PosCache
  import opened OpenFile
  import opened SlowIo

  class Writer {
    const fd: Fd
    const cbuf: array<Byte>
    var tag: nat
    var posTag: nat
    var endTag: nat
    var dirty: bool

    ghost predicate Sound()
      reads this
    {
      && cbuf.Length == SLOT && tag <= posTag == endTag <= tag + SLOT
      && (!dirty ==> tag == endTag)
    }

    // The kernel's position is that of the first pending byte.
    ghost predicate Valid()
      reads this, fd
    {
      Sound() && fd.pos == tag
    }

    ghost function Pending(): seq<Byte>
      reads this, cbuf
      requires Sound()
    {
      cbuf[..endTag - tag]
    }

    // The file as it will be once flushed.
    ghost function View(): Stream
      reads this, cbuf, fd
      requires Sound()
    {
      Put(fd.State(), Pending())
    }

    constructor (f: Fd)
      requires f.seekable || f.pos == 0
      ensures Valid() && fd == f && fresh(cbuf) && View() == f.State()
    {
      fd := f;
      cbuf := new Byte[SLOT](_ => 0);
      tag, posTag, endTag := f.pos, f.pos, f.pos;
      dirty := false;
    }

    // The file is `s` with the first `moved` pending bytes written: what a
    // flush that failed half-way leaves.
    ghost predicate Halfway(s: Stream, moved: nat)
      reads this, cbuf, fd
      requires Sound()
    {
      moved <= |Pending()| && fd.State() == Put(s, Pending()[..moved])
    }

    // The write-back loop, through short, interrupted and failing writes. It
    // starts at the first pending byte, wherever the kernel's position is.
    method FlushDirty() returns (res: int, ghost moved: nat)
      requires Sound() && dirty
      modifies this, fd
      ensures Sound() && (res == 0 || res == -1)
      ensures res == 0 ==> !dirty && View() == fd.State() == old(View()) && (old(Valid()) ==> Valid())
      ensures res == -1 ==> dirty && tag == old(tag) && Pending() == old(Pending()) && Halfway(old(fd.State()), moved)
      ensures res == -1 && old(Valid()) ==> (Valid() <==> moved == 0)
      ensures NoFailure(old(fd.answers)) ==> res == 0 && NoFailure(fd.answers)
    {
      hide Put;
      ghost var s, pending := fd.State(), Pending();
      assert pending[..0] == [];
      var flushTag := tag;
      while flushTag != endTag
        invariant Sound() && dirty && tag == old(tag) && endTag == old(endTag) && Pending() == pending
        invariant tag <= flushTag <= endTag
        invariant fd.State() == Put(s, pending[..flushTag - tag])
        invariant NoFailure(old(fd.answers)) ==> NoFailure(fd.answers)
        decreases |fd.answers|, endTag - flushTag
      {
        var done := flushTag - tag;
        var rest := cbuf[done..endTag - tag];
        assert rest == pending[done..];
        var nw, again := fd.Write(rest);
        if nw >= 0 {
          Advance(s, pending, done, nw);
          assert rest[..nw] == pending[done..done + nw];
          flushTag := flushTag + nw;
        } else if !again {
          return -1, done;
        }
      }
      assert pending[..endTag - tag] == pending;
      dirty := false;
      tag, posTag := endTag, endTag;
      assert Pending() == [];
      res, moved := 0, |pending|;
    }

    method FlushClean() returns (res: int)
      requires Sound() && !dirty
      modifies this, fd
      ensures res == 0 && Sound() && !dirty && View() == fd.State() && fd.data == old(fd.data)
      ensures old(Valid()) ==> View() == old(View())
      ensures if fd.seekable then Valid() && fd.pos == old(posTag) else tag == old(tag) && fd.pos == old(fd.pos)
      ensures fd.answers == old(fd.answers)
    {
      if fd.seekable {
        var ok := fd.Lseek(posTag);
        if !ok { return -1; }
        tag, endTag := posTag, posTag;
      }
      res := 0;
    }

    method Flush() returns (res: int, ghost moved: nat)
      requires Sound()
      modifies this, fd
      ensures Sound() && (res == 0 || res == -1)
      ensures res == 0 ==> !dirty && View() == fd.State() && fd.data == old(View()).data
      ensures res == 0 && (old(dirty) || old(Valid())) ==> View() == old(View())
      ensures res == 0 && old(Valid()) ==> Valid()
      ensures res == -1 ==> old(dirty) && dirty && tag == old(tag)
      ensures res == -1 ==> Pending() == old(Pending()) && Halfway(old(fd.State()), moved)
      ensures res == -1 && old(Valid()) ==> (Valid() <==> moved == 0)
      ensures NoFailure(old(fd.answers)) ==> res == 0 && NoFailure(fd.answers)
    {
      hide Put;
      if dirty {
        res, moved := FlushDirty();
      } else {
        res := FlushClean();
        moved := 0;
      }
    }

    // memcpy into the buffer
    method Append(bytes: seq<Byte>)
      requires Sound() && posTag - tag + |bytes| <= SLOT
      modifies this, cbuf
      ensures Sound() && View() == Put(old(View()), bytes) && (old(Valid()) ==> Valid())
      ensures tag == old(tag) && endTag == old(endTag) + |bytes|
    {
      hide Put;
      ghost var s, pending := fd.State(), Pending();
      var at := posTag - tag;
      forall i | 0 <= i < |bytes| {
        cbuf[at + i] := bytes[i];
      }
      posTag, endTag, dirty := posTag + |bytes|, endTag + |bytes|, true;
      assert cbuf[..at + |bytes|] == pending + bytes;
      PutPut(s, pending, bytes);
    }

    method WriteC(c: int) returns (res: int, ghost moved: nat)
      requires Sound()
      modifies this, fd, cbuf
      ensures Sound() && (res == 0 || res == -1)
      ensures res == 0 ==> View() == Put(old(View()), [c % 256]) && (old(Valid()) ==> Valid())
      ensures res == -1 ==> Pending() == old(Pending()) && Halfway(old(fd.State()), moved)
      ensures res == -1 && old(Valid()) ==> (Valid() <==> moved == 0)
      ensures NoFailure(old(fd.answers)) ==> res == 0 && NoFailure(fd.answers)
    {
      hide Put;
      moved := 0;
      if endTag == tag + SLOT {
        var r;
        r, moved := Flush();
        if r < 0 { return -1, moved; }
      }
      Append([c % 256]);
      res := 0;
    }

    // The bytes taken before a flush fails are pending or written; `s` is the
    // file that failing flush started from.
    method Write(buf: seq<Byte>) returns (res: int, ghost s: Stream, ghost moved: nat)
      requires Sound()
      modifies this, fd, cbuf
      ensures Sound() && (res == -1 || 0 <= res <= |buf|) && (res == -1 ==> buf != [])
      ensures res == |buf| ==> View() == Put(old(View()), buf) && (old(Valid()) ==> Valid())
      ensures res != |buf| ==> Put(s, Pending()) == Put(old(View()), buf[..if res == -1 then 0 else res])
      ensures res != |buf| ==> Halfway(s, moved) && (old(Valid()) ==> (Valid() <==> moved == 0))
      ensures NoFailure(old(fd.answers)) ==> res == |buf| && NoFailure(fd.answers)
    {
      hide Put;
      ghost var v := View();
      s, moved := fd.State(), 0;
      var nwritten := 0;
      assert buf[..0] == [];
      while nwritten < |buf|
        invariant nwritten <= |buf| && Sound() && View() == Put(v, buf[..nwritten])
        invariant old(Valid()) ==> Valid()
        invariant NoFailure(old(fd.answers)) ==> NoFailure(fd.answers)
      {
        if endTag == tag + SLOT {
          s := fd.State();
          var r;
          r, moved := Flush();
          if r == -1 { break; }
        }
        var n := Least(SLOT + tag - posTag, |buf| - nwritten);
        if n == 0 { break; }
        Advance(v, buf, nwritten, n);
        Append(buf[nwritten..nwritten + n]);
        nwritten := nwritten + n;
      }
      assert buf[..|buf|] == buf;
      res := if nwritten != 0 || |buf| == 0 then nwritten else -1;
    }

    method Seek(off: int) returns (res: int, ghost moved: nat)
      requires Sound()
      modifies this, fd
      ensures Sound() && (res == 0 || res == -1)
      ensures res == 0 ==> fd.seekable && off >= 0 && Valid() && View() == fd.State() == Stream(old(View()).data, off)
      ensures res == -1 ==> dirty || !fd.seekable || off < 0
      ensures res == -1 && !dirty ==> View() == fd.State() && fd.data == old(View()).data
      ensures res == -1 && !dirty && old(Valid()) ==> Valid() && View() == old(View())
      ensures res == -1 && dirty ==> Pending() == old(Pending()) && Halfway(old(fd.State()), moved)
      ensures res == -1 && dirty && old(Valid()) ==> (Valid() <==> moved == 0)
      ensures NoFailure(old(fd.answers)) ==> NoFailure(fd.answers) && !dirty
    {
      hide Put;
      var r;
      r, moved := Flush();
      if r < 0 { return -1, moved; }
      var ok := fd.Lseek(off);
      if !ok { return -1, 0; }
      posTag, tag, endTag := off, off, off;
      assert Pending() == [];
      res := 0;
    }
  }

  lemma Advance(s: Stream, bytes: seq<Byte>, done: nat, n: nat)
    requires done + n <= |bytes|
    ensures Put(Put(s, bytes[..done]), bytes[done..done + n]) == Put(s, bytes[..done + n])
  {
    PutPut(s, bytes[..done], bytes[done..done + n]);
    assert bytes[..done] + bytes[done..done + n] == bytes[..done + n];
  }

  // ---- Flushing again after a failure ----

  // The second flush starts from the first pending byte again, so the bytes
  // that had moved are there twice. That does no harm if and only if none had
  // moved, or the pending bytes repeat with that period and the file goes on
  // with them already.
  predicate RetryHarmless(s: Stream, pending: seq<Byte>, moved: nat)
    requires moved <= |pending|
  {
    var end := s.pos + |pending|;
    || moved == 0
    || (end + moved <= |s.data| && pending[moved..] == pending[..|pending| - moved]
        && s.data[end..end + moved] == pending[|pending| - moved..])
  }

  lemma RetryRightIff(s: Stream, pending: seq<Byte>, moved: nat)
    requires moved <= |pending|
    ensures Put(Put(s, pending[..moved]), pending).data == Put(s, pending).data <==> RetryHarmless(s, pending, moved)
    // at the end of the file it never is
    ensures s.pos + |pending| >= |s.data| ==> (RetryHarmless(s, pending, moved) <==> moved == 0)
    ensures Put(Put(s, pending[..moved]), pending).pos == Put(s, pending).pos + moved
  {
    var twice := pending[..moved] + pending;
    PutPut(s, pending[..moved], pending);
    if moved == 0 {
      assert twice == pending;
    } else {
      SplicedLonger(s.data, s.pos, pending, moved);
    }
  }

  // Writing `pending` twice, the first time only its first `moved` bytes.
  lemma SplicedLonger(file: seq<Byte>, at: nat, pending: seq<Byte>, moved: nat)
    requires 0 < moved <= |pending|
    ensures Splice(file, at, pending[..moved] + pending) == Splice(file, at, pending)
            <==> RetryHarmless(Stream(file, at), pending, moved)
  {
    hide Splice, RetryHarmless;
    if Splice(file, at, pending[..moved] + pending) == Splice(file, at, pending) {
      SameOnlyIfHarmless(file, at, pending, moved);
    }
    if RetryHarmless(Stream(file, at), pending, moved) {
      HarmlessSame(file, at, pending, moved);
    }
  }

  lemma SameOnlyIfHarmless(file: seq<Byte>, at: nat, pending: seq<Byte>, moved: nat)
    requires 0 < moved <= |pending|
    requires Splice(file, at, pending[..moved] + pending) == Splice(file, at, pending)
    ensures RetryHarmless(Stream(file, at), pending, moved)
  {
    var long, short := Splice(file, at, pending[..moved] + pending), Splice(file, at, pending);
    var n, end := |pending|, at + |pending|;
    SplicedAt(file, at, pending[..moved] + pending);
    SplicedAt(file, at, pending);
    hide Splice;
    assert end + moved <= |file|;
    var tail, head := pending[moved..], pending[..n - moved];
    forall i | 0 <= i < |tail|
      ensures tail[i] == head[i]
    {
      assert long[at + moved + i] == short[at + moved + i];
    }
    var next, last := file[end..end + moved], pending[n - moved..];
    forall i | 0 <= i < |next|
      ensures next[i] == last[i]
    {
      assert long[end + i] == short[end + i];
    }
    assert tail == head && next == last;
  }

  lemma SplicedAt(file: seq<Byte>, at: nat, data: seq<Byte>)
    ensures forall i | at <= i < at + |data| :: Splice(file, at, data)[i] == data[i - at]
    ensures forall i | at + |data| <= i < |file| :: Splice(file, at, data)[i] == file[i]
  {
  }

  lemma HarmlessSame(file: seq<Byte>, at: nat, pending: seq<Byte>, moved: nat)
    requires 0 < moved <= |pending| && RetryHarmless(Stream(file, at), pending, moved)
    ensures Splice(file, at, pending[..moved] + pending) == Splice(file, at, pending)
  {
    var long, short := Splice(file, at, pending[..moved] + pending), Splice(file, at, pending);
    var n, end := |pending|, at + |pending|;
    forall i | 0 <= i < |long|
      ensures long[i] == short[i]
    {
      if at + moved <= i < end {
        assert pending[moved..][i - at - moved] == pending[..n - moved][i - at - moved];
      } else if end <= i < end + moved {
        assert file[end..end + moved][i - end] == pending[n - moved..][i - end];
      }
    }
  }

  // One of two bytes written before the failure: it ends up there twice.
  lemma RetryDoubles()
    ensures Put(Put(Stream([], 0), [1, 2][..1]), [1, 2]).data == [1, 1, 2]
    ensures Put(Stream([], 0), [1, 2]).data == [1, 2]
  {
    assert [1, 2][..1] == [1];
  }

  // A flush that fails and the flush after it: what the first one moved stays
  // in the file, and the second one writes from the first pending byte again.
  method FlushTwice(w: Writer) returns (first: int, second: int, ghost moved: nat, ghost again: nat)
    requires w.Valid()
    modifies w, w.fd
    ensures w.Sound() && moved <= |old(w.Pending())| && again <= |old(w.Pending())|
    ensures first == 0 ==> w.fd.State() == old(w.View())
    ensures first == -1 ==>
              w.fd.State() == Put(Put(old(w.fd.State()), old(w.Pending())[..moved]), old(w.Pending())[..again])
    ensures first == -1 && second == 0 ==>
              && again == |old(w.Pending())|
              && (w.fd.data == old(w.View()).data <==> RetryHarmless(old(w.fd.State()), old(w.Pending()), moved))
  {
    hide Put, RetryHarmless;
    ghost var s, pending := w.fd.State(), w.Pending();
    first, moved := w.Flush();
    if first == 0 {
      second, moved, again := 0, 0, 0;
    } else {
      RetryRightIff(s, pending, moved);
      second, again := w.Flush();
      if second == 0 {
        again := |pending|;
        assert pending[..again] == pending;
      }
    }
  }

  // ---- Whole runs ----

  datatype Op = PutC(c: int) | PutAll(bytes: seq<Byte>) | SeekTo(off: int) | FlushAll

  function Says(canSeek: bool, op: Op): int {
    match op
    case PutC(_) => 0
    case PutAll(bytes) => |bytes|
    case SeekTo(off) => if canSeek && off >= 0 then 0 else -1
    case FlushAll => 0
  }

  function Does(s: Stream, canSeek: bool, op: Op): Stream {
    match op
    case PutC(c) => Put(s, [c % 256])
    case PutAll(bytes) => Put(s, bytes)
    case SeekTo(off) => if canSeek && off >= 0 then s.(pos := off) else s
    case FlushAll => s
  }

  function RunSays(canSeek: bool, ops: seq<Op>): seq<int> {
    seq(|ops|, i requires 0 <= i < |ops| => Says(canSeek, ops[i]))
  }

  function RunDoes(s: Stream, canSeek: bool, ops: seq<Op>): Stream
    decreases |ops|
  {
    if ops == [] then s else Does(RunDoes(s, canSeek, ops[..|ops| - 1]), canSeek, ops[|ops| - 1])
  }

  lemma RunNone(s: Stream, canSeek: bool)
    ensures RunDoes(s, canSeek, []) == s && RunSays(canSeek, []) == []
  {
  }

  lemma RunStep(s: Stream, canSeek: bool, ops: seq<Op>, i: nat)
    requires i < |ops|
    ensures RunDoes(s, canSeek, ops[..i + 1]) == Does(RunDoes(s, canSeek, ops[..i]), canSeek, ops[i])
    ensures RunSays(canSeek, ops[..i + 1]) == RunSays(canSeek, ops[..i]) + [Says(canSeek, ops[i])]
  {
    assert ops[..i + 1][..i] == ops[..i];
  }

  method FastOp(w: Writer, op: Op) returns (says: int)
    requires w.Valid() && NoFailure(w.fd.answers)
    modifies w, w.fd, w.cbuf
    ensures w.Valid() && NoFailure(w.fd.answers)
    ensures says == Says(w.fd.seekable, op) && w.View() == Does(old(w.View()), w.fd.seekable, op)
  {
    ghost var s, moved;
    match op {
      case PutC(c) => says, moved := w.WriteC(c);
      case PutAll(bytes) => says, s, moved := w.Write(bytes);
      case SeekTo(off) => says, moved := w.Seek(off);
      case FlushAll => says, moved := w.Flush();
    }
  }

  method SlowOp(f: SlowFile, op: Op) returns (says: int)
    requires f.fd.answers == []
    modifies f.fd
    ensures f.fd.answers == []
    ensures says == Says(f.fd.seekable, op) && f.fd.State() == Does(old(f.fd.State()), f.fd.seekable, op)
  {
    match op {
      case PutC(c) => says := f.WriteC(c);
      case PutAll(bytes) =>
        says := f.Write(bytes);
        assert bytes[..|bytes|] == bytes;
      case SeekTo(off) => says := f.Seek(off);
      case FlushAll => says := 0;
    }
  }

  // The same calls on both files give the same answers and, once flushed, the
  // same bytes, whatever short and interrupted writes the fast one meets.
  method SameFile(data: seq<Byte>, pos: nat, canSeek: bool, ops: seq<Op>, kernel: seq<Answer>)
    returns (fast: seq<Byte>, slow: seq<Byte>, fastSays: seq<int>, slowSays: seq<int>)
    requires NoFailure(kernel) && (canSeek || pos == 0)
    ensures fast == slow == RunDoes(Stream(data, pos), canSeek, ops).data
    ensures fastSays == slowSays == RunSays(canSeek, ops)
  {
    hide RunDoes, RunSays, Says, Does, Put, NoFailure;
    ghost var s := Stream(data, pos);
    RunNone(s, canSeek);
    var fd := new Fd(data, pos, canSeek, kernel);
    var fd' := new Fd(data, pos, canSeek, []);
    var w := new Writer(fd);
    var f := new SlowFile(fd');
    fastSays, slowSays := [], [];
    for i := 0 to |ops|
      invariant w.fd == fd && f.fd == fd' && fd != fd' && fd.seekable == fd'.seekable == canSeek
      invariant fresh(w) && fresh(fd) && fresh(fd') && fresh(w.cbuf)
      invariant w.Valid() && NoFailure(fd.answers) && fd'.answers == []
      invariant w.View() == fd'.State() == RunDoes(s, canSeek, ops[..i])
      invariant fastSays == slowSays == RunSays(canSeek, ops[..i])
    {
      RunStep(s, canSeek, ops, i);
      var a := FastOp(w, ops[i]);
      var b := SlowOp(f, ops[i]);
      fastSays, slowSays := fastSays + [a], slowSays + [b];
    }
    assert ops[..|ops|] == ops;
    var r, moved := w.Flush();
    fast, slow := fd.data, fd'.data;
  }
}
