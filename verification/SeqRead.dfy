// The cached and memory-mapped sequential reader, and that it returns the
// bytes the unbuffered reader returns.

module SeqRead {
  import opened Basics
  import opened PosCache
  import opened OpenFile
  import opened SlowIo

  datatype Mapping = Untried | NoMap | Mapped

  class Reader {
    const fd: Fd
    const cbuf: array<Byte>
    // what mmap will say, and the file's size
    const mappable: bool
    const size: nat
    var tag: nat
    var posTag: nat
    var endTag: nat
    var map_: Mapping

    ghost predicate Valid()
      reads this, fd, cbuf
    {
      && cbuf.Length == SLOT && tag <= posTag <= endTag
      && (mappable ==> fd.seekable && size == |fd.data| && posTag <= size)
      && match map_
         case Untried => tag == endTag == fd.pos
         case NoMap => !mappable && CacheOk()
         case Mapped => mappable && tag == 0 && endTag == size
    }

    // The cache holds the bytes just before the kernel's position.
    ghost predicate CacheOk()
      reads `tag, `endTag, fd, cbuf
    {
      && cbuf.Length == SLOT && tag <= endTag <= tag + SLOT && fd.pos == endTag
      && (tag < endTag ==> endTag <= |fd.data| && cbuf[..endTag - tag] == fd.data[tag..endTag])
    }

    function View(): Stream
      reads this, fd
    {
      Stream(fd.data, posTag)
    }

    predicate Window(off: int)
      reads this
    {
      tag <= off < endTag
    }

    constructor (f: Fd, canMap: bool)
      requires f.seekable || f.pos == 0
      requires canMap ==> f.seekable && f.pos <= |f.data|
      ensures Valid() && Stale() && fd == f && fresh(cbuf) && View() == f.State() && mappable == canMap
    {
      fd, mappable, size := f, canMap, |f.data|;
      cbuf := new Byte[SLOT](_ => 0);
      tag, posTag, endTag := f.pos, f.pos, f.pos;
      map_ := Untried;
    }

    // Nobody has cleared errno since mmap failed.
    predicate Stale()
      reads this, fd
    {
      map_ == NoMap ==> fd.errno != 0
    }

    // mmap at the first access
    method TryMap()
      requires Valid()
      modifies `map_, `tag, `endTag, fd`errno
      ensures Valid() && map_ == if mappable then Mapped else NoMap
      ensures old(Stale()) ==> Stale()
      ensures old(map_) == NoMap ==> fd.errno == old(fd.errno)
    {
      if map_ == Untried {
        if mappable {
          map_, tag, endTag := Mapped, 0, size;
        } else {
          map_ := NoMap;
          fd.errno := ENODEV;
        }
      }
    }

    // io61_fill: interrupted reads are tried again.
    method Fill() returns (res: int)
      requires Valid() && map_ == NoMap && posTag == endTag
      modifies `tag, `endTag, `posTag, cbuf, fd`pos, fd`answers, fd`errno
      ensures Valid() && posTag == old(posTag) && (res == 0 || res == -1)
      ensures old(fd.errno) != 0 ==> fd.errno != 0
      ensures endTag == posTag ==> res == -1 || posTag >= |fd.data|
      ensures NoFailure(old(fd.answers)) ==> res == 0 && NoFailure(fd.answers)
    {
      hide Get;
      tag, posTag := endTag, endTag;
      while true
        invariant fd.pos == endTag && tag == posTag == endTag == old(endTag)
        invariant old(fd.errno) != 0 ==> fd.errno != 0
        invariant NoFailure(old(fd.answers)) ==> NoFailure(fd.answers)
        decreases |fd.answers|
      {
        var nr, again := SysRead();
        if nr >= 0 {
          endTag := endTag + nr;
          return 0;
        }
        if !again {
          return -1;
        }
      }
    }

    // read(fd, cbuf, SLOT)
    method SysRead() returns (nr: int, again: bool)
      requires cbuf.Length == SLOT
      modifies cbuf, fd`pos, fd`answers, fd`errno
      ensures old(fd.errno) != 0 ==> fd.errno != 0
      ensures -1 <= nr <= SLOT && fd.pos == old(fd.pos) + if nr == -1 then 0 else nr
      ensures nr > 0 ==> fd.pos <= |fd.data| && cbuf[..nr] == fd.data[old(fd.pos)..fd.pos]
      ensures nr == 0 ==> fd.pos >= |fd.data|
      ensures fd.answers == if old(fd.answers) == [] then [] else old(fd.answers)[1..]
      ensures old(fd.answers) == [] ==> nr >= 0
      ensures nr == -1 && !again ==> old(fd.answers) != [] && old(fd.answers)[0].Failed?
    {
      hide Get;
      ghost var s := fd.State();
      var bytes;
      nr, again, bytes := fd.Read(SLOT);
      if nr >= 0 {
        Whole(s, nr);
        forall i | 0 <= i < nr {
          cbuf[i] := bytes[i];
        }
        forall i | 0 <= i < nr
          ensures cbuf[..nr][i] == bytes[i]
        {
        }
        assert cbuf[..nr] == bytes;
        assert nr > 0 ==> fd.data[old(fd.pos)..fd.pos] == bytes;
      }
    }

    method ReadC() returns (ch: int)
      requires Valid()
      modifies this, cbuf, fd`pos, fd`answers, fd`errno
      ensures Valid() && -1 <= ch < 256
      ensures View() == if ch == -1 then old(View()) else old(View()).(pos := old(View()).pos + 1)
      ensures ch != -1 ==> Get(old(View()), 1) == [ch]
      ensures NoFailure(old(fd.answers)) ==> NoFailure(fd.answers) && (ch == -1 <==> Get(old(View()), 1) == [])
      ensures old(Stale()) ==> Stale()
    {
      hide CacheOk, Get, NoFailure;
      GetOne(View());
      TryMap();
      if map_ == NoMap {
        if posTag == endTag {
          var r := Fill();
          if r < 0 || posTag == endTag { return -1; }
        }
        CacheByte();
        ch := cbuf[posTag - tag];
        posTag := posTag + 1;
      } else if posTag < endTag {
        posTag := posTag + 1;
        ch := fd.data[posTag - 1];
      } else {
        ch := -1;
      }
    }

    lemma CacheByte()
      requires Valid() && map_ == NoMap && posTag < endTag
      ensures posTag < |fd.data| && posTag - tag < cbuf.Length && cbuf[posTag - tag] == fd.data[posTag]
    {
      assert cbuf[..endTag - tag][posTag - tag] == fd.data[tag..endTag][posTag - tag];
    }

    // io61_read_cache: slot by slot, to the end of the file or of the request.
    // Nobody clears errno here, so an old error turns the end of the file,
    // which should give 0, into -1.
    method ReadCache(buf: array<Byte>, sz: nat) returns (res: int)
      requires Valid() && map_ == NoMap && sz <= buf.Length && buf != cbuf
      modifies `tag, `endTag, `posTag, cbuf, buf, fd`pos, fd`answers, fd`errno
      ensures Valid() && -1 <= res <= sz && View() == old(View()).(pos := old(View()).pos + Got(res))
      ensures |Get(old(View()), Got(res))| == Got(res)
      ensures buf[..] == Patched(old(buf[..]), 0, Get(old(View()), Got(res)))
      ensures res == ReadCode(Got(res), sz, fd.errno) && (old(fd.errno) != 0 ==> fd.errno != 0)
      ensures NoFailure(old(fd.answers)) ==> NoFailure(fd.answers) && Got(res) == |Get(old(View()), sz)|
    {
      hide Get, Valid, CacheOk, Patched;
      ghost var v, was := View(), buf[..];
      var nread := 0;
      GetNone(v);
      PatchedFront(was, []);
      while nread < sz
        invariant Valid() && map_ == NoMap && nread <= sz && View() == v.(pos := v.pos + nread)
        invariant |Get(v, nread)| == nread && buf[..] == Patched(was, 0, Get(v, nread))
        invariant NoFailure(old(fd.answers)) ==> NoFailure(fd.answers)
        invariant old(fd.errno) != 0 ==> fd.errno != 0
        decreases sz - nread
      {
        if posTag == endTag {
          var r := Fill();
          if r == -1 || posTag == endTag {
            AtEnd(v, nread, sz);
            break;
          }
        }
        ghost var now := View();
        var n := CopyOut(buf, nread, sz - nread);
        GetGet(v, nread, n);
        PatchedTwice(was, Get(v, nread), Get(now, n));
        nread := nread + n;
      }
      res := ReadCode(nread, sz, fd.errno);
    }

    // memcpy of what the cache has, up to `most` bytes
    method CopyOut(buf: array<Byte>, at: nat, most: nat) returns (n: nat)
      requires Valid() && map_ == NoMap && posTag != endTag && buf != cbuf && at + most <= buf.Length && most > 0
      modifies buf, `posTag
      ensures Valid() && 0 < n <= most && |Get(old(View()), n)| == n
      ensures View() == old(View()).(pos := old(View()).pos + n)
      ensures buf[..] == Patched(old(buf[..]), at, Get(old(View()), n))
    {
      hide CacheOk, Get, Patched;
      n := Least(endTag - posTag, most);
      CacheSlice(n);
      Whole(View(), n);
      ghost var from, was := cbuf[posTag - tag..posTag - tag + n], buf[..];
      forall i | 0 <= i < n {
        buf[at + i] := cbuf[posTag - tag + i];
      }
      PatchedOnce(was, at, from, buf[..]);
      posTag := posTag + n;
    }

    lemma CacheSlice(n: nat)
      requires Valid() && map_ == NoMap && posTag + n <= endTag && n > 0
      ensures posTag + n <= |fd.data| && posTag - tag + n <= cbuf.Length
      ensures cbuf[posTag - tag..posTag - tag + n] == fd.data[posTag..posTag + n]
    {
      var at := posTag - tag;
      ArrayPart(cbuf, endTag - tag, at, n);
      PartOfPart(fd.data, tag, endTag, at, n);
    }

    method Read(buf: array<Byte>, sz: nat) returns (res: int)
      requires Valid() && sz <= buf.Length && buf != cbuf
      modifies this, cbuf, buf, fd`pos, fd`answers, fd`errno
      ensures Valid() && -1 <= res <= sz && View() == old(View()).(pos := old(View()).pos + Got(res))
      ensures |Get(old(View()), Got(res))| == Got(res)
      ensures buf[..] == Patched(old(buf[..]), 0, Get(old(View()), Got(res)))
      ensures res == if map_ == NoMap then ReadCode(Got(res), sz, fd.errno) else Got(res)
      ensures map_ == (if mappable then Mapped else NoMap) && (old(Stale()) ==> Stale())
      ensures NoFailure(old(fd.answers)) ==> NoFailure(fd.answers) && Got(res) == |Get(old(View()), sz)|
    {
      hide CacheOk, Get, Patched;
      TryMap();
      if map_ == NoMap {
        res := ReadCache(buf, sz);
        return;
      }
      var nread := Least(sz, size - posTag);
      MappedBytes(View(), nread, sz);
      CopyMapped(buf, nread);
      posTag := posTag + nread;
      res := nread;
    }

    // memcpy out of the mapping
    method CopyMapped(buf: array<Byte>, n: nat)
      requires posTag + n <= |fd.data| && n <= buf.Length && buf != cbuf
      modifies buf
      ensures buf[..] == Patched(old(buf[..]), 0, fd.data[posTag..posTag + n])
    {
      hide Patched;
      ghost var from, was := fd.data[posTag..posTag + n], buf[..];
      forall i | 0 <= i < n {
        buf[i] := fd.data[posTag + i];
      }
      PatchedOnce(was, 0, from, buf[..]);
    }

    // Inside the window only the position moves; outside, the kernel's too.
    method Seek(off: int) returns (res: int)
      requires Valid() && (mappable ==> off <= size)
      modifies this, fd`pos, fd`errno
      ensures Valid() && fd.answers == old(fd.answers)
      ensures res == if old(Window(off)) || (fd.seekable && off >= 0) then 0 else -1
      ensures View() == if res == 0 then old(View()).(pos := off) else old(View())
      ensures old(Stale()) ==> Stale()
    {
      if tag <= off && endTag > off {
        posTag := off;
        return 0;
      }
      var ok := fd.Lseek(off);
      if !ok { return -1; }
      posTag := off;
      if map_ == Untried {
        if mappable {
          map_, tag, endTag := Mapped, 0, size;
        } else {
          map_ := NoMap;
          fd.errno := ENODEV;
        }
      }
      if map_ == NoMap {
        tag, endTag := off, off;
      }
      res := 0;
    }
  }

  lemma AtEnd(v: Stream, n: nat, sz: nat)
    requires |Get(v, n)| == n <= sz
    ensures v.pos + n >= |v.data| ==> |Get(v, sz)| == n
  {
  }

  // What a mapped file has from there on.
  lemma MappedBytes(s: Stream, n: nat, sz: nat)
    requires s.pos <= |s.data| && n == Least(sz, |s.data| - s.pos)
    ensures Get(s, n) == Get(s, sz) == s.data[s.pos..s.pos + n]
  {
  }

  lemma Whole(s: Stream, n: nat)
    ensures n > 0 && (|Get(s, n)| == n || s.pos + n <= |s.data|) ==>
              s.pos + n <= |s.data| && Get(s, n) == s.data[s.pos..s.pos + n]
  {
  }

  // ---- Whole runs ----

  datatype Op = TakeC | Take(n: nat) | SeekTo(off: int)

  datatype Reply = Code(code: int) | Bytes(code: int, bytes: seq<Byte>)

  // `eof` is the code of a read that finds no byte.
  function Says(s: Stream, op: Op, eof: int): Reply {
    match op
    case TakeC => Code(if s.pos < |s.data| then s.data[s.pos] else -1)
    case Take(n) =>
      var bytes := Get(s, n);
      Bytes(if n > 0 && bytes == [] then eof else |bytes|, bytes)
    case SeekTo(off) => Code(if off >= 0 then 0 else -1)
  }

  function Does(s: Stream, op: Op): Stream {
    match op
    case TakeC => s.(pos := s.pos + |Get(s, 1)|)
    case Take(n) => s.(pos := s.pos + |Get(s, n)|)
    case SeekTo(off) => if off >= 0 then s.(pos := off) else s
  }

  function RunDoes(s: Stream, ops: seq<Op>): (r: Stream)
    ensures r.data == s.data
    decreases |ops|
  {
    if ops == [] then s else Does(RunDoes(s, ops[..|ops| - 1]), ops[|ops| - 1])
  }

  function RunSays(s: Stream, ops: seq<Op>, eof: int): seq<Reply> {
    seq(|ops|, i requires 0 <= i < |ops| => Says(RunDoes(s, ops[..i]), ops[i], eof))
  }

  lemma RunNone(s: Stream, eof: int)
    ensures RunDoes(s, []) == s && RunSays(s, [], eof) == []
    ensures NoFailure([])
  {
  }

  lemma RunStep(s: Stream, ops: seq<Op>, i: nat, eof: int)
    requires i < |ops|
    ensures RunDoes(s, ops[..i + 1]) == Does(RunDoes(s, ops[..i]), ops[i])
    ensures RunSays(s, ops[..i + 1], eof) == RunSays(s, ops[..i], eof) + [Says(RunDoes(s, ops[..i]), ops[i], eof)]
  {
    hide Says, Does;
    assert ops[..i + 1][..i] == ops[..i];
    var all, most := RunSays(s, ops[..i + 1], eof), RunSays(s, ops[..i], eof);
    forall j: nat | j < i
      ensures all[j] == most[j]
    {
      assert ops[..i + 1][..j] == ops[..j] == ops[..i][..j];
    }
  }

  // Call i asks for bytes where there are none.
  predicate ReadsAtEnd(s: Stream, ops: seq<Op>, i: nat)
    requires i < |ops|
  {
    ops[i].Take? && ops[i].n > 0 && Get(RunDoes(s, ops[..i]), ops[i].n) == []
  }

  // The answers agree if and only if no read is made at the end of the file;
  // where they differ it is in the code of such a read only.
  lemma SameReplies(s: Stream, ops: seq<Op>, eof: int, eof': int)
    requires eof != eof'
    ensures RunSays(s, ops, eof) == RunSays(s, ops, eof') <==> forall i: nat | i < |ops| :: !ReadsAtEnd(s, ops, i)
    ensures forall i: nat | i < |ops| && ReadsAtEnd(s, ops, i) ::
              RunSays(s, ops, eof)[i] == Bytes(eof, []) && RunSays(s, ops, eof')[i] == Bytes(eof', [])
    ensures forall i: nat | i < |ops| && !ReadsAtEnd(s, ops, i) :: RunSays(s, ops, eof)[i] == RunSays(s, ops, eof')[i]
  {
    hide RunDoes, Get;
    var a, b := RunSays(s, ops, eof), RunSays(s, ops, eof');
    forall i: nat | i < |ops|
      ensures a[i] == b[i] <==> !ReadsAtEnd(s, ops, i)
    {
    }
    if forall i: nat | i < |ops| :: !ReadsAtEnd(s, ops, i) {
      assert a == b;
    }
  }

  // One byte asked of an empty pipe.
  lemma EmptyPipe()
    ensures ReadsAtEnd(Stream([], 0), [Take(1)], 0)
    ensures RunSays(Stream([], 0), [Take(1)], 0) == [Bytes(0, [])]
    ensures RunSays(Stream([], 0), [Take(1)], -1) == [Bytes(-1, [])]
  {
    var ops := [Take(1)];
    assert ops[..0] == [];
    SameReplies(Stream([], 0), ops, 0, -1);
  }

  // Seeks stay in the file when it is mapped, and need a file that can seek.
  predicate Allowed(size: nat, canSeek: bool, canMap: bool, op: Op) {
    op.SeekTo? ==> canSeek && (canMap ==> op.off <= size)
  }

  // A file that is not mapped answers -1 at its end.
  function FastEof(canMap: bool): int { if canMap then 0 else -1 }

  method FastOp(r: Reader, op: Op) returns (says: Reply)
    requires r.Valid() && r.Stale() && NoFailure(r.fd.answers) && Allowed(|r.fd.data|, r.fd.seekable, r.mappable, op)
    modifies r, r.cbuf, r.fd`pos, r.fd`answers, r.fd`errno
    ensures r.Valid() && r.Stale() && NoFailure(r.fd.answers)
    ensures says == Says(old(r.View()), op, FastEof(r.mappable)) && r.View() == Does(old(r.View()), op)
  {
    hide Get, Patched;
    GetOne(r.View());
    match op {
      case TakeC =>
        var ch := r.ReadC();
        says := Code(ch);
      case Take(n) =>
        var buf := new Byte[n](_ => 0);
        ghost var was := buf[..];
        var res := r.Read(buf, n);
        PatchedFront(was, Get(old(r.View()), Got(res)));
        GetSame(old(r.View()), n);
        says := Bytes(res, buf[..Got(res)]);
      case SeekTo(off) =>
        var res := r.Seek(off);
        says := Code(res);
    }
  }

  lemma GetSame(s: Stream, n: nat)
    ensures |Get(s, |Get(s, n)|)| == |Get(s, n)| && Get(s, |Get(s, n)|) == Get(s, n)
  {
  }

  method SlowOp(f: SlowFile, op: Op) returns (says: Reply)
    requires f.fd.answers == [] && Allowed(|f.fd.data|, f.fd.seekable, false, op)
    modifies f.fd
    ensures f.fd.answers == []
    ensures says == Says(old(f.fd.State()), op, 0) && f.fd.State() == Does(old(f.fd.State()), op)
  {
    hide Get, Patched;
    GetOne(f.fd.State());
    match op {
      case TakeC =>
        var ch := f.ReadC();
        says := Code(ch);
      case Take(n) =>
        var buf := new Byte[n](_ => 0);
        ghost var was := buf[..];
        var res := f.Read(buf, n);
        PatchedFront(was, Get(old(f.fd.State()), Got(res)));
        GetSame(old(f.fd.State()), n);
        says := Bytes(res, buf[..Got(res)]);
      case SeekTo(off) =>
        var res := f.Seek(off);
        says := Code(res);
    }
  }

  // The same calls return the same bytes, whatever short and interrupted reads
  // the fast reader meets, and whether or not the file can be mapped. The codes
  // are the same but for reads at the end of a file that cannot be mapped.
  method SameBytes(data: seq<Byte>, pos: nat, canSeek: bool, canMap: bool, ops: seq<Op>, kernel: seq<Answer>)
    returns (fastSays: seq<Reply>, slowSays: seq<Reply>)
    requires NoFailure(kernel) && (canSeek || pos == 0) && (canMap ==> canSeek && pos <= |data|)
    requires forall op | op in ops :: Allowed(|data|, canSeek, canMap, op)
    ensures slowSays == RunSays(Stream(data, pos), ops, 0) && fastSays == RunSays(Stream(data, pos), ops, FastEof(canMap))
    ensures fastSays == slowSays <==> canMap || forall i: nat | i < |ops| :: !ReadsAtEnd(Stream(data, pos), ops, i)
    ensures forall i: nat | i < |ops| :: fastSays[i] == slowSays[i]
              || (ReadsAtEnd(Stream(data, pos), ops, i) && fastSays[i] == Bytes(-1, []) && slowSays[i] == Bytes(0, []))
  {
    hide RunDoes, RunSays, Says, Does, Get, NoFailure, ReadsAtEnd, Reader.Valid, Reader.Stale;
    ghost var s := Stream(data, pos);
    RunNone(s, 0);
    RunNone(s, FastEof(canMap));
    var fd := new Fd(data, pos, canSeek, kernel);
    var fd' := new Fd(data, pos, canSeek, []);
    var r := new Reader(fd, canMap);
    var f := new SlowFile(fd');
    fastSays, slowSays := [], [];
    for i := 0 to |ops|
      invariant r.fd == fd && f.fd == fd' && fd != fd' && fd.seekable == fd'.seekable == canSeek && r.mappable == canMap
      invariant fresh(r) && fresh(fd) && fresh(fd') && fresh(r.cbuf)
      invariant r.Valid() && r.Stale() && NoFailure(fd.answers) && fd'.answers == []
      invariant r.View() == fd'.State() == RunDoes(s, ops[..i])
      invariant fastSays == RunSays(s, ops[..i], FastEof(canMap)) && slowSays == RunSays(s, ops[..i], 0)
    {
      RunStep(s, ops, i, 0);
      RunStep(s, ops, i, FastEof(canMap));
      assert ops[i] in ops;
      var a := FastOp(r, ops[i]);
      var b := SlowOp(f, ops[i]);
      fastSays, slowSays := fastSays + [a], slowSays + [b];
    }
    assert ops[..|ops|] == ops;
    SameReplies(s, ops, 0, -1);
    RunLength(s, ops);
  }

  lemma RunLength(s: Stream, ops: seq<Op>)
    ensures forall eof: int :: |RunSays(s, ops, eof)| == |ops|
  {
  }
}
