// The unbuffered file: every byte is one system call.

module SlowIo {
  import opened Basics
  import opened PosCache
  import opened OpenFile

  class SlowFile {
    const fd: Fd

    constructor (f: Fd)
      ensures fd == f
    {
      fd := f;
    }

    method ReadC() returns (ch: int)
      modifies fd
      ensures fd.data == old(fd.data) && -1 <= ch < 256
      ensures fd.pos == old(fd.pos) + if ch == -1 then 0 else 1
      ensures ch != -1 ==> Get(old(fd.State()), 1) == [ch] && !CallFails(old(fd.answers))
      ensures ch == -1 ==> (fd.errno != 0 <==> CallFails(old(fd.answers)))
      ensures ch == -1 && fd.errno == 0 ==> Get(old(fd.State()), 1) == []
      ensures old(fd.answers) == [] ==> fd.answers == [] && (ch == -1 <==> Get(old(fd.State()), 1) == [])
    {
      var nr, _, bytes := fd.Read(1);
      if nr == 1 {
        ch := bytes[0];
      } else if nr == 0 {
        fd.errno := 0;
        ch := -1;
      } else {
        ch := -1;
      }
    }

    // The code is -1 exactly when the first call fails; at the end of the file
    // it is 0.
    method Read(buf: array<Byte>, sz: nat) returns (res: int)
      requires sz <= buf.Length
      modifies fd, buf
      ensures -1 <= res <= sz && (res == -1 <==> sz > 0 && CallFails(old(fd.answers)))
      ensures fd.data == old(fd.data) && fd.pos == old(fd.pos) + Got(res)
      ensures |Get(old(fd.State()), Got(res))| == Got(res)
      ensures buf[..] == Patched(old(buf[..]), 0, Get(old(fd.State()), Got(res)))
      ensures old(fd.answers) == [] ==> fd.answers == [] && res == |Get(old(fd.State()), sz)|
    {
      hide Get, Patched;
      ghost var s, was := fd.State(), buf[..];
      var nread := 0;
      GetNone(s);
      PatchedFront(was, []);
      while nread != sz
        invariant nread <= sz && fd.State() == s.(pos := s.pos + nread)
        invariant |Get(s, nread)| == nread && buf[..] == Patched(was, 0, Get(s, nread))
        invariant nread == 0 ==> fd.answers == old(fd.answers)
        invariant nread > 0 ==> !CallFails(old(fd.answers))
        invariant old(fd.answers) == [] ==> fd.answers == []
      {
        var ch := ReadC();
        if ch == -1 {
          GetEnds(s, nread, sz);
          break;
        }
        GetGet(s, nread, 1);
        StoreByte(buf, nread, ch);
        PatchedTwice(was, Get(s, nread), [ch]);
        nread := nread + 1;
      }
      res := ReadCode(nread, sz, fd.errno);
    }

    method StoreByte(buf: array<Byte>, at: nat, ch: Byte)
      requires at < buf.Length
      modifies buf
      ensures buf[..] == Patched(old(buf[..]), at, [ch])
    {
      buf[at] := ch;
    }

    // The byte is c converted to unsigned char.
    method WriteC(c: int) returns (res: int)
      modifies fd
      ensures res == if TakesOne(old(fd.answers)) then 0 else -1
      ensures fd.State() == if res == 0 then Put(old(fd.State()), [c % 256]) else old(fd.State())
      ensures fd.answers == Later(old(fd.answers))
    {
      var nw, _ := fd.Write([c % 256]);
      res := if nw == 1 then 0 else -1;
    }

    // Up to the first call that does not take its byte; -1 when that is the
    // first of all.
    method Write(buf: seq<Byte>) returns (res: int)
      modifies fd
      ensures res == (if buf != [] && !TakesOne(old(fd.answers)) then -1 else Taken(old(fd.answers), |buf|))
      ensures fd.State() == Put(old(fd.State()), buf[..Taken(old(fd.answers), |buf|)])
      ensures old(fd.answers) == [] ==> fd.answers == [] && res == |buf|
    {
      hide Put, TakesOne;
      ghost var s, k := fd.State(), Taken(fd.answers, |buf|);
      AllTaken(|buf|);
      var nwritten := 0;
      while nwritten != |buf|
        invariant nwritten <= |buf| && fd.State() == Put(s, buf[..nwritten])
        invariant k == nwritten + Taken(fd.answers, |buf| - nwritten)
        invariant nwritten == 0 ==> fd.answers == old(fd.answers)
        invariant nwritten > 0 ==> TakesOne(old(fd.answers))
        invariant old(fd.answers) == [] ==> fd.answers == []
      {
        AllTaken(1);
        var r := WriteC(buf[nwritten]);
        if r == -1 {
          break;
        }
        PutPut(s, buf[..nwritten], [buf[nwritten]]);
        assert buf[..nwritten] + [buf[nwritten]] == buf[..nwritten + 1];
        nwritten := nwritten + 1;
      }
      res := if nwritten != 0 || |buf| == 0 then nwritten else -1;
    }

    method Seek(off: int) returns (res: int)
      modifies fd
      ensures fd.data == old(fd.data) && fd.answers == old(fd.answers)
      ensures res == if fd.seekable && off >= 0 then 0 else -1
      ensures fd.pos == if res == 0 then off else old(fd.pos)
    {
      var ok := fd.Lseek(off);
      res := if ok then 0 else -1;
    }
  }

  // The next call takes the one byte it is given.
  predicate TakesOne(answers: seq<Answer>) { !CallFails(answers) && Moves(answers, 1) == 1 }

  function Later(answers: seq<Answer>): seq<Answer> { if answers == [] then [] else answers[1..] }

  // Of n one-byte calls, how many take theirs before one does not.
  function Taken(answers: seq<Answer>, n: nat): (k: nat)
    ensures k <= n
  {
    if n == 0 || !TakesOne(answers) then 0 else 1 + Taken(Later(answers), n - 1)
  }

  lemma {:induction false} AllTaken(n: nat)
    ensures TakesOne([]) && Taken([], n) == n
  {
    if n > 0 { AllTaken(n - 1); }
  }

  lemma GetNone(s: Stream)
    ensures Get(s, 0) == []
  {
  }

  // Nothing more to read after n bytes.
  lemma GetEnds(s: Stream, n: nat, sz: nat)
    requires n <= sz && |Get(s, n)| == n
    ensures Get(s.(pos := s.pos + n), 1) == [] ==> |Get(s, sz)| == n
  {
  }
}
