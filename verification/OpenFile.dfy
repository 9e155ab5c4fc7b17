// An open file as the kernel keeps it: bytes and one position, moved by read,
// write and lseek calls that may be short, be interrupted or fail.

module OpenFile {
  import opened Basics
  import opened PosCache

  datatype Stream = Stream(data: seq<Byte>, pos: nat)

  // `data` written over `file` from `at`, past its end if need be.
  function Splice(file: seq<Byte>, at: nat, data: seq<Byte>): (out: seq<Byte>)
    ensures |out| == if |file| < at + |data| then at + |data| else |file|
  {
    var n := if |file| < at + |data| then at + |data| else |file|;
    seq(n, i requires 0 <= i < n =>
      if at <= i < at + |data| then data[i - at] else if i < |file| then file[i] else 0)
  }

  // write(): a write of no bytes leaves the file alone.
  function Put(s: Stream, data: seq<Byte>): (r: Stream)
    ensures r.pos == s.pos + |data| && (data == [] ==> r == s)
  {
    if data == [] then s else Stream(Splice(s.data, s.pos, data), s.pos + |data|)
  }

  // What the next n bytes are, fewer at the end of the file.
  function Get(s: Stream, n: nat): (out: seq<Byte>)
    ensures |out| <= n
  {
    if s.pos >= |s.data| then [] else s.data[s.pos..Least(s.pos + n, |s.data|)]
  }

  // Written bytes are in their place, all others as before, and a gap before
  // them is zeros.
  lemma PutSays(s: Stream, data: seq<Byte>)
    requires data != []
    ensures var r := Put(s, data);
            && r.pos == s.pos + |data| && |r.data| == (if |s.data| < s.pos + |data| then s.pos + |data| else |s.data|)
            && (forall i: nat | s.pos <= i < s.pos + |data| :: r.data[i] == data[i - s.pos])
            && (forall i: nat | i < |s.data| && !(s.pos <= i < s.pos + |data|) :: r.data[i] == s.data[i])
            && (forall i: nat | |s.data| <= i < s.pos :: r.data[i] == 0)
  {
  }

  lemma GetSays(s: Stream, n: nat)
    ensures if s.pos + n <= |s.data| then |Get(s, n)| == n
            else |Get(s, n)| == if s.pos < |s.data| then |s.data| - s.pos else 0
    ensures forall i: nat | i < |Get(s, n)| :: Get(s, n)[i] == s.data[s.pos + i]
  {
  }

  lemma PutPut(s: Stream, a: seq<Byte>, b: seq<Byte>)
    ensures Put(Put(s, a), b) == Put(s, a + b)
  {
    if a != [] && b != [] {
      SpliceSplice(s.data, s.pos, a, b);
    } else {
      assert a + b == if a == [] then b else a;
    }
  }

  lemma SpliceSplice(file: seq<Byte>, at: nat, a: seq<Byte>, b: seq<Byte>)
    requires a != [] && b != []
    ensures Splice(Splice(file, at, a), at + |a|, b) == Splice(file, at, a + b)
  {
    var l, r := Splice(Splice(file, at, a), at + |a|, b), Splice(file, at, a + b);
    assert |l| == |r|;
    forall i: nat | i < |l|
      ensures l[i] == r[i]
    {
    }
  }

  lemma GetGet(s: Stream, m: nat, n: nat)
    requires |Get(s, m)| == m
    ensures Get(s, m + n) == Get(s, m) + Get(s.(pos := s.pos + m), n)
  {
  }

  lemma GetOne(s: Stream)
    ensures Get(s, 1) == if s.pos < |s.data| then [s.data[s.pos]] else []
  {
  }

  // Bytes just written are what a read from there returns.
  lemma PutGet(s: Stream, data: seq<Byte>)
    ensures Get(Put(s, data).(pos := s.pos), |data|) == data
  {
    if data != [] {
      var t := Put(s, data).(pos := s.pos);
      assert Get(t, |data|) == t.data[s.pos..s.pos + |data|];
    }
  }

  // A buffer after some bytes were stored into it.
  function Patched(was: seq<Byte>, at: nat, bytes: seq<Byte>): (now: seq<Byte>)
    requires at + |bytes| <= |was|
    ensures |now| == |was|
  {
    was[..at] + bytes + was[at + |bytes|..]
  }

  lemma PatchedOnce(was: seq<Byte>, at: nat, bytes: seq<Byte>, now: seq<Byte>)
    requires at + |bytes| <= |was| == |now|
    requires forall i | 0 <= i < |now| :: now[i] == if at <= i < at + |bytes| then bytes[i - at] else was[i]
    ensures now == Patched(was, at, bytes)
  {
  }

  lemma PatchedTwice(was: seq<Byte>, a: seq<Byte>, b: seq<Byte>)
    requires |a| + |b| <= |was|
    ensures Patched(Patched(was, 0, a), |a|, b) == Patched(was, 0, a + b)
  {
  }

  lemma PatchedFront(was: seq<Byte>, a: seq<Byte>)
    requires |a| <= |was|
    ensures Patched(was, 0, a) == a + was[|a|..]
    ensures Patched(was, 0, []) == was
    ensures Patched(was, 0, a)[..|a|] == a
  {
  }

  // Calls may be short or interrupted, but none fails for good.
  predicate NoFailure(answers: seq<Answer>) {
    forall a | a in answers :: !a.Failed?
  }

  predicate CallFails(answers: seq<Answer>) { answers != [] && !answers[0].Did? }

  // How many of n bytes the next write takes when it does not fail.
  function Moves(answers: seq<Answer>, n: nat): nat {
    if answers != [] && answers[0].Did? then Least(answers[0].n, n) else n
  }

  // What read returns for `got` bytes of sz asked for: -1 only for none and an
  // error, which it tells from the end of the file by errno.
  function ReadCode(got: nat, sz: nat, errno: nat): (code: int)
    ensures code == -1 <==> got == 0 && sz > 0 && errno != 0
    ensures code != -1 ==> code == got
  {
    if got != 0 || sz == 0 || errno == 0 then got else -1
  }

  function Got(code: int): nat { if code > 0 then code else 0 }

  const EINTR: nat := 4
  const EIO: nat := 5
  const EINVAL: nat := 22
  const ENODEV: nat := 19
  const ESPIPE: nat := 29

  class Fd {
    var data: seq<Byte>
    var pos: nat
    const seekable: bool
    // the answers still to come; when they run out every call succeeds in full
    var answers: seq<Answer>
    // what the last failing call left
    var errno: nat

    function State(): Stream
      reads this
    {
      Stream(data, pos)
    }

    // A stream that cannot seek counts its positions from the opening.
    constructor (bytes: seq<Byte>, at: nat, canSeek: bool, kernel: seq<Answer>)
      ensures State() == Stream(bytes, at) && seekable == canSeek && answers == kernel
    {
      data, pos, seekable, answers, errno := bytes, at, canSeek, kernel, 0;
    }

    method Write(bytes: seq<Byte>) returns (nw: int, again: bool)
      modifies `data, `pos, `answers, `errno
      ensures -1 <= nw <= |bytes| && (if nw == -1 then errno != 0 else errno == old(errno))
      ensures State() == if nw == -1 then old(State()) else Put(old(State()), bytes[..nw])
      ensures answers == if old(answers) == [] then [] else old(answers)[1..]
      ensures nw == -1 <==> CallFails(old(answers))
      ensures nw != -1 ==> nw == Moves(old(answers), |bytes|)
      ensures nw == -1 && !again ==> old(answers)[0].Failed?
    {
      again := false;
      if answers == [] {
        nw := |bytes|;
      } else {
        match answers[0] {
          case Did(k) => nw := Least(k, |bytes|);
          case Interrupted => nw, again, errno := -1, true, EINTR;
          case Failed => nw, errno := -1, EIO;
        }
        answers := answers[1..];
      }
      if nw > 0 {
        data, pos := Splice(data, pos, bytes[..nw]), pos + nw;
      }
    }

    // A read returns nothing only at the end of the file.
    method Read(max: nat) returns (nr: int, again: bool, bytes: seq<Byte>)
      requires max > 0
      modifies `pos, `answers, `errno
      ensures if nr == -1 then errno != 0 else errno == old(errno)
      ensures -1 <= nr && |bytes| == if nr == -1 then 0 else nr
      ensures nr >= 0 ==> bytes == Get(old(State()), nr) && nr <= max
      ensures nr == 0 ==> pos >= |data|
      ensures pos == old(pos) + |bytes|
      ensures answers == if old(answers) == [] then [] else old(answers)[1..]
      ensures old(answers) == [] ==> bytes == Get(old(State()), max)
      ensures nr == -1 <==> CallFails(old(answers))
      ensures nr == -1 && !again ==> old(answers) != [] && old(answers)[0].Failed?
    {
      again, bytes, nr := false, Get(State(), max), 0;
      if answers != [] {
        match answers[0] {
          case Did(k) => bytes := Get(State(), if k == 0 then 1 else Least(k, max));
          case Interrupted => nr, again, bytes, errno := -1, true, [], EINTR;
          case Failed => nr, bytes, errno := -1, [], EIO;
        }
        answers := answers[1..];
      }
      if nr == 0 {
        nr := |bytes|;
      }
      pos := pos + |bytes|;
    }

    method Lseek(off: int) returns (ok: bool)
      modifies `pos, `errno
      ensures ok <==> seekable && off >= 0
      ensures if ok then errno == old(errno) else errno != 0
      ensures pos == if ok then off else old(pos)
    {
      ok := seekable && off >= 0;
      if ok {
        pos := off;
      } else {
        errno := if seekable then EINVAL else ESPIPE;
      }
    }
  }
}
