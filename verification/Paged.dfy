// The kernel on page tables in memory: all changes it has ever made to them,
// made through the iterators one after the other, leave page tables that show
// exactly its mappings.

module Paged {
  import K = KernelSpec
  import E = Eager
  import C = Effects
  import Kernel
  import opened PageLog
  import opened PageTableSpec
  import opened PageTree
  import opened VmIter
  import opened AddressSpace

  // Memory in which the page tables of all processes show their mappings, and
  // the root page of each of them.
  ghost predicate Kept(mem: Memory, roots: map<nat, nat>, sp: Spaces) {
    && MemOk(mem) && |mem| == 512 && AllRealised(mem, sp.tables, sp.maps)
    && forall pid: nat :: RootKnown(roots, sp.tables, pid)
  }

  predicate RootKnown(roots: map<nat, nat>, tables: map<K.Node, nat>, pid: nat) {
    K.Node(pid, 3, 0) in tables ==> pid in roots && roots[pid] == tables[K.Node(pid, 3, 0)]
  }

  method MakeRoot(ram: Ram, roots: map<nat, nat>, pid: nat, t: nat, ghost sp: Spaces) returns (roots': map<nat, nat>)
    requires Kept(ram.mem, roots, sp) && EditOk(sp, Root(pid, t))
    modifies ram
    ensures Kept(ram.mem, roots', Apply(sp, Root(pid, t)))
  {
    hide AllRealised, MemOk;
    NewRoot(ram.mem, sp.tables, sp.maps, pid, t);
    EmptyTableOk(ram.mem, t);
    ram.mem := ram.mem[t := EmptyTable()];
    roots' := roots[pid := t];
    ghost var tables' := sp.tables[K.Node(pid, 3, 0) := t];
    forall q: nat
      ensures RootKnown(roots', tables', q)
    {
      assert RootKnown(roots, sp.tables, q);
    }
  }

  lemma EmptyTableOk(mem: Memory, t: nat)
    requires MemOk(mem) && t < |mem|
    ensures MemOk(mem[t := EmptyTable()])
  {
    NotPresentStops(ZERO, 0);
  }

  method MakeTable(ram: Ram, roots: map<nat, nat>, pid: nat, v: nat, level: nat, t: nat, ghost sp: Spaces)
    requires Kept(ram.mem, roots, sp) && EditOk(sp, Table(pid, v, level, t))
    modifies ram
    ensures Kept(ram.mem, roots, Apply(sp, Table(pid, v, level, t)))
  {
    hide AllRealised, MemOk;
    assert RootKnown(roots, sp.tables, pid);
    RootInside(ram.mem, sp.tables, sp.maps, pid);
    var it := new VmIterator(ram, roots[pid], v * 4096);
    LinkOne(it, pid, v, level, t, sp.tables, sp.maps);
    ghost var tables' := sp.tables[K.Node(pid, level, K.Index(level, v)) := t];
    forall q: nat
      ensures RootKnown(roots, tables', q)
    {
      assert RootKnown(roots, sp.tables, q);
    }
  }

  lemma RootInside(mem: Memory, tables: map<K.Node, nat>, maps: map<K.Slot, K.Leaf>, pid: nat)
    requires AllRealised(mem, tables, maps) && K.Node(pid, 3, 0) in tables
    ensures MemOk(mem) && tables[K.Node(pid, 3, 0)] < |mem|
  {
    assert Realises(mem, TablesOf(tables, pid), maps, pid);
    assert TablesOf(tables, pid)[ROOT] == tables[K.Node(pid, 3, 0)];
  }

  method MakeMapping(ram: Ram, roots: map<nat, nat>, s: K.Slot, l: K.Leaf, present: bool, ghost sp: Spaces)
    requires Kept(ram.mem, roots, sp) && s.v < 768 && l.page < 512 && K.ChainOk(sp.tables, s.pid, s.v)
    modifies ram
    ensures Kept(ram.mem, roots, Apply(sp, if present then Set(s, l) else Clear(s)))
  {
    hide AllRealised, MemOk;
    assert RootKnown(roots, sp.tables, s.pid);
    RootInside(ram.mem, sp.tables, sp.maps, s.pid);
    var it := new VmIterator(ram, roots[s.pid], s.v * 4096);
    ghost var tables';
    var res;
    res, tables' := MapPage(it, s.pid, s.v, l, present, [], sp.tables, sp.maps);
    NothingGrew(sp.tables, tables', s.pid, s.v);
  }

  lemma NothingGrew(tables: map<K.Node, nat>, tables': map<K.Node, nat>, pid: nat, v: nat)
    requires GrewFor(tables, tables', pid, v, [])
    ensures tables' == tables
  {
  }

  method DropSpace(ram: Ram, roots: map<nat, nat>, pid: nat, ghost sp: Spaces)
    requires Kept(ram.mem, roots, sp) && EditOk(sp, Drop(pid))
    modifies ram
    ensures Kept(ram.mem, roots, Apply(sp, Drop(pid)))
  {
    hide AllRealised, MemOk;
    assert RootKnown(roots, sp.tables, pid);
    ghost var visited;
    var freed;
    freed, visited := FreeSpace(ram, pid, sp.tables, sp.maps, roots[pid]);
    forall q: nat
      ensures RootKnown(roots, OtherNodes(sp.tables, pid), q)
    {
      assert RootKnown(roots, sp.tables, q);
    }
  }

  method Perform(ram: Ram, roots: map<nat, nat>, e: Edit, ghost sp: Spaces) returns (roots': map<nat, nat>)
    requires Kept(ram.mem, roots, sp) && EditOk(sp, e)
    modifies ram
    ensures Kept(ram.mem, roots', Apply(sp, e))
  {
    hide Kept;
    roots' := roots;
    match e {
      case Root(pid, t) => roots' := MakeRoot(ram, roots, pid, t, sp);
      case Table(pid, v, level, t) => MakeTable(ram, roots, pid, v, level, t, sp);
      case Set(s, l) => MakeMapping(ram, roots, s, l, true, sp);
      case Clear(s) => MakeMapping(ram, roots, s, K.Leaf(0, false, false, false), false, sp);
      case Drop(pid) => DropSpace(ram, roots, pid, sp);
    }
  }

  // The changes of a log from `done` on.
  method PerformFrom(ram: Ram, roots: map<nat, nat>, edits: seq<Edit>, done: nat) returns (roots': map<nat, nat>)
    requires AllOk(edits) && done <= |edits| && Kept(ram.mem, roots, Replay(edits[..done]))
    modifies ram
    ensures Kept(ram.mem, roots', Replay(edits))
  {
    hide Kept, AllOk, EditOk, Apply, Replay;
    roots' := roots;
    for i := done to |edits|
      invariant Kept(ram.mem, roots', Replay(edits[..i]))
    {
      NextEdit(edits, i);
      roots' := Perform(ram, roots', edits[i], Replay(edits[..i]));
    }
    assert edits[..|edits|] == edits;
  }

  // All changes of a log, on any memory to begin with.
  method PerformAll(ram: Ram, edits: seq<Edit>) returns (roots: map<nat, nat>)
    requires AllOk(edits) && MemOk(ram.mem) && |ram.mem| == 512
    modifies ram
    ensures Kept(ram.mem, roots, Replay(edits))
  {
    hide AllOk;
    NothingYet(ram.mem);
    assert edits[..0] == [];
    roots := PerformFrom(ram, map[], edits, 0);
  }

  lemma NothingYet(mem: Memory)
    requires MemOk(mem) && |mem| == 512
    ensures Kept(mem, map[], Replay([]))
  {
  }

  lemma {:induction false} NextEdit(edits: seq<Edit>, i: nat)
    requires AllOk(edits) && i < |edits|
    ensures EditOk(Replay(edits[..i]), edits[i])
    ensures Replay(edits[..i + 1]) == Apply(Replay(edits[..i]), edits[i])
    decreases |edits| - i
  {
    hide EditOk, Apply;
    assert edits[..i + 1][..i] == edits[..i];
    AllOkPrefix(edits, i + 1);
  }

  lemma {:induction false} AllOkPrefix(edits: seq<Edit>, n: nat)
    requires AllOk(edits) && n <= |edits|
    ensures AllOk(edits[..n])
  {
    hide EditOk;
    if n < |edits| {
      AllOkPrefix(edits[..|edits| - 1], n);
      assert edits[..|edits| - 1][..n] == edits[..n];
    } else {
      assert edits[..n] == edits;
    }
  }

  // ---- The kernel's runs ----

  // Through the page tables of every live process the hardware finds at each
  // page what the kernel's map says, its rights in the bits of the processor; the page it finds there for user code
  // holds the bytes of the eager machine, and is no page table.
  ghost predicate HardwareSees(mem: Memory, roots: map<nat, nat>, now: Kernel.Sight) {
    && (forall pid: nat, v: nat | pid < |now.procs| && now.procs[pid] != Kernel.Free && v < 768 ::
          ShownAt(mem, roots, now.ph.maps, pid, v))
    && (forall s | s in now.ph.maps && K.User(s) :: HoldsSeen(now, s))
  }

  ghost predicate ShownAt(mem: Memory, roots: map<nat, nat>, maps: map<K.Slot, K.Leaf>, pid: nat, v: nat) {
    && MemOk(mem) && pid in roots && roots[pid] < |mem|
    && match Translate(mem, roots[pid], v * 4096)
       case Unmapped => K.Slot(pid, v) !in maps
       case Mapped(pa, perm) =>
         && K.Slot(pid, v) in maps && pa == 4096 * maps[K.Slot(pid, v)].page
         && (perm & 2 != 0 <==> maps[K.Slot(pid, v)].w) && (perm & 4 != 0 <==> maps[K.Slot(pid, v)].u)
         && (perm & 0x200 != 0 <==> maps[K.Slot(pid, v)].c)
  }

  ghost predicate HoldsSeen(now: Kernel.Sight, s: K.Slot)
    requires s in now.ph.maps
  {
    var p := now.ph.maps[s].page;
    p < |now.ph.mem| && p !in now.ph.tables.Values && s in Kernel.Seen(now).mem && Kernel.Seen(now).mem[s] == now.ph.mem[p]
  }

  lemma KeptSees(m: Kernel.Machine, mem: Memory, roots: map<nat, nat>)
    requires m.Valid() && Kept(mem, roots, Spaces(m.tables, m.maps))
    ensures HardwareSees(mem, roots, m.Now())
  {
    hide K.Inv, Kept, ShownAt, K.Contents;
    forall pid: nat, v: nat | pid < |m.procs| && m.procs[pid] != Kernel.Free && v < 768
      ensures ShownAt(mem, roots, m.maps, pid, v)
    {
      Kernel.ProcsSize(m.maps.Keys, m.tables.Keys, m.procs);
      Kernel.RootThere(m.maps.Keys, m.tables.Keys, m.procs, pid);
      KeptShows(mem, roots, m.tables, m.maps, pid, v);
    }
    forall s | s in m.maps && K.User(s)
      ensures HoldsSeen(m.Now(), s)
    {
      K.SeenApart(m.kend, m.St(), 0, 0, s);
    }
  }

  lemma KeptShows(mem: Memory, roots: map<nat, nat>, tables: map<K.Node, nat>, maps: map<K.Slot, K.Leaf>, pid: nat, v: nat)
    requires Kept(mem, roots, Spaces(tables, maps)) && K.Node(pid, 3, 0) in tables && v < 768
    ensures ShownAt(mem, roots, maps, pid, v)
  {
    hide MemOk, Translate, Rep, Full;
    assert RootKnown(roots, tables, pid);
    RootInside(mem, tables, maps, pid);
    assert Realises(mem, TablesOf(tables, pid), maps, pid);
    assert TablesOf(tables, pid)[ROOT] == tables[K.Node(pid, 3, 0)];
  }

  lemma LogOf(m: Kernel.Machine)
    requires m.Valid()
    ensures AllOk(m.edits) && Replay(m.edits) == Spaces(m.tables, m.maps)
  {
  }

  // One call, with its changes to page tables made in memory.
  method StepOnPageTables(m: Kernel.Machine, ram: Ram, roots: map<nat, nat>, pid: nat, call: E.Call)
    returns (ans: E.Answer, roots': map<nat, nat>)
    requires m.Valid() && m.Allowed(pid, call) && Kept(ram.mem, roots, Spaces(m.tables, m.maps))
    modifies m, ram
    ensures m.Valid() && Kept(ram.mem, roots', Spaces(m.tables, m.maps))
    ensures pid in old(m.Abs()).live && Kernel.StepSeen(m.kend, old(m.Now()), E.Event(pid, call, ans), m.Now())
  {
    hide Kernel.Machine.Valid, Kernel.Machine.Allowed, Kept, AllOk, Replay, Kernel.Answered, E.Fits, E.Next, C.Effect;
    var before := m.edits;
    LogOf(m);
    ans := m.Step(pid, call);
    LogOf(m);
    assert m.edits[..|before|] == before;
    roots' := PerformFrom(ram, roots, m.edits, |before|);
  }

  // Over every run, from any memory that shows the machine's address spaces
  // on: after each call the hardware sees, through the page tables in memory,
  // what the eager machine's processes see.
  method RunOnPageTables(m: Kernel.Machine, ram: Ram, roots0: map<nat, nat>, calls: seq<(nat, E.Call)>)
    returns (trace: seq<E.Event>, roots: map<nat, nat>, ghost states: seq<Kernel.Sight>,
             ghost mems: seq<Memory>, ghost rootsAt: seq<map<nat, nat>>)
    requires m.Valid() && Kept(ram.mem, roots0, Spaces(m.tables, m.maps))
    modifies m, ram
    ensures m.Valid() && Kept(ram.mem, roots, Spaces(m.tables, m.maps))
    ensures |trace| <= |calls|
    ensures forall i | 0 <= i < |trace| :: trace[i].pid == calls[i].0 && trace[i].call == calls[i].1
    ensures |trace| < |calls| ==> !m.Allowed(calls[|trace|].0, calls[|trace|].1)
    ensures E.Explains(old(m.Abs()), trace, m.Abs())
    ensures |states| == |mems| == |rootsAt| == |trace| + 1
    ensures states[0] == old(m.Now()) && states[|trace|] == m.Now() && mems[|trace|] == ram.mem
    ensures forall i | 0 <= i < |trace| :: Kernel.StepSeen(m.kend, states[i], trace[i], states[i + 1])
    ensures forall i | 0 <= i <= |trace| :: HardwareSees(mems[i], rootsAt[i], states[i])
  {
    hide Kernel.Machine.Valid, Kernel.Machine.Allowed, Kept, Kernel.Answered, HardwareSees, E.Fits, E.Next, C.Effect;
    trace, roots := [], roots0;
    KeptSees(m, ram.mem, roots);
    states, mems, rootsAt := [m.Now()], [ram.mem], [roots];
    while |trace| < |calls| && m.Allowed(calls[|trace|].0, calls[|trace|].1)
      invariant m.Valid() && Kept(ram.mem, roots, Spaces(m.tables, m.maps)) && |trace| <= |calls|
      invariant forall i | 0 <= i < |trace| :: trace[i].pid == calls[i].0 && trace[i].call == calls[i].1
      invariant E.Explains(old(m.Abs()), trace, m.Abs())
      invariant |states| == |mems| == |rootsAt| == |trace| + 1
      invariant states[0] == old(m.Now()) && states[|trace|] == m.Now() && mems[|trace|] == ram.mem
      invariant forall i | 0 <= i < |trace| :: Kernel.StepSeen(m.kend, states[i], trace[i], states[i + 1])
      invariant forall i | 0 <= i <= |trace| :: HardwareSees(mems[i], rootsAt[i], states[i])
      decreases |calls| - |trace|
    {
      var (pid, call) := calls[|trace|];
      ghost var before := m.Abs();
      var ans;
      ans, roots := StepOnPageTables(m, ram, roots, pid, call);
      E.ExplainsMore(old(m.Abs()), trace, before, E.Event(pid, call, ans));
      KeptSees(m, ram.mem, roots);
      trace := trace + [E.Event(pid, call, ans)];
      states, mems, rootsAt := states + [m.Now()], mems + [ram.mem], rootsAt + [roots];
    }
  }
}
