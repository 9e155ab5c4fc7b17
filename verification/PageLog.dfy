// The changes the kernel makes to page tables, in the order it makes them,
// and what they come to.

module PageLog {
  import opened KernelSpec

  // A new root, a table linked at a level on the way to page v, a mapping set
  // or taken away, an address space freed.
  datatype Edit = Root(pid: nat, t: nat) | Table(pid: nat, v: nat, level: nat, t: nat)
                | Set(s: Slot, l: Leaf) | Clear(s: Slot) | Drop(pid: nat)

  datatype Spaces = Spaces(tables: map<Node, nat>, maps: map<Slot, Leaf>)

  function OtherNodes(tables: map<Node, nat>, pid: nat): map<Node, nat> {
    map n | n in tables && n.pid != pid :: tables[n]
  }

  function OtherSlots(maps: map<Slot, Leaf>, pid: nat): map<Slot, Leaf> {
    map s | s in maps && s.pid != pid :: maps[s]
  }

  function Apply(sp: Spaces, e: Edit): Spaces {
    match e
    case Root(pid, t) => sp.(tables := sp.tables[Node(pid, 3, 0) := t])
    case Table(pid, v, level, t) => sp.(tables := sp.tables[Node(pid, level, Index(level, v)) := t])
    case Set(s, l) => sp.(maps := sp.maps[s := l])
    case Clear(s) => sp.(maps := sp.maps - {s})
    case Drop(pid) => Spaces(OtherNodes(sp.tables, pid), OtherSlots(sp.maps, pid))
  }

  // Each change is one page tables can undergo: roots and tables on pages that
  // hold no table yet, tables below those above them, mappings in a lowest
  // table.
  predicate EditOk(sp: Spaces, e: Edit) {
    match e
    case Root(pid, t) => t < 512 && t !in sp.tables.Values && Unused(sp, pid)
    case Table(pid, v, level, t) =>
      && t < 512 && t !in sp.tables.Values && v < 768 && level <= 2
      && Node(pid, level, Index(level, v)) !in sp.tables && Node(pid, 3, 0) in sp.tables
      && forall l | level < l <= 2 :: Node(pid, l, Index(l, v)) in sp.tables
    case Set(s, l) => s.v < 768 && l.page < 512 && ChainOk(sp.tables, s.pid, s.v)
    case Clear(s) => s.v < 768 && ChainOk(sp.tables, s.pid, s.v)
    case Drop(pid) => Node(pid, 3, 0) in sp.tables
  }

  predicate Unused(sp: Spaces, pid: nat) {
    (forall n | n in sp.tables :: n.pid != pid) && (forall s | s in sp.maps :: s.pid != pid)
  }

  function Replay(edits: seq<Edit>): Spaces {
    if edits == [] then Spaces(map[], map[]) else Apply(Replay(edits[..|edits| - 1]), edits[|edits| - 1])
  }

  predicate AllOk(edits: seq<Edit>) {
    edits == [] || (AllOk(edits[..|edits| - 1]) && EditOk(Replay(edits[..|edits| - 1]), edits[|edits| - 1]))
  }

  // The log is in order and comes to these address spaces.
  predicate Logged(edits: seq<Edit>, tables: map<Node, nat>, maps: map<Slot, Leaf>) {
    AllOk(edits) && Replay(edits) == Spaces(tables, maps)
  }

  lemma LogMore(edits: seq<Edit>, tables: map<Node, nat>, maps: map<Slot, Leaf>, e: Edit)
    requires Logged(edits, tables, maps) && EditOk(Spaces(tables, maps), e)
    ensures var sp := Apply(Spaces(tables, maps), e); Logged(edits + [e], sp.tables, sp.maps)
  {
    assert (edits + [e])[..|edits|] == edits;
  }

  lemma LogRoot(edits: seq<Edit>, tables: map<Node, nat>, maps: map<Slot, Leaf>, pid: nat, t: nat)
    requires Logged(edits, tables, maps) && t < 512 && t !in tables.Values && Unused(Spaces(tables, maps), pid)
    ensures Logged(edits + [Root(pid, t)], tables[Node(pid, 3, 0) := t], maps)
  {
    LogMore(edits, tables, maps, Root(pid, t));
  }

  lemma LogSet(edits: seq<Edit>, tables: map<Node, nat>, maps: map<Slot, Leaf>, s: Slot, l: Leaf)
    requires Logged(edits, tables, maps) && s.v < 768 && l.page < 512 && ChainOk(tables, s.pid, s.v)
    ensures Logged(edits + [Set(s, l)], tables, maps[s := l])
  {
    LogMore(edits, tables, maps, Set(s, l));
  }

  lemma LogClear(edits: seq<Edit>, tables: map<Node, nat>, maps: map<Slot, Leaf>, s: Slot)
    requires Logged(edits, tables, maps) && s.v < 768 && ChainOk(tables, s.pid, s.v)
    ensures Logged(edits + [Clear(s)], tables, maps - {s})
  {
    LogMore(edits, tables, maps, Clear(s));
  }

  lemma LogTable(edits: seq<Edit>, tables: map<Node, nat>, maps: map<Slot, Leaf>, pid: nat, v: nat, level: nat, t: nat)
    requires Logged(edits, tables, maps) && EditOk(Spaces(tables, maps), Table(pid, v, level, t))
    ensures Logged(edits + [Table(pid, v, level, t)], tables[Node(pid, level, Index(level, v)) := t], maps)
  {
    LogMore(edits, tables, maps, Table(pid, v, level, t));
  }

  lemma LogDrop(edits: seq<Edit>, tables: map<Node, nat>, maps: map<Slot, Leaf>, pid: nat)
    requires Logged(edits, tables, maps) && Node(pid, 3, 0) in tables
    ensures Logged(edits + [Drop(pid)], OtherNodes(tables, pid), OtherSlots(maps, pid))
  {
    LogMore(edits, tables, maps, Drop(pid));
  }
}
