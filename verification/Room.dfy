// How many pages the kernel has left, and how many page-table pages mapping a
// set of virtual pages takes: when the calls that allocate must fail.

module Room {
  import opened KernelSpec

  // The pages kalloc can still give.
  function PagesLeft(kend: nat, refs: seq<nat>): set<nat> {
    set p: nat | p < |refs| && Allocatable(kend, p) && refs[p] == 0
  }

  function Spare(kend: nat, refs: seq<nat>): nat { |PagesLeft(kend, refs)| }

  lemma SpareTaken(kend: nat, refs: seq<nat>, p: nat)
    requires p < |refs| && Allocatable(kend, p) && refs[p] == 0
    ensures Spare(kend, refs) == Spare(kend, refs[p := 1]) + 1
  {
    assert p in PagesLeft(kend, refs);
    assert PagesLeft(kend, refs[p := 1]) == PagesLeft(kend, refs) - {p};
  }

  lemma SpareNone(kend: nat, refs: seq<nat>)
    requires |refs| == 512 && forall q: nat | Allocatable(kend, q) :: refs[q] != 0
    ensures Spare(kend, refs) == 0
  {
    assert PagesLeft(kend, refs) == {};
  }

  // A page in use that stays in use.
  lemma SpareKept(kend: nat, refs: seq<nat>, p: nat, r: nat)
    requires p < |refs| && refs[p] != 0 && r != 0
    ensures Spare(kend, refs[p := r]) == Spare(kend, refs)
  {
    assert PagesLeft(kend, refs[p := r]) == PagesLeft(kend, refs);
  }

  // The page-table pages on the way to these pages of a process.
  function Chains(pid: nat, pages: set<nat>): set<Node> {
    (set v | v in pages :: Node(pid, 0, Index(0, v)))
    + (set v | v in pages :: Node(pid, 1, Index(1, v)))
    + (set v | v in pages :: Node(pid, 2, Index(2, v)))
  }

  // How many of them are still missing.
  function Need(nodes: set<Node>, pid: nat, pages: set<nat>): nat { |Chains(pid, pages) - nodes| }

  // The pages a to end - 1.
  function Span(a: nat, end: nat): (pages: set<nat>)
    ensures forall v: nat :: v in pages <==> a <= v < end
    decreases end
  {
    if end <= a then {} else Span(a, end - 1) + {end - 1}
  }

  function MappedBelow(keys: set<Slot>, pid: nat, end: nat): set<nat> {
    set v: nat | v < end && Slot(pid, v) in keys
  }

  lemma ChainsOne(tables: map<Node, nat>, pid: nat, v: nat)
    ensures ChainOk(tables, pid, v) <==> Chains(pid, {v}) <= tables.Keys && Node(pid, 3, 0) in tables
    ensures Chains(pid, {v}) ==
            {Node(pid, 0, Index(0, v)), Node(pid, 1, Index(1, v)), Node(pid, 2, Index(2, v))}
  {
    assert v in {v};
  }

  lemma ChainsMore(pid: nat, pages: set<nat>, more: set<nat>)
    ensures Chains(pid, pages + more) == Chains(pid, pages) + Chains(pid, more)
  {
  }

  lemma NeedMore(nodes: set<Node>, pid: nat, pages: set<nat>, more: set<nat>)
    ensures Need(nodes, pid, pages + more) == Need(nodes, pid, pages) + Need(nodes + Chains(pid, pages), pid, more)
  {
    hide Chains;
    ChainsMore(pid, pages, more);
    var now, later := Chains(pid, pages) - nodes, Chains(pid, more) - (nodes + Chains(pid, pages));
    assert Chains(pid, pages + more) - nodes == now + later;
  }

  // A root is on no chain.
  lemma NeedRoot(nodes: set<Node>, pid: nat, root: Node, pages: set<nat>)
    requires root.level == 3
    ensures Need(nodes + {root}, pid, pages) == Need(nodes, pid, pages)
  {
    assert Chains(pid, pages) - (nodes + {root}) == Chains(pid, pages) - nodes;
  }

  // A process without page-table pages needs all of them.
  lemma NeedAll(nodes: set<Node>, pid: nat, pages: set<nat>)
    requires forall n | n in nodes :: n.pid != pid
    ensures Need(nodes, pid, pages) == |Chains(pid, pages)|
  {
    assert Chains(pid, pages) - nodes == Chains(pid, pages);
  }

  lemma NeedGrows(nodes: set<Node>, pid: nat, pages: set<nat>, more: set<nat>)
    requires pages <= more
    ensures Need(nodes, pid, pages) <= Need(nodes, pid, more)
  {
    assert Chains(pid, pages) <= Chains(pid, more);
    Smaller(Chains(pid, pages) - nodes, Chains(pid, more) - nodes);
  }

  lemma Smaller(few: set<Node>, many: set<Node>)
    requires few <= many
    ensures |few| <= |many|
  {
    assert many == few + (many - few);
  }

  // From `refs` and `nodes` on, exactly the page-table pages for `pages` and
  // `extra` other pages were taken.
  ghost predicate Spent(kend: nat, refs: seq<nat>, refs': seq<nat>, nodes: set<Node>, nodes': set<Node>,
                        pid: nat, pages: set<nat>, extra: nat) {
    && nodes' == nodes + Chains(pid, pages)
    && Spare(kend, refs) == Spare(kend, refs') + Need(nodes, pid, pages) + extra
  }

  lemma SpentChain(kend: nat, refs: seq<nat>, refs': seq<nat>, nodes: set<Node>, tables: map<Node, nat>, pid: nat, v: nat)
    requires Spent(kend, refs, refs', nodes, tables.Keys, pid, {v}, 0) && Node(pid, 3, 0) in tables
    ensures ChainOk(tables, pid, v)
  {
    ChainsOne(tables, pid, v);
  }

  lemma SpentNone(kend: nat, refs: seq<nat>, nodes: set<Node>, pid: nat)
    ensures Spent(kend, refs, refs, nodes, nodes, pid, {}, 0)
  {
    assert Chains(pid, {}) == {};
  }

  lemma SpentMore(kend: nat, refs: seq<nat>, refs': seq<nat>, refs'': seq<nat>,
                  nodes: set<Node>, nodes': set<Node>, nodes'': set<Node>,
                  pid: nat, pages: set<nat>, now: set<nat>, extra: nat, more: nat)
    requires Spent(kend, refs, refs', nodes, nodes', pid, pages, extra)
    requires Spent(kend, refs', refs'', nodes', nodes'', pid, now, more)
    ensures Spent(kend, refs, refs'', nodes, nodes'', pid, pages + now, extra + more)
  {
    hide Chains, Need, Spare;
    NeedMore(nodes, pid, pages, now);
    ChainsMore(pid, pages, now);
  }

  // Running out on the way means there was not enough to begin with.
  lemma ShortMore(kend: nat, refs: seq<nat>, refs': seq<nat>, nodes: set<Node>, nodes': set<Node>,
                  pid: nat, pages: set<nat>, now: set<nat>, all: set<nat>, extra: nat, more: nat, total: nat)
    requires Spent(kend, refs, refs', nodes, nodes', pid, pages, extra)
    requires Spare(kend, refs') < Need(nodes', pid, now) + more
    requires pages + now <= all && extra + more <= total
    ensures Spare(kend, refs) < Need(nodes, pid, all) + total
  {
    hide Chains, Need, Spare;
    NeedMore(nodes, pid, pages, now);
    NeedGrows(nodes, pid, pages + now, all);
  }

  // What was spent had been there.
  lemma SpentFits(kend: nat, refs: seq<nat>, refs': seq<nat>, nodes: set<Node>, nodes': set<Node>,
                  pid: nat, pages: set<nat>, extra: nat)
    requires Spent(kend, refs, refs', nodes, nodes', pid, pages, extra)
    ensures Need(nodes, pid, pages) + extra <= Spare(kend, refs)
  {
  }

  // What `more` needs then.
  lemma SpentNeed(kend: nat, refs: seq<nat>, refs': seq<nat>, nodes: set<Node>, nodes': set<Node>,
                  pid: nat, pages: set<nat>, more: set<nat>)
    requires Spent(kend, refs, refs', nodes, nodes', pid, pages, 0)
    ensures Need(nodes, pid, pages + more) - Spare(kend, refs) == Need(nodes', pid, more) - Spare(kend, refs')
  {
    hide Spare, Need, Chains;
    NeedMore(nodes, pid, pages, more);
  }

  // kalloc of page p before the page-table pages.
  lemma SpentPage(kend: nat, refs: seq<nat>, p: nat, refs': seq<nat>, nodes: set<Node>, nodes': set<Node>,
                  pid: nat, pages: set<nat>)
    requires p < |refs| && Allocatable(kend, p) && refs[p] == 0
    requires Spent(kend, refs[p := 1], refs', nodes, nodes', pid, pages, 0)
    ensures Spent(kend, refs, refs', nodes, nodes', pid, pages, 1)
  {
    hide Spare, Need;
    SpareTaken(kend, refs, p);
  }

  // ---- The pages of a process ----

  function MappedAt(keys: set<Slot>, pid: nat, v: nat): set<nat> {
    if Slot(pid, v) in keys then {v} else {}
  }

  lemma MappedMore(keys: set<Slot>, pid: nat, v: nat, end: nat)
    ensures MappedBelow(keys, pid, v + 1) == MappedBelow(keys, pid, v) + MappedAt(keys, pid, v)
    ensures v < end ==> MappedBelow(keys, pid, v) + MappedAt(keys, pid, v) <= MappedBelow(keys, pid, end)
    ensures MappedBelow(keys, pid, 0) == {}
  {
  }

  lemma SpanMore(a: nat, v: nat, end: nat)
    requires a <= v
    ensures Span(a, v + 1) == Span(a, v) + {v}
    ensures v < end ==> Span(a, v) + {v} <= Span(a, end)
    ensures Span(a, a) == {}
  {
  }

  // ---- Growing one chain, from the root down ----

  function UpTo(pid: nat, v: nat, level: nat): set<Node> {
    set n | n in Chains(pid, {v}) && level <= n.level
  }

  // The chain is there down to `level`, and exactly that was taken.
  ghost predicate Partly(kend: nat, refs: seq<nat>, refs': seq<nat>, nodes: set<Node>, nodes': set<Node>,
                         pid: nat, v: nat, level: nat) {
    && nodes' == nodes + UpTo(pid, v, level)
    && Spare(kend, refs) == Spare(kend, refs') + |UpTo(pid, v, level) - nodes|
  }

  lemma PartlyStart(kend: nat, refs: seq<nat>, nodes: set<Node>, pid: nat, v: nat)
    ensures Partly(kend, refs, refs, nodes, nodes, pid, v, 3)
  {
    assert UpTo(pid, v, 3) == {};
  }

  // The tables above are there.
  lemma PartlyAbove(kend: nat, refs: seq<nat>, refs': seq<nat>, nodes: set<Node>, nodes': set<Node>,
                    pid: nat, v: nat, level: nat)
    requires Partly(kend, refs, refs', nodes, nodes', pid, v, level)
    ensures forall l | level <= l <= 2 :: Node(pid, l, Index(l, v)) in nodes'
  {
    assert v in {v};
    forall l | level <= l <= 2
      ensures Node(pid, l, Index(l, v)) in UpTo(pid, v, level)
    {
    }
  }

  lemma UpToMore(pid: nat, v: nat, level: nat)
    requires level < 3
    ensures UpTo(pid, v, level) == UpTo(pid, v, level + 1) + {Node(pid, level, Index(level, v))}
    ensures Node(pid, level, Index(level, v)) !in UpTo(pid, v, level + 1)
    ensures UpTo(pid, v, level) <= Chains(pid, {v})
  {
    assert v in {v};
  }

  lemma PartlyHad(kend: nat, refs: seq<nat>, refs': seq<nat>, nodes: set<Node>, nodes': set<Node>,
                  pid: nat, v: nat, level: nat)
    requires Partly(kend, refs, refs', nodes, nodes', pid, v, level + 1) && level < 3
    requires Node(pid, level, Index(level, v)) in nodes'
    ensures Partly(kend, refs, refs', nodes, nodes', pid, v, level)
  {
    hide Chains, Spare, UpTo;
    UpToMore(pid, v, level);
    assert UpTo(pid, v, level) - nodes == UpTo(pid, v, level + 1) - nodes;
  }

  lemma PartlyAdded(kend: nat, refs: seq<nat>, refs': seq<nat>, refs'': seq<nat>,
                    nodes: set<Node>, nodes': set<Node>, nodes'': set<Node>, pid: nat, v: nat, level: nat)
    requires Partly(kend, refs, refs', nodes, nodes', pid, v, level + 1) && level < 3
    requires Node(pid, level, Index(level, v)) !in nodes'
    requires nodes'' == nodes' + {Node(pid, level, Index(level, v))} && Spare(kend, refs'') + 1 == Spare(kend, refs')
    ensures Partly(kend, refs, refs'', nodes, nodes'', pid, v, level)
  {
    hide Chains, Spare, UpTo;
    UpToMore(pid, v, level);
    var n := Node(pid, level, Index(level, v));
    assert UpTo(pid, v, level) - nodes == UpTo(pid, v, level + 1) - nodes + {n};
  }

  lemma PartlyShort(kend: nat, refs: seq<nat>, refs': seq<nat>, nodes: set<Node>, nodes': set<Node>,
                    pid: nat, v: nat, level: nat)
    requires Partly(kend, refs, refs', nodes, nodes', pid, v, level + 1) && level < 3
    requires Node(pid, level, Index(level, v)) !in nodes' && Spare(kend, refs') == 0
    ensures Spare(kend, refs) < Need(nodes, pid, {v})
  {
    hide Chains, Spare, UpTo;
    UpToMore(pid, v, level);
    var n := Node(pid, level, Index(level, v));
    Smaller(UpTo(pid, v, level + 1) - nodes + {n}, Chains(pid, {v}) - nodes);
  }

  lemma PartlyDone(kend: nat, refs: seq<nat>, refs': seq<nat>, nodes: set<Node>, nodes': set<Node>, pid: nat, v: nat)
    requires Partly(kend, refs, refs', nodes, nodes', pid, v, 0)
    ensures Spent(kend, refs, refs', nodes, nodes', pid, {v}, 0)
    ensures Need(nodes, pid, {v}) <= Spare(kend, refs)
  {
    assert UpTo(pid, v, 0) == Chains(pid, {v});
  }

  // ---- In numbers ----

  // The process has a page in the upper megabyte of its three.
  ghost predicate Upper(keys: set<Slot>, pid: nat) {
    exists v: nat :: 512 <= v < 768 && Slot(pid, v) in keys
  }

  lemma FirstIndexes(v: nat)
    requires v < 768
    ensures Index(0, v) == (if v < 512 then 0 else 1) && Index(1, v) == 0 && Index(2, v) == 0
  {
  }

  // Below page 768 there is one table of each level, and a second lowest one
  // for the pages from 512 on.
  lemma ChainsAre(pid: nat, pages: set<nat>, x: Node)
    requires forall v | v in pages :: v < 768
    ensures x in Chains(pid, pages) <==>
            || (x == Node(pid, 0, 0) && exists v: nat :: v in pages && v < 512)
            || (x == Node(pid, 0, 1) && exists v: nat :: v in pages && v >= 512)
            || ((x == Node(pid, 1, 0) || x == Node(pid, 2, 0)) && pages != {})
  {
    hide Index;
    forall v | v in pages
      ensures Index(0, v) == (if v < 512 then 0 else 1) && Index(1, v) == 0 && Index(2, v) == 0
    {
      FirstIndexes(v);
    }
    if pages != {} {
      var v :| v in pages;
      assert Node(pid, 1, Index(1, v)) in Chains(pid, pages) && Node(pid, 2, Index(2, v)) in Chains(pid, pages);
    }
    if v: nat :| v in pages && v < 512 { assert Node(pid, 0, Index(0, v)) in Chains(pid, pages); }
    if v: nat :| v in pages && v >= 512 { assert Node(pid, 0, Index(0, v)) in Chains(pid, pages); }
  }

  // A child's pages take one table of each level, and a second lowest one when
  // the parent has a page from 0x200000 on.
  lemma ForkTakes(keys: set<Slot>, pid: nat, c: nat)
    requires Slot(pid, 1) in keys
    ensures |Chains(c, MappedBelow(keys, pid, 768))| == if Upper(keys, pid) then 4 else 3
  {
    hide Chains;
    var pages := MappedBelow(keys, pid, 768);
    var low := {Node(c, 0, 0), Node(c, 1, 0), Node(c, 2, 0)};
    assert 1 in pages;
    forall x
      ensures x in Chains(c, pages) <==> x in low || (x == Node(c, 0, 1) && Upper(keys, pid))
    {
      ChainsAre(c, pages, x);
      if v: nat :| 512 <= v < 768 && Slot(pid, v) in keys { assert v in pages; }
    }
    assert Chains(c, pages) == if Upper(keys, pid) then low + {Node(c, 0, 1)} else low;
  }

  // New pages of a process that has its first tables take one more table at
  // most: the second lowest one, when they reach over 0x200000.
  lemma MapTakes(nodes: set<Node>, pid: nat, a: nat, n: nat)
    requires n > 0 && a + n <= 768 && {Node(pid, 0, 0), Node(pid, 1, 0), Node(pid, 2, 0)} <= nodes
    ensures Need(nodes, pid, Span(a, a + n)) == if a + n > 512 && Node(pid, 0, 1) !in nodes then 1 else 0
  {
    hide Chains, Span;
    var pages, high := Span(a, a + n), Node(pid, 0, 1);
    assert a + n - 1 in pages;
    forall x
      ensures x in Chains(pid, pages) - nodes <==> x == high && a + n > 512 && high !in nodes
    {
      ChainsAre(pid, pages, x);
      assert a + n > 512 ==> a + n - 1 in pages && a + n - 1 >= 512;
    }
    assert Chains(pid, pages) - nodes == if a + n > 512 && high !in nodes then {high} else {};
  }

  ghost predicate HasHigh(pages: set<nat>) { exists v: nat :: v in pages && v >= 512 }

  // The tables of a new process, with a page below page 512.
  lemma NewTakes(nodes: set<Node>, pid: nat, pages: set<nat>, low: nat)
    requires (forall n | n in nodes :: n.pid != pid) && (forall v | v in pages :: v < 768) && low in pages && low < 512
    ensures Need(nodes, pid, pages) == if HasHigh(pages) then 4 else 3
  {
    hide Chains, Need;
    NeedAll(nodes, pid, pages);
    var three, all := {Node(pid, 0, 0), Node(pid, 1, 0), Node(pid, 2, 0)}, Chains(pid, pages);
    forall x
      ensures x in all <==> x in three || (x == Node(pid, 0, 1) && HasHigh(pages))
    {
      ChainsAre(pid, pages, x);
    }
    assert all == if HasHigh(pages) then three + {Node(pid, 0, 1)} else three;
  }
}
