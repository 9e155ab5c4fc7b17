// The WeensyOS kernel: page allocation, copy-on-write fork and faults, mmap,
// munmap, exit and kill over the process table.

module Kernel {
  import opened Basics
  import opened KernelSpec
  import E = Eager
  import F = FreeRange
  import opened Room
  import Log = PageLog
  import C = Effects

  datatype ProcState = Free | Runnable | Blocked | Faulted

  datatype FaultResult = Resolved | Killed | Unhandled

  // An address mmap tries first.
  predicate GoodHint(addr: nat, len: nat) {
    addr % 4096 == 0 && 0x100000 <= addr && addr + len <= 0x300000
  }

  // Entries and page tables belong to live processes (or the one fork is
  // building), and each of those has a root and all kernel entries.
  ghost predicate ProcsOk(keys: set<Slot>, nodes: set<Node>, procs: seq<ProcState>, building: nat) {
    && |procs| == 16 && procs[0] == Free
    && (forall s | s in keys :: Owned(s.pid, procs, building))
    && (forall n | n in nodes :: Owned(n.pid, procs, building))
    && (forall p: nat | p < 16 && procs[p] != Free :: HasSpace(keys, nodes, p))
  }

  predicate Owned(pid: nat, procs: seq<ProcState>, building: nat) {
    pid < |procs| && (procs[pid] != Free || pid == building)
  }

  ghost predicate HasSpace(keys: set<Slot>, nodes: set<Node>, p: nat) {
    Node(p, 3, 0) in nodes && forall v: nat | 0 < v < 256 :: Slot(p, v) in keys
  }

  function Live(procs: seq<ProcState>): set<nat> {
    set p: nat | p < |procs| && procs[p] != Free
  }

  // The machine's state before or after a call, and what the processes see of it.
  datatype Sight = Sight(ph: Phys, procs: seq<ProcState>)

  function Seen(now: Sight): E.State { E.State(Live(now.procs), Contents(now.ph)) }

  class Machine {
    const kend: nat
    var refs: seq<nat>
    var mem: seq<seq<Byte>>
    var maps: map<Slot, Leaf>
    var tables: map<Node, nat>
    var procs: seq<ProcState>
    // history: all changes made to page tables so far
    var edits: seq<Log.Edit>

    function St(): Phys
      reads this
    {
      Phys(refs, mem, maps, tables)
    }

    ghost predicate Valid()
      reads this
    {
      Inv(kend, St(), 0, 0) && ProcsOk(maps.Keys, tables.Keys, procs, 0) && Logged()
    }

    ghost predicate Logged()
      reads `edits, `tables, `maps
    {
      Log.Logged(edits, tables, maps)
    }

    // What the processes see, as a state of the eager machine.
    ghost function Abs(): E.State
      reads this
    {
      E.State(Live(procs), Contents(St()))
    }

    ghost function Now(): Sight
      reads this
    {
      Sight(St(), procs)
    }

    // The machine before any process is set up.
    constructor (kernelEnd: nat)
      ensures Valid() && Abs() == E.State({}, map[]) && kend == kernelEnd
      ensures procs == seq(16, _ => Free)
    {
      kend := kernelEnd;
      refs, mem := seq(512, _ => 0), seq(512, _ => Fill(0));
      maps, tables := map[], map[];
      procs := seq(16, _ => Free);
      edits := [];
      new;
      EmptyInv(kend);
    }

    method Kalloc() returns (ok: bool, p: nat)
      requires |refs| == 512 && |mem| == 512
      modifies `refs, `mem
      ensures ok ==> Allocatable(kend, p) && old(refs)[p] == 0 && St() == AllocSt(old(St()), p, Fill(0xCC))
      ensures ok ==> forall q: nat | q < p && Allocatable(kend, q) :: old(refs)[q] != 0
      ensures ok ==> refs == old(refs)[p := 1] && mem == old(mem)[p := mem[p]] && |mem[p]| == 4096
      ensures ok ==> forall i | 0 <= i < 4096 :: mem[p][i] == 0xCC
      ensures !ok ==> St() == old(St()) && forall q: nat | Allocatable(kend, q) :: refs[q] != 0
    {
      ok, p := false, 0;
      var tries := 0;
      while tries != 512
        invariant 0 <= tries <= 512 && p == tries % 512
        invariant forall q: nat | q < tries && Allocatable(kend, q) :: refs[q] != 0
      {
        if Allocatable(kend, p) && refs[p] == 0 {
          refs := refs[p := refs[p] + 1];
          mem := mem[p := Fill(0xCC)];
          return true, p;
        }
        p := (p + 1) % 512;
        tries := tries + 1;
      }
    }

    method Kfree(p: nat)
      requires p < |refs| && p < |mem| && 0 < refs[p] <= 16
      modifies `refs, `mem
      ensures St() == FreeSt(old(St()), p)
      ensures refs == old(refs)[p := old(refs)[p] - 1]
      ensures if old(refs)[p] > 1 then mem == old(mem)
              else mem == old(mem)[p := mem[p]] && |mem[p]| == 4096 && forall i | 0 <= i < 4096 :: mem[p][i] == 0
    {
      refs := refs[p := (refs[p] + 255) % 256];
      if refs[p] == 0 {
        mem := mem[p := Fill(0)];
      }
    }

    // The page-table half of vmiter::try_map: grow the tree down to level 0.
    // On failure the pages already added stay in it.
    method EnsureTables(pid: nat, v: nat, ghost off: nat, ghost d: nat) returns (ok: bool)
      requires Inv(kend, St(), off, d) && 1 <= pid < 16 && (d > 0 ==> Idle(St(), off) && Allocatable(kend, off))
      requires Logged() && Node(pid, 3, 0) in tables && v < 768
      modifies `refs, `mem, `tables, `edits
      ensures Inv(kend, St(), off, d) && Contents(St()) == old(Contents(St()))
      ensures d > 0 ==> Idle(St(), off)
      ensures Logged() && Node(pid, 3, 0) in tables
      ensures old(ChainOk(tables, pid, v)) ==> ok && St() == old(St())
      ensures Grown(old(tables), tables, pid)
      ensures ok <==> Need(old(tables).Keys, pid, {v}) <= old(Spare(kend, refs))
      ensures ok ==> Spent(kend, old(refs), refs, old(tables).Keys, tables.Keys, pid, {v}, 0) && ChainOk(tables, pid, v)
      ensures old(edits) <= edits
    {
      hide Inv, Contents, Idle, Spare, Need, Spent, Partly, Grown, Log.Logged;
      ghost var refs0, nodes0, tables0 := refs, tables.Keys, tables;
      GrownNone(tables, pid);
      PartlyStart(kend, refs, nodes0, pid, v);
      var level := 3;
      while level > 0
        invariant old(edits) <= edits
        invariant 0 <= level <= 3
        invariant Inv(kend, St(), off, d) && Contents(St()) == old(Contents(St())) && maps == old(maps)
        invariant d > 0 ==> Idle(St(), off)
        invariant old(ChainOk(tables, pid, v)) ==> St() == old(St())
        invariant Grown(tables0, tables, pid)
        invariant Partly(kend, refs0, refs, nodes0, tables.Keys, pid, v, level)
        invariant Logged() && Node(pid, 3, 0) in tables
      {
        level := level - 1;
        var n := Node(pid, level, Index(level, v));
        ghost var refs1, nodes1, tables1 := refs, tables.Keys, tables;
        if n !in tables {
          PartlyAbove(kend, refs0, refs, nodes0, nodes1, pid, v, level + 1);
          ok := AddTable(n, off, d);
          if !ok {
            PartlyShort(kend, refs0, refs, nodes0, nodes1, pid, v, level);
            return;
          }
          Log.LogTable(edits, tables1, maps, pid, v, level, tables[n]);
          edits := edits + [Log.Table(pid, v, level, tables[n])];
          GrownLink(tables1, tables, n);
          GrownMore(tables0, tables1, tables, pid);
          PartlyAdded(kend, refs0, refs1, refs, nodes0, nodes1, tables.Keys, pid, v, level);
        } else {
          PartlyHad(kend, refs0, refs, nodes0, nodes1, pid, v, level);
        }
      }
      ok := true;
      PartlyDone(kend, refs0, refs, nodes0, tables.Keys, pid, v);
      SpentChain(kend, refs0, refs, nodes0, tables, pid, v);
    }

    // kalloc, memset 0, and a present entry in the parent.
    method AddTable(n: Node, ghost off: nat, ghost d: nat) returns (ok: bool)
      requires Inv(kend, St(), off, d) && 1 <= n.pid < 16 && n !in tables
      requires d > 0 ==> Idle(St(), off) && Allocatable(kend, off)
      modifies `refs, `mem, `tables
      ensures Inv(kend, St(), off, d) && Contents(St()) == old(Contents(St()))
      ensures d > 0 ==> Idle(St(), off)
      ensures if ok then n in tables && tables == old(tables)[n := tables[n]] else St() == old(St())
      ensures ok ==> tables[n] < 512 && tables[n] !in old(tables).Values
      ensures ok <==> old(Spare(kend, refs)) > 0
      ensures ok ==> Spare(kend, refs) + 1 == old(Spare(kend, refs))
    {
      hide Inv, Contents, Idle, Spare;
      Sizes(kend, St(), off, d);
      ghost var was := St();
      var t;
      ok, t := Kalloc();
      if !ok {
        SpareNone(kend, refs);
        return;
      }
      SpareTaken(kend, was.refs, t);
      UncountedNoTable(kend, was, off, d, t);
      mem := mem[t := Fill(0)];
      tables := tables[n := t];
      TableInv(kend, was, off, d, n, t, Fill(0));
      assert St() == LinkSt(AllocSt(was, t, Fill(0)), n, t);
    }

    // free_everything: drop the counts of all user pages, then of all
    // page-table pages, the root last.
    method FreeEverything(pid: nat)
      requires Inv(kend, St(), 0, 0) && Logged() && Node(pid, 3, 0) in tables
      modifies `refs, `mem, `maps, `tables, `edits
      ensures Inv(kend, St(), 0, 0) && Logged()
      ensures Contents(St()) == E.Without(old(Contents(St())), pid)
      ensures maps == E.Without(old(maps), pid)
      ensures tables == Rest(old(tables), pid, {})
      ensures old(edits) <= edits
    {
      hide Inv, Contents, Rest, Log.Logged;
      FreePages(pid);
      FreeTables(pid, E.Without(maps, pid));
      Log.LogDrop(edits, tables, maps, pid);
      DropIs(tables, maps, pid);
      maps := E.Without(maps, pid);
      tables := Rest(tables, pid, {});
      edits := edits + [Log.Drop(pid)];
    }

    // The vmiter loop. The entries stay in the page table; what is left of
    // the process is the state without them.
    method FreePages(pid: nat)
      requires Inv(kend, St(), 0, 0)
      modifies `refs, `mem
      ensures Inv(kend, St().(maps := E.Without(maps, pid)), 0, 0)
      ensures Contents(St().(maps := E.Without(maps, pid))) == E.Without(old(Contents(St())), pid)
    {
      hide Inv, Contents, E.Without, E.DropBelow;
      ghost var c0 := Contents(St());
      KeysInRange(kend, St(), 0, 0);
      E.DropNone(maps, pid);
      E.DropNone(c0, pid);
      E.DropAll(maps, pid, 768);
      E.DropAll(c0, pid, 768);
      var v := 0;
      while v < 768
        invariant v <= 768
        invariant Inv(kend, St().(maps := E.DropBelow(maps, pid, v)), 0, 0)
        invariant Contents(St().(maps := E.DropBelow(maps, pid, v))) == E.DropBelow(c0, pid, v)
      {
        ghost var left := E.DropBelow(maps, pid, v);
        E.DropStep(maps, pid, v);
        E.DropStep(c0, pid, v);
        FreePage(Slot(pid, v), left);
        v := v + 1;
      }
    }

    // One turn of that loop; `left` are the entries not yet dropped.
    method FreePage(s: Slot, ghost left: map<Slot, Leaf>)
      requires Inv(kend, St().(maps := left), 0, 0)
      requires s in left <==> s in maps
      requires s in maps ==> left[s] == maps[s]
      modifies `refs, `mem
      ensures Inv(kend, St().(maps := left - {s}), 0, 0)
      ensures Contents(St().(maps := left - {s})) == old(Contents(St().(maps := left))) - {s}
    {
      hide Inv, Contents;
      ghost var ph := St().(maps := left);
      KeysInRange(kend, ph, 0, 0);
      if s in maps {
        UserOrKernel(kend, ph, 0, 0, s);
        if maps[s].u && maps[s].page != 184 {
          UnmapInv(kend, ph, 0, s);
          FreeInv(kend, UnmapSt(ph, s), maps[s].page);
          Sizes(kend, ph, 0, 0);
          Kfree(maps[s].page);
          ExactIrrelevant(kend, FreeSt(UnmapSt(ph, s), maps[s].page), maps[s].page, 0);
          assert St().(maps := left - {s}) == FreeSt(UnmapSt(ph, s), maps[s].page);
          return;
        }
        UnmapKernelInv(kend, ph, 0, s);
      } else {
        assert left - {s} == left;
      }
      assert Contents(ph) - {s} == Contents(ph);
    }

    // The ptiter loop and the kfree of the root.
    method FreeTables(pid: nat, ghost left: map<Slot, Leaf>)
      requires Inv(kend, St().(maps := left), 0, 0) && Node(pid, 3, 0) in tables
      requires forall s | s in left :: s.pid != pid
      modifies `refs, `mem
      ensures Inv(kend, St().(maps := left, tables := Rest(tables, pid, {})), 0, 0)
      ensures Contents(St().(maps := left, tables := Rest(tables, pid, {}))) == old(Contents(St().(maps := left)))
    {
      hide Inv, Contents, Rest;
      var root := Node(pid, 3, 0);
      var todo := set n | n in tables && n.pid == pid && n != root;
      RestAll(tables, pid, todo, root);
      while todo != {}
        invariant todo <= tables.Keys && root !in todo && forall n | n in todo :: n.pid == pid
        invariant Inv(kend, St().(maps := left, tables := Rest(tables, pid, todo + {root})), 0, 0)
        invariant Contents(St().(maps := left, tables := Rest(tables, pid, todo + {root})))
                  == old(Contents(St().(maps := left)))
      {
        var n :| n in todo;
        assert todo + {root} - {n} == todo - {n} + {root};
        FreeTable(n, left, pid, todo + {root});
        todo := todo - {n};
      }
      assert {} + {root} - {root} == {};
      FreeTable(root, left, pid, {} + {root});
    }

    method FreeTable(n: Node, ghost left: map<Slot, Leaf>, ghost pid: nat, ghost todo: set<Node>)
      requires n in tables && n.pid == pid && n in todo && forall s | s in left :: s.pid != pid
      requires Inv(kend, St().(maps := left, tables := Rest(tables, pid, todo)), 0, 0)
      modifies `refs, `mem
      ensures Inv(kend, St().(maps := left, tables := Rest(tables, pid, todo - {n})), 0, 0)
      ensures Contents(St().(maps := left, tables := Rest(tables, pid, todo - {n})))
              == old(Contents(St().(maps := left, tables := Rest(tables, pid, todo))))
    {
      hide Inv, Contents;
      ghost var ph := St().(maps := left, tables := Rest(tables, pid, todo));
      assert n in ph.tables && ph.tables[n] == tables[n];
      UnlinkInv(kend, ph, 0, n);
      FreeInv(kend, UnlinkSt(ph, n), tables[n]);
      Sizes(kend, ph, 0, 0);
      Kfree(tables[n]);
      ExactIrrelevant(kend, FreeSt(UnlinkSt(ph, n), tables[n]), tables[n], 0);
      assert Rest(tables, pid, todo - {n}) == Rest(tables, pid, todo) - {n};
    }

    // process_setup: a root, the kernel's entries and the pages of `image`,
    // the stack page among them. The kernel panics when this fails.
    method ProcessSetup(pid: nat, image: seq<ImagePage>) returns (ok: bool)
      requires Valid() && 1 <= pid < 16 && procs[pid] == Free
      requires ImageOk(image)
      modifies this
      ensures ok ==> Valid() && procs == old(procs)[pid := Runnable]
      ensures ok ==> Abs() == E.State(old(Abs()).live + {pid}, old(Abs()).mem + ImageMem(pid, image, |image|))
      ensures ok ==> ImageMarked(maps, pid, image, |image|) && Loaded(old(Abs()), pid, image, Abs())
      ensures ok <==> RoomToSetUp(kend, old(refs), old(tables).Keys, pid, image)
      ensures ok <==> |PagesLeft(kend, old(refs))| >= |image| + if HighImage(image) then 5 else 4
      ensures old(edits) <= edits
    {
      hide Loaded, PagesLeft, HighImage;
      hide Inv, Contents, HasSpace, ImageMem, ImageOk, RoomToSetUp, Log.Logged;
      NoSlotsOf(maps.Keys, tables.Keys, procs, pid);
      SetUpTakes(kend, refs, tables.Keys, pid, image);
      ok := BuildSpace(pid, image);
      if !ok { return; }
      procs := procs[pid := Runnable];
      ImageLoaded(old(Abs()), pid, image);
      ProcsAfterSetup(old(maps).Keys, maps.Keys, old(tables), tables, old(procs), pid, ImageMem(pid, image, |image|).Keys);
    }

    method BuildSpace(pid: nat, image: seq<ImagePage>) returns (ok: bool)
      requires Inv(kend, St(), 0, 0) && Logged() && 1 <= pid < 16 && ImageOk(image)
      requires (forall n | n in tables :: n.pid != pid) && forall s | s in maps :: s.pid != pid
      modifies `refs, `mem, `maps, `tables, `edits
      ensures Inv(kend, St(), 0, 0) && Logged() && Grown(old(tables), tables, pid)
      ensures ok ==> Node(pid, 3, 0) in tables
      ensures ok ==> Contents(St()) == old(Contents(St())) + ImageMem(pid, image, |image|)
      ensures ok ==> maps.Keys == old(maps).Keys + KernelSlots(pid, 256) + ImageMem(pid, image, |image|).Keys
      ensures ok ==> ImageMarked(maps, pid, image, |image|)
      ensures forall s | s in ImageMem(pid, image, |image|) :: s.pid == pid
      ensures ok <==> RoomToSetUp(kend, old(refs), old(tables).Keys, pid, image)
      ensures old(edits) <= edits
    {
      hide Inv, Contents, ImageMem, ImageOk, ImageMarked, ImagePages, Spare, Need, Spent, Grown, Log.Logged;
      ImageOwn(pid, image);
      ghost var tables0, pages := tables, ImagePages(image, |image|);
      NeedRoot(tables0.Keys, pid, Node(pid, 3, 0), Span(1, 256) + pages);
      ok := AddTable(Node(pid, 3, 0), 0, 0);
      GrownNone(tables0, pid);
      if !ok { return; }
      GrownLink(tables0, tables, Node(pid, 3, 0));
      Log.LogRoot(edits, tables0, maps, pid, tables[Node(pid, 3, 0)]);
      edits := edits + [Log.Root(pid, tables[Node(pid, 3, 0)])];
      ghost var tables1, refs1 := tables, refs;
      NeedGrows(tables.Keys, pid, Span(1, 256), Span(1, 256) + pages);
      ok := MapKernel(pid);
      GrownMore(tables0, tables1, tables, pid);
      GrownHas(tables1, tables1, tables, pid, Node(pid, 3, 0)) by { GrownNone(tables1, pid); }
      if !ok { return; }
      SpentNeed(kend, refs1, refs, tables1.Keys, tables.Keys, pid, Span(1, 256), pages);
      ghost var tables2 := tables;
      ok := MapImage(pid, image);
      GrownMore(tables0, tables2, tables, pid);
      GrownHas(tables1, tables2, tables, pid, Node(pid, 3, 0));
    }

    method MapImage(pid: nat, image: seq<ImagePage>) returns (ok: bool)
      requires Inv(kend, St(), 0, 0) && Logged() && Node(pid, 3, 0) in tables && 1 <= pid < 16
      requires (forall s | s in maps && s.pid == pid :: s.v < 256) && ImageOk(image)
      modifies `refs, `mem, `maps, `tables, `edits
      ensures Inv(kend, St(), 0, 0) && Logged() && Grown(old(tables), tables, pid)
      ensures ok ==> Contents(St()) == old(Contents(St())) + ImageMem(pid, image, |image|)
      ensures ok ==> maps.Keys == old(maps).Keys + ImageMem(pid, image, |image|).Keys
      ensures ok ==> ImageMarked(maps, pid, image, |image|)
      ensures ok <==> Need(old(tables).Keys, pid, ImagePages(image, |image|)) + |image| <= old(Spare(kend, refs))
      ensures old(edits) <= edits
    {
      hide Inv, Contents, ImageMem, ImageMarked, ImagePages, Spare, Need, Spent, Grown, Log.Logged;
      ghost var k0, c0, refs0, tables0 := maps.Keys, Contents(St()), refs, tables;
      NoImage(k0, c0, pid, image);
      NoneMarked(maps, pid, image);
      SpentNone(kend, refs, tables.Keys, pid);
      GrownNone(tables, pid);
      var i := 0;
      while i < |image|
        invariant old(edits) <= edits
        invariant i <= |image| && Inv(kend, St(), 0, 0) && Logged() && Node(pid, 3, 0) in tables && Grown(tables0, tables, pid)
        invariant Contents(St()) == c0 + ImageMem(pid, image, i)
        invariant maps.Keys == k0 + ImageMem(pid, image, i).Keys && ImageMarked(maps, pid, image, i)
        invariant Spent(kend, refs0, refs, tables0.Keys, tables.Keys, pid, ImagePages(image, i), i)
      {
        MoreImage(k0, c0, pid, image, i);
        MorePages(image, i);
        ghost var m, refs1, tables1 := maps, refs, tables;
        ok := MapFresh(pid, image[i].v, image[i].w, false, image[i].bytes);
        GrownMore(tables0, tables1, tables, pid);
        if !ok {
          ShortMore(kend, refs0, refs1, tables0.Keys, tables1.Keys, pid, ImagePages(image, i), {image[i].v},
                    ImagePages(image, |image|), i, 1, |image|);
          return;
        }
        SpentMore(kend, refs0, refs1, refs, tables0.Keys, tables1.Keys, tables.Keys, pid, ImagePages(image, i),
                  {image[i].v}, i, 1);
        MoreMarked(m, maps, pid, image, i);
        i := i + 1;
      }
      ok := true;
      SpentFits(kend, refs0, refs, tables0.Keys, tables.Keys, pid, ImagePages(image, |image|), |image|);
    }

    // The identity mapping below PROC_START; page 0 stays unmapped.
    method MapKernel(pid: nat) returns (ok: bool)
      requires Inv(kend, St(), 0, 0) && Logged() && Node(pid, 3, 0) in tables && 1 <= pid < 16
      requires forall s | s in maps :: s.pid != pid
      modifies `refs, `mem, `maps, `tables, `edits
      ensures Inv(kend, St(), 0, 0) && Logged() && Grown(old(tables), tables, pid)
      ensures Contents(St()) == old(Contents(St()))
      ensures ok ==> maps.Keys == old(maps).Keys + KernelSlots(pid, 256)
      ensures ok <==> Need(old(tables).Keys, pid, Span(1, 256)) <= old(Spare(kend, refs))
      ensures ok ==> Spent(kend, old(refs), refs, old(tables).Keys, tables.Keys, pid, Span(1, 256), 0)
      ensures old(edits) <= edits
    {
      hide Inv, Contents, ChainOk, Spare, Need, Spent, Span, Grown, Log.Logged;
      ghost var k0, refs0, nodes0 := maps.Keys, refs, tables.Keys;
      SpentNone(kend, refs, nodes0, pid);
      SpanMore(1, 1, 256);
      GrownNone(tables, pid);
      var v := 1;
      while v < 256
        invariant old(edits) <= edits
        invariant 1 <= v <= 256 && Inv(kend, St(), 0, 0) && Logged() && Node(pid, 3, 0) in tables && Grown(old(tables), tables, pid)
        invariant Contents(St()) == old(Contents(St()))
        invariant maps.Keys == k0 + KernelSlots(pid, v)
        invariant Spent(kend, refs0, refs, nodes0, tables.Keys, pid, Span(1, v), 0)
      {
        ghost var refs1, tables1 := refs, tables;
        SpanMore(1, v, 256);
        ok := EnsureTables(pid, v, 0, 0);
        GrownMore(old(tables), tables1, tables, pid);
        if !ok {
          ShortMore(kend, refs0, refs1, nodes0, tables1.Keys, pid, Span(1, v), {v}, Span(1, 256), 0, 0, 0);
          return;
        }
        SpentMore(kend, refs0, refs1, refs, nodes0, tables1.Keys, tables.Keys, pid, Span(1, v), {v}, 0, 0);
        KernelMapInv(kend, St(), 0, Slot(pid, v));
        Log.LogSet(edits, tables, maps, Slot(pid, v), KernelLeaf(v));
        maps := maps[Slot(pid, v) := KernelLeaf(v)];
        edits := edits + [Log.Set(Slot(pid, v), KernelLeaf(v))];
        assert KernelSlots(pid, v + 1) == KernelSlots(pid, v) + {Slot(pid, v)};
        v := v + 1;
      }
      ok := true;
      SpentFits(kend, refs0, refs, nodes0, tables.Keys, pid, Span(1, 256), 0);
    }

    // ---- exit and kill ----

    // syscall_exit, also taken when a write fault runs out of memory.
    method Exit(pid: nat)
      requires Valid() && pid < 16 && procs[pid] != Free
      modifies this
      ensures Valid() && Abs() == E.DoExit(old(Abs()), pid)
      ensures procs == old(procs)[pid := Free]
      ensures old(edits) <= edits
    {
      hide Inv, Contents, Log.Logged;
      FreeEverything(pid);
      procs := procs[pid := Free];
      ProcsAfterExit(old(maps), old(tables), old(procs), pid);
    }

    method Kill(pid: nat) returns (r: int)
      requires Valid() && pid < 16
      modifies this
      ensures Valid()
      ensures r == if old(procs)[pid] == Runnable then 0 else -1
      ensures Abs() == if r == 0 then E.DoExit(old(Abs()), pid) else old(Abs())
      ensures old(edits) <= edits
    {
      hide Log.Logged;
      if procs[pid] != Runnable { return -1; }
      Exit(pid);
      r := 0;
    }

    // ---- mmap and munmap ----

    // A new user page: kalloc, try_map, then its bytes (all zero for mmap).
    method MapFresh(pid: nat, v: nat, w: bool, c: bool, bytes: seq<Byte>) returns (ok: bool)
      requires Inv(kend, St(), 0, 0) && Logged() && Node(pid, 3, 0) in tables && 1 <= pid < 16 && 256 <= v < 768 && Slot(pid, v) !in maps
      requires |bytes| == 4096
      modifies `refs, `mem, `maps, `tables, `edits
      ensures Inv(kend, St(), 0, 0) && Logged() && Node(pid, 3, 0) in tables
      ensures Contents(St()) == if ok then old(Contents(St()))[Slot(pid, v) := bytes] else old(Contents(St()))
      ensures maps.Keys == if ok then old(maps).Keys + {Slot(pid, v)} else old(maps).Keys
      ensures ok ==> maps == old(maps)[Slot(pid, v) := Leaf(maps[Slot(pid, v)].page, w, true, c)]
      ensures !ok ==> maps == old(maps)
      ensures Grown(old(tables), tables, pid)
      ensures ok <==> Need(old(tables).Keys, pid, {v}) + 1 <= old(Spare(kend, refs))
      ensures ok ==> Spent(kend, old(refs), refs, old(tables).Keys, tables.Keys, pid, {v}, 1)
      ensures old(edits) <= edits
    {
      hide Inv, Contents, Idle, Spare, Need, Spent, ChainOk, Grown, Log.Logged;
      ghost var was := St();
      Sizes(kend, was, 0, 0);
      GrownNone(tables, pid);
      var p;
      ok, p := Kalloc();
      if !ok {
        SpareNone(kend, refs);
        return;
      }
      AllocInv(kend, was, 0, p, Fill(0xCC));
      SpareTaken(kend, was.refs, p);
      ok := EnsureTables(pid, v, p, 1);
      if !ok {
        FreeInv(kend, St(), p);
        Sizes(kend, St(), p, 1);
        ghost var ph := St();
        Kfree(p);
        ExactIrrelevant(kend, FreeSt(ph, p), p, 0);
        return;
      }
      SpentPage(kend, was.refs, p, refs, was.tables.Keys, tables.Keys, pid, {v});
      ghost var ph := St();
      IdleWriteInv(kend, ph, p, bytes);
      ghost var zeroed := ph.(mem := ph.mem[p := bytes]);
      MapInv(kend, zeroed, p, Slot(pid, v), w, c);
      ExactIrrelevant(kend, MapSt(zeroed, Slot(pid, v), Leaf(p, w, true, c)), p, 0);
      Log.LogSet(edits, tables, maps, Slot(pid, v), Leaf(p, w, true, c));
      maps := maps[Slot(pid, v) := Leaf(p, w, true, c)];
      edits := edits + [Log.Set(Slot(pid, v), Leaf(p, w, true, c))];
      mem := mem[p := bytes];
      assert St() == MapSt(zeroed, Slot(pid, v), Leaf(p, w, true, c));
    }

    // kfree(it.kptr()); it.map(it.kptr(), 0)
    method UnmapPage(pid: nat, v: nat)
      requires Inv(kend, St(), 0, 0) && Logged() && 256 <= v && Slot(pid, v) in maps
      modifies `refs, `mem, `maps, `edits
      ensures Inv(kend, St(), 0, 0) && Logged()
      ensures Contents(St()) == old(Contents(St())) - {Slot(pid, v)}
      ensures maps == old(maps) - {Slot(pid, v)}
      ensures old(edits) <= edits
    {
      hide Inv, Contents, Log.Logged;
      var s := Slot(pid, v);
      var p := maps[s].page;
      ghost var ph := St();
      UnmapInv(kend, ph, 0, s);
      FreeInv(kend, UnmapSt(ph, s), p);
      Sizes(kend, ph, 0, 0);
      Kfree(p);
      EntryOfInv(kend, ph, 0, s);
      Log.LogClear(edits, tables, maps, s);
      maps := maps - {s};
      edits := edits + [Log.Clear(s)];
      ExactIrrelevant(kend, FreeSt(UnmapSt(ph, s), p), p, 0);
      assert St() == FreeSt(UnmapSt(ph, s), p);
    }

    // find_free_vmemory
    method FindFreeVmemory(pid: nat, len: nat) returns (a: nat)
      ensures a == F.FindFree(maps.Keys, pid, len / 4096)
    {
      var npages, run := len / 4096, 0;
      a := 0;
      var v := 256;
      while v < 768
        invariant 256 <= v <= 768
        invariant F.FindFree(maps.Keys, pid, npages) == F.Scan(maps.Keys, pid, npages, v, run, a)
      {
        if Slot(pid, v) in maps {
          run, a := 0, 0;
        } else {
          run := run + 1;
          if run == 1 { a := v; }
          if run == npages { break; }
        }
        v := v + 1;
      }
    }

    // Where syscall_mmap puts the mapping: at the hint when it is good and
    // unmapped, else at the lowest free run, 0 for nowhere.
    method Place(pid: nat, addr: nat, len: nat) returns (a: nat)
      requires len > 0 && len % 4096 == 0
      ensures a == Spot(maps.Keys, pid, addr, len)
      ensures a != 0 && F.Trusted(maps.Keys, pid, Pages(len)) ==> RightPlace(maps.Keys, pid, addr, len, a)
    {
      PlaceRight(maps.Keys, pid, addr, len);
      if addr == 0 || addr + len > 0x300000 || addr >= 0x300000 || addr % 4096 != 0 || addr < 0x100000 {
        a := FindFreeVmemory(pid, len);
        return;
      }
      a := addr / 4096;
      var v := a;
      while v * 4096 < addr + len
        invariant a <= v <= a + len / 4096
        invariant forall i: nat | a <= i < v :: Slot(pid, i) !in maps
        decreases a + len / 4096 - v
      {
        if Slot(pid, v) in maps {
          assert !F.Window(maps.Keys, pid, a, len / 4096);
          a := FindFreeVmemory(pid, len);
          return;
        }
        v := v + 1;
      }
    }

    // syscall_mmap: all pages or none. The search is right when there is a
    // free run or the top page is mapped, which is what the caller must see to.
    // The result is a page number; the address is 4096 times that.
    method Mmap(pid: nat, addr: nat, len: nat, w: bool, c: bool) returns (r: nat)
      requires Valid() && 1 <= pid < 16 && procs[pid] == Runnable && len % 4096 == 0
      requires len > 0 ==> F.Trusted(maps.Keys, pid, Pages(len))
      modifies `refs, `mem, `maps, `tables, `edits
      ensures Valid()
      ensures r == 0 ==> Abs() == old(Abs()) && maps == old(maps)
      ensures r != 0 ==>
                && F.Window(old(maps).Keys, pid, r, Pages(len)) && len > 0
                && Abs() == E.DoMmap(old(Abs()), pid, r, Pages(len))
                && MarkedSo(old(maps), maps, pid, r, r + Pages(len), w, c)
      ensures r != 0 ==> r == Spot(old(maps).Keys, pid, addr, len) && RightPlace(old(maps).Keys, pid, addr, len, r)
      ensures r != 0 <==>
                && len > 0 && (exists a: nat :: F.Window(old(maps).Keys, pid, a, Pages(len)))
                && RoomToMap(kend, old(refs), old(tables).Keys, pid, Spot(old(maps).Keys, pid, addr, len), Pages(len))
      ensures old(edits) <= edits
    {
      hide Inv, Contents, ProcsOk, F.FindFree, F.Window, F.Trusted, MarkedSo, Pages, GoodHint, Spot, RoomToMap, Log.Logged;
      hide RightPlace;
      if len == 0 { return 0; }
      var a := Place(pid, addr, len);
      SomePages(len);
      SpotRight(maps.Keys, pid, addr, len);
      SpotPlace(maps.Keys, pid, addr, len);
      if a == 0 { return 0; }
      var ok := MapAt(pid, a, Pages(len), w, c);
      r := if ok then a else 0;
    }

    method MapAt(pid: nat, a: nat, n: nat, w: bool, c: bool) returns (ok: bool)
      requires Valid() && 1 <= pid < 16 && procs[pid] == Runnable && F.Window(maps.Keys, pid, a, n)
      modifies `refs, `mem, `maps, `tables, `edits
      ensures Valid()
      ensures Abs() == if ok then E.DoMmap(old(Abs()), pid, a, n) else old(Abs())
      ensures if ok then MarkedSo(old(maps), maps, pid, a, a + n, w, c) else maps == old(maps)
      ensures ok <==> RoomToMap(kend, old(refs), old(tables).Keys, pid, a, n)
      ensures old(edits) <= edits
    {
      hide Inv, Contents, HasSpace, F.Window, MarkedSo, Spare, Need, Span, Grown, ProcsOk, Log.Logged;
      RootThere(maps.Keys, tables.Keys, procs, pid);
      ok := MapRange(pid, a, n, w, c);
      ProcsAfterMap(old(maps).Keys, maps.Keys, old(tables), tables, procs, pid);
    }

    method MapRange(pid: nat, a: nat, n: nat, w: bool, c: bool) returns (ok: bool)
      requires Inv(kend, St(), 0, 0) && Logged() && Node(pid, 3, 0) in tables && 1 <= pid < 16 && F.Window(maps.Keys, pid, a, n)
      modifies `refs, `mem, `maps, `tables, `edits
      ensures Inv(kend, St(), 0, 0) && Logged() && Node(pid, 3, 0) in tables && Grown(old(tables), tables, pid)
      ensures ok ==> Contents(St()) == old(Contents(St())) + E.Zeros(pid, a, a + n)
      ensures ok ==> maps.Keys == old(maps).Keys + E.Zeros(pid, a, a + n).Keys
      ensures ok ==> MarkedSo(old(maps), maps, pid, a, a + n, w, c)
      ensures !ok ==> Contents(St()) == old(Contents(St())) && maps == old(maps)
      ensures ok <==> Need(old(tables).Keys, pid, Span(a, a + n)) + n <= old(Spare(kend, refs))
      ensures old(edits) <= edits
    {
      hide Inv, Contents, E.Zeros, MarkedSo, Undone, Spare, Need, Spent, Span, Grown, Log.Logged;
      ghost var m0, k0, c0 := maps, maps.Keys, Contents(St());
      ghost var refs0, tables0 := refs, tables;
      SpentNone(kend, refs, tables0.Keys, pid);
      SpanMore(a, a, a + n);
      GrownNone(tables, pid);
      KeysInRange(kend, St(), 0, 0);
      E.NoZeros(k0, c0, pid, a);
      StartMarks(maps, pid, a, w, c);
      var v := a;
      while v < a + n
        invariant old(edits) <= edits
        invariant a <= v <= a + n
        invariant Inv(kend, St(), 0, 0) && Logged() && Node(pid, 3, 0) in tables && Grown(tables0, tables, pid)
        invariant Contents(St()) == c0 + E.Zeros(pid, a, v)
        invariant maps.Keys == k0 + E.Zeros(pid, a, v).Keys && MarkedSo(m0, maps, pid, a, v, w, c)
        invariant Spent(kend, refs0, refs, tables0.Keys, tables.Keys, pid, Span(a, v), v - a)
      {
        E.MoreZeros(k0, c0, pid, a, v);
        SpanMore(a, v, a + n);
        ghost var m, refs1, tables1 := maps, refs, tables;
        ok := MapFresh(pid, v, w, c, Fill(0));
        GrownMore(tables0, tables1, tables, pid);
        if !ok {
          ShortMore(kend, refs0, refs1, tables0.Keys, tables1.Keys, pid, Span(a, v), {v}, Span(a, a + n), v - a, 1, n);
          UnmapRange(pid, a, v, k0, c0);
          MarksUndone(m0, m, maps, pid, a, v, w, c);
          return;
        }
        MoreMarks(m0, m, maps, pid, a, v, w, c);
        SpentMore(kend, refs0, refs1, refs, tables0.Keys, tables1.Keys, tables.Keys, pid, Span(a, v), {v}, v - a, 1);
        v := v + 1;
      }
      ok := true;
      SpentFits(kend, refs0, refs, tables0.Keys, tables.Keys, pid, Span(a, a + n), n);
    }

    // The rollback loop.
    method UnmapRange(pid: nat, a: nat, end: nat, ghost k0: set<Slot>, ghost c0: map<Slot, seq<Byte>>)
      requires Inv(kend, St(), 0, 0) && Logged() && 256 <= a <= end && forall i: nat | a <= i < end :: Slot(pid, i) !in k0
      requires c0.Keys <= k0
      requires Contents(St()) == c0 + E.Zeros(pid, a, end) && maps.Keys == k0 + E.Zeros(pid, a, end).Keys
      modifies `refs, `mem, `maps, `edits
      ensures Inv(kend, St(), 0, 0) && Logged()
      ensures Contents(St()) == c0 && maps.Keys == k0
      ensures Undone(old(maps), maps)
      ensures old(edits) <= edits
    {
      hide Inv, Contents, E.Zeros, Log.Logged;
      var v := a;
      while v < end
        invariant old(edits) <= edits
        invariant a <= v <= end
        invariant Inv(kend, St(), 0, 0) && Logged()
        invariant Contents(St()) == c0 + E.Zeros(pid, v, end)
        invariant maps.Keys == k0 + E.Zeros(pid, v, end).Keys && Undone(old(maps), maps)
      {
        E.FewerZeros(k0, c0, pid, v, end);
        UnmapPage(pid, v);
        v := v + 1;
      }
      E.NoZeros(k0, c0, pid, end);
    }

    // syscall_munmap of ranges without the console page. Entries below the
    // first user page are the kernel's and stay. From an unaligned address on,
    // no page may be mapped.
    method Munmap(pid: nat, addr: nat, len: nat)
      requires Valid() && 1 <= pid < 16 && procs[pid] == Runnable
      requires Unmappable(maps, pid, addr, len)
      modifies `refs, `mem, `maps, `edits
      ensures Valid()
      ensures Abs() == E.DoMunmap(old(Abs()), pid, addr / 4096, E.PagesTouched(len))
      ensures maps == E.Cut(old(maps), pid, FirstUser(addr / 4096), addr / 4096 + E.PagesTouched(len))
      ensures old(edits) <= edits
    {
      hide Inv, Contents, HasSpace, E.Cut, ProcsOk, E.PagesTouched, Log.Logged;
      ghost var a, n, lo := addr / 4096, E.PagesTouched(len), FirstUser(addr / 4096);
      ghost var k0, c0 := maps, Contents(St());
      KeysInRange(kend, St(), 0, 0);
      E.CutEarly(k0, pid, lo, a);
      E.CutEarly(c0, pid, lo, a);
      var va := addr;
      while va < addr + len && va < 0x300000
        invariant old(edits) <= edits
        invariant addr <= va && va % 4096 == addr % 4096
        invariant a <= va / 4096 <= a + n || (va == addr && n == 0)
        invariant Inv(kend, St(), 0, 0) && Logged()
        invariant Contents(St()) == E.Cut(c0, pid, lo, va / 4096) && maps == E.Cut(k0, pid, lo, va / 4096)
        decreases addr + len - va
      {
        var v := va / 4096;
        InRange(addr, len, va);
        CutTurn(k0, pid, lo, v);
        CutTurn(c0, pid, lo, v);
        KeysInRange(kend, St(), 0, 0);
        if Slot(pid, v) in maps {
          UserOrKernel(kend, St(), 0, 0, Slot(pid, v));
          CutWas(k0, pid, lo, v, Slot(pid, v));
        }
        if Slot(pid, v) in maps && maps[Slot(pid, v)].u {
          UnmapPage(pid, v);
        }
        va := va + 4096;
      }
      ghost var v := va / 4096;
      InRange(addr, len, va);
      E.CutRest(c0, pid, lo, v, a + n);
      E.CutRest(k0, pid, lo, v, a + n);
      E.CutLow(c0, pid, a, lo, a + n);
      ProcsAfterUnmap(k0, maps.Keys, tables.Keys, procs, pid, lo, a + n);
    }

    // ---- Page faults ----

    // The write-fault case of exception(); `v` is the faulting page.
    method WriteFault(pid: nat, v: nat) returns (out: FaultResult)
      requires Valid() && 1 <= pid < 16 && procs[pid] == Runnable
      requires Slot(pid, v) in maps ==> !(maps[Slot(pid, v)].w && maps[Slot(pid, v)].u)
      modifies this
      ensures Valid()
      ensures out == Unhandled <==> !(256 <= v && Slot(pid, v) in old(maps))
      ensures out == Killed <==> Copies(old(refs), old(maps), Slot(pid, v)) && old(Spare(kend, refs)) == 0
      ensures out == Resolved ==> Abs() == old(Abs()) && procs == old(procs) && Slot(pid, v) in old(maps)
      ensures out == Resolved && Slot(pid, v) in old(maps) ==>
                && Slot(pid, v) in maps && maps[Slot(pid, v)].page < |old(refs)|
                && maps == old(maps)[Slot(pid, v) := Leaf(maps[Slot(pid, v)].page, true, old(maps)[Slot(pid, v)].u, false)]
                && if Copies(old(refs), old(maps), Slot(pid, v)) then old(refs)[maps[Slot(pid, v)].page] == 0
                   else maps[Slot(pid, v)].page == old(maps)[Slot(pid, v)].page && refs == old(refs) && mem == old(mem)
      ensures out == Killed ==> Abs() == E.DoExit(old(Abs()), pid)
      ensures out == Unhandled ==> Abs() == old(Abs()) && procs[pid] == Faulted
      ensures old(edits) <= edits
    {
      hide Inv, Contents, HasSpace, Idle, Log.Logged, Spare;
      var s := Slot(pid, v);
      KeysInRange(kend, St(), 0, 0);
      if v >= 256 && v != 184 && s in maps {
        UserOrKernel(kend, St(), 0, 0, s);
        EntryOfInv(kend, St(), 0, s);
        if refs[maps[s].page] == 1 {
          Reenable(s);
          return Resolved;
        }
        var copied := CopyPage(s);
        if copied {
          return Resolved;
        }
        Exit(pid);
        return Killed;
      }
      procs := procs[pid := Faulted];
      SameLive(old(procs), procs, maps.Keys, tables.Keys, pid);
      out := Unhandled;
    }

    method Reenable(s: Slot)
      requires Inv(kend, St(), 0, 0) && Logged() && s in maps && User(s) && maps[s].page < |refs| && refs[maps[s].page] == 1
      requires maps[s].u
      modifies `maps, `edits
      ensures Inv(kend, St(), 0, 0) && Logged() && Contents(St()) == old(Contents(St()))
      ensures maps.Keys == old(maps).Keys && s in maps && maps[s].w
      ensures maps == old(maps)[s := old(maps)[s].(w := true, c := false)]
      ensures old(edits) <= edits
    {
      hide Inv, Contents, Log.Logged;
      var l := maps[s];
      SoleWhenOne(kend, St(), 0, s);
      RemarkInv(kend, St(), 0, s, Leaf(l.page, true, l.u, false));
      EntryOfInv(kend, St(), 0, s);
      Log.LogSet(edits, tables, maps, s, Leaf(l.page, true, l.u, false));
      maps := maps[s := Leaf(l.page, true, l.u, false)];
      edits := edits + [Log.Set(s, Leaf(l.page, true, l.u, false))];
    }

    // kalloc, try_map, memcpy, kfree of the shared page
    method CopyPage(s: Slot) returns (ok: bool)
      requires Inv(kend, St(), 0, 0) && Logged() && s in maps && User(s)
      modifies `refs, `mem, `maps, `edits
      ensures Inv(kend, St(), 0, 0) && Logged() && Contents(St()) == old(Contents(St()))
      ensures maps.Keys == old(maps).Keys
      ensures ok ==> s in maps && maps == old(maps)[s := old(maps)[s].(page := maps[s].page, w := true, c := false)]
      ensures ok ==> maps[s].page < |old(refs)| && old(refs)[maps[s].page] == 0
      ensures !ok ==> St() == old(St())
      ensures ok <==> old(Spare(kend, refs)) > 0
      ensures old(edits) <= edits
    {
      hide Inv, Contents, Idle, Log.Logged, Spare;
      ghost var was := St();
      Sizes(kend, was, 0, 0);
      var n;
      ok, n := Kalloc();
      if !ok {
        SpareNone(kend, refs);
        return;
      }
      SpareTaken(kend, was.refs, n);
      AllocInv(kend, was, 0, n, Fill(0xCC));
      ghost var ph := St();
      CopyInv(kend, ph, s, n);
      var l := maps[s];
      EntryOfInv(kend, was, 0, s);
      Log.LogSet(edits, tables, maps, s, Leaf(n, true, l.u, false));
      maps := maps[s := Leaf(n, true, l.u, false)];
      edits := edits + [Log.Set(s, Leaf(n, true, l.u, false))];
      mem := mem[n := mem[l.page]];
      assert St() == CopySt(ph, s, n);
      FreeInv(kend, St(), l.page);
      ph := St();
      Kfree(l.page);
      ExactIrrelevant(kend, FreeSt(ph, l.page), l.page, 0);
    }

    // ---- Whole runs ----

    // The calls the kernel is proved for: the caller is runnable and the
    // arguments are of the usual kind.
    predicate Allowed(pid: nat, call: E.Call)
      reads this
    {
      && 1 <= pid < 16 && pid < |procs| && procs[pid] == Runnable
      && match call
         case Load(_, off) => off < 4096
         case Store(_, off, _) => off < 4096
         case Kill(q) => q < 16 && q != pid
         case Mmap(_, len, _, _) => len % 4096 == 0 && (len > 0 ==> F.Trusted(maps.Keys, pid, len / 4096))
         case Munmap(addr, len) => Unmappable(maps, pid, addr, len)
         case _ => true
    }

    // Copy-on-write refines eager copying, one call at a time.
    method Step(pid: nat, call: E.Call) returns (ans: E.Answer)
      requires Valid() && Allowed(pid, call)
      modifies this
      ensures Valid()
      ensures pid in old(Abs()).live && E.Fits(old(Abs()), pid, call, ans)
      ensures Abs() == E.Next(old(Abs()), pid, call, ans)
      ensures C.Effect(old(Abs()), pid, call, ans, Abs())
      ensures Answered(kend, old(Now()), pid, call, ans) && Refuses(kend, old(Now()), pid, call, ans)
      ensures old(edits) <= edits
    {
      hide Refuses, Upper, PagesLeft;
      hide C.Effect, C.OwnMem, C.MunmapFinds, RightPlace, Unmappable;
      hide Inv, Contents, ProcsOk, Live, F.Window, FirstFree, RoomToFork, RoomToMap, Spot, SharedBelow, MarkedSo, E.Fits;
      hide Log.Logged, Readable, Copies, Spare;
      ghost var st, now := Abs(), Now();
      AbsOwn();
      OnlyReadable(pid, call);
      FirstTables(pid);
      LiveOnes(procs);
      ProcsSize(maps.Keys, tables.Keys, procs);
      match call {
        case Load(v, off) => ans := Load(pid, v, off);
        case Store(v, off, b) => ans := Store(pid, v, off, b);
        case Fork =>
          var r := Fork(pid);
          ans := if r == -1 then E.Failed else E.Number(r);
          ForkFits(st, old(procs), pid, r);
        case Exit =>
          Exit(pid);
          ans := E.Gone;
          ExitFits(st, pid);
        case Kill(q) =>
          var r := Kill(q);
          ans := if r == 0 then E.Done else E.Failed;
          KillFits(st, pid, q, r == 0);
        case Mmap(addr, len, w, c) =>
          KeysInRange(kend, St(), 0, 0);
          var a := Mmap(pid, addr, len, w, c);
          ans := if a == 0 then E.Failed else E.Number(a);
          MmapFits(st, old(maps).Keys, pid, addr, len, w, c, a);
        case Munmap(addr, len) =>
          Munmap(pid, addr, len);
          ans := E.Done;
          MunmapFits(st, pid, addr, len);
      }
      C.NextEffect(st, pid, call, ans);
      AnswerRefuses(kend, now, pid, call, ans);
    }

    // A live process has its first page-table page of each level.
    lemma FirstTables(pid: nat)
      requires Valid() && pid < 16 && procs[pid] != Free
      ensures Slot(pid, 1) in maps && {Node(pid, 0, 0), Node(pid, 1, 0), Node(pid, 2, 0)} <= tables.Keys
    {
      hide Contents, EntryOk, Uses;
      assert HasSpace(maps.Keys, tables.Keys, pid);
      EntryOf(St(), Slot(pid, 1));
      FirstNodes(St(), pid);
    }

    // What the processes see belongs to live ones, and is readable.
    lemma AbsOwn()
      requires Valid()
      ensures C.OwnMem(Abs())
    {
      hide Inv, Contents;
      KeysInRange(kend, St(), 0, 0);
      LiveOnes(procs);
    }

    lemma OnlyReadable(pid: nat, call: E.Call)
      requires Valid() && Allowed(pid, call)
      ensures C.MunmapFinds(Abs(), pid, call)
    {
      hide Inv, Contents;
      KeysInRange(kend, St(), 0, 0);
      if call.Munmap? && call.addr % 4096 != 0 {
        forall v: nat | call.addr / 4096 <= v < call.addr / 4096 + E.PagesTouched(call.len)
          ensures Slot(pid, v) !in Contents(St())
        {
          assert !Readable(maps, Slot(pid, v));
          if Slot(pid, v) in maps { UserOrKernel(kend, St(), 0, 0, Slot(pid, v)); }
        }
      }
    }

    // Over every run: the calls are made one after the other, up to the first
    // that is not allowed; the answers, and the bytes each process sees at the
    // end, are those of the machine whose fork copies at once. `states` are the
    // states before each call and at the end: each answer is a refusal, a fault
    // or the end of the process exactly when the state before it makes it one.
    method Run(calls: seq<(nat, E.Call)>) returns (trace: seq<E.Event>, ghost states: seq<Sight>)
      requires Valid()
      modifies this
      ensures Valid()
      ensures |trace| <= |calls|
      ensures forall i | 0 <= i < |trace| :: trace[i].pid == calls[i].0 && trace[i].call == calls[i].1
      ensures |trace| < |calls| ==> !Allowed(calls[|trace|].0, calls[|trace|].1)
      ensures E.Explains(old(Abs()), trace, Abs())
      ensures |states| == |trace| + 1 && states[0] == old(Now()) && states[|trace|] == Now()
      ensures forall i | 0 <= i < |trace| :: StepSeen(kend, states[i], trace[i], states[i + 1])
      ensures old(edits) <= edits
    {
      hide Inv, Contents, ProcsOk, E.Fits, E.Next, Allowed, Log.Logged, Answered, C.Effect;
      trace, states := [], [Now()];
      while |trace| < |calls| && Allowed(calls[|trace|].0, calls[|trace|].1)
        invariant old(edits) <= edits
        invariant Valid() && |trace| <= |calls|
        invariant forall i | 0 <= i < |trace| :: trace[i].pid == calls[i].0 && trace[i].call == calls[i].1
        invariant E.Explains(old(Abs()), trace, Abs())
        invariant |states| == |trace| + 1 && states[0] == old(Now()) && states[|trace|] == Now()
        invariant forall i | 0 <= i < |trace| :: StepSeen(kend, states[i], trace[i], states[i + 1])
        decreases |calls| - |trace|
      {
        var (pid, call) := calls[|trace|];
        ghost var before := Abs();
        var ans := Step(pid, call);
        E.ExplainsMore(old(Abs()), trace, before, E.Event(pid, call, ans));
        trace, states := trace + [E.Event(pid, call, ans)], states + [Now()];
      }
    }

    // ---- What user code does ----

    method Load(pid: nat, v: nat, off: nat) returns (ans: E.Answer)
      requires Valid() && 1 <= pid < 16 && procs[pid] == Runnable && off < 4096
      modifies `procs
      ensures Valid() && Abs() == old(Abs())
      ensures E.Fits(old(Abs()), pid, E.Call.Load(v, off), ans)
      ensures ans.Fault? || procs == old(procs)
      ensures ans == E.Fault <==> !Readable(maps, Slot(pid, v))
      ensures ans == E.Console <==> Readable(maps, Slot(pid, v)) && v == 184
    {
      hide Inv, Contents, HasSpace, Log.Logged;
      var s := Slot(pid, v);
      KeysInRange(kend, St(), 0, 0);
      if s in maps {
        UserOrKernel(kend, St(), 0, 0, s);
        if maps[s].u {
          if v == 184 { return E.Console; }
          ContentsAt(kend, St(), 0, 0, s);
          return E.Value(mem[maps[s].page][off]);
        }
      }
      procs := procs[pid := Faulted];
      SameLive(old(procs), procs, maps.Keys, tables.Keys, pid);
      ans := E.Fault;
    }

    // A store, taking the page fault if there is one and then retrying.
    method Store(pid: nat, v: nat, off: nat, b: Byte) returns (ans: E.Answer)
      requires Valid() && 1 <= pid < 16 && procs[pid] == Runnable && off < 4096
      modifies this
      ensures Valid()
      ensures E.Fits(old(Abs()), pid, E.Call.Store(v, off, b), ans)
      ensures Abs() == E.Next(old(Abs()), pid, E.Call.Store(v, off, b), ans)
      ensures ans == E.Fault <==> !Readable(old(maps), Slot(pid, v))
      ensures ans == E.Console <==> Readable(old(maps), Slot(pid, v)) && v == 184
      ensures ans == E.Gone <==> Copies(old(refs), old(maps), Slot(pid, v)) && old(Spare(kend, refs)) == 0
      ensures old(edits) <= edits
      ensures ans == E.Done ==> C.Stored(old(Abs()), pid, v, off, b, Abs())
    {
      hide Inv, Contents, ProcsOk, Live, E.DoStore, E.DoExit, Log.Logged, Spare, C.Stored;
      var s := Slot(pid, v);
      KeysInRange(kend, St(), 0, 0);
      if s in maps {
        UserOrKernel(kend, St(), 0, 0, s);
        if v == 184 { return E.Console; }
      }
      if !(s in maps && maps[s].u && maps[s].w) {
        var out := WriteFault(pid, v);
        if out == Killed { return E.Gone; }
        if out == Unhandled { return E.Fault; }
        KeysInRange(kend, St(), 0, 0);
      }
      WriteByte(s, off, b);
      ans := E.Done;
    }

    method WriteByte(s: Slot, off: nat, b: Byte)
      requires Valid() && s in maps && User(s) && maps[s].w && off < 4096
      modifies `mem
      ensures Valid() && s in old(Contents(St())) && off < |old(Contents(St()))[s]|
      ensures Abs() == E.DoStore(old(Abs()), s.pid, s.v, off, b)
      ensures C.Stored(old(Abs()), s.pid, s.v, off, b, Abs())
    {
      hide Inv, Contents, HasSpace, Log.Logged, C.Stored;
      ContentsAt(kend, St(), 0, 0, s);
      C.StoreEffect(Abs(), s.pid, s.v, off, b);
      ContentsAt(kend, St(), 0, 0, s);
      var page: seq<Byte> := mem[maps[s].page];
      var page': seq<Byte> := page[off := b];
      StoreInv(kend, St(), 0, s, page');
      mem := mem[maps[s].page := page'];
    }

    // ---- fork ----

    // One page of fork: kernel entries are copied, user pages shared
    // read-only and marked copy-on-write in parent and child.
    method ForkPage(pid: nat, c: nat, v: nat) returns (ok: bool)
      requires Inv(kend, St(), 0, 0) && Logged() && Node(c, 3, 0) in tables && 1 <= c < 16 && c != pid && v < 768 && Slot(c, v) !in maps
      modifies `refs, `mem, `maps, `tables, `edits
      ensures Inv(kend, St(), 0, 0) && Logged() && Node(c, 3, 0) in tables && Grown(old(tables), tables, c)
      ensures !ok ==> Contents(St()) == old(Contents(St())) && maps == old(maps)
      ensures ok ==> maps.Keys == E.CopyOne(old(maps), pid, c, v).Keys
      ensures ok ==> maps == SharedPage(old(maps), pid, c, v)
      ensures ok ==> Contents(St()) == E.CopyOne(old(Contents(St())), pid, c, v)
      ensures ok <==> Need(old(tables).Keys, c, MappedAt(old(maps).Keys, pid, v)) <= old(Spare(kend, refs))
      ensures ok ==> Spent(kend, old(refs), refs, old(tables).Keys, tables.Keys, c, MappedAt(old(maps).Keys, pid, v), 0)
      ensures old(edits) <= edits
    {
      hide Inv, Contents, Idle, ChainOk, Spare, Need, Spent, Grown, Log.Logged;
      var s, t := Slot(pid, v), Slot(c, v);
      KeysInRange(kend, St(), 0, 0);
      ok := true;
      if s !in maps {
        SpentNone(kend, refs, tables.Keys, c);
        SpentFits(kend, refs, refs, tables.Keys, tables.Keys, c, {}, 0);
        GrownNone(tables, c);
        return;
      }
      UserOrKernel(kend, St(), 0, 0, s);
      if v < 256 || v == 184 {
        ok := EnsureTables(c, v, 0, 0);
        if !ok { return; }
        KernelMapInv(kend, St(), 0, t);
        Log.LogSet(edits, tables, maps, t, maps[s]);
        edits := edits + [Log.Set(t, maps[s])];
        maps := maps[t := maps[s]];
      } else if maps[s].u {
        ok := EnsureTables(c, v, 0, 0);
        if !ok { return; }
        ghost var refs1 := refs;
        SharePage(s, t);
        SpareStays(kend, old(refs), refs1, old(tables).Keys, tables.Keys, c, {v}, maps[s].page, refs[maps[s].page]);
      }
    }

    // try_map of the child's entry and the parent's, and the count. The
    // parent's page-table pages are all there: its try_map cannot fail.
    method SharePage(s: Slot, t: Slot)
      requires Inv(kend, St(), 0, 0) && Logged() && s in maps && User(s)
      requires t !in maps && t.v == s.v && 1 <= t.pid < 16 && ChainOk(tables, t.pid, t.v)
      modifies `refs, `maps, `edits
      ensures Inv(kend, St(), 0, 0) && Logged() && s in old(Contents(St()))
      ensures Contents(St()) == old(Contents(St()))[t := old(Contents(St()))[s]]
      ensures maps == old(maps)[t := SharedLeaf(old(maps)[s])][s := SharedLeaf(old(maps)[s])]
      ensures maps[s].page < |old(refs)| && old(refs)[maps[s].page] != 0
      ensures maps[s].page < |refs| && refs[maps[s].page] != 0
      ensures refs == old(refs)[maps[s].page := refs[maps[s].page]]
      ensures old(edits) <= edits
    {
      hide Inv, Contents, ChainOk, Log.Logged;
      ForkInv(kend, St(), 0, s, t);
      EntryOfInv(kend, St(), 0, s);
      ghost var forked := ForkSt(St(), s, t);
      var l := maps[s];
      Log.LogSet(edits, tables, maps, t, SharedLeaf(l));
      Log.LogSet(edits + [Log.Set(t, SharedLeaf(l))], tables, maps[t := SharedLeaf(l)], s, SharedLeaf(l));
      maps := maps[t := SharedLeaf(l)];
      assert EntryOk(l, tables, s);
      maps := maps[s := SharedLeaf(l)];
      edits := edits + [Log.Set(t, SharedLeaf(l))] + [Log.Set(s, SharedLeaf(l))];
      refs := refs[l.page := (refs[l.page] + 1) % 256];
      assert St() == forked;
    }

    method ForkPages(pid: nat, c: nat) returns (ok: bool)
      requires Inv(kend, St(), 0, 0) && Logged() && Node(c, 3, 0) in tables && 1 <= c < 16 && c != pid
      requires forall s | s in maps :: s.pid != c
      modifies `refs, `mem, `maps, `tables, `edits
      ensures Inv(kend, St(), 0, 0) && Logged() && Node(c, 3, 0) in tables && Grown(old(tables), tables, c)
      ensures ok ==> Contents(St()) == old(Contents(St())) + E.CopyBelow(old(Contents(St())), pid, c, 768)
      ensures ok ==> maps.Keys == (old(maps) + E.CopyBelow(old(maps), pid, c, 768)).Keys
      ensures ok ==> SharedBelow(old(maps), maps, pid, c, 768)
      ensures !ok ==> E.Without(Contents(St()), c) == old(Contents(St()))
      ensures !ok ==> E.Without(maps, c).Keys == old(maps).Keys
      ensures ok <==> Need(old(tables).Keys, c, MappedBelow(old(maps).Keys, pid, 768)) <= old(Spare(kend, refs))
      ensures old(edits) <= edits
    {
      hide Inv, Contents, E.CopyBelow, E.CopyOne, E.Without, SharedPage, SharedBelow, Grown, Log.Logged;
      hide Spare, Need, Spent, MappedBelow, MappedAt;
      ghost var m0, c0, refs0, tables0 := maps, Contents(St()), refs, tables;
      SpentNone(kend, refs, tables.Keys, c);
      MappedMore(m0.Keys, pid, 0, 768);
      GrownNone(tables, c);
      KeysInRange(kend, St(), 0, 0);
      assert forall s | s in c0 :: s.pid != c;
      E.CopyNone(m0, pid, c);
      E.CopyNone(c0, pid, c);
      NoneShared(m0, pid, c);
      var v := 0;
      while v < 768
        invariant old(edits) <= edits
        invariant v <= 768
        invariant Inv(kend, St(), 0, 0) && Logged() && Node(c, 3, 0) in tables && Grown(tables0, tables, c)
        invariant Contents(St()) == c0 + E.CopyBelow(c0, pid, c, v)
        invariant maps.Keys == (m0 + E.CopyBelow(m0, pid, c, v)).Keys && SharedBelow(m0, maps, pid, c, v)
        invariant Spent(kend, refs0, refs, tables0.Keys, tables.Keys, c, MappedBelow(m0.Keys, pid, v), 0)
      {
        ghost var m, refs1, tables1 := maps, refs, tables;
        MappedMore(m0.Keys, pid, v, 768);
        ParentMapped(m0, maps, pid, c, v);
        E.CopyTurn(m0, maps, pid, c, v);
        E.CopyTurn(c0, Contents(St()), pid, c, v);
        ok := ForkPage(pid, c, v);
        GrownMore(tables0, tables1, tables, c);
        if !ok {
          ShortMore(kend, refs0, refs1, tables0.Keys, tables1.Keys, c, MappedBelow(m0.Keys, pid, v),
                    MappedAt(m0.Keys, pid, v), MappedBelow(m0.Keys, pid, 768), 0, 0, 0);
          E.CopyUndone(m0, maps, pid, c, v);
          E.CopyUndone(c0, Contents(St()), pid, c, v);
          return;
        }
        OneMoreShared(m0, m, pid, c, v);
        SpentMore(kend, refs0, refs1, refs, tables0.Keys, tables1.Keys, tables.Keys, c, MappedBelow(m0.Keys, pid, v),
                  MappedAt(m0.Keys, pid, v), 0, 0);
        v := v + 1;
      }
      ok := true;
      SpentFits(kend, refs0, refs, tables0.Keys, tables.Keys, c, MappedBelow(m0.Keys, pid, 768), 0);
    }

    // syscall_fork
    method Fork(pid: nat) returns (r: int)
      requires Valid() && pid < 16 && procs[pid] == Runnable
      modifies this
      ensures Valid()
      ensures r == -1 ==> Abs() == old(Abs()) && procs == old(procs) && tables == old(tables)
      ensures r != -1 ==> FirstFree(old(procs), r) && procs == old(procs)[r := Runnable]
                          && Abs() == E.DoFork(old(Abs()), pid, r)
      ensures r != -1 ==> 1 <= r < 16 && old(procs)[r] == Free && forall q: nat | 1 <= q < r :: old(procs)[q] != Free
      ensures r != -1 ==> SharedBelow(old(maps), maps, pid, r, 768)
      ensures r != -1 <==> exists c: nat :: FirstFree(old(procs), c) && RoomToFork(kend, old(refs), old(maps).Keys, pid, c)
      ensures old(edits) <= edits
    {
      hide Inv, Contents, ProcsOk, SharedBelow, RoomToFork, Live, E.DoFork, Log.Logged;
      ProcsSize(maps.Keys, tables.Keys, procs);
      var c := 1;
      while c < 16 && procs[c] != Free
        invariant old(edits) <= edits
        invariant 1 <= c <= 16 && forall q: nat | 1 <= q < c :: procs[q] != Free
      {
        c := c + 1;
      }
      if c == 16 { return -1; }
      assert FirstFree(procs, c);
      var ok := ForkInto(pid, c);
      r := if ok then c else -1;
    }

    method ForkInto(pid: nat, c: nat) returns (ok: bool)
      requires Valid() && pid < 16 && procs[pid] == Runnable && 1 <= c < 16 && procs[c] == Free
      modifies this
      ensures Valid()
      ensures !ok ==> Abs() == old(Abs()) && procs == old(procs) && tables == old(tables)
      ensures ok ==> procs == old(procs)[c := Runnable] && Abs() == E.DoFork(old(Abs()), pid, c)
      ensures ok ==> SharedBelow(old(maps), maps, pid, c, 768)
      ensures ok <==> RoomToFork(kend, old(refs), old(maps).Keys, pid, c)
      ensures old(edits) <= edits
    {
      hide Inv, Contents, HasSpace, SharedBelow, Spare, Need, Chains, MappedBelow, Grown, Rest, ProcsOk, Log.Logged;
      hide E.CopyBelow, E.Without;
      ghost var tables0 := tables;
      NoSlotsOf(maps.Keys, tables.Keys, procs, c);
      NeedRoot(tables.Keys, c, Node(c, 3, 0), MappedBelow(maps.Keys, pid, 768));
      NeedAll(tables.Keys, c, MappedBelow(maps.Keys, pid, 768));
      ok := AddTable(Node(c, 3, 0), 0, 0);
      if !ok { return; }
      ghost var tables1 := tables;
      GrownLink(tables0, tables1, Node(c, 3, 0));
      Log.LogRoot(edits, tables0, maps, c, tables[Node(c, 3, 0)]);
      edits := edits + [Log.Root(c, tables[Node(c, 3, 0)])];
      ok := ForkPages(pid, c);
      ghost var tables2 := tables;
      GrownHas(tables1, tables2, tables2, c, Node(c, 3, 0)) by { GrownNone(tables2, c); }
      GrownMore(tables0, tables1, tables2, c);
      if !ok {
        FreeEverything(c);
        ProcsAfterFailedFork(old(maps), maps, tables0, tables2, procs, c);
        return;
      }
      procs := procs[c := Runnable];
      ProcsAfterFork(old(maps), maps, tables0, tables, old(procs), pid, c);
    }
  }

  lemma LiveOnes(procs: seq<ProcState>)
    ensures forall p: nat :: p in Live(procs) <==> p < |procs| && procs[p] != Free
  {
  }

  // ---- When a call is refused, faults or ends its process ----

  ghost predicate Answered(kend: nat, now: Sight, pid: nat, call: E.Call, ans: E.Answer) {
    match call
    case Load(v, _) =>
      && (ans == E.Fault <==> !Readable(now.ph.maps, Slot(pid, v)))
      && (ans == E.Console <==> Readable(now.ph.maps, Slot(pid, v)) && v == 184)
    case Store(v, _, _) =>
      && (ans == E.Fault <==> !Readable(now.ph.maps, Slot(pid, v)))
      && (ans == E.Console <==> Readable(now.ph.maps, Slot(pid, v)) && v == 184)
      && (ans == E.Gone <==> Copies(now.ph.refs, now.ph.maps, Slot(pid, v)) && Spare(kend, now.ph.refs) == 0)
    case Fork =>
      && (ans == E.Failed <==> forall c: nat | FirstFree(now.procs, c) :: !RoomToFork(kend, now.ph.refs, now.ph.maps.Keys, pid, c))
      && (ans.Number? ==> 1 <= ans.n < |now.procs| && now.procs[ans.n] == Free
                          && forall q: nat | 1 <= q < ans.n :: now.procs[q] != Free)
    case Exit => ans == E.Gone
    case Kill(q) => ans == E.Failed <==> q >= |now.procs| || now.procs[q] != Runnable
    case Mmap(addr, len, _, _) =>
      var spot := Spot(now.ph.maps.Keys, pid, addr, len);
      && (ans == E.Failed <==>
            || len == 0 || (forall a: nat :: !F.Window(now.ph.maps.Keys, pid, a, Pages(len)))
            || !RoomToMap(kend, now.ph.refs, now.ph.tables.Keys, pid, spot, Pages(len)))
      && (ans.Number? ==> RightPlace(now.ph.maps.Keys, pid, addr, len, ans.n))
    case Munmap(_, _) => ans == E.Done
  }

  lemma FirstNodes(ph: Phys, pid: nat)
    requires Slot(pid, 1) in ph.maps && EntryOk(ph.maps[Slot(pid, 1)], ph.tables, Slot(pid, 1))
    ensures {Node(pid, 0, 0), Node(pid, 1, 0), Node(pid, 2, 0)} <= ph.tables.Keys
  {
    FirstIndexes(1);
  }

  // A fork is refused exactly without a free process slot or with fewer than
  // four free pages, five when the process has a page from 0x200000 on; an
  // mmap exactly for no length, without a free range, or with fewer free pages
  // than it maps and one more for a page table that is missing.
  ghost predicate Refuses(kend: nat, now: Sight, pid: nat, call: E.Call, ans: E.Answer) {
    match call
    case Fork =>
      ans == E.Failed <==>
        || (forall c: nat | 1 <= c < |now.procs| :: now.procs[c] != Free)
        || |PagesLeft(kend, now.ph.refs)| < if Upper(now.ph.maps.Keys, pid) then 5 else 4
    case Mmap(addr, len, _, _) =>
      ans == E.Failed <==>
        || len == 0 || (forall a: nat :: !F.Window(now.ph.maps.Keys, pid, a, len / 4096))
        || (var end := Spot(now.ph.maps.Keys, pid, addr, len) + len / 4096;
            |PagesLeft(kend, now.ph.refs)| < len / 4096 + if end > 512 && Node(pid, 0, 1) !in now.ph.tables then 1 else 0)
    case _ => true
  }

  lemma AnswerRefuses(kend: nat, now: Sight, pid: nat, call: E.Call, ans: E.Answer)
    requires Answered(kend, now, pid, call, ans) && |now.procs| == 16
    requires Slot(pid, 1) in now.ph.maps && {Node(pid, 0, 0), Node(pid, 1, 0), Node(pid, 2, 0)} <= now.ph.tables.Keys
    requires call.Mmap? && call.len > 0 ==> call.len % 4096 == 0 && F.Trusted(now.ph.maps.Keys, pid, Pages(call.len))
    ensures Refuses(kend, now, pid, call, ans)
  {
    hide F.Trusted, F.FindFree, Spot, Chains, Upper, MappedBelow, Span, PagesLeft, GoodHint;
    match call
    case Fork =>
      forall c: nat
        ensures |Chains(c, MappedBelow(now.ph.maps.Keys, pid, 768))| == if Upper(now.ph.maps.Keys, pid) then 4 else 3
      {
        ForkTakes(now.ph.maps.Keys, pid, c);
      }
      if c: nat :| 1 <= c < |now.procs| && now.procs[c] == Free { LowestFree(now.procs, c); }
    case Mmap(addr, len, _, _) =>
      var spot := Spot(now.ph.maps.Keys, pid, addr, len);
      if len > 0 && exists a: nat :: F.Window(now.ph.maps.Keys, pid, a, Pages(len)) {
        SpotRight(now.ph.maps.Keys, pid, addr, len);
        MapTakes(now.ph.tables.Keys, pid, spot, Pages(len));
      }
    case _ =>
  }

  lemma {:induction false} LowestFree(procs: seq<ProcState>, c: nat)
    requires 1 <= c < |procs| == 16 && procs[c] == Free
    ensures exists d :: FirstFree(procs, d)
  {
    if q: nat :| 1 <= q < c && procs[q] == Free {
      LowestFree(procs, q);
    } else {
      assert FirstFree(procs, c);
    }
  }

  ghost predicate StepSeen(kend: nat, now: Sight, e: E.Event, after: Sight) {
    && e.pid in Seen(now).live && C.Effect(Seen(now), e.pid, e.call, e.ans, Seen(after))
    && E.Fits(Seen(now), e.pid, e.call, e.ans) && Seen(after) == E.Next(Seen(now), e.pid, e.call, e.ans)
    && Answered(kend, now, e.pid, e.call, e.ans) && Refuses(kend, now, e.pid, e.call, e.ans)
  }

  // The states of a run, as the processes see them, are steps of what the
  // calls do.
  lemma RunSteps(kend: nat, states: seq<Sight>, trace: seq<E.Event>)
    requires |states| == |trace| + 1
    requires forall i | 0 <= i < |trace| :: StepSeen(kend, states[i], trace[i], states[i + 1])
    ensures C.Steps(seq(|states|, i requires 0 <= i < |states| => Seen(states[i])), trace)
  {
    hide C.Effect, E.Fits, E.Next, Answered, Seen;
    var seen := seq(|states|, i requires 0 <= i < |states| => Seen(states[i]));
    forall i | 0 <= i < |trace|
      ensures trace[i].pid in seen[i].live && C.Effect(seen[i], trace[i].pid, trace[i].call, trace[i].ans, seen[i + 1])
    {
      assert StepSeen(kend, states[i], trace[i], states[i + 1]);
    }
  }

  // Over every run: the byte a process stored last is the byte it finds and
  // loads, until it stores there again, unmaps the page or ends.
  lemma LastStored(kend: nat, states: seq<Sight>, trace: seq<E.Event>, i: nat, j: nat, p: nat, v: nat, off: nat, b: Byte)
    requires |states| == |trace| + 1 && i < j < |states|
    requires forall k | 0 <= k < |trace| :: StepSeen(kend, states[k], trace[k], states[k + 1])
    requires trace[i] == E.Event(p, E.Call.Store(v, off, b), E.Done)
    requires forall k | i < k < j :: !C.Touches(trace[k], p, v, off)
    ensures var mem := Seen(states[j]).mem;
            Slot(p, v) in mem && off < |mem[Slot(p, v)]| && mem[Slot(p, v)][off] == b
    ensures j < |trace| && trace[j].pid == p && trace[j].call == E.Call.Load(v, off) ==>
              trace[j].ans == E.Value(b)
  {
    hide StepSeen, C.Steps, C.Touches;
    RunSteps(kend, states, trace);
    C.LastStored(seq(|states|, k requires 0 <= k < |states| => Seen(states[k])), trace, i, j, p, v, off, b);
  }

  // ---- The eager machine may give the kernel's answers ----

  lemma ForkFits(st: E.State, procs: seq<ProcState>, pid: nat, r: int)
    requires st.live == Live(procs) && (r == -1 || FirstFree(procs, r))
    ensures E.Fits(st, pid, E.Call.Fork, if r == -1 then E.Failed else E.Number(r))
  {
  }

  lemma ExitFits(st: E.State, pid: nat)
    ensures E.Fits(st, pid, E.Call.Exit, E.Gone)
  {
  }

  lemma KillFits(st: E.State, pid: nat, q: nat, done: bool)
    requires done ==> q in st.live
    ensures E.Fits(st, pid, E.Call.Kill(q), if done then E.Done else E.Failed)
  {
  }

  lemma MmapFits(st: E.State, keys: set<Slot>, pid: nat, addr: nat, len: nat, w: bool, c: bool, a: nat)
    requires a != 0 ==> len > 0 && F.Window(keys, pid, a, Pages(len)) && forall s | s in st.mem :: s in keys
    ensures E.Fits(st, pid, E.Call.Mmap(addr, len, w, c), if a == 0 then E.Failed else E.Number(a))
  {
  }

  lemma MunmapFits(st: E.State, pid: nat, addr: nat, len: nat)
    ensures E.Fits(st, pid, E.Call.Munmap(addr, len), E.Done)
  {
  }

  // The process slot fork takes.
  predicate FirstFree(procs: seq<ProcState>, c: int) {
    && 1 <= c < 16 && c < |procs| && procs[c] == Free
    && forall q: nat | 1 <= q < c :: procs[q] != Free
  }

  // Enough pages for the root and the page-table pages of the child.
  predicate RoomToFork(kend: nat, refs: seq<nat>, keys: set<Slot>, pid: nat, c: nat) {
    1 + |Chains(c, MappedBelow(keys, pid, 768))| <= Spare(kend, refs)
  }

  lemma ParentMapped(m0: map<Slot, Leaf>, m: map<Slot, Leaf>, pid: nat, c: nat, v: nat)
    requires m.Keys == (m0 + E.CopyBelow(m0, pid, c, v)).Keys && pid != c
    ensures MappedAt(m.Keys, pid, v) == MappedAt(m0.Keys, pid, v)
  {
  }

  // Raising the count of a page in use costs nothing.
  lemma SpareStays(kend: nat, refs: seq<nat>, refs': seq<nat>, nodes: set<Node>, nodes': set<Node>,
                   pid: nat, pages: set<nat>, p: nat, r: nat)
    requires Spent(kend, refs, refs', nodes, nodes', pid, pages, 0)
    requires p < |refs'| && refs'[p] != 0 && r != 0
    ensures Spent(kend, refs, refs'[p := r], nodes, nodes', pid, pages, 0)
  {
    hide Spare;
    SpareKept(kend, refs', p, r);
  }

  // What munmap can do without stopping the kernel: freeing the console page
  // fails an assertion, and so does unmapping at an unaligned address.
  predicate Unmappable(maps: map<Slot, Leaf>, pid: nat, addr: nat, len: nat) {
    && NoConsole(addr / 4096, E.PagesTouched(len))
    && (addr % 4096 == 0 || forall v: nat | addr / 4096 <= v < addr / 4096 + E.PagesTouched(len) ::
          !Readable(maps, Slot(pid, v)))
  }

  // The n pages from a on do not reach the console page.
  predicate NoConsole(a: nat, n: nat) { a + n <= 184 || 185 <= a }

  function FirstUser(a: nat): nat { if a < 256 then 256 else a }

  // The loop of munmap visits the pages the length reaches into.
  lemma InRange(addr: nat, len: nat, va: nat)
    requires addr <= va && va % 4096 == addr % 4096
    ensures va < addr + len <==> va / 4096 < addr / 4096 + E.PagesTouched(len)
    ensures (va + 4096) / 4096 == va / 4096 + 1 && (va + 4096) % 4096 == va % 4096
    ensures va < 0x300000 <==> va / 4096 < 768
  {
  }

  lemma CutWas<T>(m: map<Slot, T>, pid: nat, a: nat, v: nat, s: Slot)
    requires s in E.Cut(m, pid, a, v)
    ensures s in m && E.Cut(m, pid, a, v)[s] == m[s]
  {
  }

  lemma CutTurn<T>(m: map<Slot, T>, pid: nat, a: nat, v: nat)
    ensures a <= v ==> E.Cut(m, pid, a, v + 1) == E.Cut(m, pid, a, v) - {Slot(pid, v)}
    ensures Slot(pid, v) !in E.Cut(m, pid, a, v) || v < a ==> E.Cut(m, pid, a, v + 1) == E.Cut(m, pid, a, v)
  {
    if a <= v {
      E.CutMore(m, pid, a, v);
    } else {
      E.CutEarly(m, pid, a, v);
      E.CutEarly(m, pid, a, v + 1);
    }
  }

  // A store to page s must copy it: it is mapped read-only and not only here.
  predicate Copies(refs: seq<nat>, maps: map<Slot, Leaf>, s: Slot) {
    s in maps && User(s) && !maps[s].w && maps[s].page < |refs| && refs[maps[s].page] != 1
  }

  predicate Readable(maps: map<Slot, Leaf>, s: Slot) { s in maps && maps[s].u }

  // Whole pages in an address or a length.
  function Pages(bytes: nat): nat { bytes / 4096 }

  lemma SomePages(bytes: nat)
    requires bytes > 0 && bytes % 4096 == 0
    ensures Pages(bytes) > 0
  {
  }

  // Mapped over [a, v) with these marks, and as before elsewhere.
  ghost predicate MarkedSo(before: map<Slot, Leaf>, after: map<Slot, Leaf>, pid: nat, a: nat, v: nat, w: bool, c: bool) {
    && (forall s | s in before :: s in after && after[s] == before[s])
    && (forall s | s in after && s !in before :: s.pid == pid && a <= s.v < v)
    && (forall i: nat | a <= i < v ::
          Slot(pid, i) in after && after[Slot(pid, i)] == Leaf(after[Slot(pid, i)].page, w, true, c))
  }

  lemma StartMarks(m: map<Slot, Leaf>, pid: nat, a: nat, w: bool, c: bool)
    ensures MarkedSo(m, m, pid, a, a, w, c)
  {
  }

  lemma MoreMarks(m0: map<Slot, Leaf>, m: map<Slot, Leaf>, m': map<Slot, Leaf>, pid: nat, a: nat, v: nat, w: bool, c: bool)
    requires MarkedSo(m0, m, pid, a, v, w, c) && a <= v && Slot(pid, v) !in m
    requires Slot(pid, v) in m' && m' == m[Slot(pid, v) := Leaf(m'[Slot(pid, v)].page, w, true, c)]
    ensures MarkedSo(m0, m', pid, a, v + 1, w, c)
  {
  }

  // What is left was there.
  ghost predicate Undone(before: map<Slot, Leaf>, after: map<Slot, Leaf>) {
    forall s | s in after :: s in before && after[s] == before[s]
  }

  lemma MarksUndone(m0: map<Slot, Leaf>, m: map<Slot, Leaf>, m': map<Slot, Leaf>, pid: nat, a: nat, v: nat, w: bool, c: bool)
    requires MarkedSo(m0, m, pid, a, v, w, c) && Undone(m, m') && m'.Keys == m0.Keys
    ensures m' == m0
  {
  }

  // What fork makes of a user page's entry.
  function SharedLeaf(l: Leaf): Leaf { l.(w := false, c := l.c || l.w) }

  // One page of fork: a kernel page or the console as it is, a user page
  // read-only in both, and marked if it was writable.
  function SharedPage(m: map<Slot, Leaf>, pid: nat, c: nat, v: nat): map<Slot, Leaf> {
    if Slot(pid, v) !in m then m
    else if v < 256 || v == 184 then m[Slot(c, v) := m[Slot(pid, v)]]
    else
      var shared := SharedLeaf(m[Slot(pid, v)]);
      m[Slot(c, v) := shared][Slot(pid, v) := shared]
  }

  // Shared over all pages below v, and as before elsewhere.
  ghost predicate SharedBelow(before: map<Slot, Leaf>, after: map<Slot, Leaf>, pid: nat, c: nat, v: nat) {
    KeptElsewhere(before, after, pid, c, v) && OnlyShared(before, after, pid, c) && Shared(before, after, pid, c, v)
  }

  ghost predicate KeptElsewhere(before: map<Slot, Leaf>, after: map<Slot, Leaf>, pid: nat, c: nat, v: nat) {
    forall s | s in before && s.pid != c && !(s.pid == pid && 256 <= s.v < v) :: s in after && after[s] == before[s]
  }

  ghost predicate OnlyShared(before: map<Slot, Leaf>, after: map<Slot, Leaf>, pid: nat, c: nat) {
    forall s | s in after :: s in before || (s.pid == c && Slot(pid, s.v) in before)
  }

  ghost predicate Shared(before: map<Slot, Leaf>, after: map<Slot, Leaf>, pid: nat, c: nat, v: nat) {
    forall x: nat | x < v && Slot(pid, x) in before :: SharedAt(before[Slot(pid, x)], after, pid, c, x)
  }

  // Parent and child have the page alike; a user page is read-only in both,
  // and marked if it was writable.
  predicate SharedAt(l: Leaf, after: map<Slot, Leaf>, pid: nat, c: nat, x: nat) {
    && Slot(c, x) in after && Slot(pid, x) in after && after[Slot(c, x)] == after[Slot(pid, x)]
    && var m := after[Slot(c, x)];
       && m.page == l.page && m.u == l.u
       && (if x < 256 then m.w == l.w && m.c == l.c else !m.w && (m.c <==> l.c || l.w))
  }

  lemma NoneShared(m: map<Slot, Leaf>, pid: nat, c: nat)
    ensures SharedBelow(m, m, pid, c, 0)
  {
  }

  lemma OneMoreShared(m0: map<Slot, Leaf>, m: map<Slot, Leaf>, pid: nat, c: nat, v: nat)
    requires SharedBelow(m0, m, pid, c, v) && pid != c
    ensures SharedBelow(m0, SharedPage(m, pid, c, v), pid, c, v + 1)
  {
    hide KeptElsewhere, OnlyShared, Shared;
    OneMoreKept(m0, m, pid, c, v);
    OneMoreOnly(m0, m, pid, c, v);
    OneMoreAlike(m0, m, pid, c, v);
  }

  lemma OneMoreKept(m0: map<Slot, Leaf>, m: map<Slot, Leaf>, pid: nat, c: nat, v: nat)
    requires KeptElsewhere(m0, m, pid, c, v)
    ensures KeptElsewhere(m0, SharedPage(m, pid, c, v), pid, c, v + 1)
  {
  }

  lemma OneMoreOnly(m0: map<Slot, Leaf>, m: map<Slot, Leaf>, pid: nat, c: nat, v: nat)
    requires OnlyShared(m0, m, pid, c) && pid != c
    ensures OnlyShared(m0, SharedPage(m, pid, c, v), pid, c)
  {
    assert Slot(pid, v) in m ==> Slot(pid, v) in m0;
  }

  lemma OneMoreAlike(m0: map<Slot, Leaf>, m: map<Slot, Leaf>, pid: nat, c: nat, v: nat)
    requires KeptElsewhere(m0, m, pid, c, v) && Shared(m0, m, pid, c, v) && pid != c
    ensures Shared(m0, SharedPage(m, pid, c, v), pid, c, v + 1)
  {
    var m' := SharedPage(m, pid, c, v);
    forall x: nat | x < v + 1 && Slot(pid, x) in m0
      ensures SharedAt(m0[Slot(pid, x)], m', pid, c, x)
    {
      if x < v {
        assert SharedAt(m0[Slot(pid, x)], m, pid, c, x);
      }
    }
  }

  // The page-table pages left when of pid only those in `todo` are.
  function Rest(tables: map<Node, nat>, pid: nat, todo: set<Node>): map<Node, nat> {
    map n | n in tables && (n.pid != pid || n in todo) :: tables[n]
  }

  lemma DropIs(tables: map<Node, nat>, maps: map<Slot, Leaf>, pid: nat)
    ensures Log.OtherNodes(tables, pid) == Rest(tables, pid, {})
    ensures Log.OtherSlots(maps, pid) == E.Without(maps, pid)
  {
  }

  lemma RestAll(tables: map<Node, nat>, pid: nat, todo: set<Node>, root: Node)
    requires root in tables && root.pid == pid
    requires todo == set n | n in tables && n.pid == pid && n != root
    ensures Rest(tables, pid, todo + {root}) == tables
  {
  }

  // Only page-table pages of pid were added.
  predicate Grown(before: map<Node, nat>, after: map<Node, nat>, pid: nat) {
    && (forall n | n in before :: n in after && after[n] == before[n])
    && (forall n | n in after :: n in before || n.pid == pid)
  }

  lemma GrownNone(tables: map<Node, nat>, pid: nat)
    ensures Grown(tables, tables, pid)
  {
  }

  lemma GrownMore(before: map<Node, nat>, between: map<Node, nat>, after: map<Node, nat>, pid: nat)
    requires Grown(before, between, pid) && Grown(between, after, pid)
    ensures Grown(before, after, pid)
  {
  }

  lemma GrownLink(before: map<Node, nat>, after: map<Node, nat>, n: Node)
    requires n !in before && n in after && after == before[n := after[n]]
    ensures Grown(before, after, n.pid) && after.Keys == before.Keys + {n}
  {
  }

  lemma GrownHas(before: map<Node, nat>, between: map<Node, nat>, after: map<Node, nat>, pid: nat, n: Node)
    requires Grown(before, between, pid) && Grown(between, after, pid) && n in before
    ensures n in after
  {
  }

  lemma ProcsAfterExit(maps: map<Slot, Leaf>, tables: map<Node, nat>, procs: seq<ProcState>, pid: nat)
    requires ProcsOk(maps.Keys, tables.Keys, procs, 0) && 0 < pid < 16
    ensures ProcsOk(E.Without(maps, pid).Keys, Rest(tables, pid, {}).Keys, procs[pid := Free], 0)
  {
    forall p: nat | p < 16 && procs[pid := Free][p] != Free
      ensures HasSpace(E.Without(maps, pid).Keys, Rest(tables, pid, {}).Keys, p)
    {
      assert HasSpace(maps.Keys, tables.Keys, p);
    }
  }

  lemma RootThere(keys: set<Slot>, nodes: set<Node>, procs: seq<ProcState>, pid: nat)
    requires ProcsOk(keys, nodes, procs, 0) && pid < 16 && procs[pid] != Free
    ensures Node(pid, 3, 0) in nodes
  {
    assert HasSpace(keys, nodes, pid);
  }

  lemma ProcsSize(keys: set<Slot>, nodes: set<Node>, procs: seq<ProcState>)
    requires ProcsOk(keys, nodes, procs, 0)
    ensures |procs| == 16
  {
  }

  lemma NoSlotsOf(keys: set<Slot>, nodes: set<Node>, procs: seq<ProcState>, c: nat)
    requires ProcsOk(keys, nodes, procs, 0) && 0 < c < 16 && procs[c] == Free
    ensures (forall s | s in keys :: s.pid != c) && (forall n | n in nodes :: n.pid != c)
    ensures |procs| == 16
  {
  }

  lemma ProcsAfterFailedFork(maps: map<Slot, Leaf>, maps': map<Slot, Leaf>,
                             tables: map<Node, nat>, tables': map<Node, nat>, procs: seq<ProcState>, c: nat)
    requires ProcsOk(maps.Keys, tables.Keys, procs, 0) && 0 < c < 16 && procs[c] == Free
    requires maps'.Keys == maps.Keys && Grown(tables, tables', c)
    ensures Rest(tables', c, {}) == tables && ProcsOk(maps'.Keys, tables.Keys, procs, 0)
  {
    assert Rest(tables', c, {}).Keys == tables.Keys;
  }

  lemma ProcsAfterFork(maps: map<Slot, Leaf>, maps': map<Slot, Leaf>, tables: map<Node, nat>, tables': map<Node, nat>,
                       procs: seq<ProcState>, pid: nat, c: nat)
    requires ProcsOk(maps.Keys, tables.Keys, procs, 0) && 0 < c < 16 && procs[c] == Free
    requires pid < 16 && procs[pid] != Free
    requires maps'.Keys == (maps + E.CopyBelow(maps, pid, c, 768)).Keys
    requires Grown(tables, tables', c) && Node(c, 3, 0) in tables'
    ensures ProcsOk(maps'.Keys, tables'.Keys, procs[c := Runnable], 0)
    ensures Live(procs[c := Runnable]) == Live(procs) + {c}
  {
    assert HasSpace(maps.Keys, tables.Keys, pid);
    forall p: nat | p < 16 && procs[c := Runnable][p] != Free
      ensures HasSpace(maps'.Keys, tables'.Keys, p)
    {
      if p != c { assert HasSpace(maps.Keys, tables.Keys, p); }
    }
  }

  lemma ProcsAfterMap(keys: set<Slot>, keys': set<Slot>, tables: map<Node, nat>, tables': map<Node, nat>,
                      procs: seq<ProcState>, pid: nat)
    requires ProcsOk(keys, tables.Keys, procs, 0) && pid < 16 && procs[pid] != Free
    requires keys <= keys' && (forall s | s in keys' :: s in keys || s.pid == pid) && Grown(tables, tables', pid)
    ensures ProcsOk(keys', tables'.Keys, procs, 0)
  {
    forall p: nat | p < 16 && procs[p] != Free
      ensures HasSpace(keys', tables'.Keys, p)
    {
      assert HasSpace(keys, tables.Keys, p);
    }
  }

  lemma ProcsAfterUnmap(maps: map<Slot, Leaf>, keys': set<Slot>, nodes: set<Node>, procs: seq<ProcState>,
                        pid: nat, a: nat, end: nat)
    requires ProcsOk(maps.Keys, nodes, procs, 0) && 256 <= a && keys' == E.Cut(maps, pid, a, end).Keys
    ensures ProcsOk(keys', nodes, procs, 0)
  {
    forall p: nat | p < 16 && procs[p] != Free
      ensures HasSpace(keys', nodes, p)
    {
      assert HasSpace(maps.Keys, nodes, p);
    }
  }

  lemma SameLive(procs: seq<ProcState>, procs': seq<ProcState>, keys: set<Slot>, nodes: set<Node>, pid: nat)
    requires ProcsOk(keys, nodes, procs, 0) && pid < 16 && procs[pid] != Free && procs' == procs[pid := Faulted]
    ensures ProcsOk(keys, nodes, procs', 0) && Live(procs') == Live(procs)
  {
    forall p: nat | p < 16 && procs'[p] != Free
      ensures HasSpace(keys, nodes, p)
    {
      assert HasSpace(keys, nodes, p);
    }
  }

  // The page mmap maps from: the hint when it is good and unmapped, else what
  // the search returns, 0 for nowhere.
  function Spot(keys: set<Slot>, pid: nat, addr: nat, len: nat): nat {
    if GoodHint(addr, len) && F.Window(keys, pid, Pages(addr), Pages(len)) then Pages(addr)
    else F.FindFree(keys, pid, Pages(len))
  }

  // Enough pages for n new ones from page a on and their page-table pages.
  predicate RoomToMap(kend: nat, refs: seq<nat>, nodes: set<Node>, pid: nat, a: nat, n: nat) {
    Need(nodes, pid, Span(a, a + n)) + n <= Spare(kend, refs)
  }

  // Where a mapping may go: at the hint when that is aligned, a user address
  // and wholly unmapped, and otherwise at the lowest run of unmapped pages.
  ghost predicate RightPlace(keys: set<Slot>, pid: nat, addr: nat, len: nat, r: nat) {
    if HintFree(keys, pid, addr, len) then 4096 * r == addr else LowestRun(keys, pid, len, r)
  }

  ghost predicate HintFree(keys: set<Slot>, pid: nat, addr: nat, len: nat) {
    && addr % 4096 == 0 && 0x100000 <= addr && addr + len <= 0x300000
    && forall v: nat | addr <= 4096 * v < addr + len :: Slot(pid, v) !in keys
  }

  ghost predicate LowestRun(keys: set<Slot>, pid: nat, len: nat, r: nat) {
    && 256 <= r && 4096 * r + len <= 0x300000
    && (forall v: nat | 4096 * r <= 4096 * v < 4096 * r + len :: Slot(pid, v) !in keys)
    && (forall a: nat | 256 <= a < r :: MappedWithin(keys, pid, len, a))
  }

  // A page is mapped where a run from page a on would be.
  ghost predicate MappedWithin(keys: set<Slot>, pid: nat, len: nat, a: nat) {
    exists v: nat :: 4096 * a <= 4096 * v < 4096 * a + len && Slot(pid, v) in keys
  }

  lemma SpotPlace(keys: set<Slot>, pid: nat, addr: nat, len: nat)
    requires len > 0 && len % 4096 == 0 && F.Trusted(keys, pid, Pages(len))
    ensures var r := Spot(keys, pid, addr, len); r != 0 ==> RightPlace(keys, pid, addr, len, r)
  {
    hide F.FindFree, F.Trusted, F.Window, GoodHint, HintFree, LowestRun, Pages;
    var n, r := Pages(len), Spot(keys, pid, addr, len);
    SomePages(len);
    F.FindFreeRightIff(keys, pid, n);
    HintIs(keys, pid, addr, len);
    if r != 0 && !HintFree(keys, pid, addr, len) {
      RunIs(keys, pid, len, r);
    }
  }

  lemma RunIs(keys: set<Slot>, pid: nat, len: nat, r: nat)
    requires len > 0 && len % 4096 == 0
    requires F.Window(keys, pid, r, Pages(len)) && forall a: nat | a < r :: !F.Window(keys, pid, a, Pages(len))
    ensures LowestRun(keys, pid, len, r)
  {
    var n := Pages(len);
    assert len == 4096 * n;
    SamePages(keys, pid, 4096 * r, len, r, n);
    forall a: nat | 256 <= a < r
      ensures MappedWithin(keys, pid, len, a)
    {
      assert !F.Window(keys, pid, a, n);
      var v: nat :| a <= v < a + n && Slot(pid, v) in keys;
      assert 4096 * a <= 4096 * v < 4096 * a + len;
    }
  }

  lemma PlaceRight(keys: set<Slot>, pid: nat, addr: nat, len: nat)
    requires len > 0 && len % 4096 == 0
    ensures var r := Spot(keys, pid, addr, len);
            r != 0 && F.Trusted(keys, pid, Pages(len)) ==> RightPlace(keys, pid, addr, len, r)
  {
    hide F.Trusted, Spot, RightPlace;
    if F.Trusted(keys, pid, Pages(len)) {
      SpotPlace(keys, pid, addr, len);
    }
  }

  // A good hint over unmapped pages, in addresses.
  lemma HintIs(keys: set<Slot>, pid: nat, addr: nat, len: nat)
    requires len > 0 && len % 4096 == 0
    ensures GoodHint(addr, len) && F.Window(keys, pid, Pages(addr), Pages(len)) <==> HintFree(keys, pid, addr, len)
    ensures HintFree(keys, pid, addr, len) ==> 4096 * Pages(addr) == addr
  {
    if addr % 4096 == 0 {
      SamePages(keys, pid, addr, len, Pages(addr), Pages(len));
    }
  }

  lemma SamePages(keys: set<Slot>, pid: nat, addr: nat, len: nat, a: nat, n: nat)
    requires addr == 4096 * a && len == 4096 * n
    ensures (forall v: nat | a <= v < a + n :: Slot(pid, v) !in keys)
            <==> forall v: nat | addr <= 4096 * v < addr + len :: Slot(pid, v) !in keys
  {
    forall v: nat
      ensures a <= v < a + n <==> addr <= 4096 * v < addr + len
    {
    }
  }

  lemma SpotRight(keys: set<Slot>, pid: nat, addr: nat, len: nat)
    requires Pages(len) > 0 && F.Trusted(keys, pid, Pages(len))
    ensures var a := Spot(keys, pid, addr, len);
            if exists b: nat :: F.Window(keys, pid, b, Pages(len))
            then a != 0 && F.Window(keys, pid, a, Pages(len))
            else a == 0
  {
    hide F.FindFree, F.Trusted, Pages;
    F.FindFreeRightIff(keys, pid, Pages(len));
  }

  function KernelSlots(pid: nat, end: nat): set<Slot> {
    set v: nat | 0 < v < end :: Slot(pid, v)
  }

  // A page of a program image: its number, whether it is writable, its bytes.
  datatype ImagePage = ImagePage(v: nat, w: bool, bytes: seq<Byte>)

  // Distinct user pages of 4096 bytes.
  predicate ImageOk(image: seq<ImagePage>) {
    && (forall i | 0 <= i < |image| :: 256 <= image[i].v < 768 && |image[i].bytes| == 4096)
    && (forall i, j | 0 <= i < j < |image| :: image[i].v != image[j].v)
  }

  function ImagePages(image: seq<ImagePage>, n: nat): set<nat>
    requires n <= |image|
  {
    set i | 0 <= i < n :: image[i].v
  }

  // Enough pages for the root, the page-table pages and the image itself.
  predicate RoomToSetUp(kend: nat, refs: seq<nat>, nodes: set<Node>, pid: nat, image: seq<ImagePage>) {
    1 + Need(nodes, pid, Span(1, 256) + ImagePages(image, |image|)) + |image| <= Spare(kend, refs)
  }

  // Some page of the image lies from 0x200000 on.
  ghost predicate HighImage(image: seq<ImagePage>) {
    exists i | 0 <= i < |image| :: image[i].v >= 512
  }

  lemma SetUpTakes(kend: nat, refs: seq<nat>, nodes: set<Node>, pid: nat, image: seq<ImagePage>)
    requires ImageOk(image) && forall n | n in nodes :: n.pid != pid
    ensures RoomToSetUp(kend, refs, nodes, pid, image)
            <==> |PagesLeft(kend, refs)| >= |image| + if HighImage(image) then 5 else 4
  {
    hide PagesLeft, Need, Span;
    var pages := Span(1, 256) + ImagePages(image, |image|);
    assert 1 in pages;
    NewTakes(nodes, pid, pages, 1);
    if i :| 0 <= i < |image| && image[i].v >= 512 { assert image[i].v in pages; }
    assert HasHigh(pages) <==> HighImage(image);
  }

  lemma MorePages(image: seq<ImagePage>, i: nat)
    requires i < |image|
    ensures ImagePages(image, 0) == {}
    ensures ImagePages(image, i + 1) == ImagePages(image, i) + {image[i].v}
    ensures ImagePages(image, i) + {image[i].v} <= ImagePages(image, |image|)
  {
  }

  // The first n image pages are mapped for the process with their rights.
  ghost predicate ImageMarked(m: map<Slot, Leaf>, pid: nat, image: seq<ImagePage>, n: nat)
    requires n <= |image|
  {
    forall i | 0 <= i < n ::
      && Slot(pid, image[i].v) in m
      && m[Slot(pid, image[i].v)] == Leaf(m[Slot(pid, image[i].v)].page, image[i].w, true, false)
  }

  lemma NoneMarked(m: map<Slot, Leaf>, pid: nat, image: seq<ImagePage>)
    ensures ImageMarked(m, pid, image, 0) && ImagePages(image, 0) == {}
  {
  }

  lemma MoreMarked(m: map<Slot, Leaf>, m': map<Slot, Leaf>, pid: nat, image: seq<ImagePage>, i: nat)
    requires i < |image| && ImageOk(image) && ImageMarked(m, pid, image, i)
    requires Slot(pid, image[i].v) in m'
    requires m' == m[Slot(pid, image[i].v) := Leaf(m'[Slot(pid, image[i].v)].page, image[i].w, true, false)]
    ensures ImageMarked(m', pid, image, i + 1)
  {
  }

  // The first n pages of a program image.
  function ImageMem(pid: nat, image: seq<ImagePage>, n: nat): map<Slot, seq<Byte>>
    requires n <= |image|
  {
    if n == 0 then map[] else ImageMem(pid, image, n - 1)[Slot(pid, image[n - 1].v) := image[n - 1].bytes]
  }

  lemma {:induction false} ImageKeys(pid: nat, image: seq<ImagePage>, n: nat)
    requires n <= |image|
    ensures forall s :: s in ImageMem(pid, image, n) <==>
              s.pid == pid && exists i | 0 <= i < n :: s.v == image[i].v
  {
    if n > 0 { ImageKeys(pid, image, n - 1); }
  }

  // The new process has each page of its image, with its bytes, and no other;
  // nothing else changed.
  ghost predicate Loaded(st: E.State, pid: nat, image: seq<ImagePage>, st': E.State) {
    && (forall x: nat :: x in st'.live <==> x in st.live || x == pid)
    && (forall i | 0 <= i < |image| ::
          Slot(pid, image[i].v) in st'.mem && st'.mem[Slot(pid, image[i].v)] == image[i].bytes)
    && (forall s: Slot | s in st'.mem && s.pid == pid :: s in st.mem || exists i | 0 <= i < |image| :: image[i].v == s.v)
    && (forall s: Slot | s.pid != pid :: C.Kept(st, st', s))
  }

  lemma {:induction false} ImageBytes(pid: nat, image: seq<ImagePage>, n: nat)
    requires n <= |image| && ImageOk(image)
    ensures forall i | 0 <= i < n ::
              Slot(pid, image[i].v) in ImageMem(pid, image, n) && ImageMem(pid, image, n)[Slot(pid, image[i].v)] == image[i].bytes
  {
    if n > 0 { ImageBytes(pid, image, n - 1); }
  }

  lemma ImageLoaded(st: E.State, pid: nat, image: seq<ImagePage>)
    requires ImageOk(image)
    ensures Loaded(st, pid, image, E.State(st.live + {pid}, st.mem + ImageMem(pid, image, |image|)))
  {
    hide ImageMem, ImageOk;
    ImageBytes(pid, image, |image|);
    ImageKeys(pid, image, |image|);
  }

  lemma ImageOwn(pid: nat, image: seq<ImagePage>)
    ensures forall s | s in ImageMem(pid, image, |image|) :: s.pid == pid
  {
    ImageKeys(pid, image, |image|);
  }

  lemma NoImage(keys: set<Slot>, m: map<Slot, seq<Byte>>, pid: nat, image: seq<ImagePage>)
    ensures m + ImageMem(pid, image, 0) == m && keys + ImageMem(pid, image, 0).Keys == keys
  {
  }

  lemma MoreImage(keys: set<Slot>, m: map<Slot, seq<Byte>>, pid: nat, image: seq<ImagePage>, i: nat)
    requires i < |image| && ImageOk(image) && forall s | s in keys && s.pid == pid :: s.v < 256
    ensures Slot(pid, image[i].v) !in keys + ImageMem(pid, image, i).Keys
    ensures (m + ImageMem(pid, image, i))[Slot(pid, image[i].v) := image[i].bytes] == m + ImageMem(pid, image, i + 1)
    ensures keys + ImageMem(pid, image, i).Keys + {Slot(pid, image[i].v)} == keys + ImageMem(pid, image, i + 1).Keys
  {
    ImageKeys(pid, image, i);
  }

  lemma ProcsAfterSetup(keys: set<Slot>, keys': set<Slot>, tables: map<Node, nat>, tables': map<Node, nat>,
                        procs: seq<ProcState>, pid: nat, added: set<Slot>)
    requires ProcsOk(keys, tables.Keys, procs, 0) && 0 < pid < 16 && procs[pid] == Free
    requires keys' == keys + KernelSlots(pid, 256) + added && (forall s | s in added :: s.pid == pid)
    requires Grown(tables, tables', pid) && Node(pid, 3, 0) in tables'
    ensures ProcsOk(keys', tables'.Keys, procs[pid := Runnable], 0)
    ensures Live(procs[pid := Runnable]) == Live(procs) + {pid}
  {
    forall p: nat | p < 16 && procs[pid := Runnable][p] != Free
      ensures HasSpace(keys', tables'.Keys, p)
    {
      if p != pid { assert HasSpace(keys, tables.Keys, p); }
      assert p == pid ==> forall v: nat | 0 < v < 256 :: Slot(pid, v) in KernelSlots(pid, 256);
    }
  }
}
