// WeensyOS memory as values: reference counts, page contents, user mappings
// and page-table pages, and what every kernel step keeps about them.

module KernelSpec {
  import opened Basics

  // Page numbers stand for page-aligned addresses. 512 physical pages, 768
  // virtual pages, the last 512 of them for processes; 16 process slots.

  // A virtual page of a process, and what its page-table entry holds.
  datatype Slot = Slot(pid: nat, v: nat)
  datatype Leaf = Leaf(page: nat, w: bool, u: bool, c: bool)

  // A page-table page: the root is at level 3; the page at level l with
  // index i maps the virtual pages v with Index(l, v) == i.
  datatype Node = Node(pid: nat, level: nat, index: nat)

  datatype Phys = Phys(refs: seq<nat>, mem: seq<seq<Byte>>, maps: map<Slot, Leaf>, tables: map<Node, nat>)

  predicate User(s: Slot) { 256 <= s.v }

  function Index(level: nat, v: nat): nat {
    match level
    case 0 => v / 512
    case 1 => v / 262144
    case _ => v / 134217728
  }

  // allocatable_physical_address; the kernel image ends below page `kend`.
  predicate Allocatable(kend: nat, p: nat) {
    && p != 0 && !(160 <= p < 256)
    && (p < 64 || kend <= p)
    && p != 127
    && p < 512
  }

  // The same on addresses: not the first page, the hole for devices, the kernel
  // and its stack, nor beyond the end of memory.
  lemma AllocatableIs(kend: nat, p: nat)
    ensures var pa := 0x1000 * p;
            Allocatable(kend, p) <==>
              && !(pa < 0x1000 || (0xA0000 <= pa < 0x100000))
              && (pa < 0x40000 || 0x1000 * kend <= pa)
              && (pa < 0x7F000 || 0x80000 <= pa)
              && pa < 0x200000
  {
  }

  // What every process has below PROC_START: the kernel's identity mapping,
  // for the kernel only except on the console page.
  function KernelLeaf(v: nat): Leaf { Leaf(v, true, v == 184, false) }

  function MapUses(maps: map<Slot, Leaf>, p: nat): set<Slot> {
    set s | s in maps && User(s) && maps[s].page == p
  }

  function TableUses(tables: map<Node, nat>, p: nat): set<Node> {
    set n | n in tables && tables[n] == p
  }

  function Uses(ph: Phys, p: nat): nat {
    |MapUses(ph.maps, p)| + |TableUses(ph.tables, p)|
  }

  // ---- The invariant, with the count of one page `off` wrong by `d` ----

  ghost predicate Inv(kend: nat, ph: Phys, off: nat, d: int) {
    && Shape(ph)
    && Exact(kend, ph, off, d)
    && PagesOk(kend, ph.maps, ph.tables)
    && OneAddress(ph.maps)
    && WritableSole(ph.maps)
    && TablesPrivate(ph.maps, ph.tables)
    && EntriesOk(ph.maps, ph.tables)
  }

  ghost predicate Shape(ph: Phys) {
    && |ph.refs| == 512 && |ph.mem| == 512
    && forall p | 0 <= p < 512 :: |ph.mem[p]| == 4096
  }

  // A page's count is its user mappings plus its use as a page-table page.
  ghost predicate Exact(kend: nat, ph: Phys, off: nat, d: int)
    requires Shape(ph)
  {
    forall p: nat | Allocatable(kend, p) :: ph.refs[p] == Uses(ph, p) + if p == off then d else 0
  }

  ghost predicate PagesOk(kend: nat, maps: map<Slot, Leaf>, tables: map<Node, nat>) {
    && (forall s | s in maps && User(s) :: Allocatable(kend, maps[s].page))
    && (forall n | n in tables :: Allocatable(kend, tables[n]))
  }

  // All mappings of a page are at the same virtual address.
  ghost predicate OneAddress(maps: map<Slot, Leaf>) {
    forall s, t | s in maps && t in maps && User(s) && User(t) && maps[s].page == maps[t].page :: s.v == t.v
  }

  // A page mapped writable is mapped once.
  ghost predicate WritableSole(maps: map<Slot, Leaf>) {
    forall s, t | s in maps && t in maps && User(s) && User(t) && maps[s].page == maps[t].page && maps[s].w :: s == t
  }

  // A page-table page is used once, and for nothing else.
  ghost predicate TablesPrivate(maps: map<Slot, Leaf>, tables: map<Node, nat>) {
    && (forall n, m | n in tables && m in tables && tables[n] == tables[m] :: n == m)
    && (forall n, s | n in tables && s in maps && User(s) :: tables[n] != maps[s].page)
  }

  // Entries belong to process slots, user ones are marked so, kernel ones are
  // the identity, and the page-table pages on the way to each one exist.
  ghost predicate EntriesOk(maps: map<Slot, Leaf>, tables: map<Node, nat>) {
    && (forall n | n in tables :: 1 <= n.pid < 16)
    && (forall s | s in maps :: EntryOk(maps[s], tables, s))
  }

  predicate EntryOk(l: Leaf, tables: map<Node, nat>, s: Slot) {
    && 1 <= s.pid < 16 && s.v < 768
    && (if User(s) then l.u else l == KernelLeaf(s.v))
    && ChainOk(tables, s.pid, s.v)
  }

  predicate ChainOk(tables: map<Node, nat>, pid: nat, v: nat) {
    && Node(pid, 0, Index(0, v)) in tables && Node(pid, 1, Index(1, v)) in tables
    && Node(pid, 2, Index(2, v)) in tables && Node(pid, 3, 0) in tables
  }

  // What user code sees: the bytes of every user page of every process.
  function Contents(ph: Phys): map<Slot, seq<Byte>> {
    map s | s in ph.maps && User(s) && ph.maps[s].page < |ph.mem| :: ph.mem[ph.maps[s].page]
  }

  // ---- The primitive steps ----

  function Fill(b: Byte): (page: seq<Byte>)
    ensures |page| == 4096 && forall i | 0 <= i < 4096 :: page[i] == b
  {
    seq(4096, _ => b)
  }

  // kalloc of page p, then filled.
  function AllocSt(ph: Phys, p: nat, page: seq<Byte>): Phys
    requires p < |ph.refs| && p < |ph.mem|
  {
    ph.(refs := ph.refs[p := 1], mem := ph.mem[p := page])
  }

  // kfree: the counter is one byte wide.
  function FreeSt(ph: Phys, p: nat): Phys
    requires p < |ph.refs| && p < |ph.mem|
  {
    var r := (ph.refs[p] + 255) % 256;
    ph.(refs := ph.refs[p := r], mem := if r == 0 then ph.mem[p := Fill(0)] else ph.mem)
  }

  function IncSt(ph: Phys, p: nat): Phys
    requires p < |ph.refs|
  {
    ph.(refs := ph.refs[p := (ph.refs[p] + 1) % 256])
  }

  function LinkSt(ph: Phys, n: Node, t: nat): Phys {
    ph.(tables := ph.tables[n := t])
  }

  function UnlinkSt(ph: Phys, n: Node): Phys {
    ph.(tables := ph.tables - {n})
  }

  function UnmapSt(ph: Phys, s: Slot): Phys {
    ph.(maps := ph.maps - {s})
  }

  function MapSt(ph: Phys, s: Slot, l: Leaf): Phys {
    ph.(maps := ph.maps[s := l])
  }

  // ---- Counting uses ----

  lemma MapUsesSet(maps: map<Slot, Leaf>, s: Slot, l: Leaf, p: nat)
    requires User(s)
    ensures MapUses(maps[s := l], p) == if l.page == p then MapUses(maps, p) + {s} else MapUses(maps, p) - {s}
  {
  }

  lemma MapUsesKernel(maps: map<Slot, Leaf>, s: Slot, l: Leaf, p: nat)
    requires !User(s)
    ensures MapUses(maps[s := l], p) == MapUses(maps, p)
  {
  }

  lemma MapUsesDrop(maps: map<Slot, Leaf>, s: Slot, p: nat)
    ensures MapUses(maps - {s}, p) == MapUses(maps, p) - {s}
  {
  }

  lemma TableUsesSet(tables: map<Node, nat>, n: Node, t: nat, p: nat)
    requires n !in tables
    ensures TableUses(tables[n := t], p) == if t == p then TableUses(tables, p) + {n} else TableUses(tables, p)
  {
  }

  lemma TableUsesDrop(tables: map<Node, nat>, n: Node, p: nat)
    ensures TableUses(tables - {n}, p) == TableUses(tables, p) - {n}
  {
  }

  // p is mapped nowhere and is no page table.
  ghost predicate Idle(ph: Phys, p: nat) {
    && (forall s | s in ph.maps && User(s) :: ph.maps[s].page != p)
    && (forall n | n in ph.tables :: ph.tables[n] != p)
  }

  lemma UnusedIsIdle(ph: Phys, p: nat)
    requires Uses(ph, p) == 0
    ensures Idle(ph, p)
  {
    forall s | s in ph.maps && User(s)
      ensures ph.maps[s].page != p
    {
      assert s !in MapUses(ph.maps, p);
    }
    forall n | n in ph.tables
      ensures ph.tables[n] != p
    {
      assert n !in TableUses(ph.tables, p);
    }
  }

  // The one-byte counters never wrap: at most one mapping per process.
  lemma UsesBounded(ph: Phys, p: nat)
    requires OneAddress(ph.maps) && TablesPrivate(ph.maps, ph.tables) && EntriesOk(ph.maps, ph.tables)
    ensures Uses(ph, p) <= 15
  {
    var ms, ts := MapUses(ph.maps, p), TableUses(ph.tables, p);
    if n :| n in ts {
      assert ts == {n};
      assert ms == {};
    } else {
      assert ts == {};
      MapUsesBounded(ph, p);
    }
  }

  lemma MapUsesBounded(ph: Phys, p: nat)
    requires OneAddress(ph.maps) && EntriesOk(ph.maps, ph.tables)
    ensures |MapUses(ph.maps, p)| <= 15
  {
    var ms := MapUses(ph.maps, p);
    if s :| s in ms {
      forall q | q in ms
        ensures 1 <= q.pid <= 15 && q.v == s.v
      {
        assert EntryOk(ph.maps[q], ph.tables, q);
      }
      OnePerPid(ms, 15, s.v);
    }
  }

  lemma {:induction false} OnePerPid(ms: set<Slot>, n: nat, v: nat)
    requires forall q | q in ms :: 1 <= q.pid <= n && q.v == v
    ensures |ms| <= n
  {
    if n > 0 {
      var rest := ms - {Slot(n, v)};
      OnePerPid(rest, n - 1, v);
      assert |rest| >= |ms| - 1;
    } else {
      assert ms == {};
    }
  }

  // ---- How the uses and the contents change ----

  lemma UsesAfterMap(ph: Phys, s: Slot, l: Leaf)
    requires s !in ph.maps && User(s)
    ensures forall q: nat :: Uses(MapSt(ph, s, l), q) == Uses(ph, q) + if q == l.page then 1 else 0
  {
    forall q: nat
      ensures Uses(MapSt(ph, s, l), q) == Uses(ph, q) + if q == l.page then 1 else 0
    {
      MapUsesSet(ph.maps, s, l, q);
      assert s !in MapUses(ph.maps, q);
      assert MapUses(ph.maps, q) - {s} == MapUses(ph.maps, q);
    }
  }

  lemma UsesAfterKernelMap(ph: Phys, s: Slot, l: Leaf)
    requires !User(s)
    ensures forall q: nat :: Uses(MapSt(ph, s, l), q) == Uses(ph, q)
  {
    forall q: nat
      ensures Uses(MapSt(ph, s, l), q) == Uses(ph, q)
    {
      MapUsesKernel(ph.maps, s, l, q);
    }
  }

  // The same page with other permissions.
  lemma UsesAfterRemark(ph: Phys, s: Slot, l: Leaf)
    requires s in ph.maps && User(s) && l.page == ph.maps[s].page
    ensures forall q: nat :: Uses(MapSt(ph, s, l), q) == Uses(ph, q)
  {
    forall q: nat
      ensures Uses(MapSt(ph, s, l), q) == Uses(ph, q)
    {
      MapUsesSet(ph.maps, s, l, q);
      assert s in MapUses(ph.maps, q) <==> q == l.page;
    }
  }

  lemma UsesAfterUnmap(ph: Phys, s: Slot)
    requires s in ph.maps && User(s)
    ensures forall q: nat ::
              Uses(UnmapSt(ph, s), q) == Uses(ph, q) - if q == ph.maps[s].page then 1 else 0
  {
    forall q: nat
      ensures Uses(UnmapSt(ph, s), q) == Uses(ph, q) - if q == ph.maps[s].page then 1 else 0
    {
      MapUsesDrop(ph.maps, s, q);
      assert s in MapUses(ph.maps, q) <==> q == ph.maps[s].page;
    }
  }

  lemma UsesAfterKernelUnmap(ph: Phys, s: Slot)
    requires !User(s)
    ensures forall q: nat :: Uses(UnmapSt(ph, s), q) == Uses(ph, q)
  {
    forall q: nat
      ensures Uses(UnmapSt(ph, s), q) == Uses(ph, q)
    {
      MapUsesDrop(ph.maps, s, q);
      assert s !in MapUses(ph.maps, q);
    }
  }

  lemma UsesAfterLink(ph: Phys, n: Node, t: nat)
    requires n !in ph.tables
    ensures forall q: nat :: Uses(LinkSt(ph, n, t), q) == Uses(ph, q) + if q == t then 1 else 0
  {
    forall q: nat
      ensures Uses(LinkSt(ph, n, t), q) == Uses(ph, q) + if q == t then 1 else 0
    {
      TableUsesSet(ph.tables, n, t, q);
      assert n !in TableUses(ph.tables, q);
    }
  }

  lemma UsesAfterUnlink(ph: Phys, n: Node)
    requires n in ph.tables
    ensures forall q: nat :: Uses(UnlinkSt(ph, n), q) == Uses(ph, q) - if q == ph.tables[n] then 1 else 0
  {
    forall q: nat
      ensures Uses(UnlinkSt(ph, n), q) == Uses(ph, q) - if q == ph.tables[n] then 1 else 0
    {
      TableUsesDrop(ph.tables, n, q);
      assert n in TableUses(ph.tables, q) <==> q == ph.tables[n];
    }
  }

  // Growing the tables keeps every entry's chain.
  lemma EntriesAfterLink(maps: map<Slot, Leaf>, tables: map<Node, nat>, n: Node, t: nat)
    requires EntriesOk(maps, tables) && 1 <= n.pid < 16
    ensures EntriesOk(maps, tables[n := t])
  {
    forall s | s in maps
      ensures EntryOk(maps[s], tables[n := t], s)
    {
      assert EntryOk(maps[s], tables, s);
    }
  }

  lemma EntriesAfterUnlink(maps: map<Slot, Leaf>, tables: map<Node, nat>, n: Node)
    requires EntriesOk(maps, tables)
    requires forall s | s in maps :: s.pid != n.pid
    ensures EntriesOk(maps, tables - {n})
  {
    forall s | s in maps
      ensures EntryOk(maps[s], tables - {n}, s)
    {
      assert EntryOk(maps[s], tables, s);
    }
  }

  lemma EntriesAfterMap(maps: map<Slot, Leaf>, tables: map<Node, nat>, s: Slot, l: Leaf)
    requires EntriesOk(maps, tables) && EntryOk(l, tables, s)
    ensures EntriesOk(maps[s := l], tables)
  {
  }

  lemma EntriesAfterUnmap(maps: map<Slot, Leaf>, tables: map<Node, nat>, s: Slot)
    requires EntriesOk(maps, tables)
    ensures EntriesOk(maps - {s}, tables)
  {
  }

  // Writing a page nobody uses shows nowhere.
  lemma ContentsIdle(ph: Phys, p: nat, page: seq<Byte>)
    requires p < |ph.mem| && Idle(ph, p)
    ensures Contents(ph.(mem := ph.mem[p := page])) == Contents(ph)
  {
  }

  // ---- What each step keeps ----

  // kalloc: p is counted once and not used yet; nobody sees a difference.
  lemma AllocInv(kend: nat, ph: Phys, x: nat, p: nat, page: seq<Byte>)
    requires Inv(kend, ph, x, 0) && Allocatable(kend, p) && ph.refs[p] == 0 && |page| == 4096
    ensures Inv(kend, AllocSt(ph, p, page), p, 1)
    ensures Idle(AllocSt(ph, p, page), p)
    ensures Contents(AllocSt(ph, p, page)) == Contents(ph)
  {
    hide OneAddress, WritableSole, TablesPrivate, EntriesOk, PagesOk, Uses;
    assert Uses(ph, p) == 0;
    UnusedIsIdle(ph, p);
    ContentsIdle(ph, p, page);
    SameUses(ph, AllocSt(ph, p, page));
  }

  lemma UncountedNoTable(kend: nat, ph: Phys, off: nat, d: nat, p: nat)
    requires Inv(kend, ph, off, d) && Allocatable(kend, p) && ph.refs[p] == 0
    ensures p !in ph.tables.Values
  {
    hide OneAddress, WritableSole, TablesPrivate, EntriesOk, PagesOk;
    UnusedIsIdle(ph, p);
  }

  lemma SameUses(ph: Phys, ph': Phys)
    requires ph'.maps == ph.maps && ph'.tables == ph.tables
    ensures forall q: nat :: Uses(ph', q) == Uses(ph, q)
  {
  }

  // try_map growing the tree by one page, while another count may be off.
  lemma TableInv(kend: nat, ph: Phys, off: nat, d: nat, n: Node, t: nat, page: seq<Byte>)
    requires Inv(kend, ph, off, d) && Allocatable(kend, t) && ph.refs[t] == 0 && |page| == 4096
    requires n !in ph.tables && 1 <= n.pid < 16
    ensures Inv(kend, LinkSt(AllocSt(ph, t, page), n, t), off, d)
    ensures Contents(LinkSt(AllocSt(ph, t, page), n, t)) == Contents(ph)
    ensures off == t ==> d == 0
    ensures Idle(ph, off) && off != t ==> Idle(LinkSt(AllocSt(ph, t, page), n, t), off)
  {
    hide OneAddress, WritableSole, EntriesOk, Uses;
    assert Uses(ph, t) == 0;
    UnusedIsIdle(ph, t);
    ContentsIdle(ph, t, page);
    SameUses(ph, AllocSt(ph, t, page));
    UsesAfterLink(AllocSt(ph, t, page), n, t);
    EntriesAfterLink(ph.maps, ph.tables, n, t);
  }

  // Taking a page-table page out of the tree leaves its count one too high.
  lemma UnlinkInv(kend: nat, ph: Phys, x: nat, n: Node)
    requires Inv(kend, ph, x, 0) && n in ph.tables
    requires forall s | s in ph.maps :: s.pid != n.pid
    ensures Inv(kend, UnlinkSt(ph, n), ph.tables[n], 1) && Allocatable(kend, ph.tables[n])
    ensures Contents(UnlinkSt(ph, n)) == Contents(ph)
  {
    hide OneAddress, WritableSole, EntriesOk, Uses;
    UsesAfterUnlink(ph, n);
    EntriesAfterUnlink(ph.maps, ph.tables, n);
  }

  // kfree of a page counted once too often; only a page nobody uses is wiped.
  lemma FreeInv(kend: nat, ph: Phys, p: nat)
    requires Inv(kend, ph, p, 1) && Allocatable(kend, p)
    ensures 0 < ph.refs[p] <= 16
    ensures Inv(kend, FreeSt(ph, p), p, 0)
    ensures Contents(FreeSt(ph, p)) == Contents(ph)
  {
    hide OneAddress, WritableSole, TablesPrivate, EntriesOk, PagesOk, Uses;
    UsesBounded(ph, p);
    SameUses(ph, FreeSt(ph, p));
    if Uses(ph, p) == 0 {
      UnusedIsIdle(ph, p);
      ContentsIdle(ph, p, Fill(0));
    }
  }

  // Mapping a fresh page for user code.
  lemma MapInv(kend: nat, ph: Phys, p: nat, s: Slot, w: bool, c: bool)
    requires Inv(kend, ph, p, 1) && Idle(ph, p) && Allocatable(kend, p)
    requires s !in ph.maps && User(s) && 1 <= s.pid < 16 && s.v < 768 && ChainOk(ph.tables, s.pid, s.v)
    ensures Inv(kend, MapSt(ph, s, Leaf(p, w, true, c)), p, 0)
    ensures Contents(MapSt(ph, s, Leaf(p, w, true, c))) == Contents(ph)[s := ph.mem[p]]
  {
    hide EntriesOk, TablesPrivate, Uses;
    UsesAfterMap(ph, s, Leaf(p, w, true, c));
    EntriesAfterMap(ph.maps, ph.tables, s, Leaf(p, w, true, c));
    PrivateAfterMap(ph.maps, ph.tables, s, Leaf(p, w, true, c));
    ContentsAfterMap(ph, s, Leaf(p, w, true, c));
  }

  lemma PrivateAfterMap(maps: map<Slot, Leaf>, tables: map<Node, nat>, s: Slot, l: Leaf)
    requires TablesPrivate(maps, tables) && forall n | n in tables :: tables[n] != l.page
    ensures TablesPrivate(maps[s := l], tables)
  {
  }

  lemma ContentsAfterMap(ph: Phys, s: Slot, l: Leaf)
    requires User(s) && l.page < |ph.mem|
    ensures Contents(MapSt(ph, s, l)) == Contents(ph)[s := ph.mem[l.page]]
  {
  }

  // Copying a kernel entry into a new page table.
  lemma KernelMapInv(kend: nat, ph: Phys, x: nat, s: Slot)
    requires Inv(kend, ph, x, 0)
    requires s !in ph.maps && !User(s) && 1 <= s.pid < 16 && ChainOk(ph.tables, s.pid, s.v)
    ensures Inv(kend, MapSt(ph, s, KernelLeaf(s.v)), x, 0)
    ensures Contents(MapSt(ph, s, KernelLeaf(s.v))) == Contents(ph)
  {
    hide EntriesOk, Uses;
    UsesAfterKernelMap(ph, s, KernelLeaf(s.v));
    EntriesAfterMap(ph.maps, ph.tables, s, KernelLeaf(s.v));
  }

  // Dropping an entry leaves the count of its page one too high.
  lemma UnmapInv(kend: nat, ph: Phys, x: nat, s: Slot)
    requires Inv(kend, ph, x, 0) && s in ph.maps && User(s)
    ensures Inv(kend, UnmapSt(ph, s), ph.maps[s].page, 1) && Allocatable(kend, ph.maps[s].page)
    ensures Contents(UnmapSt(ph, s)) == Contents(ph) - {s}
  {
    hide EntriesOk, Uses;
    UsesAfterUnmap(ph, s);
    EntriesAfterUnmap(ph.maps, ph.tables, s);
  }

  lemma UnmapKernelInv(kend: nat, ph: Phys, x: nat, s: Slot)
    requires Inv(kend, ph, x, 0) && s in ph.maps && !User(s)
    ensures Inv(kend, UnmapSt(ph, s), x, 0)
    ensures Contents(UnmapSt(ph, s)) == Contents(ph)
  {
    hide EntriesOk, Uses;
    UsesAfterKernelUnmap(ph, s);
    EntriesAfterUnmap(ph.maps, ph.tables, s);
  }

  // ---- Sharing and copying ----

  // The same page with other permissions; writable only for a sole mapping.
  lemma RemarkInv(kend: nat, ph: Phys, x: nat, s: Slot, l: Leaf)
    requires Inv(kend, ph, x, 0) && s in ph.maps && User(s) && l.page == ph.maps[s].page && l.u
    requires l.w ==> forall t | t in ph.maps && User(t) && ph.maps[t].page == l.page :: t == s
    ensures Inv(kend, MapSt(ph, s, l), x, 0)
    ensures Contents(MapSt(ph, s, l)) == Contents(ph)
  {
    hide EntriesOk, TablesPrivate, OneAddress, WritableSole, Uses;
    EntryOf(ph, s);
    SoleAfterRemark(ph.maps, s, l);
    UsesAfterRemark(ph, s, l);
    EntriesAfterMap(ph.maps, ph.tables, s, l);
    PrivateAfterRemark(ph.maps, ph.tables, s, l);
    ContentsAfterMap(ph, s, l);
  }

  lemma SoleAfterRemark(maps: map<Slot, Leaf>, s: Slot, l: Leaf)
    requires OneAddress(maps) && WritableSole(maps) && s in maps && User(s) && l.page == maps[s].page
    requires l.w ==> forall t | t in maps && User(t) && maps[t].page == l.page :: t == s
    ensures OneAddress(maps[s := l]) && WritableSole(maps[s := l])
  {
    assert MapSame(maps, maps[s := l], s);
  }

  // The two maps agree on which pages are mapped where, and elsewhere than s.
  ghost predicate MapSame(m1: map<Slot, Leaf>, m2: map<Slot, Leaf>, s: Slot) {
    && m1.Keys == m2.Keys
    && forall t | t in m1 :: m2[t].page == m1[t].page && (t != s ==> m2[t] == m1[t])
  }

  lemma EntryOf(ph: Phys, s: Slot)
    requires EntriesOk(ph.maps, ph.tables) && s in ph.maps
    ensures EntryOk(ph.maps[s], ph.tables, s)
  {
  }

  lemma PrivateAfterRemark(maps: map<Slot, Leaf>, tables: map<Node, nat>, s: Slot, l: Leaf)
    requires TablesPrivate(maps, tables) && s in maps && User(s) && l.page == maps[s].page
    ensures TablesPrivate(maps[s := l], tables)
  {
  }

  // A count of one means one mapping, so it may be made writable again.
  lemma SoleWhenOne(kend: nat, ph: Phys, x: nat, s: Slot)
    requires Inv(kend, ph, x, 0) && s in ph.maps && User(s) && ph.refs[ph.maps[s].page] == 1
    ensures forall t | t in ph.maps && User(t) && ph.maps[t].page == ph.maps[s].page :: t == s
  {
    hide OneAddress, WritableSole, TablesPrivate, EntriesOk, TableUses;
    var ms := MapUses(ph.maps, ph.maps[s].page);
    assert Uses(ph, ph.maps[s].page) == 1;
    assert s in ms;
    assert |ms - {s}| == |ms| - 1;
    forall t | t in ph.maps && User(t) && ph.maps[t].page == ph.maps[s].page
      ensures t == s
    {
      assert t in ms && (t == s || t in ms - {s});
    }
  }

  // A second, read-only mapping of a page no longer writable anywhere.
  lemma ShareInv(kend: nat, ph: Phys, x: nat, s: Slot, t: Slot, l: Leaf)
    requires Inv(kend, ph, x, 0) && s in ph.maps && User(s) && ph.maps[s] == l && !l.w
    requires t !in ph.maps && t.v == s.v && 1 <= t.pid < 16 && ChainOk(ph.tables, t.pid, t.v)
    ensures Inv(kend, MapSt(ph, t, l), l.page, -1) && Allocatable(kend, l.page)
    ensures s in Contents(ph) && Contents(MapSt(ph, t, l)) == Contents(ph)[t := Contents(ph)[s]]
  {
    hide EntriesOk, TablesPrivate, OneAddress, WritableSole, Uses;
    EntryOf(ph, s);
    SoleAfterShare(ph.maps, s, t);
    UsesAfterMap(ph, t, l);
    EntriesAfterMap(ph.maps, ph.tables, t, l);
    PrivateAfterShare(ph.maps, ph.tables, s, t);
    ContentsAfterMap(ph, t, l);
  }

  lemma SoleAfterShare(maps: map<Slot, Leaf>, s: Slot, t: Slot)
    requires OneAddress(maps) && WritableSole(maps) && s in maps && User(s) && !maps[s].w && t.v == s.v && t !in maps
    ensures OneAddress(maps[t := maps[s]]) && WritableSole(maps[t := maps[s]])
  {
    var maps' := maps[t := maps[s]];
    forall a, b | a in maps' && b in maps' && User(a) && User(b) && maps'[a].page == maps'[b].page
      ensures a.v == b.v && (maps'[a].w ==> a == b)
    {
      var a0, b0 := if a == t then s else a, if b == t then s else b;
      assert maps[a0].page == maps[b0].page;
    }
  }

  lemma PrivateAfterShare(maps: map<Slot, Leaf>, tables: map<Node, nat>, s: Slot, t: Slot)
    requires TablesPrivate(maps, tables) && s in maps && User(s)
    ensures TablesPrivate(maps[t := maps[s]], tables)
  {
    PrivateAfterMap(maps, tables, t, maps[s]);
  }

  lemma IncInv(kend: nat, ph: Phys, p: nat)
    requires Inv(kend, ph, p, -1) && Allocatable(kend, p)
    ensures ph.refs[p] < 15
    ensures Inv(kend, IncSt(ph, p), p, 0) && Contents(IncSt(ph, p)) == Contents(ph)
  {
    hide OneAddress, WritableSole, TablesPrivate, EntriesOk, PagesOk, Uses;
    UsesBounded(ph, p);
    SameUses(ph, IncSt(ph, p));
  }

  // fork's treatment of one user page: child entry, parent entry, count.
  function ForkSt(ph: Phys, s: Slot, t: Slot): Phys
    requires s in ph.maps && ph.maps[s].page < |ph.refs|
  {
    var l := ph.maps[s];
    var shared := Leaf(l.page, false, l.u, l.c || l.w);
    IncSt(MapSt(MapSt(ph, t, shared), s, shared), l.page)
  }

  lemma CountedWhenMapped(kend: nat, ph: Phys, x: nat, s: Slot)
    requires Inv(kend, ph, x, 0) && s in ph.maps && User(s)
    ensures ph.maps[s].page < 512 && |ph.refs| == 512 && 0 < ph.refs[ph.maps[s].page]
  {
    hide OneAddress, WritableSole, TablesPrivate, EntriesOk;
    assert s in MapUses(ph.maps, ph.maps[s].page);
  }

  lemma ForkInv(kend: nat, ph: Phys, x: nat, s: Slot, t: Slot)
    requires Inv(kend, ph, x, 0) && s in ph.maps && User(s)
    requires t !in ph.maps && t.v == s.v && 1 <= t.pid < 16 && ChainOk(ph.tables, t.pid, t.v)
    ensures ph.maps[s].page < 512 && |ph.refs| == 512 && 0 < ph.refs[ph.maps[s].page] < 15
    ensures Inv(kend, ForkSt(ph, s, t), x, 0)
    ensures s in Contents(ph) && Contents(ForkSt(ph, s, t)) == Contents(ph)[t := Contents(ph)[s]]
  {
    hide Inv, Contents, ChainOk;
    EntryOfInv(kend, ph, x, s);
    var l := ph.maps[s];
    var shared := Leaf(l.page, false, l.u, l.c || l.w);
    var ph1 := MapSt(ph, s, shared);
    RemarkInv(kend, ph, x, s, shared);
    ShareInv(kend, ph1, x, s, t, shared);
    var ph2 := MapSt(ph1, t, shared);
    IncInv(kend, ph2, l.page);
    CountedWhenMapped(kend, ph, x, s);
    assert ph2.maps == ph.maps[t := shared][s := shared] by { assert s != t; }
    ExactIrrelevant(kend, IncSt(ph2, l.page), l.page, x);
  }

  lemma EntryOfInv(kend: nat, ph: Phys, x: nat, s: Slot)
    requires Inv(kend, ph, x, 0) && s in ph.maps
    ensures EntryOk(ph.maps[s], ph.tables, s)
    ensures |ph.refs| == 512 && |ph.mem| == 512
    ensures User(s) ==> ph.maps[s].page < 512 && |ph.mem[ph.maps[s].page]| == 4096 && s in Contents(ph)
                        && Contents(ph)[s] == ph.mem[ph.maps[s].page]
  {
    EntryOf(ph, s);
  }

  // With d == 0 it does not matter which page `off` names.
  lemma ExactIrrelevant(kend: nat, ph: Phys, x: nat, y: nat)
    requires Inv(kend, ph, x, 0)
    ensures Inv(kend, ph, y, 0)
  {
  }

  // Copy on write: the entry moves to a fresh page with the same bytes, and
  // the old page is counted once too often until it is freed.
  function CopySt(ph: Phys, s: Slot, n: nat): Phys
    requires s in ph.maps && ph.maps[s].page < |ph.mem| && n < |ph.mem|
  {
    var l := ph.maps[s];
    MapSt(ph, s, Leaf(n, true, l.u, false)).(mem := ph.mem[n := ph.mem[l.page]])
  }

  lemma UsesAfterCopy(ph: Phys, s: Slot, l: Leaf)
    requires s in ph.maps && User(s) && l.page != ph.maps[s].page
    ensures forall q: nat :: Uses(MapSt(ph, s, l), q) ==
              Uses(ph, q) + (if q == l.page then 1 else 0) - (if q == ph.maps[s].page then 1 else 0)
  {
    forall q: nat
      ensures Uses(MapSt(ph, s, l), q) ==
              Uses(ph, q) + (if q == l.page then 1 else 0) - (if q == ph.maps[s].page then 1 else 0)
    {
      MapUsesSet(ph.maps, s, l, q);
      assert s in MapUses(ph.maps, q) <==> q == ph.maps[s].page;
    }
  }

  lemma CopyInv(kend: nat, ph: Phys, s: Slot, n: nat)
    requires Inv(kend, ph, n, 1) && Idle(ph, n) && Allocatable(kend, n) && s in ph.maps && User(s)
    ensures |ph.mem| == 512 && ph.maps[s].page < 512 && Allocatable(kend, ph.maps[s].page)
    ensures Inv(kend, CopySt(ph, s, n), ph.maps[s].page, 1)
    ensures Contents(CopySt(ph, s, n)) == Contents(ph)
  {
    hide EntriesOk, TablesPrivate, OneAddress, WritableSole, Uses, Exact, Contents, PagesOk, Idle, Shape;
    ShapeSizes(ph);
    CopyPages(kend, ph, s, n);
    ExactAfterCopy(kend, ph, s, n);
    CopySharing(ph, s, n);
    ContentsAfterCopy(ph, s, n);
  }

  lemma ShapeSizes(ph: Phys)
    requires Shape(ph)
    ensures |ph.refs| == 512 && |ph.mem| == 512
  {
  }

  lemma CopyPages(kend: nat, ph: Phys, s: Slot, n: nat)
    requires Shape(ph) && PagesOk(kend, ph.maps, ph.tables) && Idle(ph, n) && Allocatable(kend, n)
    requires s in ph.maps && User(s)
    ensures Allocatable(kend, ph.maps[s].page) && ph.maps[s].page != n
    ensures PagesOk(kend, CopySt(ph, s, n).maps, ph.tables)
  {
  }

  lemma CopySharing(ph: Phys, s: Slot, n: nat)
    requires OneAddress(ph.maps) && WritableSole(ph.maps) && Idle(ph, n) && n < |ph.mem|
    requires TablesPrivate(ph.maps, ph.tables) && EntriesOk(ph.maps, ph.tables)
    requires s in ph.maps && User(s) && ph.maps[s].page < |ph.mem|
    ensures var maps := CopySt(ph, s, n).maps;
            && OneAddress(maps) && WritableSole(maps)
            && TablesPrivate(maps, ph.tables) && EntriesOk(maps, ph.tables)
  {
    var l := Leaf(n, true, ph.maps[s].u, false);
    hide EntriesOk, TablesPrivate, OneAddress, WritableSole;
    EntryOf(ph, s);
    SoleAfterFresh(ph.maps, s, l);
    EntriesAfterMap(ph.maps, ph.tables, s, l);
    PrivateAfterMap(ph.maps, ph.tables, s, l);
  }

  lemma ExactAfterCopy(kend: nat, ph: Phys, s: Slot, n: nat)
    requires Shape(ph) && Exact(kend, ph, n, 1) && s in ph.maps && User(s) && n < 512
    requires n < |ph.mem| && ph.maps[s].page < |ph.mem| && ph.maps[s].page != n
    ensures Shape(CopySt(ph, s, n)) && Exact(kend, CopySt(ph, s, n), ph.maps[s].page, 1)
  {
    hide Uses;
    UsesAfterCopy(ph, s, Leaf(n, true, ph.maps[s].u, false));
    SameUses(MapSt(ph, s, Leaf(n, true, ph.maps[s].u, false)), CopySt(ph, s, n));
  }

  lemma SoleAfterFresh(maps: map<Slot, Leaf>, s: Slot, l: Leaf)
    requires OneAddress(maps) && WritableSole(maps) && User(s)
    requires forall t | t in maps && User(t) :: maps[t].page != l.page
    ensures OneAddress(maps[s := l]) && WritableSole(maps[s := l])
  {
  }

  lemma ContentsAfterCopy(ph: Phys, s: Slot, n: nat)
    requires s in ph.maps && User(s) && ph.maps[s].page < |ph.mem| && n < |ph.mem| && Idle(ph, n)
    ensures Contents(CopySt(ph, s, n)) == Contents(ph)
  {
  }

  // A store through a writable mapping changes one page of one process.
  lemma StoreInv(kend: nat, ph: Phys, x: nat, s: Slot, page: seq<Byte>)
    requires Inv(kend, ph, x, 0) && s in ph.maps && User(s) && ph.maps[s].w && |page| == 4096
    ensures ph.maps[s].page < 512
    ensures Inv(kend, ph.(mem := ph.mem[ph.maps[s].page := page]), x, 0)
    ensures Contents(ph.(mem := ph.mem[ph.maps[s].page := page])) == Contents(ph)[s := page]
  {
    hide EntriesOk, TablesPrivate, Uses;
    SameUses(ph, ph.(mem := ph.mem[ph.maps[s].page := page]));
  }

  // ---- Facts read off the invariant ----

  lemma Sizes(kend: nat, ph: Phys, off: nat, d: int)
    requires Inv(kend, ph, off, d)
    ensures |ph.refs| == 512 && |ph.mem| == 512
    ensures forall p | 0 <= p < 512 :: |ph.mem[p]| == 4096
  {
  }

  // The test free_everything makes tells user entries from kernel ones.
  lemma UserOrKernel(kend: nat, ph: Phys, off: nat, d: int, s: Slot)
    requires Inv(kend, ph, off, d) && s in ph.maps
    ensures User(s) <==> ph.maps[s].u && ph.maps[s].page != 184
    ensures User(s) ==> ph.maps[s].u && ph.maps[s].page < 512 && Allocatable(kend, ph.maps[s].page)
    ensures !User(s) ==> ph.maps[s] == KernelLeaf(s.v)
    ensures 1 <= s.pid < 16 && s.v < 768
  {
    EntryOf(ph, s);
  }

  lemma KeysInRange(kend: nat, ph: Phys, off: nat, d: int)
    requires Inv(kend, ph, off, d)
    ensures forall s | s in ph.maps :: 1 <= s.pid < 16 && s.v < 768
    ensures forall s :: s in Contents(ph) <==> s in ph.maps && User(s)
  {
    forall s | s in ph.maps
      ensures 1 <= s.pid < 16 && s.v < 768
    {
      EntryOf(ph, s);
    }
  }

  lemma ContentsAt(kend: nat, ph: Phys, off: nat, d: int, s: Slot)
    requires Inv(kend, ph, off, d) && s in ph.maps && User(s)
    ensures ph.maps[s].page < |ph.mem| == 512 && s in Contents(ph)
    ensures Contents(ph)[s] == ph.mem[ph.maps[s].page] && |Contents(ph)[s]| == 4096
  {
  }

  // What a process sees of a page is what that page of memory holds, and no
  // page it sees is a page table.
  lemma SeenApart(kend: nat, ph: Phys, off: nat, d: int, s: Slot)
    requires Inv(kend, ph, off, d) && s in ph.maps && User(s)
    ensures ph.maps[s].page < |ph.mem| == 512 && ph.maps[s].page !in ph.tables.Values
    ensures s in Contents(ph) && Contents(ph)[s] == ph.mem[ph.maps[s].page]
  {
    hide OneAddress, WritableSole, EntriesOk;
    ContentsAt(kend, ph, off, d, s);
  }

  // Writing a page that is allocated but used nowhere.
  lemma IdleWriteInv(kend: nat, ph: Phys, p: nat, page: seq<Byte>)
    requires Inv(kend, ph, p, 1) && Idle(ph, p) && p < 512 && |page| == 4096
    ensures |ph.mem| == 512
    ensures Inv(kend, ph.(mem := ph.mem[p := page]), p, 1) && Idle(ph.(mem := ph.mem[p := page]), p)
    ensures Contents(ph.(mem := ph.mem[p := page])) == Contents(ph)
  {
    hide OneAddress, WritableSole, TablesPrivate, EntriesOk, PagesOk, Uses;
    ContentsIdle(ph, p, page);
    SameUses(ph, ph.(mem := ph.mem[p := page]));
  }

  // ---- What the invariant says about the counters ----

  // Counts are exact and fit one byte with room to spare, a writable page is
  // counted once, and a page-table page too.
  lemma CountFacts(kend: nat, ph: Phys)
    requires Inv(kend, ph, 0, 0)
    ensures forall p: nat | Allocatable(kend, p) :: ph.refs[p] == Uses(ph, p) <= 15
    ensures forall s | s in ph.maps && User(s) && ph.maps[s].w :: ph.refs[ph.maps[s].page] == 1
    ensures forall n | n in ph.tables :: ph.refs[ph.tables[n]] == 1
  {
    forall p: nat | Allocatable(kend, p)
      ensures ph.refs[p] == Uses(ph, p) <= 15
    {
      UsesBounded(ph, p);
    }
    forall s | s in ph.maps && User(s) && ph.maps[s].w
      ensures ph.refs[ph.maps[s].page] == 1
    {
      SoleUse(ph, s);
    }
    forall n | n in ph.tables
      ensures ph.refs[ph.tables[n]] == 1
    {
      SoleTable(ph, n);
    }
  }

  lemma SoleUse(ph: Phys, s: Slot)
    requires WritableSole(ph.maps) && TablesPrivate(ph.maps, ph.tables) && s in ph.maps && User(s) && ph.maps[s].w
    ensures Uses(ph, ph.maps[s].page) == 1
  {
    var p := ph.maps[s].page;
    assert MapUses(ph.maps, p) == {s};
    assert TableUses(ph.tables, p) == {};
  }

  lemma SoleTable(ph: Phys, n: Node)
    requires TablesPrivate(ph.maps, ph.tables) && n in ph.tables
    ensures Uses(ph, ph.tables[n]) == 1
  {
    var p := ph.tables[n];
    assert MapUses(ph.maps, p) == {};
    assert TableUses(ph.tables, p) == {n};
  }

  lemma EmptyInv(kend: nat)
    ensures Inv(kend, Phys(seq(512, _ => 0), seq(512, _ => Fill(0)), map[], map[]), 0, 0)
    ensures Contents(Phys(seq(512, _ => 0), seq(512, _ => Fill(0)), map[], map[])) == map[]
  {
    var ph := Phys(seq(512, _ => 0), seq(512, _ => Fill(0)), map[], map[]);
    forall p: nat
      ensures Uses(ph, p) == 0
    {
      assert MapUses(ph.maps, p) == {} && TableUses(ph.tables, p) == {};
    }
  }
}
