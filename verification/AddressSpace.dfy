// The kernel's maps from pages to mappings, and from table positions to table
// pages, are what the page tables in memory say; try_map keeps them so.

module AddressSpace {
  import K = KernelSpec
  import opened PageTableSpec
  import opened PageTree
  import opened VmIter
  import PT = PtIter
  import opened PageLog

  // The tree of one process.
  function TablesOf(tables: map<K.Node, nat>, pid: nat): map<Key, nat> {
    map n | n in tables && n.pid == pid :: Key(n.level, n.index) := tables[n]
  }

  // PTE_P, PTE_W, PTE_U and PTE_C
  function Flags(l: K.Leaf): (f: bv12)
    ensures f & 1 == 1 && f & 0xFFF == f && f != 0
    ensures (f & 2 != 0 <==> l.w) && (f & 4 != 0 <==> l.u) && (f & 0x200 != 0 <==> l.c)
  {
    1 | (if l.w then 2 else 0) | (if l.u then 4 else 0) | (if l.c then 0x200 else 0)
  }

  // What the kernel's map says of a page.
  function Meant(maps: map<K.Slot, K.Leaf>, pid: nat, v: nat): Translation {
    if K.Slot(pid, v) in maps then Mapped(maps[K.Slot(pid, v)].page * 4096, Flags(maps[K.Slot(pid, v)])) else Unmapped
  }

  ghost predicate Shows(mem: Memory, root: nat, maps: map<K.Slot, K.Leaf>, pid: nat) {
    && MemOk(mem) && root < |mem|
    && forall v: nat | v < 768 :: Translate(mem, root, v * 4096) == Meant(maps, pid, v)
  }

  ghost predicate Realises(mem: Memory, t: map<Key, nat>, maps: map<K.Slot, K.Leaf>, pid: nat) {
    Tree(mem, t) && ROOT in t && Full(mem, t) && Shows(mem, t[ROOT], maps, pid)
  }

  // The page tables of every process show its mappings, and share no page.
  ghost predicate AllRealised(mem: Memory, tables: map<K.Node, nat>, maps: map<K.Slot, K.Leaf>) {
    && (forall n, m | n in tables && m in tables && tables[n] == tables[m] :: n == m)
    && (forall pid: nat | K.Node(pid, 3, 0) in tables :: Realises(mem, TablesOf(tables, pid), maps, pid))
  }

  // ---- Positions ----

  lemma NodeIsKey(v: nat, level: nat)
    requires v < 768 && level <= 2
    ensures KeyOf(v * 4096, level) == Key(level, K.Index(level, v)) && Canonical(v * 4096)
  {
    var va := v * 4096;
    assert va % 0x1_0000_0000_0000 == va;
    match level
    case 0 => DivIs(va, 0x20_0000, v / 512, v % 512 * 4096);
    case 1 => DivIs(va, 0x4000_0000, 0, va);
    case _ => DivIs(va, 0x80_0000_0000, 0, va);
  }

  lemma ApartPages(v: nat, x: nat)
    requires v < 768 && x < 768 && v != x
    ensures !SamePage(x * 4096, v * 4096)
  {
    hide KeyOf, Index;
    PageParts(x);
    PageParts(v);
  }

  // Where a low page is in its lowest table.
  lemma PageParts(v: nat)
    requires v < 768
    ensures KeyOf(v * 4096, 0) == Key(0, v / 512) && Index(v * 4096, 0) == v % 512
  {
    NodeIsKey(v, 0);
    DivIs(v * 4096, 0x1000, v, 0);
  }

  // A walk ends below the last table on the path.
  lemma {:induction false} WalkStops(mem: Memory, page: nat, level: nat, perm: bv12, va: nat)
    requires MemOk(mem) && page < |mem| && level <= 3
    ensures var w := WalkFrom(mem, page, level, perm, va);
            w.level > 0 ==> !IsTable(mem[w.page][w.idx])
    decreases level
  {
    hide IsTable, Narrow;
    var e := mem[page][Index(va, level)];
    if level > 0 && IsTable(e) {
      WalkStops(mem, e.page, level - 1, Narrow(perm, e), va);
    }
  }

  // ---- One process ----

  // The tree with the new tables, back among all the kernel's tables.
  function WithTables(tables: map<K.Node, nat>, pid: nat, t: map<Key, nat>): map<K.Node, nat> {
    tables + map k | k in t :: K.Node(pid, k.level, k.prefix) := t[k]
  }

  lemma TablesOfWith(tables: map<K.Node, nat>, pid: nat, t: map<Key, nat>)
    requires forall k | k in TablesOf(tables, pid) :: k in t && t[k] == TablesOf(tables, pid)[k]
    ensures TablesOf(WithTables(tables, pid, t), pid) == t
    ensures forall q | q != pid :: TablesOf(WithTables(tables, pid, t), q) == TablesOf(tables, q)
    ensures forall n | n in tables :: n in WithTables(tables, pid, t) && WithTables(tables, pid, t)[n] == tables[n]
  {
    var all := WithTables(tables, pid, t);
    forall n | n in tables && n.pid == pid
      ensures Key(n.level, n.index) in t && t[Key(n.level, n.index)] == tables[n]
    {
      assert Key(n.level, n.index) in TablesOf(tables, pid);
    }
    forall k | k in t
      ensures k in TablesOf(all, pid) && TablesOf(all, pid)[k] == t[k]
    {
      assert K.Node(pid, k.level, k.prefix) in all;
    }
    forall k | k in TablesOf(all, pid)
      ensures k in t
    {
      assert K.Node(pid, k.level, k.prefix) in all;
    }
    forall q | q != pid
      ensures TablesOf(all, q) == TablesOf(tables, q)
    {
      OtherTables(tables, all, q);
    }
  }

  lemma OtherTables(tables: map<K.Node, nat>, all: map<K.Node, nat>, q: nat)
    requires forall n: K.Node | n.pid == q :: n in tables <==> n in all
    requires forall n: K.Node | n.pid == q && n in tables :: tables[n] == all[n]
    ensures TablesOf(all, q) == TablesOf(tables, q)
  {
    forall k
      ensures k in TablesOf(all, q) <==> k in TablesOf(tables, q)
    {
      assert K.Node(q, k.level, k.prefix) in all <==> K.Node(q, k.level, k.prefix) in tables;
    }
  }

  // A process whose table pages stay sees nothing of the change.
  lemma OtherProcess(mem: Memory, mem': Memory, t: map<Key, nat>, maps: map<K.Slot, K.Leaf>, maps': map<K.Slot, K.Leaf>, q: nat)
    requires Realises(mem, t, maps, q) && MemOk(mem') && |mem'| == |mem|
    requires forall k | k in t && t[k] < |mem| :: mem'[t[k]] == mem[t[k]]
    requires forall v: nat :: Meant(maps', q, v) == Meant(maps, q, v)
    ensures Realises(mem', t, maps', q)
  {
    forall k, i: nat | k in t && k.level > 0 && i < 512
      ensures EntryRep(mem', t, k, i) && FullEntry(mem', t[k], i)
    {
      assert EntryRep(mem, t, k, i) && FullEntry(mem, t[k], i);
    }
    forall k | k in t
      ensures KeyOk(mem', t, t.Keys, k)
    {
      assert KeyOk(mem, t, t.Keys, k);
    }
    forall v: nat | v < 768
      ensures Translate(mem', t[ROOT], v * 4096) == Meant(maps', q, v)
    {
      SameTables(mem, mem', t, v * 4096);
    }
  }

  lemma SameTables(mem: Memory, mem': Memory, t: map<Key, nat>, va: nat)
    requires Tree(mem, t) && ROOT in t && MemOk(mem') && |mem'| == |mem|
    requires forall k | k in t && t[k] < |mem| :: mem'[t[k]] == mem[t[k]]
    ensures t[ROOT] < |mem| && Translate(mem', t[ROOT], va) == Translate(mem, t[ROOT], va)
  {
    TableAtKey(mem, t, va, 3);
    forall l: nat | l <= 3 && TableAt(mem, t[ROOT], va, l).At?
      ensures mem'[TableAt(mem, t[ROOT], va, l).page][Index(va, l)] == mem[TableAt(mem, t[ROOT], va, l).page][Index(va, l)]
    {
      TableAtKey(mem, t, va, l);
    }
    SameTranslation(mem, mem', t[ROOT], va);
  }

  // An iterator reads what the kernel's map says.
  lemma Lookup(it: VmIterator, maps: map<K.Slot, K.Leaf>, pid: nat, v: nat)
    requires it.Valid() && it.AtWalk() && it.va == v * 4096 && v < 768
    requires Shows(it.ram.mem, it.pt, maps, pid)
    ensures it.Reads() == Meant(maps, pid, v)
    ensures it.Perm() == if K.Slot(pid, v) in maps then Flags(maps[K.Slot(pid, v)]) else 0
  {
    it.ReadsIsTranslation();
  }

  // Pages that hold no table and may become one.
  ghost predicate Spare(mem: Memory, tables: map<K.Node, nat>, pool: seq<nat>) {
    && (forall i | 0 <= i < |pool| :: pool[i] < |mem| && pool[i] !in tables.Values)
    && (forall i, j | 0 <= i < j < |pool| :: pool[i] != pool[j])
  }

  // Only tables on the way to page v are new, each on a page of the pool.
  ghost predicate GrewFor(tables: map<K.Node, nat>, tables': map<K.Node, nat>, pid: nat, v: nat, pool: seq<nat>) {
    && (forall n | n in tables :: n in tables' && tables'[n] == tables[n])
    && (forall n | n in tables' && n !in tables ::
          n.pid == pid && n.level <= 2 && n.index == K.Index(n.level, v) && tables'[n] in pool)
  }

  // How many tables are missing on the way to page v.
  function Missing(tables: map<K.Node, nat>, pid: nat, v: nat): nat {
    (if K.Node(pid, 0, K.Index(0, v)) in tables then 0 else 1)
    + (if K.Node(pid, 1, K.Index(1, v)) in tables then 0 else 1)
    + (if K.Node(pid, 2, K.Index(2, v)) in tables then 0 else 1)
  }

  lemma MissingIs(mem: Memory, tables: map<K.Node, nat>, pid: nat, v: nat, level: nat)
    requires v < 768 && level <= 3 && Tree(mem, TablesOf(tables, pid))
    requires forall l: nat | level <= l <= 2 :: KeyOf(v * 4096, l) in TablesOf(tables, pid)
    requires level > 0 ==> KeyOf(v * 4096, level - 1) !in TablesOf(tables, pid)
    ensures Missing(tables, pid, v) == level
  {
    hide KeyOf, Rep;
    forall l: nat | l <= 2
      ensures K.Node(pid, l, K.Index(l, v)) in tables <==> level <= l
    {
      NodeIsKey(v, l);
      if l < level && KeyOf(v * 4096, l) in TablesOf(tables, pid) {
        OnPath(mem, TablesOf(tables, pid), v * 4096, l);
      }
    }
  }

  // An iterator at page v, before try_map.
  lemma Prepare(it: VmIterator, tables: map<K.Node, nat>, maps: map<K.Slot, K.Leaf>, pid: nat, v: nat, pool: seq<nat>)
    requires it.Valid() && it.AtWalk() && it.va == v * 4096 && v < 768
    requires K.Node(pid, 3, 0) in tables && it.pt == tables[K.Node(pid, 3, 0)]
    requires AllRealised(it.ram.mem, tables, maps) && Spare(it.ram.mem, tables, pool)
    ensures var t := TablesOf(tables, pid);
            && Tree(it.ram.mem, t) && ROOT in t && t[ROOT] == it.pt && Full(it.ram.mem, t)
            && Shows(it.ram.mem, it.pt, maps, pid) && PoolOk(it.ram.mem, t, pool) && it.pep.PepAt?
            && (forall l: nat | it.level <= l <= 2 :: KeyOf(it.va, l) in t)
            && it.level == Missing(tables, pid, v)
            && (it.level > 0 ==>
                  && !Present(it.Current()) && K.Slot(pid, v) !in maps && !K.ChainOk(tables, pid, v)
                  && KeyOf(it.va, it.level - 1) !in t)
  {
    hide Rep, Full, Shows, TableAt, KeyOf, Translate;
    var t, mem := TablesOf(tables, pid), it.ram.mem;
    NodeIsKey(v, 0);
    assert Key(3, 0) in t;
    assert Realises(mem, t, maps, pid);
    RootIs(mem, t, maps, pid, v);
    PoolIsOk(mem, tables, pid, pool);
    TableAtKey(mem, t, it.va, it.level);
    OnPath(mem, t, it.va, it.level);
    if it.level > 0 {
      WalkStops(mem, it.pt, 3, INITIAL_PERM, it.va);
      NotPresentBelow(mem, t, it.va, it.level);
      StopsHere(mem, it.pt, it.va, it.level);
      NodeIsKey(v, it.level - 1);
      assert Meant(maps, pid, v) == Unmapped;
    }
    MissingIs(mem, tables, pid, v, it.level);
  }

  lemma RootIs(mem: Memory, t: map<Key, nat>, maps: map<K.Slot, K.Leaf>, pid: nat, v: nat)
    requires Realises(mem, t, maps, pid) && v < 768
    ensures MemOk(mem) && t[ROOT] < |mem| && Translate(mem, t[ROOT], v * 4096) == Meant(maps, pid, v)
  {
  }

  lemma PoolIsOk(mem: Memory, tables: map<K.Node, nat>, pid: nat, pool: seq<nat>)
    requires Spare(mem, tables, pool)
    ensures PoolOk(mem, TablesOf(tables, pid), pool)
  {
    forall k | k in TablesOf(tables, pid)
      ensures TablesOf(tables, pid)[k] in tables.Values
    {
      assert TablesOf(tables, pid)[k] == tables[K.Node(pid, k.level, k.prefix)];
    }
  }

  lemma {:induction false} OnPath(mem: Memory, t: map<Key, nat>, va: nat, level: nat)
    requires Tree(mem, t) && level <= 3 && KeyOf(va, level) in t
    ensures forall l: nat | level <= l <= 3 :: KeyOf(va, l) in t
    decreases 3 - level
  {
    if level < 3 {
      assert KeyOk(mem, t, t.Keys, KeyOf(va, level));
      PrefixStep(va, level);
      OnPath(mem, t, va, level + 1);
    }
  }

  lemma NotPresentBelow(mem: Memory, t: map<Key, nat>, va: nat, level: nat)
    requires Tree(mem, t) && Full(mem, t) && 0 < level <= 3 && KeyOf(va, level) in t
    requires t[KeyOf(va, level)] < |mem| && !IsTable(mem[t[KeyOf(va, level)]][Index(va, level)])
    ensures !Present(mem[t[KeyOf(va, level)]][Index(va, level)]) && KeyOf(va, level - 1) !in t
  {
    var k, i := KeyOf(va, level), Index(va, level);
    assert EntryRep(mem, t, k, i) && FullEntry(mem, t[k], i);
    PrefixStep(va, level - 1);
  }

  // The new tables, among all tables.
  lemma Chains(mem: Memory, mem': Memory, tables: map<K.Node, nat>, grown: map<Key, nat>, pid: nat, v: nat,
               lo: nat, hi: nat, pool: seq<nat>)
    requires v < 768 && hi <= 3 && GrownAlong(TablesOf(tables, pid), grown, v * 4096, lo, hi, pool)
    requires Spare(mem, tables, pool) && Tree(mem', grown)
    requires forall n, m | n in tables && m in tables && tables[n] == tables[m] :: n == m
    requires forall l: nat | hi <= l <= 2 :: KeyOf(v * 4096, l) in TablesOf(tables, pid)
    requires K.Node(pid, 3, 0) in tables
    ensures var all := WithTables(tables, pid, grown);
            && TablesOf(all, pid) == grown && (forall q | q != pid :: TablesOf(all, q) == TablesOf(tables, q))
            && GrewFor(tables, all, pid, v, pool)
            && (forall n, m | n in all && m in all && all[n] == all[m] :: n == m)
            && (lo == 0 ==> K.ChainOk(all, pid, v))
  {
    hide Rep, Spare, GrewFor, K.ChainOk, GrownAlong, WithTables, TablesOf, KeyOf;
    var t, all := TablesOf(tables, pid), WithTables(tables, pid, grown);
    KeepsOld(t, grown, v * 4096, lo, hi, pool);
    TablesOfWith(tables, pid, grown);
    NewTables(tables, all, grown, pid, v, lo, hi, pool);
    StillPrivate(mem, mem', tables, all, pid, v, pool);
    if lo == 0 {
      WholeChain(t, all, grown, pid, v, hi, pool);
    }
  }

  lemma KeepsOld(t: map<Key, nat>, grown: map<Key, nat>, va: nat, lo: nat, hi: nat, pool: seq<nat>)
    requires GrownAlong(t, grown, va, lo, hi, pool)
    ensures forall k | k in t :: k in grown && grown[k] == t[k]
  {
  }

  lemma NewTables(tables: map<K.Node, nat>, all: map<K.Node, nat>, grown: map<Key, nat>, pid: nat, v: nat,
                  lo: nat, hi: nat, pool: seq<nat>)
    requires v < 768 && hi <= 3 && GrownAlong(TablesOf(tables, pid), grown, v * 4096, lo, hi, pool)
    requires all == WithTables(tables, pid, grown) && forall n | n in tables :: n in all && all[n] == tables[n]
    ensures GrewFor(tables, all, pid, v, pool)
  {
    var t := TablesOf(tables, pid);
    NewPages(t, grown, v * 4096, lo, hi, pool);
    forall n | n in all && n !in tables
      ensures n.pid == pid && n.level <= 2 && n.index == K.Index(n.level, v) && all[n] in pool
    {
      var k := Key(n.level, n.index);
      assert k in grown && k !in t;
      NodeIsKey(v, k.level);
    }
  }

  lemma WholeChain(t: map<Key, nat>, all: map<K.Node, nat>, grown: map<Key, nat>, pid: nat, v: nat, hi: nat, pool: seq<nat>)
    requires v < 768 && GrownAlong(t, grown, v * 4096, 0, hi, pool) && TablesOf(all, pid) == grown
    requires K.Node(pid, 3, 0) in all
    requires forall l: nat | hi <= l <= 2 :: KeyOf(v * 4096, l) in t
    ensures K.ChainOk(all, pid, v)
  {
    forall l: nat | l <= 2
      ensures K.Node(pid, l, K.Index(l, v)) in all
    {
      NodeIsKey(v, l);
      assert KeyOf(v * 4096, l) in TablesOf(all, pid);
    }
  }

  lemma StillPrivate(mem: Memory, mem': Memory, tables: map<K.Node, nat>, all: map<K.Node, nat>, pid: nat, v: nat, pool: seq<nat>)
    requires GrewFor(tables, all, pid, v, pool) && Spare(mem, tables, pool) && Tree(mem', TablesOf(all, pid))
    requires forall n, m | n in tables && m in tables && tables[n] == tables[m] :: n == m
    ensures forall n, m | n in all && m in all && all[n] == all[m] :: n == m
  {
    var t := TablesOf(all, pid);
    forall n, m | n in all && m in all && all[n] == all[m]
      ensures n == m
    {
      if n.pid == pid && m.pid == pid {
        assert Key(n.level, n.index) in t && Key(m.level, m.index) in t;
      }
    }
  }

  lemma NewPages(t: map<Key, nat>, grown: map<Key, nat>, va: nat, lo: nat, hi: nat, pool: seq<nat>)
    requires GrownAlong(t, grown, va, lo, hi, pool)
    ensures forall k | k in grown && k !in t :: k.level < hi && k == KeyOf(va, k.level) && grown[k] in pool
  {
    forall k | k in grown && k !in t
      ensures grown[k] in pool
    {
      assert lo <= k.level < hi && k == KeyOf(va, k.level);
      assert grown[KeyOf(va, k.level)] == pool[hi - 1 - k.level];
    }
  }

  // After try_map, the process's own tables show the changed maps.
  lemma ThisProcess(before: Memory, it: VmIterator, grown: map<Key, nat>, maps: map<K.Slot, K.Leaf>,
                    maps': map<K.Slot, K.Leaf>, pid: nat, v: nat)
    requires it.Valid() && it.AtWalk() && it.va == v * 4096 && v < 768
    requires Tree(it.ram.mem, grown) && ROOT in grown && grown[ROOT] == it.pt && Full(it.ram.mem, grown)
    requires Shows(before, it.pt, maps, pid) && |before| == |it.ram.mem|
    requires SameElsewhere(before, it.ram.mem, it.pt, v * 4096)
    requires forall x: nat | x != v :: Meant(maps', pid, x) == Meant(maps, pid, x)
    requires it.Reads() == Meant(maps', pid, v)
    ensures Realises(it.ram.mem, grown, maps', pid)
  {
    it.ReadsIsTranslation();
    forall x: nat | x < 768
      ensures Translate(it.ram.mem, it.pt, x * 4096) == Meant(maps', pid, x)
    {
      if x != v {
        ApartPages(v, x);
      }
    }
  }

  // What an iterator reads on a lowest-level entry of full tables.
  lemma ReadsLeaf(it: VmIterator, grown: map<Key, nat>)
    requires it.Valid() && it.AtWalk() && it.pep.PepAt? && it.level == 0 && it.va % 4096 == 0
    requires Tree(it.ram.mem, grown) && ROOT in grown && grown[ROOT] == it.pt && Full(it.ram.mem, grown)
    ensures it.Reads() == if it.Current().flags & 1 == 0 then Unmapped
                          else Mapped(it.Current().page * 4096, it.Current().flags)
  {
    FullRights(it.ram.mem, grown, it.va, 0);
    AllBits(it.Current().flags);
  }

  lemma FlagsPresent(l: K.Leaf)
    ensures Flags(l) & 1 == 1
  {
  }

  lemma AllBits(f: bv12)
    ensures f & 0xFFF == f
  {
  }

  // Another process's tables are not among the pages try_map wrote.
  lemma Elsewhere(before: Memory, after: Memory, tables: map<K.Node, nat>, pool: seq<nat>,
                  maps: map<K.Slot, K.Leaf>, maps': map<K.Slot, K.Leaf>, pid: nat, q: nat)
    requires q != pid && K.Node(q, 3, 0) in tables && AllRealised(before, tables, maps) && Spare(before, tables, pool)
    requires Untouched(before, after, TablesOf(tables, pid), set p | p in pool) && MemOk(after)
    requires forall s: K.Slot | s.pid != pid :: (s in maps' <==> s in maps) && (s in maps ==> maps'[s] == maps[s])
    ensures Realises(after, TablesOf(tables, q), maps', q)
  {
    var t, mine := TablesOf(tables, q), TablesOf(tables, pid);
    forall k | k in t && t[k] < |before|
      ensures after[t[k]] == before[t[k]]
    {
      assert K.Node(q, k.level, k.prefix) in tables && tables[K.Node(q, k.level, k.prefix)] == t[k];
      forall j | j in mine
        ensures mine[j] != t[k]
      {
        assert K.Node(pid, j.level, j.prefix) in tables;
      }
    }
    OtherProcess(before, after, t, maps, maps', q);
  }

  lemma RootKept(tables: map<K.Node, nat>, tables': map<K.Node, nat>, pid: nat, v: nat, pool: seq<nat>, q: nat)
    requires GrewFor(tables, tables', pid, v, pool) && K.Node(q, 3, 0) in tables'
    ensures K.Node(q, 3, 0) in tables
  {
  }

  // Each way try_map can end is the change of the maps it stands for.
  lemma Result(before: Memory, it: VmIterator, grown: map<Key, nat>, maps: map<K.Slot, K.Leaf>, maps': map<K.Slot, K.Leaf>,
               pid: nat, v: nat, l: K.Leaf, present: bool, from: nat, res: int)
    requires it.Valid() && it.AtWalk() && it.pep.PepAt? && it.va == v * 4096 && v < 768
    requires Tree(it.ram.mem, grown) && ROOT in grown && grown[ROOT] == it.pt && Full(it.ram.mem, grown)
    requires Shows(before, it.pt, maps, pid) && |before| == |it.ram.mem|
    requires from > 0 ==> K.Slot(pid, v) !in maps
    requires res == -1 ==> SameMeaning(before, it.ram.mem, it.pt)
    requires SameElsewhere(before, it.ram.mem, it.pt, it.va)
    requires res != -1 && present ==> it.level == 0 && it.Current() == Entry(l.page, Flags(l))
    requires !present && from == 0 ==> it.level == 0 && it.Current() == Entry(l.page, 0)
    requires !present && from > 0 ==> it.ram.mem == before
    requires maps' == if res == -1 then maps
                      else if present then maps[K.Slot(pid, v) := l] else maps - {K.Slot(pid, v)}
    requires res == -1 ==> present
    ensures Realises(it.ram.mem, grown, maps', pid)
  {
    hide Rep, MemOk, Translate, Full, SamePage, SameElsewhere, Flags;
    FlagsPresent(l);
    it.ReadsIsTranslation();
    if it.level == 0 {
      ReadsLeaf(it, grown);
    }
    ThisProcess(before, it, grown, maps, maps', pid, v);
  }

  // try_map on one page of one process: its maps change at that page, or not
  // at all on failure, and every process's page tables still show its maps.
  method MapPage(it: VmIterator, pid: nat, v: nat, l: K.Leaf, present: bool, pool: seq<nat>,
                 ghost tables: map<K.Node, nat>, ghost maps: map<K.Slot, K.Leaf>)
    returns (res: int, ghost tables': map<K.Node, nat>)
    requires it.Valid() && it.AtWalk() && it.va == v * 4096 && v < 768
    requires K.Node(pid, 3, 0) in tables && it.pt == tables[K.Node(pid, 3, 0)]
    requires AllRealised(it.ram.mem, tables, maps) && l.page < |it.ram.mem|
    requires Spare(it.ram.mem, tables, pool)
    modifies it, it.ram
    ensures it.Valid() && it.AtWalk() && it.va == v * 4096 && |it.ram.mem| == |old(it.ram.mem)|
    ensures res == 0 || res == -1
    ensures AllRealised(it.ram.mem, tables', if res == -1 then maps
                                             else if present then maps[K.Slot(pid, v) := l] else maps - {K.Slot(pid, v)})
    ensures GrewFor(tables, tables', pid, v, pool)
    ensures res == 0 && present ==> K.ChainOk(tables', pid, v)
    ensures res == -1 <==> present && |pool| < Missing(tables, pid, v)
  {
    hide Rep, Full, Shows, Translate, TableAt, Walk, WalkFrom, GrownAlong, Untouched, PoolOk, K.ChainOk, Spare,
      TablesOf, WithTables, GrewFor, Flags, KeyOf, Realises, Meant, SamePage, SameMeaning, SameElsewhere, Missing;
    ghost var t, before, slot := TablesOf(tables, pid), it.ram.mem, K.Slot(pid, v);
    Prepare(it, tables, maps, pid, v, pool);
    ghost var from := it.level;
    var flags := if present then Flags(l) else 0;
    ghost var grown;
    res, grown := it.TryMap(l.page, flags, pool, t);
    tables' := WithTables(tables, pid, grown);
    if res == -1 {
      MeaningElsewhere(before, it.ram.mem, it.pt, it.va);
    }
    Chains(before, it.ram.mem, tables, grown, pid, v, it.level, from, pool);
    ghost var maps' := if res == -1 then maps else if present then maps[slot := l] else maps - {slot};
    Result(before, it, grown, maps, maps', pid, v, l, present, from, res);
    forall q: nat | K.Node(q, 3, 0) in tables'
      ensures Realises(it.ram.mem, TablesOf(tables', q), maps', q)
    {
      if q != pid {
        RootKept(tables, tables', pid, v, pool, q);
        Elsewhere(before, it.ram.mem, tables, pool, maps, maps', pid, q);
      }
    }
  }

  // Where try_map's loop stands when just the tables above `level` are there.
  lemma StandsAbove(it: VmIterator, tables: map<K.Node, nat>, pid: nat, v: nat, level: nat)
    requires it.level <= 3 && it.va == v * 4096 && v < 768 && level <= 2
    requires forall l: nat | it.level <= l <= 2 :: KeyOf(it.va, l) in TablesOf(tables, pid)
    requires it.level > 0 ==> KeyOf(it.va, it.level - 1) !in TablesOf(tables, pid)
    requires K.Node(pid, level, K.Index(level, v)) !in tables
    requires forall l | level < l <= 2 :: K.Node(pid, l, K.Index(l, v)) in tables
    ensures it.level == level + 1
  {
    hide KeyOf;
    NodeIsKey(v, level);
    if it.level > 0 {
      NodeIsKey(v, it.level - 1);
    }
  }

  lemma OneMore(tables: map<K.Node, nat>, pid: nat, v: nat, level: nat, t: nat)
    requires v < 768 && level <= 2
    ensures WithTables(tables, pid, TablesOf(tables, pid)[KeyOf(v * 4096, level) := t])
            == tables[K.Node(pid, level, K.Index(level, v)) := t]
  {
    hide KeyOf;
    NodeIsKey(v, level);
    var grown := TablesOf(tables, pid)[KeyOf(v * 4096, level) := t];
    var l, r := WithTables(tables, pid, grown), tables[K.Node(pid, level, K.Index(level, v)) := t];
    forall n
      ensures n in l <==> n in r
      ensures n in r ==> l[n] == r[n]
    {
      assert n in tables && n.pid == pid ==> Key(n.level, n.index) in TablesOf(tables, pid);
    }
  }

  lemma PoolOfOne(before: Memory, after: Memory, tr: map<Key, nat>, t: nat)
    requires Untouched(before, after, tr, {t})
    ensures Untouched(before, after, tr, set p | p in [t])
  {
    assert forall p :: p in [t] <==> p == t;
  }

  // One turn of try_map's loop by itself: the next table on the way to a page.
  method LinkOne(it: VmIterator, pid: nat, v: nat, level: nat, t: nat,
                 ghost tables: map<K.Node, nat>, ghost maps: map<K.Slot, K.Leaf>)
    requires it.Valid() && it.AtWalk() && it.va == v * 4096 && v < 768 && level <= 2
    requires K.Node(pid, 3, 0) in tables && it.pt == tables[K.Node(pid, 3, 0)]
    requires AllRealised(it.ram.mem, tables, maps) && Spare(it.ram.mem, tables, [t])
    requires K.Node(pid, level, K.Index(level, v)) !in tables
    requires forall l | level < l <= 2 :: K.Node(pid, l, K.Index(l, v)) in tables
    modifies it, it.ram
    ensures it.Valid() && |it.ram.mem| == |old(it.ram.mem)|
    ensures AllRealised(it.ram.mem, tables[K.Node(pid, level, K.Index(level, v)) := t], maps)
  {
    hide Rep, Full, Shows, Translate, TableAt, Walk, WalkFrom, GrownAlong, Untouched, K.ChainOk, Spare,
      TablesOf, WithTables, GrewFor, Flags, KeyOf, Realises, Meant, SamePage, SameMeaning, SameElsewhere;
    ghost var tr, before := TablesOf(tables, pid), it.ram.mem;
    Prepare(it, tables, maps, pid, v, [t]);
    StandsAbove(it, tables, pid, v, level);
    assert [t][0] == t;
    it.LinkNext(t, tr);
    ghost var grown, tables' := tr[KeyOf(v * 4096, level) := t], tables[K.Node(pid, level, K.Index(level, v)) := t];
    GrownNone(tr, v * 4096, level + 1, [t]);
    GrownMore(tr, tr, v * 4096, level + 1, level + 1, [t], 0);
    OneMore(tables, pid, v, level, t);
    Chains(before, it.ram.mem, tables, grown, pid, v, level, level + 1, [t]);
    MeaningElsewhere(before, it.ram.mem, it.pt, it.va);
    Result(before, it, grown, maps, maps, pid, v, K.Leaf(0, false, false, false), true, level + 1, -1);
    PoolOfOne(before, it.ram.mem, tr, t);
    forall q: nat | K.Node(q, 3, 0) in tables'
      ensures Realises(it.ram.mem, TablesOf(tables', q), maps, q)
    {
      if q != pid {
        Elsewhere(before, it.ram.mem, tables, [t], maps, maps, pid, q);
      }
    }
  }

  // ---- Whole address spaces ----

  // A cleared page is the root of an empty address space.
  lemma NewRoot(mem: Memory, tables: map<K.Node, nat>, maps: map<K.Slot, K.Leaf>, pid: nat, p: nat)
    requires AllRealised(mem, tables, maps) && MemOk(mem) && p < |mem| && p !in tables.Values
    requires (forall n | n in tables :: n.pid != pid) && (forall s | s in maps :: s.pid != pid)
    ensures AllRealised(mem[p := EmptyTable()], tables[K.Node(pid, 3, 0) := p], maps)
  {
    hide Realises, TablesOf;
    var mem', tables' := mem[p := EmptyTable()], tables[K.Node(pid, 3, 0) := p];
    forall q: nat | K.Node(q, 3, 0) in tables'
      ensures Realises(mem', TablesOf(tables', q), maps, q)
    {
      if q == pid {
        OnlyRoot(tables, pid, p);
        EmptySpace(mem', maps, pid, p);
      } else {
        BesideRoot(mem, tables, maps, pid, p, q);
      }
    }
  }

  lemma BesideRoot(mem: Memory, tables: map<K.Node, nat>, maps: map<K.Slot, K.Leaf>, pid: nat, p: nat, q: nat)
    requires MemOk(mem) && p < |mem| && p !in tables.Values && q != pid && K.Node(q, 3, 0) in tables
    requires Realises(mem, TablesOf(tables, q), maps, q)
    ensures Realises(mem[p := EmptyTable()], TablesOf(tables[K.Node(pid, 3, 0) := p], q), maps, q)
  {
    hide Realises, TablesOf;
    OtherTables(tables, tables[K.Node(pid, 3, 0) := p], q);
    PageUnused(tables, q, p);
    OtherProcess(mem, mem[p := EmptyTable()], TablesOf(tables, q), maps, maps, q);
  }

  lemma OnlyRoot(tables: map<K.Node, nat>, pid: nat, p: nat)
    requires forall n | n in tables :: n.pid != pid
    ensures TablesOf(tables[K.Node(pid, 3, 0) := p], pid) == map[ROOT := p]
  {
    var t := TablesOf(tables[K.Node(pid, 3, 0) := p], pid);
    forall k
      ensures k in t <==> k == ROOT
    {
      assert K.Node(pid, k.level, k.prefix) in tables[K.Node(pid, 3, 0) := p] <==> k == ROOT;
    }
  }

  lemma PageUnused(tables: map<K.Node, nat>, q: nat, p: nat)
    requires p !in tables.Values
    ensures forall k | k in TablesOf(tables, q) :: TablesOf(tables, q)[k] != p
  {
    forall k | k in TablesOf(tables, q)
      ensures TablesOf(tables, q)[k] != p
    {
      assert K.Node(q, k.level, k.prefix) in tables;
    }
  }

  lemma EmptySpace(mem: Memory, maps: map<K.Slot, K.Leaf>, pid: nat, p: nat)
    requires MemOk(mem) && p < |mem| && mem[p] == EmptyTable() && forall s | s in maps :: s.pid != pid
    ensures Realises(mem, map[ROOT := p], maps, pid)
  {
    var t := map[ROOT := p];
    NotPresentStops(ZERO, 0);
    forall i: nat | i < 512
      ensures EntryRep(mem, t, ROOT, i) && FullEntry(mem, p, i)
    {
      assert mem[p][i] == ZERO;
    }
    forall v: nat | v < 768
      ensures Translate(mem, p, v * 4096) == Meant(maps, pid, v)
    {
      assert mem[p][Index(v * 4096, 3)] == ZERO;
      StopsHere(mem, p, v * 4096, 3);
    }
  }

  // Freeing a process's table pages while walking over them clears each once
  // and leaves every other address space as it was.
  method FreeSpace(ram: Ram, pid: nat, ghost tables: map<K.Node, nat>, ghost maps: map<K.Slot, K.Leaf>, root: nat)
    returns (freed: seq<nat>, ghost visited: seq<Key>)
    requires AllRealised(ram.mem, tables, maps) && K.Node(pid, 3, 0) in tables && root == tables[K.Node(pid, 3, 0)]
    modifies ram
    ensures PT.Complete(TablesOf(tables, pid), visited, freed)
    ensures MemOk(ram.mem) && |ram.mem| == |old(ram.mem)|
    ensures AllRealised(ram.mem, OtherNodes(tables, pid), OtherSlots(maps, pid))
  {
    ghost var before, t := ram.mem, TablesOf(tables, pid);
    assert Realises(before, t, maps, pid) && Key(3, 0) in t;
    freed, visited := PT.FreeTables(ram, root, t);
    AfterClearing(before, ram.mem, tables, maps, pid, visited, freed);
  }

  lemma AfterClearing(before: Memory, after: Memory, tables: map<K.Node, nat>, maps: map<K.Slot, K.Leaf>, pid: nat,
                      visited: seq<Key>, freed: seq<nat>)
    requires AllRealised(before, tables, maps) && MemOk(before)
    requires PT.Cleared(before, after, freed) && PT.Complete(TablesOf(tables, pid), visited, freed)
    ensures MemOk(after) && |after| == |before|
    ensures AllRealised(after, OtherNodes(tables, pid), OtherSlots(maps, pid))
  {
    ClearedOk(before, after, freed);
    forall q: nat | K.Node(q, 3, 0) in OtherNodes(tables, pid)
      ensures Realises(after, TablesOf(OtherNodes(tables, pid), q), OtherSlots(maps, pid), q)
    {
      OtherTables(tables, OtherNodes(tables, pid), q);
      NotFreed(tables, pid, q, visited, freed);
      OtherProcess(before, after, TablesOf(tables, q), maps, OtherSlots(maps, pid), q);
    }
  }

  lemma ClearedOk(before: Memory, after: Memory, freed: seq<nat>)
    requires MemOk(before) && PT.Cleared(before, after, freed)
    ensures MemOk(after)
  {
    NotPresentStops(ZERO, 0);
    forall p, i | 0 <= p < |after| && 0 <= i < 512
      ensures |after[p]| == 512 && (IsTable(after[p][i]) ==> after[p][i].page < |after|)
    {
      if p in freed { assert after[p][i] == ZERO; }
    }
  }

  lemma NotFreed(tables: map<K.Node, nat>, pid: nat, q: nat, visited: seq<Key>, freed: seq<nat>)
    requires (forall n, m | n in tables && m in tables && tables[n] == tables[m] :: n == m) && q != pid
    requires PT.Complete(TablesOf(tables, pid), visited, freed)
    ensures forall k | k in TablesOf(tables, q) :: TablesOf(tables, q)[k] !in freed
  {
    var t, mine := TablesOf(tables, q), TablesOf(tables, pid);
    forall k, i: nat | k in t && i < |freed|
      ensures freed[i] != t[k]
    {
      var j := visited[i];
      assert j in mine && freed[i] == mine[j];
      assert K.Node(pid, j.level, j.prefix) in tables && K.Node(q, k.level, k.prefix) in tables;
    }
  }
}
