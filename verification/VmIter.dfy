// vmiter: an iterator over the mappings of a page table that moves
// incrementally and can change the mapping it stands on.

module VmIter {
  import opened PageTableSpec
  import opened PageTree

  class Ram {
    var mem: Memory

    constructor (m: Memory)
      ensures mem == m
    {
      mem := m;
    }
  }

  // pep_: an entry of some table page, or the constant zero entry.
  datatype Pep = ZeroPe | PepAt(page: nat, idx: nat)

  class VmIterator {
    const ram: Ram
    const pt: nat
    var pep: Pep
    var level: nat
    var perm: bv12
    var va: nat

    // The iterator stands on the path of its address, perhaps not at the end.
    ghost predicate Valid()
      reads this, ram
    {
      && MemOk(ram.mem) && pt < |ram.mem| && level <= 3
      && match pep
         case ZeroPe => level == 3 && perm == 0 && !Canonical(va)
         case PepAt(page, idx) =>
           Canonical(va) && TableAt(ram.mem, pt, va, level) == At(page, perm) && idx == Index(va, level)
    }

    function Current(): (e: Entry)
      reads this, ram
      requires Valid()
    {
      if pep.ZeroPe? then Entry(0, 0) else ram.mem[pep.page][pep.idx]
    }

    // Exactly where a fresh walk from the root for `va` stops.
    ghost predicate AtWalk()
      reads this, ram
      requires Valid()
    {
      pep.PepAt? ==> Walk(ram.mem, pt, va) == Pos(pep.page, pep.idx, level, perm)
    }

    function Perm(): bv12
      reads this, ram
      requires Valid()
    {
      var ph := Current().flags & perm;
      if ph & 1 == 0 then 0 else ph
    }

    // pa() and perm() together
    function Reads(): Translation
      reads this, ram
      requires Valid()
    {
      Meaning(Current(), level, perm, va)
    }

    lemma ReadsIsTranslation()
      requires Valid() && AtWalk()
      ensures Reads() == Translate(ram.mem, pt, va)
      ensures Perm() == if Reads().Mapped? then Reads().perm else 0
    {
      if pep.ZeroPe? {
        assert Current().flags & perm & 1 == 0;
      }
    }

    constructor (r: Ram, root: nat, start: nat)
      requires MemOk(r.mem) && root < |r.mem|
      ensures Valid() && AtWalk() && ram == r && pt == root && va == start
    {
      ram, pt := r, root;
      pep, level, perm, va := PepAt(root, 0), 3, 0xFFF, 0;
      new;
      assert Index(0, 3) == 0;
      RealFind(start);
    }

    method Down()
      requires Valid()
      modifies this
      ensures Valid() && AtWalk() && va == old(va)
    {
      while level > 0 && IsTable(Current())
        invariant Valid() && va == old(va)
        invariant pep.ZeroPe? ==> old(pep).ZeroPe?
        decreases level
      {
        var e := Current();
        level, perm := level - 1, Narrow(perm, e);
        pep := PepAt(e.page, Index(va, level));
      }
      if pep.PepAt? {
        WalkContinues(ram.mem, pt, va, level);
      }
    }

    // Move to another address, staying in the same table page if the two
    // addresses share it. The result is that of a fresh walk.
    method RealFind(newVa: nat)
      requires Valid()
      modifies this
      ensures Valid() && AtWalk() && va == newVa
    {
      if level == 3 || va / Span(level + 1) != newVa / Span(level + 1) {
        level := 3;
        if Canonical(newVa) {
          perm, pep := 0xFFF, PepAt(pt, Index(newVa, 3));
        } else {
          perm, pep := 0, ZeroPe;
        }
      } else {
        KeepsTable(ram.mem, pt, va, newVa, level);
        pep := PepAt(pep.page, Index(newVa, level));
      }
      va := newVa;
      Down();
    }

    // find and operator+=: no move when the address is the same.
    method Find(newVa: nat)
      requires Valid()
      modifies this
      ensures Valid() && va == newVa
      ensures newVa != old(va) || old(AtWalk()) ==> AtWalk()
    {
      if newVa != va {
        RealFind(newVa);
      }
    }

    // last_va: the address after the block, 0 after the very last one.
    function LastVa(): nat
      reads this
    {
      Wrapped(EndOf(va, level))
    }

    // next_range: everything up to the end of the block is reached through
    // this entry.
    method NextRange()
      requires Valid() && AtWalk() && va < TOP
      modifies this
      ensures Valid() && AtWalk() && va == old(LastVa()) && (va == 0 || old(va) < va)
      ensures forall x: nat | old(va) <= x < (if va == 0 then TOP else va) && old(pep).PepAt? ::
                Walk(ram.mem, pt, x) == old(Walk(ram.mem, pt, va))
    {
      ghost var from, l := va, level;
      BlockFits(from, l);
      if pep.PepAt? {
        forall x: nat | from <= x < EndOf(from, l)
          ensures Walk(ram.mem, pt, x) == Walk(ram.mem, pt, from)
        {
          BlockBounds(from, x, l);
          BlockSharesEntry(ram.mem, pt, from, x);
        }
      }
      RealFind(LastVa());
    }

    // next: to the next page, or past a whole unmapped block; after the very
    // last page, to 0.
    method Next()
      requires Valid() && AtWalk() && va < TOP
      modifies this
      ensures Valid() && AtWalk() && (va == 0 || old(va) < va)
      ensures va == Wrapped(EndOf(old(va), if old(level) > 0 && old(Perm()) == 0 then old(level) else 0))
      ensures forall x: nat | old(va) <= x < (if va == 0 then TOP else va) && x / 4096 != old(va) / 4096 ::
                Translate(ram.mem, pt, x) == Unmapped
    {
      hide EndOf;
      var l := 0;
      if level > 0 && Perm() == 0 {
        l := level;
      }
      ghost var from := va;
      BlockFits(from, l);
      forall x: nat | from <= x < EndOf(from, l) && x / 4096 != from / 4096
        ensures Translate(ram.mem, pt, x) == Unmapped
      {
        BlockBounds(from, x, l);
        assert l != 0;
        UnmappedBlock(x);
      }
      RealFind(Wrapped(EndOf(va, l)));
    }

    lemma UnmappedBlock(x: nat)
      requires Valid() && AtWalk() && Perm() == 0 && va / Span(level) == x / Span(level)
      ensures Translate(ram.mem, pt, x) == Unmapped
    {
      PermZero(Current().flags & perm);
      if pep.PepAt? {
        if Canonical(x) {
          BlockSharesEntry(ram.mem, pt, va, x);
        }
      } else {
        SameHalf(va, x);
      }
    }

    // try_map: map the page at `va`, growing the tree with the pages kalloc
    // hands out, `pool`, until those run out. On failure no translation has
    // changed; on success only that of the page at `va` has.
    method TryMap(page: nat, flags: bv12, pool: seq<nat>, ghost tables: map<Key, nat>)
      returns (res: int, ghost grown: map<Key, nat>)
      requires Valid() && AtWalk() && pep.PepAt? && Tree(ram.mem, tables) && ROOT in tables && tables[ROOT] == pt
      requires page < |ram.mem| && (level > 0 ==> !Present(Current()))
      requires PoolOk(ram.mem, tables, pool)
      modifies this, ram
      ensures Valid() && AtWalk() && va == old(va) && |ram.mem| == |old(ram.mem)|
      ensures Tree(ram.mem, grown) && ROOT in grown && grown[ROOT] == pt
      ensures GrownAlong(tables, grown, va, level, old(level), pool)
      ensures res == if flags != 0 && |pool| < old(level) then -1 else 0
      ensures res == -1 ==> SameMeaning(old(ram.mem), ram.mem, pt)
      ensures res == 0 ==> SameElsewhere(old(ram.mem), ram.mem, pt, va)
      ensures res == 0 && flags != 0 ==> level == 0 && Current() == Entry(page, flags)
      ensures res == 0 && flags == 0 && old(level) == 0 ==> level == 0 && Current() == Entry(page, 0)
      ensures flags == 0 && old(level) > 0 ==> ram.mem == old(ram.mem)
      ensures Reads() == Translate(ram.mem, pt, va)
      ensures old(Full(ram.mem, tables)) ==> Full(ram.mem, grown)
      ensures Untouched(old(ram.mem), ram.mem, tables, set p | p in pool)
    {
      hide Rep, MemOk, Translate, TableAt, Walk, Full, Untouched, GrownAlong, PoolOk, SameMeaning, SameElsewhere;
      hide AtWalk, KeyOf, Reads, Present;
      StartMeaning(ram.mem, pt);
      WholePool(pool);
      StartUntouched(ram.mem, tables, pool);
      GrownNone(tables, va, level, pool);
      grown := tables;
      res := 0;
      var used := 0;
      while level > 0 && flags != 0
        invariant Valid() && AtWalk() && va == old(va) && pep.PepAt? && |ram.mem| == |old(ram.mem)|
        invariant used <= |pool| && ROOT in grown
        invariant flags == 0 ==> ram.mem == old(ram.mem) && level == old(level)
        invariant Tree(ram.mem, grown) && grown[ROOT] == pt && PoolOk(ram.mem, grown, pool[used..])
        invariant level + used == old(level) && (level > 0 ==> !Present(Current()))
        invariant GrownAlong(tables, grown, va, level, old(level), pool)
        invariant old(Full(ram.mem, tables)) ==> Full(ram.mem, grown)
        invariant Untouched(old(ram.mem), ram.mem, tables, set p | p in pool)
        invariant SameMeaning(old(ram.mem), ram.mem, pt)
        decreases level
      {
        if used == |pool| {
          ReadsIsTranslation();
          return -1, grown;
        }
        ghost var l := level;
        ghost var k, now := KeyOf(va, level - 1), ram.mem;
        PoolNext(ram.mem, grown, pool, used);
        LinkNext(pool[used], grown);
        MoreMeaning(old(ram.mem), now, ram.mem, pt, va);
        MoreUntouched(old(ram.mem), now, ram.mem, tables, grown, pool, {pool[used]}, va, l, old(level));
        PoolShrinks(now, ram.mem, grown, pool, used, k);
        GrownMore(tables, grown, va, l, old(level), pool, used);
        grown := grown[k := pool[used]];
        used := used + 1;
      }
      if level == 0 {
        ghost var now := ram.mem;
        SetCurrent(Entry(page, flags), grown);
        MoreMeaning(old(ram.mem), now, ram.mem, pt, va);
        MoreUntouched(old(ram.mem), now, ram.mem, tables, grown, pool, {}, va, level, old(level));
      } else {
        MeaningElsewhere(old(ram.mem), ram.mem, pt, va);
      }
      ReadsIsTranslation();
    }

    // One turn of the loop in try_map: an empty table below the current entry.
    method LinkNext(t: nat, ghost tables: map<Key, nat>)
      requires Valid() && AtWalk() && pep.PepAt? && Tree(ram.mem, tables) && tables[ROOT] == pt
      requires level > 0 && !Present(Current()) && t < |ram.mem| && forall k | k in tables :: tables[k] != t
      modifies this, ram
      ensures Valid() && AtWalk() && va == old(va) && pep.PepAt? && |ram.mem| == |old(ram.mem)|
      ensures level == old(level) - 1 && !Present(Current())
      ensures KeyOf(va, level) !in tables && Tree(ram.mem, tables[KeyOf(va, level) := t])
      ensures old(Full(ram.mem, tables)) ==> Full(ram.mem, tables[KeyOf(va, level) := t])
      ensures Untouched(old(ram.mem), ram.mem, tables, {t})
      ensures SameMeaning(old(ram.mem), ram.mem, pt)
    {
      hide Rep, TableAt, Translate, Walk, WalkFrom, LinkTable, KeyOf, Child, Full, Untouched;
      ghost var k, i, before := KeyOf(va, level), pep.idx, ram.mem;
      OnTree(tables);
      LinkFacts(before, tables, va, level, t);
      LinkFull(before, tables, va, level, t);
      ram.mem := LinkTable(ram.mem, pep.page, pep.idx, t);
      Descend(t);
    }

    // down() after the link: one level, to an empty entry of the new table.
    method Descend(t: nat)
      requires Valid() && pep.PepAt? && level > 0 && Current() == Entry(t, 7) && t < |ram.mem|
      requires ram.mem[t] == EmptyTable()
      modifies this
      ensures Valid() && AtWalk() && va == old(va) && pep.PepAt?
      ensures level == old(level) - 1 && !Present(Current())
    {
      ghost var idx := Index(va, level - 1);
      assert IsTable(Entry(t, 7));
      assert ram.mem[t][idx] == Entry(0, 0) && !IsTable(Entry(0, 0)) && !Present(Entry(0, 0));
      WalkContinues(ram.mem, pt, va, level);
      Down();
    }

    // *pep_ = pa | perm
    method SetCurrent(e: Entry, ghost tables: map<Key, nat>)
      requires Valid() && AtWalk() && pep.PepAt? && Tree(ram.mem, tables) && tables[ROOT] == pt
      requires level == 0 && e.page < |ram.mem|
      modifies ram
      ensures Valid() && AtWalk() && |ram.mem| == |old(ram.mem)| && Tree(ram.mem, tables)
      ensures Current() == e
      ensures old(Full(ram.mem, tables)) ==> Full(ram.mem, tables)
      ensures Untouched(old(ram.mem), ram.mem, tables, {})
      ensures SameElsewhere(old(ram.mem), ram.mem, pt, va)
    {
      ghost var k, i, before := KeyOf(va, 0), pep.idx, ram.mem;
      OnTree(tables);
      LeafSet(before, tables, k, i, e);
      forall x: nat | !SamePage(x, va)
        ensures Translate(SetEntry(before, tables[k], i, e), pt, x) == Translate(before, pt, x)
      {
        LeafSetElsewhere(before, tables, k, i, e, x);
      }
      LeafReach(before, tables, k, i, e, va);
      LeafFull(before, tables, k, i, e);
      ram.mem := SetEntry(ram.mem, pep.page, pep.idx, e);
      WalkContinues(ram.mem, pt, va, 0);
    }

    lemma OnTree(tables: map<Key, nat>)
      requires Valid() && pep.PepAt? && Tree(ram.mem, tables) && tables[ROOT] == pt
      ensures KeyOf(va, level) in tables && tables[KeyOf(va, level)] == pep.page
    {
      TableAtKey(ram.mem, tables, va, level);
    }
  }

  // Two addresses on the same page, of those a walk can tell apart.
  predicate SamePage(a: nat, b: nat) {
    KeyOf(a, 0) == KeyOf(b, 0) && Index(a, 0) == Index(b, 0)
  }

  // Every address, or every address of another page, means the same as before.
  ghost predicate SameMeaning(before: Memory, after: Memory, root: nat) {
    && MemOk(before) && MemOk(after) && root < |before| == |after|
    && forall x: nat :: Translate(after, root, x) == Translate(before, root, x)
  }

  ghost predicate SameElsewhere(before: Memory, after: Memory, root: nat, va: nat) {
    && MemOk(before) && MemOk(after) && root < |before| == |after|
    && forall x: nat | !SamePage(x, va) :: Translate(after, root, x) == Translate(before, root, x)
  }

  lemma StartMeaning(mem: Memory, root: nat)
    requires MemOk(mem) && root < |mem|
    ensures SameMeaning(mem, mem, root)
  {
  }

  lemma MeaningElsewhere(m0: Memory, m1: Memory, root: nat, va: nat)
    requires SameMeaning(m0, m1, root)
    ensures SameElsewhere(m0, m1, root, va)
  {
    hide Translate, SamePage;
  }

  lemma MoreMeaning(m0: Memory, m1: Memory, m2: Memory, root: nat, va: nat)
    requires SameMeaning(m0, m1, root)
    ensures SameMeaning(m1, m2, root) ==> SameMeaning(m0, m2, root)
    ensures SameElsewhere(m1, m2, root, va) ==> SameElsewhere(m0, m2, root, va)
  {
    hide Translate, SamePage;
  }

  // Every entry that points to a table grants all rights, and above the
  // lowest level no other entry is present: no large pages.
  ghost predicate Full(mem: Memory, tables: map<Key, nat>) {
    forall k, i: nat | k in tables && k.level > 0 && i < 512 :: FullEntry(mem, tables[k], i)
  }

  predicate FullEntry(mem: Memory, p: nat, i: nat) {
    p < |mem| && i < |mem[p]| && if IsTable(mem[p][i]) then mem[p][i].flags & 7 == 7 else !Present(mem[p][i])
  }

  // Pages other than the tables and those taken from `pages` stay.
  ghost predicate Untouched(before: Memory, after: Memory, tables: map<Key, nat>, pages: set<nat>) {
    && |after| == |before|
    && forall p | 0 <= p < |before| && p !in tables.Values && p !in pages :: after[p] == before[p]
  }

  lemma StartUntouched(mem: Memory, tables: map<Key, nat>, pool: seq<nat>)
    ensures Untouched(mem, mem, tables, set p | p in pool)
  {
  }

  lemma MoreUntouched(m0: Memory, m1: Memory, m2: Memory, tables: map<Key, nat>, grown: map<Key, nat>, pool: seq<nat>,
                      pages: set<nat>, va: nat, lo: nat, hi: nat)
    requires GrownAlong(tables, grown, va, lo, hi, pool) && forall p | p in pages :: p in pool
    requires Untouched(m0, m1, tables, set p | p in pool) && Untouched(m1, m2, grown, pages)
    ensures Untouched(m0, m2, tables, set p | p in pool)
  {
    forall p | p in grown.Values
      ensures p in tables.Values || p in pool
    {
      var k :| k in grown && grown[k] == p;
      assert k !in tables ==> k == KeyOf(va, k.level);
    }
  }

  lemma FullRightsBits(flags: bv12)
    requires flags & 7 == 7
    ensures 0xFFF & (flags | 0xFF8) == 0xFFF
  {
  }

  // Then a walk keeps all rights on its way down.
  lemma {:induction false} FullRights(mem: Memory, tables: map<Key, nat>, va: nat, level: nat)
    requires Tree(mem, tables) && Full(mem, tables) && level <= 3
    ensures tables[ROOT] < |mem|
    ensures TableAt(mem, tables[ROOT], va, level).At? ==> TableAt(mem, tables[ROOT], va, level).perm == 0xFFF
    decreases 3 - level
  {
    TableAtKey(mem, tables, va, level);
    if level < 3 && TableAt(mem, tables[ROOT], va, level).At? {
      TableAtKey(mem, tables, va, level + 1);
      FullRights(mem, tables, va, level + 1);
      var k := KeyOf(va, level + 1);
      assert FullEntry(mem, tables[k], Index(va, level + 1));
      FullRightsBits(mem[tables[k]][Index(va, level + 1)].flags);
    }
  }

  lemma LinkFull(mem: Memory, tables: map<Key, nat>, va: nat, level: nat, t: nat)
    requires Tree(mem, tables) && 0 < level <= 3 && KeyOf(va, level) in tables && t < |mem|
    requires (forall j | j in tables :: tables[j] != t) && KeyOf(va, level - 1) !in tables
    ensures tables[KeyOf(va, level)] < |mem| && |mem[tables[KeyOf(va, level)]]| == 512
    ensures var mem' := LinkTable(mem, tables[KeyOf(va, level)], Index(va, level), t);
            && (Full(mem, tables) ==> Full(mem', tables[KeyOf(va, level - 1) := t]))
            && Untouched(mem, mem', tables, {t})
  {
    var k, i := KeyOf(va, level), Index(va, level);
    assert KeyOk(mem, tables, tables.Keys, k);
    var mem' := LinkTable(mem, tables[k], i, t);
    var tables' := tables[KeyOf(va, level - 1) := t];
    if Full(mem, tables) {
      forall j, x: nat | j in tables' && j.level > 0 && x < 512
        ensures FullEntry(mem', tables'[j], x)
      {
        if j in tables {
          assert FullEntry(mem, tables[j], x);
        }
      }
    }
  }

  lemma LeafFull(mem: Memory, tables: map<Key, nat>, k: Key, i: nat, e: Entry)
    requires Tree(mem, tables) && k in tables && k.level == 0 && i < 512
    ensures tables[k] < |mem| && |mem[tables[k]]| == 512
    ensures Full(mem, tables) ==> Full(SetEntry(mem, tables[k], i, e), tables)
    ensures Untouched(mem, SetEntry(mem, tables[k], i, e), tables, {})
  {
    assert KeyOk(mem, tables, tables.Keys, k);
    if Full(mem, tables) {
      forall j, x: nat | j in tables && j.level > 0 && x < 512
        ensures FullEntry(SetEntry(mem, tables[k], i, e), tables[j], x)
      {
        assert FullEntry(mem, tables[j], x);
      }
    }
  }

  // Entry i of table k points to no table.
  lemma NoChildHere(mem: Memory, tables: map<Key, nat>, k: Key, i: nat)
    requires Tree(mem, tables) && k in tables && k.level > 0 && i < 512
    requires tables[k] < |mem| && |mem[tables[k]]| == 512 && !IsTable(mem[tables[k]][i])
    ensures Child(k, i) !in tables
  {
    assert EntryRep(mem, tables, k, i);
  }

  // Everything about linking table t below the table of va at `level`.
  lemma LinkFacts(mem: Memory, tables: map<Key, nat>, va: nat, level: nat, t: nat)
    requires Tree(mem, tables) && 0 < level <= 3 && KeyOf(va, level) in tables && t < |mem|
    requires forall j | j in tables :: tables[j] != t
    requires var p := tables[KeyOf(va, level)];
             p < |mem| && |mem[p]| == 512 && !Present(mem[p][Index(va, level)])
    ensures ROOT in tables && tables[ROOT] < |mem| && tables[KeyOf(va, level)] != t
    ensures var mem' := LinkTable(mem, tables[KeyOf(va, level)], Index(va, level), t);
            && MemOk(mem) && MemOk(mem') && |mem'| == |mem|
            && KeyOf(va, level - 1) !in tables && Tree(mem', tables[KeyOf(va, level - 1) := t])
            && TableAt(mem', tables[ROOT], va, level) == TableAt(mem, tables[ROOT], va, level)
            && mem'[tables[KeyOf(va, level)]][Index(va, level)] == Entry(t, 7) && mem'[t] == EmptyTable()
            && forall x: nat :: Translate(mem', tables[ROOT], x) == Translate(mem, tables[ROOT], x)
  {
    hide Rep, Translate, TableAt, Walk, KeyOf;
    var k, i := KeyOf(va, level), Index(va, level);
    FreeSlot(mem, tables, va, level);
    forall x: nat
      ensures Translate(LinkTable(mem, tables[k], i, t), tables[ROOT], x) == Translate(mem, tables[ROOT], x)
    {
      LinkTranslates(mem, tables, k, i, t, x);
    }
    LinkRep(mem, tables, k, i, t);
    LinkReach(mem, tables, k, i, t, va);
  }

  lemma FreeSlot(mem: Memory, tables: map<Key, nat>, va: nat, level: nat)
    requires Tree(mem, tables) && 0 < level <= 3 && KeyOf(va, level) in tables
    requires var p := tables[KeyOf(va, level)];
             p < |mem| && |mem[p]| == 512 && !Present(mem[p][Index(va, level)])
    ensures MemOk(mem) && ROOT in tables && tables[ROOT] < |mem| && KeyOf(va, level).level == level
    ensures Child(KeyOf(va, level), Index(va, level)) == KeyOf(va, level - 1) && KeyOf(va, level - 1) !in tables
  {
    var k, i := KeyOf(va, level), Index(va, level);
    PrefixStep(va, level - 1);
    NotPresentStops(mem[tables[k]][i], 0);
    NoChildHere(mem, tables, k, i);
    assert KeyOk(mem, tables, tables.Keys, ROOT);
  }

  lemma LeafReach(mem: Memory, tables: map<Key, nat>, k: Key, i: nat, e: Entry, va: nat)
    requires Tree(mem, tables) && k in tables && k.level == 0 && i < 512 && e.page < |mem| && KeyOf(va, 0) == k
    ensures tables[k] < |mem| && |mem[tables[k]]| == 512 && tables[ROOT] < |mem|
    ensures MemOk(SetEntry(mem, tables[k], i, e))
    ensures TableAt(SetEntry(mem, tables[k], i, e), tables[ROOT], va, 0) == TableAt(mem, tables[ROOT], va, 0)
  {
    LeafSet(mem, tables, k, i, e);
    var mem' := SetEntry(mem, tables[k], i, e);
    TableAtKey(mem, tables, va, 3);
    forall l: nat | 0 < l <= 3 && TableAt(mem, tables[ROOT], va, l).At?
      ensures mem'[TableAt(mem, tables[ROOT], va, l).page][Index(va, l)]
              == mem[TableAt(mem, tables[ROOT], va, l).page][Index(va, l)]
    {
      TableAtKey(mem, tables, va, l);
    }
    SameReach(mem, mem', tables[ROOT], va, 0);
  }

  // `grown` has, besides `tables`, the tables for va at levels lo..hi-1,
  // taken from `pool` in order.
  ghost predicate GrownAlong(tables: map<Key, nat>, grown: map<Key, nat>, va: nat, lo: nat, hi: nat, pool: seq<nat>) {
    && lo <= hi <= lo + |pool|
    && (forall k | k in tables :: k in grown && grown[k] == tables[k])
    && (forall k | k in grown && k !in tables :: lo <= k.level < hi && k == KeyOf(va, k.level))
    && (forall l: nat | lo <= l < hi :: KeyOf(va, l) in grown && grown[KeyOf(va, l)] == pool[hi - 1 - l])
  }

  lemma GrownNone(tables: map<Key, nat>, va: nat, level: nat, pool: seq<nat>)
    ensures GrownAlong(tables, tables, va, level, level, pool)
  {
  }

  lemma GrownMore(tables: map<Key, nat>, grown: map<Key, nat>, va: nat, lo: nat, hi: nat, pool: seq<nat>, used: nat)
    requires GrownAlong(tables, grown, va, lo, hi, pool) && 0 < lo && lo + used == hi && used < |pool|
    requires KeyOf(va, lo - 1) !in grown
    ensures GrownAlong(tables, grown[KeyOf(va, lo - 1) := pool[used]], va, lo - 1, hi, pool)
  {
  }

  // Pages kalloc may hand out: distinct, and none of them a page table yet.
  ghost predicate PoolOk(mem: Memory, tables: map<Key, nat>, pool: seq<nat>) {
    && (forall i | 0 <= i < |pool| :: pool[i] < |mem| && forall k | k in tables :: tables[k] != pool[i])
    && (forall i, j | 0 <= i < j < |pool| :: pool[i] != pool[j])
  }

  lemma WholePool(pool: seq<nat>)
    ensures pool[0..] == pool
  {
  }

  lemma PoolNext(mem: Memory, tables: map<Key, nat>, pool: seq<nat>, used: nat)
    requires used < |pool| && PoolOk(mem, tables, pool[used..])
    ensures pool[used] < |mem| && forall k | k in tables :: tables[k] != pool[used]
  {
    assert pool[used..][0] == pool[used];
  }

  lemma PoolShrinks(mem: Memory, mem': Memory, tables: map<Key, nat>, pool: seq<nat>, used: nat, k: Key)
    requires used < |pool| && PoolOk(mem, tables, pool[used..]) && |mem'| == |mem|
    ensures PoolOk(mem', tables[k := pool[used]], pool[used + 1..])
  {
    var a, b := pool[used..], pool[used + 1..];
    assert forall i | 0 <= i < |b| :: b[i] == a[i + 1] && a[0] == pool[used];
  }

  lemma KeepsTable(mem: Memory, root: nat, a: nat, b: nat, level: nat)
    requires MemOk(mem) && root < |mem| && level <= 2 && a / Span(level + 1) == b / Span(level + 1)
    ensures TableAt(mem, root, a, level) == TableAt(mem, root, b, level)
    ensures Canonical(a) <==> Canonical(b)
  {
    TableAtSame(mem, root, a, b, level);
    SameTop(a, b, level);
  }

  lemma SameTop(a: nat, b: nat, level: nat)
    requires level <= 2 && a / Span(level + 1) == b / Span(level + 1)
    ensures Canonical(a) <==> Canonical(b)
    decreases 3 - level
  {
    if level < 2 {
      SamePrefixUp(a, b, level);
      SameTop(a, b, level + 1);
    } else {
      SameHalf(a, b);
    }
  }

  // Addresses are 64 bits wide.
  const TOP: nat := 0x1_0000_0000_0000_0000

  function Wrapped(va: nat): (w: nat)
    ensures va <= TOP ==> w == if va == TOP then 0 else va
  {
    va % TOP
  }

  // One past the block of an entry: (va | pageoffmask(level)) + 1.
  function EndOf(va: nat, level: nat): nat { (va / Span(level) + 1) * Span(level) }

  lemma BlockBounds(from: nat, x: nat, level: nat)
    requires level <= 3 && from <= x
    ensures x < EndOf(from, level) <==> x / Span(level) == from / Span(level)
    ensures from < EndOf(from, level)
  {
  }

  // Blocks do not reach over the end of the address range.
  lemma BlockFits(va: nat, level: nat)
    requires level <= 3 && va < TOP
    ensures va < EndOf(va, level) <= TOP
  {
    match level
    case 0 => assert va / 0x1000 < 0x10_0000_0000_0000;
    case 1 => assert va / 0x20_0000 < 0x800_0000_0000;
    case 2 => assert va / 0x4000_0000 < 0x4_0000_0000;
    case _ => assert va / 0x80_0000_0000 < 0x200_0000;
  }

  lemma PermZero(ph: bv12)
    ensures (if ph & 1 == 0 then 0 else ph) == 0 <==> ph & 1 == 0
  {
  }
}
