// Page tables as trees: which page holds the table for which addresses, and
// what linking a table or changing an entry does to every translation.

module PageTree {
  import opened PageTableSpec

  // The table at `level` for the addresses with this prefix.
  datatype Key = Key(level: nat, prefix: nat)

  const ROOT: Key := Key(3, 0)

  function Parent(k: Key): Key { Key(k.level + 1, k.prefix / 512) }

  function Child(k: Key, i: nat): Key
    requires k.level > 0
  {
    Key(k.level - 1, k.prefix * 512 + i)
  }

  function KeyOf(va: nat, level: nat): Key { Key(level, Prefix(va, level)) }

  // `tables` are the page-table pages of the tree; those in `live` still hold
  // their entries in memory.
  ghost predicate Rep(mem: Memory, tables: map<Key, nat>, live: set<Key>) {
    && MemOk(mem) && ROOT in live && live <= tables.Keys
    && (forall k | k in tables :: KeyOk(mem, tables, live, k))
    && (forall j, k | j in tables && k in tables && tables[j] == tables[k] :: j == k)
    && (forall k, i: nat | k in live && k.level > 0 && i < 512 :: EntryRep(mem, tables, k, i))
  }

  ghost predicate KeyOk(mem: Memory, tables: map<Key, nat>, live: set<Key>, k: Key)
    requires k in tables
  {
    && tables[k] < |mem| && k.level <= 3
    && (k.level == 3 ==> k == ROOT)
    && (k.level < 3 ==> Parent(k) in tables && (k in live ==> Parent(k) in live))
  }

  // Entry i of table k points to a table exactly when the tree has one there.
  ghost predicate EntryRep(mem: Memory, tables: map<Key, nat>, k: Key, i: nat)
    requires k in tables && k.level > 0 && i < 512
  {
    tables[k] < |mem| && i < |mem[tables[k]]|
    && var e := mem[tables[k]][i];
       && (IsTable(e) <==> Child(k, i) in tables)
       && (IsTable(e) ==> e.page == tables[Child(k, i)])
  }

  ghost predicate Tree(mem: Memory, tables: map<Key, nat>) { Rep(mem, tables, tables.Keys) }

  // ---- Prefixes ----

  lemma PrefixStep(va: nat, level: nat)
    requires level <= 2
    ensures Child(KeyOf(va, level + 1), Index(va, level + 1)) == KeyOf(va, level)
    ensures Parent(KeyOf(va, level)) == KeyOf(va, level + 1)
  {
    IndexLow(va, level + 1);
    SpanStep(va % 0x1_0000_0000_0000, level + 1);
  }

  // The index at any level depends on the low 48 bits only.
  lemma IndexLow(va: nat, level: nat)
    requires level <= 3
    ensures Index(va, level) == va % 0x1_0000_0000_0000 / Span(level) % 512
  {
    var h, x := va / 0x1_0000_0000_0000, va % 0x1_0000_0000_0000;
    match level
    case 0 => IndexOfLow(va, 0x1000, 0x800_0000 * h, x);
    case 1 => IndexOfLow(va, 0x20_0000, 0x4_0000 * h, x);
    case 2 => IndexOfLow(va, 0x4000_0000, 0x200 * h, x);
    case _ => IndexOfLow(va, 0x80_0000_0000, h, x);
  }

  lemma IndexOfLow(va: nat, c: nat, w: nat, x: nat)
    requires c > 0 && va == c * (512 * w) + x
    ensures va / c % 512 == x / c % 512
  {
    assert x == c * (x / c) + x % c;
    assert va == c * (512 * w + x / c) + x % c;
    DivIs(va, c, 512 * w + x / c, x % c);
    HighPart(w, x / c);
  }

  lemma HighPart(m: nat, q: nat)
    ensures (512 * m + q) % 512 == q % 512
  {
  }

  lemma RootKey(va: nat)
    ensures KeyOf(va, 3) == ROOT
  {
  }

  // Canonical addresses are told apart by their low 48 bits.
  lemma LowBitsTell(a: nat, b: nat)
    requires Canonical(a) && Canonical(b) && a < 0x1_0000_0000_0000_0000 && b < 0x1_0000_0000_0000_0000
    requires KeyOf(a, 0) == KeyOf(b, 0) && Index(a, 0) == Index(b, 0)
    ensures a / 4096 == b / 4096
  {
    var x, y := a % 0x1_0000_0000_0000, b % 0x1_0000_0000_0000;
    IndexLow(a, 0);
    IndexLow(b, 0);
    SpanStep(x, 0);
    SpanStep(y, 0);
    assert x / 0x1000 == y / 0x1000;
    SameHigh(a, b);
  }

  lemma SameHigh(a: nat, b: nat)
    requires Canonical(a) && Canonical(b) && a < 0x1_0000_0000_0000_0000 && b < 0x1_0000_0000_0000_0000
    requires a % 0x1_0000_0000_0000 / 0x1000 == b % 0x1_0000_0000_0000 / 0x1000
    ensures a / 4096 == b / 4096
  {
    HighIs(a);
    HighIs(b);
  }

  // The high bits of a canonical address repeat bit 47.
  lemma HighIs(a: nat)
    requires Canonical(a) && a < 0x1_0000_0000_0000_0000
    ensures a / 0x1_0000_0000_0000 == if a % 0x1_0000_0000_0000 < 0x8000_0000_0000 then 0 else 0xFFFF
    ensures a / 4096 == 0x10_0000_0000 * (a / 0x1_0000_0000_0000) + a % 0x1_0000_0000_0000 / 0x1000
  {
    var h, x := a / 0x1_0000_0000_0000, a % 0x1_0000_0000_0000;
    assert a == 0x1000 * (0x10_0000_0000 * h + x / 0x1000) + x % 0x1000;
  }

  // ---- The walk follows the tree ----

  lemma {:induction false} TableAtKey(mem: Memory, tables: map<Key, nat>, va: nat, level: nat)
    requires Tree(mem, tables) && level <= 3
    ensures tables[ROOT] < |mem|
    ensures var t := TableAt(mem, tables[ROOT], va, level);
            && (t.At? <==> KeyOf(va, level) in tables)
            && (t.At? ==> t.page == tables[KeyOf(va, level)])
    decreases 3 - level
  {
    assert KeyOk(mem, tables, tables.Keys, ROOT);
    RootKey(va);
    if level < 3 {
      TableAtKey(mem, tables, va, level + 1);
      PrefixStep(va, level);
      var k := KeyOf(va, level + 1);
      if KeyOf(va, level) in tables {
        assert KeyOk(mem, tables, tables.Keys, KeyOf(va, level));
      }
      if k in tables {
        assert EntryRep(mem, tables, k, Index(va, level + 1));
      }
    }
  }

  // Two memories that agree on the entries of a walk give the same walk.
  ghost predicate AgreeOn(mem: Memory, mem': Memory, root: nat, va: nat)
    requires MemOk(mem) && MemOk(mem') && root < |mem| == |mem'|
  {
    forall l: nat | l <= 3 && TableAt(mem, root, va, l).At? ::
      mem'[TableAt(mem, root, va, l).page][Index(va, l)] == mem[TableAt(mem, root, va, l).page][Index(va, l)]
  }

  lemma {:induction false} SameWalk(mem: Memory, mem': Memory, root: nat, va: nat, page: nat, level: nat, perm: bv12)
    requires MemOk(mem) && MemOk(mem') && root < |mem| == |mem'| && AgreeOn(mem, mem', root, va)
    requires level <= 3 && TableAt(mem, root, va, level) == At(page, perm)
    ensures WalkFrom(mem', page, level, perm, va) == WalkFrom(mem, page, level, perm, va)
    ensures var w := WalkFrom(mem, page, level, perm, va); mem'[w.page][w.idx] == mem[w.page][w.idx]
    decreases level
  {
    assert mem'[page][Index(va, level)] == mem[page][Index(va, level)];
    var e := mem[page][Index(va, level)];
    if level > 0 && IsTable(e) {
      SameWalk(mem, mem', root, va, e.page, level - 1, Narrow(perm, e));
    }
  }

  lemma SameTranslation(mem: Memory, mem': Memory, root: nat, va: nat)
    requires MemOk(mem) && MemOk(mem') && root < |mem| == |mem'|
    requires Canonical(va) ==> AgreeOn(mem, mem', root, va)
    ensures Translate(mem', root, va) == Translate(mem, root, va)
  {
    if Canonical(va) {
      SameWalk(mem, mem', root, va, root, 3, INITIAL_PERM);
    }
  }

  // The steps above `level` are the same, so the table there is too.
  lemma {:induction false} SameReach(mem: Memory, mem': Memory, root: nat, va: nat, level: nat)
    requires MemOk(mem) && MemOk(mem') && root < |mem| == |mem'| && level <= 3
    requires forall l: nat | level < l <= 3 && TableAt(mem, root, va, l).At? ::
               mem'[TableAt(mem, root, va, l).page][Index(va, l)] == mem[TableAt(mem, root, va, l).page][Index(va, l)]
    ensures TableAt(mem', root, va, level) == TableAt(mem, root, va, level)
    decreases 3 - level
  {
    hide Index, IsTable, Narrow;
    if level < 3 {
      SameReach(mem, mem', root, va, level + 1);
    }
  }

  // ---- Setting one entry ----

  function SetEntry(mem: Memory, p: nat, i: nat, e: Entry): Memory
    requires p < |mem| && i < |mem[p]|
  {
    mem[p := mem[p][i := e]]
  }

  // A walk that does not go through entry i of table k does not see it.
  lemma OffPath(mem: Memory, mem': Memory, tables: map<Key, nat>, k: Key, i: nat, va: nat)
    requires Tree(mem, tables) && MemOk(mem') && |mem'| == |mem| && k in tables && i < 512
    requires forall j, x: nat | j in tables && x < 512 && !(j == k && x == i) :: mem'[tables[j]][x] == mem[tables[j]][x]
    requires !(KeyOf(va, k.level) == k && Index(va, k.level) == i)
    ensures tables[ROOT] < |mem| && AgreeOn(mem, mem', tables[ROOT], va)
  {
    TableAtKey(mem, tables, va, 3);
    forall l: nat | l <= 3 && TableAt(mem, tables[ROOT], va, l).At?
      ensures mem'[TableAt(mem, tables[ROOT], va, l).page][Index(va, l)]
              == mem[TableAt(mem, tables[ROOT], va, l).page][Index(va, l)]
    {
      TableAtKey(mem, tables, va, l);
    }
  }

  // vmiter's last step: a leaf entry changes the meaning of its own page only.
  lemma LeafSet(mem: Memory, tables: map<Key, nat>, k: Key, i: nat, e: Entry)
    requires Tree(mem, tables) && k in tables && k.level == 0 && i < 512 && e.page < |mem|
    ensures tables[k] < |mem| && |mem[tables[k]]| == 512
    ensures Tree(SetEntry(mem, tables[k], i, e), tables)
  {
    assert KeyOk(mem, tables, tables.Keys, k);
    var mem' := SetEntry(mem, tables[k], i, e);
    forall j, x: nat | j in tables && j.level > 0 && x < 512
      ensures EntryRep(mem', tables, j, x)
    {
      assert EntryRep(mem, tables, j, x) && tables[j] != tables[k];
    }
    forall j | j in tables
      ensures KeyOk(mem', tables, tables.Keys, j)
    {
      assert KeyOk(mem, tables, tables.Keys, j);
    }
  }

  lemma LeafSetElsewhere(mem: Memory, tables: map<Key, nat>, k: Key, i: nat, e: Entry, va: nat)
    requires Tree(mem, tables) && k in tables && k.level == 0 && i < 512 && e.page < |mem|
    requires !(KeyOf(va, 0) == k && Index(va, 0) == i)
    ensures tables[k] < |mem| && |mem[tables[k]]| == 512 && tables[ROOT] < |mem|
    ensures Tree(SetEntry(mem, tables[k], i, e), tables)
    ensures Translate(SetEntry(mem, tables[k], i, e), tables[ROOT], va) == Translate(mem, tables[ROOT], va)
  {
    LeafSet(mem, tables, k, i, e);
    OffPath(mem, SetEntry(mem, tables[k], i, e), tables, k, i, va);
    SameTranslation(mem, SetEntry(mem, tables[k], i, e), tables[ROOT], va);
  }

  // ---- Linking an empty table ----

  function EmptyTable(): (t: seq<Entry>)
    ensures |t| == 512 && forall i | 0 <= i < 512 :: t[i] == Entry(0, 0)
  {
    seq(512, _ => Entry(0, 0))
  }

  // memset(pt, 0) of page t, then entry i of table p := t | P | W | U
  function LinkTable(mem: Memory, p: nat, i: nat, t: nat): Memory
    requires p < |mem| && t < |mem| && p != t && i < |mem[p]|
  {
    SetEntry(mem[t := EmptyTable()], p, i, Entry(t, 7))
  }

  lemma LinkRep(mem: Memory, tables: map<Key, nat>, k: Key, i: nat, t: nat)
    requires Tree(mem, tables) && k in tables && k.level > 0 && i < 512 && t < |mem|
    requires (forall j | j in tables :: tables[j] != t) && Child(k, i) !in tables
    ensures tables[k] < |mem| && |mem[tables[k]]| == 512
    ensures Tree(LinkTable(mem, tables[k], i, t), tables[Child(k, i) := t])
  {
    assert KeyOk(mem, tables, tables.Keys, k);
    var mem', c := LinkTable(mem, tables[k], i, t), Child(k, i);
    var tables' := tables[c := t];
    assert MemOk(mem');
    forall j | j in tables'
      ensures KeyOk(mem', tables', tables'.Keys, j)
    {
      if j != c { assert KeyOk(mem, tables, tables.Keys, j); }
    }
    forall j, x: nat | j in tables' && j.level > 0 && x < 512
      ensures EntryRep(mem', tables', j, x)
    {
      LinkEntry(mem, tables, k, i, t, j, x);
    }
  }

  lemma LinkEntry(mem: Memory, tables: map<Key, nat>, k: Key, i: nat, t: nat, j: Key, x: nat)
    requires Tree(mem, tables) && k in tables && k.level > 0 && i < 512 && t < |mem|
    requires (forall j | j in tables :: tables[j] != t) && Child(k, i) !in tables
    requires (j in tables || j == Child(k, i)) && j.level > 0 && x < 512
    ensures tables[k] < |mem| && |mem[tables[k]]| == 512
    ensures EntryRep(LinkTable(mem, tables[k], i, t), tables[Child(k, i) := t], j, x)
  {
    assert KeyOk(mem, tables, tables.Keys, k);
    if j in tables {
      assert EntryRep(mem, tables, j, x);
      ChildApart(j, x, k, i);
    } else {
      // a table that is not in the tree has no children there
      assert Child(j, x) in tables ==> KeyOk(mem, tables, tables.Keys, Child(j, x));
      assert Parent(Child(j, x)) == j;
      ChildApart(j, x, k, i);
    }
  }

  lemma ChildApart(j: Key, x: nat, k: Key, i: nat)
    requires j.level > 0 && k.level > 0 && x < 512 && i < 512
    ensures Child(j, x) == Child(k, i) <==> j == k && x == i
  {
  }

  // The table page at k is reached as before.
  lemma LinkReach(mem: Memory, tables: map<Key, nat>, k: Key, i: nat, t: nat, va: nat)
    requires Tree(mem, tables) && k in tables && k.level > 0 && i < 512 && t < |mem|
    requires (forall j | j in tables :: tables[j] != t) && KeyOf(va, k.level) == k
    requires Child(k, i) !in tables
    ensures tables[k] < |mem| && tables[ROOT] < |mem| && MemOk(LinkTable(mem, tables[k], i, t))
    ensures TableAt(LinkTable(mem, tables[k], i, t), tables[ROOT], va, k.level)
            == TableAt(mem, tables[ROOT], va, k.level)
  {
    LinkRep(mem, tables, k, i, t);
    var mem' := LinkTable(mem, tables[k], i, t);
    TableAtKey(mem, tables, va, 3);
    forall l: nat | k.level < l <= 3 && TableAt(mem, tables[ROOT], va, l).At?
      ensures mem'[TableAt(mem, tables[ROOT], va, l).page][Index(va, l)]
              == mem[TableAt(mem, tables[ROOT], va, l).page][Index(va, l)]
    {
      TableAtKey(mem, tables, va, l);
    }
    SameReach(mem, mem', tables[ROOT], va, k.level);
  }

  // Linking an empty table where nothing was present changes no translation.
  lemma LinkTranslates(mem: Memory, tables: map<Key, nat>, k: Key, i: nat, t: nat, va: nat)
    requires Tree(mem, tables) && k in tables && k.level > 0 && i < 512 && t < |mem|
    requires (forall j | j in tables :: tables[j] != t) && Child(k, i) !in tables
    requires tables[k] < |mem| && !Present(mem[tables[k]][i])
    ensures Tree(LinkTable(mem, tables[k], i, t), tables[Child(k, i) := t]) && tables[ROOT] < |mem|
    ensures Translate(LinkTable(mem, tables[k], i, t), tables[ROOT], va) == Translate(mem, tables[ROOT], va)
  {
    var mem', root := LinkTable(mem, tables[k], i, t), tables[ROOT];
    LinkRep(mem, tables, k, i, t);
    TableAtKey(mem, tables, va, 3);
    if KeyOf(va, k.level) == k && Index(va, k.level) == i {
      if Canonical(va) {
        LinkOnPath(mem, tables, k, i, t, va);
      }
    } else {
      OffPath(mem, mem', tables, k, i, va);
      SameTranslation(mem, mem', root, va);
    }
  }

  lemma LinkOnPath(mem: Memory, tables: map<Key, nat>, k: Key, i: nat, t: nat, va: nat)
    requires Tree(mem, tables) && k in tables && k.level > 0 && i < 512 && t < |mem|
    requires (forall j | j in tables :: tables[j] != t) && Child(k, i) !in tables
    requires tables[k] < |mem| && !Present(mem[tables[k]][i])
    requires KeyOf(va, k.level) == k && Index(va, k.level) == i && Canonical(va)
    ensures Tree(LinkTable(mem, tables[k], i, t), tables[Child(k, i) := t]) && tables[ROOT] < |mem|
    ensures Translate(LinkTable(mem, tables[k], i, t), tables[ROOT], va) == Unmapped
    ensures Translate(mem, tables[ROOT], va) == Unmapped
  {
    var mem', root := LinkTable(mem, tables[k], i, t), tables[ROOT];
    LinkRep(mem, tables, k, i, t);
    LinkReach(mem, tables, k, i, t, va);
    TableAtKey(mem, tables, va, k.level);
    StopsHere(mem, root, va, k.level);
    assert mem'[tables[k]][i] == Entry(t, 7);
    assert mem'[t][Index(va, k.level - 1)] == Entry(0, 0);
    StopsBelow(mem', root, va, k.level);
  }

  // An entry that is not present on the path of va ends its walk.
  lemma StopsHere(mem: Memory, root: nat, va: nat, level: nat)
    requires MemOk(mem) && root < |mem| && level <= 3 && TableAt(mem, root, va, level).At?
    requires !Present(mem[TableAt(mem, root, va, level).page][Index(va, level)])
    ensures Translate(mem, root, va) == Unmapped
  {
    var t := TableAt(mem, root, va, level);
    NotPresentStops(mem[t.page][Index(va, level)], t.perm);
    WalkContinues(mem, root, va, level);
  }

  lemma StopsBelow(mem: Memory, root: nat, va: nat, level: nat)
    requires MemOk(mem) && root < |mem| && 0 < level <= 3 && TableAt(mem, root, va, level).At?
    requires var e := mem[TableAt(mem, root, va, level).page][Index(va, level)];
             IsTable(e) && e.page < |mem| && mem[e.page][Index(va, level - 1)] == Entry(0, 0)
    ensures Translate(mem, root, va) == Unmapped
  {
    StopsHere(mem, root, va, level - 1);
  }

  lemma NotPresentStops(e: Entry, perm: bv12)
    requires !Present(e)
    ensures !IsTable(e) && e.flags & perm & 1 == 0
  {
  }
}
