// ptiter: the walk over the page-table pages of a tree, children before
// parents, that restarts from the root on its way up.

module PtIter {
  import opened PageTableSpec
  import opened PageTree
  import opened VmIter

  // One past the last address a table covers.
  function Last(k: Key): nat { (k.prefix + 1) * Span(k.level + 1) }

  function Start(k: Key): nat { k.prefix * Span(k.level + 1) }

  // Depth-first order: by last address, the deeper table first.
  predicate Before(a: Key, b: Key) {
    Last(a) < Last(b) || (Last(a) == Last(b) && a.level < b.level)
  }

  // A point in that order: everything strictly below (end, level) is passed.
  datatype Front = Front(end: nat, level: nat)

  predicate Passed(k: Key, f: Front) {
    Last(k) < f.end || (Last(k) == f.end && k.level < f.level)
  }

  ghost predicate IsNext(tables: map<Key, nat>, f: Front, k: Key) {
    && k in tables && k.level < 3 && !Passed(k, f)
    && forall j | j in tables && !Passed(j, f) :: j == k || Before(k, j)
  }

  ghost predicate AllPassed(tables: map<Key, nat>, f: Front) {
    forall k | k in tables && k.level < 3 :: Passed(k, f)
  }

  // The tables whose pages the walk may still read.
  function Unpassed(tables: map<Key, nat>, f: Front): set<Key> {
    set k | k in tables && !Passed(k, f)
  }

  // ---- Keys and addresses ----

  lemma KeyOfLow(va: nat, level: nat)
    requires va < 0x1_0000_0000_0000 && level <= 3
    ensures KeyOf(va, level) == Key(level, va / Span(level + 1))
  {
  }

  lemma ParentCovers(k: Key)
    requires k.level < 3
    ensures Last(k) <= Last(Parent(k))
  {
  }

  lemma StartKey(k: Key)
    requires k.level <= 3 && Last(k) <= 0x1_0000_0000_0000
    ensures Start(k) < 0x1_0000_0000_0000 && KeyOf(Start(k), k.level) == k
  {
  }

  // A table's prefix is small enough for its start to be a 48-bit address.
  lemma {:induction false} PrefixBound(mem: Memory, tables: map<Key, nat>, live: set<Key>, k: Key)
    requires Rep(mem, tables, live) && k in tables
    ensures k.level <= 3 && Last(k) <= 0x1_0000_0000_0000
    decreases 3 - k.level
  {
    assert KeyOk(mem, tables, live, k);
    if k.level < 3 {
      ParentCovers(k);
      PrefixBound(mem, tables, live, Parent(k));
    }
  }

  lemma {:induction false} Ancestor(mem: Memory, tables: map<Key, nat>, live: set<Key>, va: nat, low: nat, high: nat)
    requires Rep(mem, tables, live) && low <= high <= 3 && KeyOf(va, low) in tables
    ensures KeyOf(va, high) in tables
    ensures KeyOf(va, low) in live ==> KeyOf(va, high) in live
    decreases high - low
  {
    if low < high {
      assert KeyOk(mem, tables, live, KeyOf(va, low));
      PrefixStep(va, low);
      Ancestor(mem, tables, live, va, low + 1, high);
    }
  }

  // A table that ends inside the block of an entry hangs below that entry.
  lemma InsideBlock(mem: Memory, tables: map<Key, nat>, live: set<Key>, k: Key, va: nat, level: nat)
    requires Rep(mem, tables, live) && k in tables && k.level < level <= 3
    requires va % Span(level) == 0 && va < Last(k) <= va + Span(level)
    ensures KeyOf(va, level - 1) in tables
  {
    PrefixBound(mem, tables, live, k);
    StartKey(k);
    StartInside(k, va, level);
    Ancestor(mem, tables, live, Start(k), k.level, level - 1);
    KeyOfLow(Start(k), level - 1);
    KeyOfLow(va, level - 1);
  }

  lemma StartInside(k: Key, va: nat, level: nat)
    requires k.level < level <= 3 && va % Span(level) == 0 && va < Last(k) <= va + Span(level)
    requires Last(k) <= 0x1_0000_0000_0000
    ensures va <= Start(k) < va + Span(level) && Start(k) < 0x1_0000_0000_0000
    ensures Start(k) / Span(level) == va / Span(level)
  {
    var s := Span(k.level + 1);
    Coarser(va, level, k.level + 1);
    var m := va / s;
    assert va == m * s && Last(k) == (k.prefix + 1) * s && Start(k) == k.prefix * s;
    assert Last(k) == Start(k) + s;
    MulUp(k.prefix + 1, m, s);
    MulUp(m, k.prefix, s);
    SameBlock(Start(k), va, level);
  }

  lemma MulUp(a: nat, b: nat, s: nat)
    requires s > 0
    ensures a <= b ==> a * s <= b * s
  {
  }

  lemma SameBlock(x: nat, va: nat, level: nat)
    requires level <= 4 && va % Span(level) == 0 && va <= x < va + Span(level)
    ensures x / Span(level) == va / Span(level)
  {
  }

  // A multiple of a large span is one of a small span.
  lemma Coarser(va: nat, high: nat, low: nat)
    requires low <= high <= 4 && va % Span(high) == 0
    ensures va % Span(low) == 0
    decreases high - low
  {
    if low < high {
      OneCoarser(va, high);
      Coarser(va, high - 1, low);
    }
  }

  lemma OneCoarser(va: nat, level: nat)
    requires 0 < level <= 4 && va % Span(level) == 0
    ensures va % Span(level - 1) == 0
  {
    match level
    case 1 => Times512(va, va / 0x20_0000, 0x1000);
    case 2 => Times512(va, va / 0x4000_0000, 0x20_0000);
    case 3 => Times512(va, va / 0x80_0000_0000, 0x4000_0000);
    case _ => Times512(va, va / 0x1_0000_0000_0000, 0x80_0000_0000);
  }

  lemma Times512(x: nat, q: nat, s: nat)
    requires s > 0 && x == (512 * s) * q
    ensures x % s == 0
  {
    var m, d, r := 512 * q, x / s, x % s;
    Assoc(512, s, q);
    assert d * s + r == x == m * s;
    MulUp(d + 1, m, s);
    MulUp(m, d, s);
    assert (d + 1) * s == d * s + s;
  }

  lemma Assoc(a: nat, b: nat, c: nat)
    ensures (a * b) * c == (a * c) * b
  {
  }

  lemma LastMultiple(k: Key, level: nat)
    requires level <= k.level <= 3
    ensures Last(k) % Span(level + 1) == 0
  {
    WholeSpans(k.prefix + 1, k.level + 1);
    Coarser(Last(k), k.level + 1, level + 1);
  }

  lemma WholeSpans(n: nat, level: nat)
    requires level <= 4
    ensures n * Span(level) % Span(level) == 0
  {
    match level
    case 0 => assert n * 0x1000 % 0x1000 == 0;
    case 1 => assert n * 0x20_0000 % 0x20_0000 == 0;
    case 2 => assert n * 0x4000_0000 % 0x4000_0000 == 0;
    case 3 => assert n * 0x80_0000_0000 % 0x80_0000_0000 == 0;
    case _ => assert n * 0x1_0000_0000_0000 % 0x1_0000_0000_0000 == 0;
  }

  // ---- One step of the walk ----

  // The next block at this level, and whether it leaves the table.
  predicate Leaves(va: nat, level: nat) {
    EndOf(va, level) / Span(level + 1) != va / Span(level + 1)
  }

  // The front is at `va`: passed is what ends there or before.
  ghost predicate Fresh(tables: map<Key, nat>, f: Front, va: nat) {
    forall k | k in tables :: Passed(k, f) <==> Last(k) <= va
  }

  // A table that ends above va and not after the current block is an ancestor.
  lemma EndsWithBlock(k: Key, va: nat, level: nat)
    requires level <= k.level <= 3 && va < Last(k) <= EndOf(va, level)
    ensures Last(k) == EndOf(va, level) && Leaves(va, level)
  {
    LastMultiple(k, level);
    MultipleInBlock(Last(k), va, level);
  }

  lemma MultipleInBlock(x: nat, va: nat, level: nat)
    requires level <= 3 && x % Span(level + 1) == 0 && va < x <= EndOf(va, level)
    ensures x == EndOf(va, level) && Leaves(va, level)
  {
    Coarser(x, level + 1, level);
    NoMultipleBetween(x, va, level);
    Crosses(x, va, level + 1);
  }

  lemma NoMultipleBetween(x: nat, va: nat, level: nat)
    requires level <= 3 && x % Span(level) == 0 && va < x <= EndOf(va, level)
    ensures x == EndOf(va, level)
  {
    match level
    case 0 => {}
    case 1 => {}
    case 2 => {}
    case 3 => {}
  }

  lemma Crosses(x: nat, va: nat, level: nat)
    requires level <= 4 && x % Span(level) == 0 && va < x
    ensures x / Span(level) != va / Span(level)
  {
  }

  // ---- Where the iterator stands ----

  // A position whose table page is still live, together with what the three
  // phases of the walk know: leaving the current table, moving over untouched
  // blocks, or coming down again to a chosen entry (stop > 1).
  ghost predicate Stands(tables: map<Key, nat>, f: Front, page: nat, idx: nat, level: nat, va: nat, stop: nat, skip: bool) {
    && 1 <= level <= 3 && va < 0x1_0000_0000_0000 && idx == Index(va, level)
    && KeyOf(va, level) in tables && page == tables[KeyOf(va, level)] && !Passed(KeyOf(va, level), f)
    && (skip ==> stop == 1 && f == Front(EndOf(va, level), level))
    && (stop == 1 && !skip ==> va % Span(level) == 0 && Fresh(tables, f, va))
    && (stop != 1 ==> !skip && 1 < stop <= level && KeyOf(va, stop - 1) in tables && IsNext(tables, f, KeyOf(va, stop - 1)))
  }

  lemma EntryTells(mem: Memory, tables: map<Key, nat>, live: set<Key>, va: nat, level: nat)
    requires Rep(mem, tables, live) && 1 <= level <= 3 && KeyOf(va, level) in live
    ensures var p := tables[KeyOf(va, level)];
            && p < |mem| && |mem[p]| == 512
            && (IsTable(mem[p][Index(va, level)]) <==> KeyOf(va, level - 1) in tables)
            && (IsTable(mem[p][Index(va, level)]) ==> mem[p][Index(va, level)].page == tables[KeyOf(va, level - 1)])
  {
    PrefixStep(va, level - 1);
    assert EntryRep(mem, tables, KeyOf(va, level), Index(va, level));
  }

  // Leaving a table means moving on from its entry 511.
  lemma LeavesLast(va: nat, level: nat)
    requires level <= 3
    ensures EndOf(va, level) / Span(level) == va / Span(level) + 1
    ensures Leaves(va, level) <==> va / Span(level) % 512 == 511
    ensures Leaves(va, level) ==> EndOf(va, level) == EndOf(va, level + 1)
  {
    WholeSpans(va / Span(level) + 1, level);
    SpanStep(va, level);
    SpanStep(EndOf(va, level), level);
    BigSpan(va / Span(level), level);
  }

  lemma BigSpan(q: nat, level: nat)
    requires level <= 3
    ensures q % 512 == 511 ==> (q + 1) * Span(level) == (q / 512 + 1) * Span(level + 1)
  {
  }

  // The table of va ends after va, and with the block when the block is last.
  lemma TableEnd(va: nat, level: nat)
    requires va < 0x1_0000_0000_0000 && level <= 3
    ensures va < Last(KeyOf(va, level)) == EndOf(va, level + 1)
    ensures Leaves(va, level) ==> Last(KeyOf(va, level)) == EndOf(va, level)
    ensures level > 0 ==> Last(KeyOf(va, level - 1)) == EndOf(va, level)
  {
    KeyOfLow(va, level);
    LeavesLast(va, level);
    InBlock(va, level + 1);
    if level > 0 {
      KeyOfLow(va, level - 1);
    }
  }

  lemma InBlock(va: nat, level: nat)
    requires level <= 4
    ensures va < EndOf(va, level) && EndOf(va, level) % Span(level) == 0
  {
    WholeSpans(va / Span(level) + 1, level);
  }

  lemma StaysBelow(va: nat, level: nat)
    requires va < 0x1_0000_0000_0000 && level <= 3 && !Leaves(va, level)
    ensures EndOf(va, level) < 0x1_0000_0000_0000
  {
  }

  // ---- What one turn of the loop does ----

  lemma RootLive(mem: Memory, tables: map<Key, nat>, f: Front)
    requires Rep(mem, tables, Unpassed(tables, f))
    ensures ROOT in tables && !Passed(ROOT, f)
  {
    assert ROOT in Unpassed(tables, f);
  }

  // Moving on, no unvisited table ends in the block that is left behind.
  lemma Gap(mem: Memory, tables: map<Key, nat>, f: Front, page: nat, idx: nat, level: nat, va: nat, skip: bool, k: Key)
    requires Rep(mem, tables, Unpassed(tables, f)) && Stands(tables, f, page, idx, level, va, 1, skip)
    requires skip || KeyOf(va, level - 1) !in tables
    requires k in tables
    ensures Passed(k, f) ==> Last(k) <= EndOf(va, level)
    ensures Passed(k, f)
         || Last(k) > EndOf(va, level)
         || (Last(k) == EndOf(va, level) && Leaves(va, level) && k.level >= level)
  {
    hide Rep;
    InBlock(va, level);
    PrefixBound(mem, tables, Unpassed(tables, f), k);
    if !Passed(k, f) && Last(k) <= EndOf(va, level) {
      BlockEnd(va, level);
      if k.level < level {
        if !skip { InsideBlock(mem, tables, Unpassed(tables, f), k, va, level); }
      } else {
        EndsWithBlock(k, va, level);
      }
    }
  }

  lemma BlockEnd(va: nat, level: nat)
    requires level <= 3
    ensures va % Span(level) == 0 ==> EndOf(va, level) == va + Span(level)
  {
  }

  lemma AlongAddress(va: nat, level: nat)
    requires va < 0x1_0000_0000_0000 && level <= 3 && !Leaves(va, level)
    ensures va < EndOf(va, level) < 0x1_0000_0000_0000
    ensures Index(EndOf(va, level), level) == Index(va, level) + 1
    ensures KeyOf(EndOf(va, level), level) == KeyOf(va, level)
  {
    hide Span, EndOf, KeyOf;
    InBlock(va, level);
    StaysBelow(va, level);
    LeavesLast(va, level);
    NextIndex(va / Span(level));
    KeyOfLow(va, level);
    KeyOfLow(EndOf(va, level), level);
  }

  lemma NextIndex(q: nat)
    ensures q % 512 != 511 ==> (q + 1) % 512 == q % 512 + 1
  {
  }

  // Within the table: to the next entry.
  lemma Along(mem: Memory, tables: map<Key, nat>, f: Front, page: nat, idx: nat, level: nat, va: nat, skip: bool)
    requires Rep(mem, tables, Unpassed(tables, f)) && Stands(tables, f, page, idx, level, va, 1, skip)
    requires skip || KeyOf(va, level - 1) !in tables
    requires !Leaves(va, level)
    ensures Stands(tables, f, page, idx + 1, level, EndOf(va, level), 1, false)
    ensures va < EndOf(va, level)
  {
    hide Rep, EndOf, Leaves, Passed, KeyOf, Index, Span;
    InBlock(va, level);
    AlongAddress(va, level);
    forall k | k in tables
      ensures Passed(k, f) <==> Last(k) <= EndOf(va, level)
    {
      Gap(mem, tables, f, page, idx, level, va, skip, k);
    }
  }

  // Out of the root table: everything has been visited.
  lemma Over(mem: Memory, tables: map<Key, nat>, f: Front, page: nat, idx: nat, va: nat, skip: bool)
    requires Rep(mem, tables, Unpassed(tables, f)) && Stands(tables, f, page, idx, 3, va, 1, skip)
    requires skip || KeyOf(va, 2) !in tables
    requires Leaves(va, 3)
    ensures AllPassed(tables, f)
  {
    hide Rep;
    TableEnd(va, 3);
    forall k | k in tables && k.level < 3
      ensures Passed(k, f)
    {
      Gap(mem, tables, f, page, idx, 3, va, skip, k);
      PrefixBound(mem, tables, Unpassed(tables, f), k);
      assert EndOf(va, 3) == 0x1_0000_0000_0000;
    }
  }

  // Out of a lower table: that table is next, to be found from the root.
  lemma Up(mem: Memory, tables: map<Key, nat>, f: Front, page: nat, idx: nat, level: nat, va: nat, skip: bool)
    requires Rep(mem, tables, Unpassed(tables, f)) && Stands(tables, f, page, idx, level, va, 1, skip)
    requires skip || KeyOf(va, level - 1) !in tables
    requires Leaves(va, level) && level < 3
    ensures ROOT in tables
    ensures Stands(tables, f, tables[ROOT], Index(va, 3), 3, va, level + 1, false)
  {
    hide Rep;
    var t := KeyOf(va, level);
    TableEnd(va, level);
    RootLive(mem, tables, f);
    RootKey(va);
    forall j | j in tables && !Passed(j, f)
      ensures j == t || Before(t, j)
    {
      Gap(mem, tables, f, page, idx, level, va, skip, j);
      if j.level == t.level && Last(j) == Last(t) { SameLast(j, t); }
    }
  }

  lemma SameLast(j: Key, k: Key)
    requires j.level == k.level <= 3 && Last(j) == Last(k)
    ensures j == k
  {
  }

  // Down one level over untouched blocks.
  lemma Into(mem: Memory, tables: map<Key, nat>, f: Front, page: nat, idx: nat, level: nat, va: nat)
    requires Rep(mem, tables, Unpassed(tables, f)) && Stands(tables, f, page, idx, level, va, 1, false)
    requires KeyOf(va, level - 1) in tables && 1 < level
    ensures Stands(tables, f, tables[KeyOf(va, level - 1)], Index(va, level - 1), level - 1, va, 1, false)
  {
    TableEnd(va, level);
    InBlock(va, level);
    Coarser(va, level, level - 1);
  }

  // At the bottom: this table is next.
  lemma Leaf(mem: Memory, tables: map<Key, nat>, f: Front, page: nat, idx: nat, va: nat)
    requires Rep(mem, tables, Unpassed(tables, f)) && Stands(tables, f, page, idx, 1, va, 1, false)
    requires KeyOf(va, 0) in tables
    ensures IsNext(tables, f, KeyOf(va, 0))
  {
    hide Rep;
    var t := KeyOf(va, 0);
    TableEnd(va, 1);
    InBlock(va, 1);
    forall j | j in tables && !Passed(j, f)
      ensures j == t || Before(t, j)
    {
      PrefixBound(mem, tables, Unpassed(tables, f), j);
      if Last(j) <= Last(t) {
        LastMultiple(j, 0);
        NoMultipleBetween(Last(j), va, 1);
        if j.level == 0 { SameLast(j, t); }
      }
    }
  }

  // Down one level towards the chosen table; every entry on the way is there.
  lemma Towards(mem: Memory, tables: map<Key, nat>, f: Front, page: nat, idx: nat, level: nat, va: nat, stop: nat)
    requires Rep(mem, tables, Unpassed(tables, f)) && Stands(tables, f, page, idx, level, va, stop, false)
    requires stop != 1
    ensures KeyOf(va, level - 1) in tables
    ensures level > stop ==> Stands(tables, f, tables[KeyOf(va, level - 1)], Index(va, level - 1), level - 1, va, stop, false)
  {
    hide Rep;
    Ancestor(mem, tables, Unpassed(tables, f), va, stop - 1, level - 1);
  }

  // On the entry of a table, in a table page that may still be read.
  ghost predicate OnEntry(tables: map<Key, nat>, live: set<Key>, page: nat, idx: nat, level: nat, va: nat) {
    && 1 <= level <= 3 && va < 0x1_0000_0000_0000 && idx == Index(va, level)
    && KeyOf(va, level) in live && live <= tables.Keys && page == tables[KeyOf(va, level)]
    && KeyOf(va, level - 1) in tables
  }

  // The front once k is visited.
  function After(k: Key): Front { Front(Last(k), k.level + 1) }

  lemma Opening(mem: Memory, tables: map<Key, nat>)
    requires Tree(mem, tables)
    ensures ROOT in tables && Unpassed(tables, Front(0, 0)) == tables.Keys
    ensures Stands(tables, Front(0, 0), tables[ROOT], 0, 3, 0, 1, false)
  {
    RootKey(0);
    forall k | k in tables
      ensures !Passed(k, Front(0, 0)) && Last(k) > 0
    {
      assert KeyOk(mem, tables, tables.Keys, k);
    }
  }

  // The current entry can be read, and tells whether there is a table.
  lemma Standing(mem: Memory, tables: map<Key, nat>, f: Front, page: nat, idx: nat, level: nat, va: nat, stop: nat, skip: bool)
    requires Rep(mem, tables, Unpassed(tables, f)) && Stands(tables, f, page, idx, level, va, stop, skip)
    ensures 1 <= level <= 3 && va < 0x1_0000_0000_0000 && idx == Index(va, level)
    ensures page < |mem| && idx < |mem[page]|
    ensures IsTable(mem[page][idx]) <==> KeyOf(va, level - 1) in tables
    ensures IsTable(mem[page][idx]) ==> mem[page][idx].page == tables[KeyOf(va, level - 1)]
    ensures 1 <= stop <= 3 && (skip ==> stop == 1) && stop <= level
  {
    assert KeyOf(va, level) in Unpassed(tables, f);
    EntryTells(mem, tables, Unpassed(tables, f), va, level);
  }

  lemma Arrived(tables: map<Key, nat>, f: Front, page: nat, idx: nat, level: nat, va: nat)
    requires Stands(tables, f, page, idx, level, va, level, false) && KeyOf(va, level - 1) in tables
    requires level == 1 ==> IsNext(tables, f, KeyOf(va, 0))
    ensures OnEntry(tables, Unpassed(tables, f), page, idx, level, va) && IsNext(tables, f, KeyOf(va, level - 1))
  {
  }

  lemma Skipping(tables: map<Key, nat>, page: nat, idx: nat, level: nat, va: nat)
    requires level > 0
    requires OnEntry(tables, Unpassed(tables, After(KeyOf(va, level - 1))), page, idx, level, va)
    ensures Stands(tables, After(KeyOf(va, level - 1)), page, idx, level, va, 1, true)
  {
    TableEnd(va, level);
  }

  // ---- The iterator ----

  const END: nat := 0x1_0000_0000_0000

  class PtIterator {
    const ram: Ram
    const pt: nat
    var page: nat
    var idx: nat
    var level: nat
    var va: nat

    predicate Done()
      reads this
    {
      va >= END
    }

    // The table the current entry points to.
    function Cur(): Key
      reads this
    {
      KeyOf(va, if level > 0 then level - 1 else 0)
    }

    ghost predicate On(tables: map<Key, nat>, live: set<Key>)
      reads this
    {
      OnEntry(tables, live, page, idx, level, va)
    }

    // Either everything is visited, or the iterator is on the next table.
    ghost predicate Finds(tables: map<Key, nat>, f: Front)
      reads this
    {
      if Done() then AllPassed(tables, f)
      else On(tables, Unpassed(tables, f)) && IsNext(tables, f, Cur())
    }

    function Pa(): nat
      reads this, ram
      requires page < |ram.mem| && idx < |ram.mem[page]|
    {
      ram.mem[page][idx].page
    }

    constructor (r: Ram, root: nat, ghost tables: map<Key, nat>)
      requires Tree(r.mem, tables) && tables[ROOT] == root
      ensures ram == r && pt == root && Finds(tables, Front(0, 0))
    {
      ram, pt := r, root;
      page, idx, level, va := root, 0, 3, 0;
      new;
      Opening(ram.mem, tables);
      Down(false, tables, Front(0, 0));
    }

    method Down(skip0: bool, ghost tables: map<Key, nat>, ghost f: Front)
      requires Rep(ram.mem, tables, Unpassed(tables, f)) && tables[ROOT] == pt
      requires Stands(tables, f, page, idx, level, va, 1, skip0)
      modifies this
      ensures Finds(tables, f)
    {
      hide Rep, Stands, IsNext, Fresh, AllPassed, Leaves, EndOf, Unpassed, Passed, KeyOf;
      var stop: nat, skip := 1, skip0;
      while true
        invariant Stands(tables, f, page, idx, level, va, stop, skip)
        decreases if stop == 1 then 1 else 0, END - va, level
      {
        Standing(ram.mem, tables, f, page, idx, level, va, stop, skip);
        if IsTable(ram.mem[page][idx]) && !skip {
          if stop != 1 { Towards(ram.mem, tables, f, page, idx, level, va, stop); }
          if level == stop {
            if stop == 1 { Leaf(ram.mem, tables, f, page, idx, va); }
            Arrived(tables, f, page, idx, level, va);
            break;
          }
          if stop == 1 { Into(ram.mem, tables, f, page, idx, level, va); }
          page, level := ram.mem[page][idx].page, level - 1;
          idx := Index(va, level);
        } else {
          if stop != 1 { Towards(ram.mem, tables, f, page, idx, level, va, stop); }
          if Leaves(va, level) {
            if level == 3 {
              Over(ram.mem, tables, f, page, idx, va, skip);
              va := END;
              return;
            }
            Up(ram.mem, tables, f, page, idx, level, va, skip);
            stop, level, page := level + 1, 3, pt;
            idx := Index(va, level);
          } else {
            Along(ram.mem, tables, f, page, idx, level, va, skip);
            idx, va := idx + 1, EndOf(va, level);
          }
          skip := false;
        }
      }
    }

    method Next(ghost tables: map<Key, nat>)
      requires !Done() && On(tables, Unpassed(tables, After(Cur())))
      requires Rep(ram.mem, tables, Unpassed(tables, After(Cur()))) && tables[ROOT] == pt
      modifies this
      ensures Finds(tables, old(After(Cur())))
    {
      Skipping(tables, page, idx, level, va);
      Down(true, tables, After(Cur()));
    }
  }

  // ---- Freeing the tables while walking over them ----

  lemma PassedNow(tables: map<Key, nat>, f: Front, t: Key, k: Key)
    requires IsNext(tables, f, t) && k in tables
    ensures Passed(k, After(t)) <==> Passed(k, f) || k == t
  {
  }

  lemma Nodes(mem: Memory, mem': Memory, tables: map<Key, nat>, live: set<Key>, live': set<Key>, t: Key)
    requires Rep(mem, tables, live) && MemOk(mem') && |mem'| == |mem| && t in live && t != ROOT
    requires live' == live - {t}
    requires forall k | k in live' :: Parent(k) != t && tables[k] < |mem| && mem'[tables[k]] == mem[tables[k]]
    ensures Rep(mem', tables, live')
  {
    forall k | k in tables
      ensures KeyOk(mem', tables, live', k)
    {
      assert KeyOk(mem, tables, live, k);
    }
    forall k, i: nat | k in live' && k.level > 0 && i < 512
      ensures EntryRep(mem', tables, k, i)
    {
      assert EntryRep(mem, tables, k, i);
    }
  }

  // Once the next table is visited its page may be cleared.
  lemma Visited(mem: Memory, tables: map<Key, nat>, f: Front, t: Key)
    requires Rep(mem, tables, Unpassed(tables, f)) && IsNext(tables, f, t)
    ensures tables[t] < |mem| && Unpassed(tables, After(t)) == Unpassed(tables, f) - {t}
    ensures Rep(mem[tables[t] := EmptyTable()], tables, Unpassed(tables, After(t)))
  {
    var live, live' := Unpassed(tables, f), Unpassed(tables, After(t));
    forall k | k in tables
      ensures k in live' <==> k in live && k != t
    {
      PassedNow(tables, f, t, k);
    }
    assert KeyOk(mem, tables, live, t);
    forall k | k in live'
      ensures Parent(k) != t && tables[k] < |mem| && tables[k] != tables[t]
    {
      assert KeyOk(mem, tables, live, k);
      if k.level < 3 { ParentCovers(k); }
    }
    Nodes(mem, mem[tables[t] := EmptyTable()], tables, live, live', t);
  }

  // Children come before their parents in the order of the walk.
  lemma ParentLater(k: Key)
    requires k.level < 3
    ensures Before(k, Parent(k))
  {
    ParentCovers(k);
  }

  // What has been visited and freed so far.
  ghost predicate Progress(tables: map<Key, nat>, f: Front, visited: seq<Key>, freed: seq<nat>) {
    && |freed| == |visited|
    && (forall i | 0 <= i < |visited| :: visited[i] in tables && visited[i].level < 3 && freed[i] == tables[visited[i]])
    && (forall i, j | 0 <= i < j < |visited| :: Before(visited[i], visited[j]))
    && (forall k | k in tables && k.level < 3 :: Passed(k, f) <==> k in visited)
  }

  lemma ProgressStep(tables: map<Key, nat>, f: Front, visited: seq<Key>, freed: seq<nat>, t: Key)
    requires Progress(tables, f, visited, freed) && IsNext(tables, f, t)
    ensures Progress(tables, After(t), visited + [t], freed + [tables[t]])
  {
    forall k | k in tables && k.level < 3
      ensures Passed(k, After(t)) <==> k in visited + [t]
    {
      PassedNow(tables, f, t, k);
    }
    forall i | 0 <= i < |visited|
      ensures Before(visited[i], t)
    {
      assert visited[i] in visited;
    }
  }

  // Memory with the pages in `freed` cleared.
  ghost predicate Cleared(before: Memory, after: Memory, freed: seq<nat>) {
    && |after| == |before|
    && forall p | 0 <= p < |before| :: after[p] == if p in freed then EmptyTable() else before[p]
  }

  // Each table once, in the order of the walk, and its page with it.
  ghost predicate Complete(tables: map<Key, nat>, visited: seq<Key>, freed: seq<nat>) {
    && |freed| == |visited|
    && (forall i | 0 <= i < |visited| :: visited[i] in tables && freed[i] == tables[visited[i]])
    && (forall i, j | 0 <= i < j < |visited| :: Before(visited[i], visited[j]) && freed[i] != freed[j])
    && (forall k | k in tables :: k in visited && tables[k] in freed)
  }

  // A table's page is freed before its parent's.
  lemma ChildrenFirst(tables: map<Key, nat>, visited: seq<Key>, freed: seq<nat>, i: nat, j: nat)
    requires Complete(tables, visited, freed) && i < |visited| && j < |visited|
    requires visited[i].level < 3 && visited[j] == Parent(visited[i])
    ensures i < j
  {
    ParentLater(visited[i]);
  }

  lemma ClearOne(before: Memory, after: Memory, freed: seq<nat>, p: nat)
    requires Cleared(before, after, freed) && p < |after|
    ensures Cleared(before, after[p := EmptyTable()], freed + [p])
  {
  }

  // Every table page is freed exactly once, below before above and the root
  // last, although freeing a page clears it while the walk goes on.
  method FreeTables(ram: Ram, root: nat, ghost tables: map<Key, nat>) returns (freed: seq<nat>, ghost visited: seq<Key>)
    requires Tree(ram.mem, tables) && ROOT in tables && tables[ROOT] == root
    modifies ram
    ensures Complete(tables, visited, freed)
    ensures Cleared(old(ram.mem), ram.mem, freed)
  {
    hide Rep, Unpassed, IsNext, Passed, Before, Progress, Complete, Cleared;
    ghost var f := Front(0, 0);
    Opening(ram.mem, tables);
    freed, visited := [], [];
    var it := new PtIterator(ram, root, tables);
    StartOut(tables, ram.mem);
    while !it.Done()
      invariant it.ram == ram && it.pt == root && fresh(it)
      invariant Rep(ram.mem, tables, Unpassed(tables, f)) && it.Finds(tables, f)
      invariant Progress(tables, f, visited, freed)
      invariant Cleared(old(ram.mem), ram.mem, freed)
      decreases Unpassed(tables, f)
    {
      ghost var t := it.Cur();
      Visited(ram.mem, tables, f, t);
      ProgressStep(tables, f, visited, freed, t);
      Reading(ram.mem, tables, f, it.page, it.idx, it.level, it.va);
      var p := it.Pa();
      ClearOne(old(ram.mem), ram.mem, freed, p);
      freed, visited := freed + [p], visited + [t];
      ram.mem := ram.mem[p := EmptyTable()];
      it.Next(tables);
      f := After(t);
    }
    Finished(ram.mem, tables, f, visited, freed);
    ClearOne(old(ram.mem), ram.mem, freed, root);
    freed, visited := freed + [root], visited + [ROOT];
    ram.mem := ram.mem[root := EmptyTable()];
  }

  lemma StartOut(tables: map<Key, nat>, mem: Memory)
    ensures Progress(tables, Front(0, 0), [], []) && Cleared(mem, mem, [])
  {
  }

  lemma Reading(mem: Memory, tables: map<Key, nat>, f: Front, page: nat, idx: nat, level: nat, va: nat)
    requires Rep(mem, tables, Unpassed(tables, f)) && OnEntry(tables, Unpassed(tables, f), page, idx, level, va)
    requires IsNext(tables, f, KeyOf(va, level - 1))
    ensures page < |mem| && idx < |mem[page]| && mem[page][idx].page == tables[KeyOf(va, level - 1)]
    ensures KeyOf(va, level - 1) in Unpassed(tables, f)
    ensures OnEntry(tables, Unpassed(tables, After(KeyOf(va, level - 1))), page, idx, level, va)
  {
    EntryTells(mem, tables, Unpassed(tables, f), va, level);
    PassedNow(tables, f, KeyOf(va, level - 1), KeyOf(va, level));
  }

  lemma RootAfter(mem: Memory, tables: map<Key, nat>, live: set<Key>, k: Key)
    requires Rep(mem, tables, live) && k in tables
    ensures ROOT in tables && tables[k] < |mem| && (k.level < 3 ==> Before(k, ROOT)) && (k.level >= 3 ==> k == ROOT)
  {
    assert KeyOk(mem, tables, live, k);
    PrefixBound(mem, tables, live, k);
  }

  lemma Finished(mem: Memory, tables: map<Key, nat>, f: Front, visited: seq<Key>, freed: seq<nat>)
    requires Rep(mem, tables, Unpassed(tables, f)) && Progress(tables, f, visited, freed) && AllPassed(tables, f)
    ensures ROOT in tables && tables[ROOT] < |mem|
    ensures Complete(tables, visited + [ROOT], freed + [tables[ROOT]])
  {
    hide Before, Passed, Rep;
    RootLive(mem, tables, f);
    var all, pages := visited + [ROOT], freed + [tables[ROOT]];
    RootAfter(mem, tables, Unpassed(tables, f), ROOT);
    forall k | k in tables
      ensures k in all && tables[k] in pages
    {
      RootAfter(mem, tables, Unpassed(tables, f), k);
      FreedToo(tables, visited, freed, k);
    }
    RootLast(mem, tables, Unpassed(tables, f), visited);
    PagesDiffer(mem, tables, Unpassed(tables, f), all, pages);
  }

  lemma RootLast(mem: Memory, tables: map<Key, nat>, live: set<Key>, visited: seq<Key>)
    requires Rep(mem, tables, live)
    requires forall i | 0 <= i < |visited| :: visited[i] in tables && visited[i].level < 3
    requires forall i, j | 0 <= i < j < |visited| :: Before(visited[i], visited[j])
    ensures forall i, j | 0 <= i < j <= |visited| :: Before((visited + [ROOT])[i], (visited + [ROOT])[j])
  {
    hide Before, Rep;
    forall i | 0 <= i < |visited|
      ensures Before(visited[i], ROOT)
    {
      RootAfter(mem, tables, live, visited[i]);
    }
  }

  lemma PagesDiffer(mem: Memory, tables: map<Key, nat>, live: set<Key>, all: seq<Key>, pages: seq<nat>)
    requires Rep(mem, tables, live) && |pages| == |all|
    requires forall i | 0 <= i < |all| :: all[i] in tables && pages[i] == tables[all[i]]
    requires forall i, j | 0 <= i < j < |all| :: Before(all[i], all[j])
    ensures forall i, j | 0 <= i < j < |all| :: pages[i] != pages[j]
  {
    hide Before;
    forall i, j | 0 <= i < j < |all|
      ensures pages[i] != pages[j]
    {
      Irreflexive(all[i], all[j]);
    }
  }

  lemma FreedToo(tables: map<Key, nat>, visited: seq<Key>, freed: seq<nat>, k: Key)
    requires |freed| == |visited| && k in tables
    requires forall i | 0 <= i < |visited| :: visited[i] in tables && freed[i] == tables[visited[i]]
    ensures k in visited ==> tables[k] in freed
  {
  }

  lemma Irreflexive(j: Key, k: Key)
    ensures Before(j, k) ==> j != k
  {
  }
}
