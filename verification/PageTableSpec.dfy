// x86-64 page tables in physical memory, four levels of 512 entries, and the
// walk the hardware makes (Intel SDM volume 3A, sections 4.5 and 4.6).

module PageTableSpec {
  // A page-table entry: its address bits as a page number, and its low bits.
  datatype Entry = Entry(page: nat, flags: bv12)

  // Physical memory seen as page-table pages.
  type Memory = seq<seq<Entry>>

  const ZERO: Entry := Entry(0, 0)

  const INITIAL_PERM: bv12 := 0xFFF

  predicate Present(e: Entry) { e.flags & 1 == 1 }

  // Present and not a large page: points to a page-table page.
  predicate IsTable(e: Entry) { e.flags & 0x81 == 1 }

  // pageoffmask(level) + 1
  function Span(level: nat): (s: nat)
    ensures s > 0
  {
    match level
    case 0 => 0x1000
    case 1 => 0x20_0000
    case 2 => 0x4000_0000
    case 3 => 0x80_0000_0000
    case _ => 0x1_0000_0000_0000
  }

  // pageindex(va, level)
  function Index(va: nat, level: nat): nat { va / Span(level) % 512 }

  // The addresses that share all table pages above and including `level`.
  function Prefix(va: nat, level: nat): nat { va % 0x1_0000_0000_0000 / Span(level + 1) }

  predicate Canonical(va: nat) { va < 0x8000_0000_0000 || 0xFFFF_8000_0000_0000 <= va }

  ghost predicate MemOk(mem: Memory) {
    && (forall p | 0 <= p < |mem| :: |mem[p]| == 512)
    && (forall p, i | 0 <= p < |mem| && 0 <= i < 512 && IsTable(mem[p][i]) :: mem[p][i].page < |mem|)
  }

  // Where a walk stops: an entry, its level and the rights gathered above it.
  datatype Pos = Pos(page: nat, idx: nat, level: nat, perm: bv12)

  function Narrow(perm: bv12, e: Entry): bv12 { perm & (e.flags | 0xFF8) }

  function WalkFrom(mem: Memory, page: nat, level: nat, perm: bv12, va: nat): (r: Pos)
    requires MemOk(mem) && page < |mem| && level <= 3
    ensures r.page < |mem| && r.idx == Index(va, r.level) && r.level <= level
    decreases level
  {
    var e := mem[page][Index(va, level)];
    if level > 0 && IsTable(e) then WalkFrom(mem, e.page, level - 1, Narrow(perm, e), va)
    else Pos(page, Index(va, level), level, perm)
  }

  function Walk(mem: Memory, root: nat, va: nat): Pos
    requires MemOk(mem) && root < |mem|
  {
    WalkFrom(mem, root, 3, INITIAL_PERM, va)
  }

  // The table page and rights a walk has at `level`, if it gets there.
  datatype Reach = Nowhere | At(page: nat, perm: bv12)

  function TableAt(mem: Memory, root: nat, va: nat, level: nat): (r: Reach)
    requires MemOk(mem) && root < |mem| && level <= 3
    ensures r.At? ==> r.page < |mem|
    decreases 3 - level
  {
    if level == 3 then At(root, INITIAL_PERM)
    else
      match TableAt(mem, root, va, level + 1)
      case Nowhere => Nowhere
      case At(page, perm) =>
        var e := mem[page][Index(va, level + 1)];
        if IsTable(e) then At(e.page, Narrow(perm, e)) else Nowhere
  }

  // ---- Address arithmetic ----

  lemma DivIs(a: nat, c: nat, q: nat, r: nat)
    requires r < c && a == c * q + r
    ensures a / c == q
  {
    var p := a / c;
    assert a == c * p + a % c;
    if p < q {
      MulGap(c, p, q);
    } else if q < p {
      MulGap(c, q, p);
    }
  }

  lemma {:induction false} MulGap(c: nat, p: nat, q: nat)
    requires p < q
    ensures c * p + c <= c * q
  {
    if p + 1 < q {
      MulGap(c, p, q - 1);
    }
  }

  lemma SamePrefixUp(a: nat, b: nat, level: nat)
    requires level <= 2 && a / Span(level + 1) == b / Span(level + 1)
    ensures a / Span(level + 2) == b / Span(level + 2)
    ensures Index(a, level + 1) == Index(b, level + 1)
  {
    SpanStep(a, level + 1);
    SpanStep(b, level + 1);
  }

  lemma SpanStep(a: nat, level: nat)
    requires level <= 3
    ensures a / Span(level + 1) == a / Span(level) / 512
  {
  }

  lemma SameHalf(a: nat, b: nat)
    requires a / Span(3) == b / Span(3)
    ensures Canonical(a) <==> Canonical(b)
  {
  }

  // ---- The walk may be picked up at any level ----

  // A table page on the way is a function of the address above its level.
  lemma {:induction false} TableAtSame(mem: Memory, root: nat, a: nat, b: nat, level: nat)
    requires MemOk(mem) && root < |mem| && level <= 3
    requires level < 3 ==> a / Span(level + 1) == b / Span(level + 1)
    ensures TableAt(mem, root, a, level) == TableAt(mem, root, b, level)
    decreases 3 - level
  {
    if level < 3 {
      SamePrefixUp(a, b, level);
      TableAtSame(mem, root, a, b, level + 1);
    }
  }

  lemma {:induction false} WalkContinues(mem: Memory, root: nat, va: nat, level: nat)
    requires MemOk(mem) && root < |mem| && level <= 3 && TableAt(mem, root, va, level).At?
    ensures var t := TableAt(mem, root, va, level);
            Walk(mem, root, va) == WalkFrom(mem, t.page, level, t.perm, va)
    decreases 3 - level
  {
    if level < 3 {
      WalkContinues(mem, root, va, level + 1);
    }
  }

  lemma {:induction false} WalkEndsOnPath(mem: Memory, root: nat, va: nat, page: nat, level: nat, perm: bv12)
    requires MemOk(mem) && root < |mem| && level <= 3 && TableAt(mem, root, va, level) == At(page, perm)
    ensures var w := WalkFrom(mem, page, level, perm, va);
            TableAt(mem, root, va, w.level) == At(w.page, w.perm)
    decreases level
  {
    var e := mem[page][Index(va, level)];
    if level > 0 && IsTable(e) {
      WalkEndsOnPath(mem, root, va, e.page, level - 1, Narrow(perm, e));
    }
  }

  // ---- Access rights ----

  // Every entry of the walk has the bit: section 4.6's rule for W and U.
  predicate AllHave(mem: Memory, page: nat, level: nat, va: nat, bit: bv12)
    requires MemOk(mem) && page < |mem| && level <= 3
    decreases level
  {
    var e := mem[page][Index(va, level)];
    e.flags & bit != 0 && (level > 0 && IsTable(e) ==> AllHave(mem, e.page, level - 1, va, bit))
  }

  lemma NarrowBit(perm: bv12, e: Entry, bit: bv12)
    requires bit in {1, 2, 4}
    ensures Narrow(perm, e) & bit != 0 <==> perm & bit != 0 && e.flags & bit != 0
  {
  }

  lemma AndBit(x: bv12, y: bv12, bit: bv12)
    requires bit in {1, 2, 4}
    ensures x & y & bit != 0 <==> x & bit != 0 && y & bit != 0
  {
  }

  // The rights gathered incrementally are those of all entries together.
  lemma {:induction false} GatheredRights(mem: Memory, page: nat, level: nat, perm: bv12, va: nat, bit: bv12)
    requires MemOk(mem) && page < |mem| && level <= 3 && bit in {1, 2, 4}
    ensures var w := WalkFrom(mem, page, level, perm, va);
            mem[w.page][w.idx].flags & w.perm & bit != 0 <==> perm & bit != 0 && AllHave(mem, page, level, va, bit)
    decreases level
  {
    hide IsTable, Narrow;
    var e := mem[page][Index(va, level)];
    NarrowBit(perm, e, bit);
    AndBit(e.flags, perm, bit);
    if level > 0 && IsTable(e) {
      GatheredRights(mem, e.page, level - 1, Narrow(perm, e), va, bit);
    }
  }

  // ---- What an address means ----

  datatype Translation = Unmapped | Mapped(pa: nat, perm: bv12)

  // vmiter's pa() and perm() for an entry at `level`.
  function Meaning(e: Entry, level: nat, perm: bv12, va: nat): Translation {
    if e.flags & perm & 1 == 0 then Unmapped
    else
      var page := if level > 0 then e.page - e.page % 2 else e.page;
      Mapped(page * 4096 + va % Span(level), e.flags & perm)
  }

  function Translate(mem: Memory, root: nat, va: nat): Translation
    requires MemOk(mem) && root < |mem|
  {
    if !Canonical(va) then Unmapped
    else
      var w := Walk(mem, root, va);
      Meaning(mem[w.page][w.idx], w.level, w.perm, va)
  }

  // All addresses of the block an entry covers are reached through it.
  lemma BlockSharesEntry(mem: Memory, root: nat, a: nat, b: nat)
    requires MemOk(mem) && root < |mem|
    requires var w := Walk(mem, root, a); a / Span(w.level) == b / Span(w.level)
    ensures Walk(mem, root, b) == Walk(mem, root, a)
  {
    var w := Walk(mem, root, a);
    WalkEndsOnPath(mem, root, a, root, 3, INITIAL_PERM);
    SpanStep(a, w.level);
    SpanStep(b, w.level);
    TableAtSame(mem, root, a, b, w.level);
    WalkContinues(mem, root, b, w.level);
    WalkContinues(mem, root, a, w.level);
  }

  // ---- The same in the bits and numbers of the manual ----

  // Bit 0 is P; bit 7 is PS, the mark of a large page.
  lemma EntryBits(e: Entry)
    ensures Present(e) <==> e.flags & 1 != 0
    ensures IsTable(e) <==> e.flags & 1 != 0 && e.flags & 0x80 == 0
  {
  }

  // Bits 47 to 63 are all alike.
  lemma CanonicalIs(va: nat)
    requires va < 0x1_0000_0000_0000_0000
    ensures Canonical(va) <==> va / 0x8000_0000_0000 == 0 || va / 0x8000_0000_0000 == 0x1_FFFF
  {
  }

  // Nine bits of the address for each level, from bit 12, 21, 30 and 39 on.
  lemma IndexBits(va: nat)
    ensures Index(va, 0) == va / 0x1000 % 512 && Index(va, 1) == va / 0x20_0000 % 512
    ensures Index(va, 2) == va / 0x4000_0000 % 512 && Index(va, 3) == va / 0x80_0000_0000 % 512
  {
  }

  // Entry e of table page p is reached, and points to a table.
  ghost predicate PointsOn(mem: Memory, p: nat, i: nat, e: Entry) {
    && p < |mem| && i < |mem[p]| && e == mem[p][i]
    && e.flags & 1 != 0 && e.flags & 0x80 == 0 && e.page < |mem|
  }

  // Four tables deep: the page of the last entry, with a right exactly when
  // all four entries grant it.
  lemma FourLevels(mem: Memory, root: nat, va: nat, e3: Entry, e2: Entry, e1: Entry, e0: Entry, bit: bv12)
    requires MemOk(mem) && root < |mem| && va < 0x8000_0000_0000 && bit in {1, 2, 4}
    requires PointsOn(mem, root, va / 0x80_0000_0000 % 512, e3)
    requires PointsOn(mem, e3.page, va / 0x4000_0000 % 512, e2)
    requires PointsOn(mem, e2.page, va / 0x20_0000 % 512, e1)
    requires e0 == mem[e1.page][va / 0x1000 % 512]
    ensures if e0.flags & 1 == 0 then Translate(mem, root, va) == Unmapped
            else
              && Translate(mem, root, va).Mapped? && Translate(mem, root, va).pa == 4096 * e0.page + va % 4096
              && (Translate(mem, root, va).perm & bit != 0 <==>
                    e3.flags & bit != 0 && e2.flags & bit != 0 && e1.flags & bit != 0 && e0.flags & bit != 0)
  {
    hide Narrow, IsTable, Walk;
    WalkFour(mem, root, va, e3, e2, e1);
    RightBit(e3, e2, e1, e0, bit);
    RightBit(e3, e2, e1, e0, 1);
  }

  lemma WalkFour(mem: Memory, root: nat, va: nat, e3: Entry, e2: Entry, e1: Entry)
    requires MemOk(mem) && root < |mem|
    requires PointsOn(mem, root, va / 0x80_0000_0000 % 512, e3)
    requires PointsOn(mem, e3.page, va / 0x4000_0000 % 512, e2)
    requires PointsOn(mem, e2.page, va / 0x20_0000 % 512, e1)
    ensures Walk(mem, root, va) ==
            Pos(e1.page, va / 0x1000 % 512, 0, Narrow(Narrow(Narrow(INITIAL_PERM, e3), e2), e1))
  {
    hide IsTable, Narrow, Index;
    EntryBits(e3);
    EntryBits(e2);
    EntryBits(e1);
    IndexBits(va);
    var p2, p1 := Narrow(INITIAL_PERM, e3), Narrow(Narrow(INITIAL_PERM, e3), e2);
    assert WalkFrom(mem, e2.page, 1, p1, va) == WalkFrom(mem, e1.page, 0, Narrow(p1, e1), va);
    assert WalkFrom(mem, e3.page, 2, p2, va) == WalkFrom(mem, e2.page, 1, p1, va);
  }

  lemma RightBit(e3: Entry, e2: Entry, e1: Entry, e0: Entry, bit: bv12)
    requires bit in {1, 2, 4}
    ensures e0.flags & Narrow(Narrow(Narrow(INITIAL_PERM, e3), e2), e1) & bit != 0 <==>
              e3.flags & bit != 0 && e2.flags & bit != 0 && e1.flags & bit != 0 && e0.flags & bit != 0
  {
    hide Narrow;
    NarrowBit(INITIAL_PERM, e3, bit);
    NarrowBit(Narrow(INITIAL_PERM, e3), e2, bit);
    NarrowBit(Narrow(Narrow(INITIAL_PERM, e3), e2), e1, bit);
    AndBit(e0.flags, Narrow(Narrow(Narrow(INITIAL_PERM, e3), e2), e1), bit);
  }

  // A present entry with PS set in a table of level 1 maps 2 MiB; bit 12 of
  // its address is no address bit there.
  lemma LargePage(mem: Memory, root: nat, va: nat, e3: Entry, e2: Entry, e1: Entry)
    requires MemOk(mem) && root < |mem| && va < 0x8000_0000_0000
    requires PointsOn(mem, root, va / 0x80_0000_0000 % 512, e3)
    requires PointsOn(mem, e3.page, va / 0x4000_0000 % 512, e2)
    requires e1 == mem[e2.page][va / 0x20_0000 % 512]
    requires e1.flags & 1 != 0 && e1.flags & 0x80 != 0 && e1.page % 512 <= 1
    ensures Translate(mem, root, va).Mapped? && Translate(mem, root, va).pa == 0x20_0000 * (e1.page / 512) + va % 0x20_0000
  {
    hide Narrow, IsTable, Walk, Meaning;
    var p2 := Narrow(INITIAL_PERM, e3);
    WalkThree(mem, root, va, e3, e2, e1);
    NarrowBit(INITIAL_PERM, e3, 1);
    NarrowBit(p2, e2, 1);
    LargeMeaning(e1, Narrow(p2, e2), va);
  }

  lemma LargeMeaning(e: Entry, perm: bv12, va: nat)
    requires e.flags & 1 != 0 && perm & 1 != 0 && e.page % 512 <= 1
    ensures Meaning(e, 1, perm, va) == Mapped(0x20_0000 * (e.page / 512) + va % 0x20_0000, e.flags & perm)
  {
    AndBit(e.flags, perm, 1);
    LowBit(e.page);
  }

  lemma LowBit(p: nat)
    requires p % 512 <= 1
    ensures p - p % 2 == 512 * (p / 512)
  {
    var q, r := p / 512, p % 512;
    assert p == 2 * (256 * q) + r;
    DivIs(p, 2, 256 * q, r);
  }

  lemma WalkThree(mem: Memory, root: nat, va: nat, e3: Entry, e2: Entry, e1: Entry)
    requires MemOk(mem) && root < |mem|
    requires PointsOn(mem, root, va / 0x80_0000_0000 % 512, e3)
    requires PointsOn(mem, e3.page, va / 0x4000_0000 % 512, e2)
    requires e1 == mem[e2.page][va / 0x20_0000 % 512] && e1.flags & 0x80 != 0
    ensures Walk(mem, root, va) == Pos(e2.page, va / 0x20_0000 % 512, 1, Narrow(Narrow(INITIAL_PERM, e3), e2))
  {
    hide IsTable, Narrow, Index;
    EntryBits(e3);
    EntryBits(e2);
    EntryBits(e1);
    IndexBits(va);
    var p2 := Narrow(INITIAL_PERM, e3);
    assert WalkFrom(mem, e3.page, 2, p2, va) == WalkFrom(mem, e2.page, 1, Narrow(p2, e2), va);
  }
}
