// find_free_vmemory: the search for a run of unmapped virtual pages.

module FreeRange {
  import opened KernelSpec

  predicate Window(keys: set<Slot>, p: nat, a: nat, n: nat) {
    256 <= a && a + n <= 768 && forall i: nat | a <= i < a + n :: Slot(p, i) !in keys
  }

  // When the search can be trusted: some window exists, or the top page is
  // mapped so that no run is cut short by the end of memory.
  predicate Trusted(keys: set<Slot>, p: nat, n: nat) {
    Slot(p, 767) in keys || exists a: nat | a < 768 :: Window(keys, p, a, n)
  }

  // The loop of find_free_vmemory from page v on: `run` unmapped pages have
  // just been seen, from page `addr` on.
  function Scan(keys: set<Slot>, p: nat, n: nat, v: nat, run: nat, addr: nat): nat
    decreases 768 - v
  {
    if v >= 768 then addr
    else if Slot(p, v) in keys then Scan(keys, p, n, v + 1, 0, 0)
    else
      var addr' := if run == 0 then v else addr;
      if run + 1 == n then addr' else Scan(keys, p, n, v + 1, run + 1, addr')
  }

  function FindFree(keys: set<Slot>, p: nat, n: nat): nat { Scan(keys, p, n, 256, 0, 0) }

  // The loop has the `run` pages before v, and no window starts earlier.
  ghost predicate Scanned(keys: set<Slot>, p: nat, n: nat, v: nat, run: nat, addr: nat) {
    && 256 <= v <= 768 && run < n && 256 + run <= v
    && addr == (if run == 0 then 0 else v - run)
    && (forall i: nat | v - run <= i < v :: Slot(p, i) !in keys)
    && (v - run == 256 || (run < v - 256 && Slot(p, v - run - 1) in keys))
    && (forall a: nat | a < v - run :: !Window(keys, p, a, n))
  }

  // The search finds the lowest window; without one it returns the start of
  // the unmapped run at the very top, or 0 when the top page is mapped.
  lemma {:induction false} ScanFinds(keys: set<Slot>, p: nat, n: nat, v: nat, run: nat, addr: nat)
    requires Scanned(keys, p, n, v, run, addr)
    ensures var r := Scan(keys, p, n, v, run, addr);
            if exists a :: Window(keys, p, a, n)
            then Window(keys, p, r, n) && forall a: nat | a < r :: !Window(keys, p, a, n)
            else r == 0 <==> Slot(p, 767) in keys
    decreases 768 - v
  {
    if v >= 768 {
      forall a: nat
        ensures !Window(keys, p, a, n)
      {
      }
    } else if Slot(p, v) in keys {
      MappedStops(keys, p, n, v, run);
      ScanFinds(keys, p, n, v + 1, 0, 0);
    } else if run + 1 == n {
      assert Window(keys, p, v - run, n);
    } else {
      ScanFinds(keys, p, n, v + 1, run + 1, if run == 0 then v else addr);
    }
  }

  lemma MappedStops(keys: set<Slot>, p: nat, n: nat, v: nat, run: nat)
    requires 256 <= v < 768 && run < n && run <= v && Slot(p, v) in keys
    requires forall a: nat | a < v - run :: !Window(keys, p, a, n)
    ensures forall a: nat | a < v + 1 :: !Window(keys, p, a, n)
  {
    forall a: nat | a < v + 1
      ensures !Window(keys, p, a, n)
    {
      if a >= v - run {
        assert a <= v < a + n;
      }
    }
  }

  // find_free_vmemory as its caller uses it: 0 for none, else the lowest
  // window. It does that if and only if there is a window or the top page is
  // mapped; a process that unmapped its stack page can get a short run.
  lemma FindFreeRightIff(keys: set<Slot>, p: nat, n: nat)
    requires n > 0
    ensures var r := FindFree(keys, p, n);
            (if exists a :: Window(keys, p, a, n)
             then Window(keys, p, r, n) && forall a: nat | a < r :: !Window(keys, p, a, n)
             else r == 0)
            <==> Trusted(keys, p, n)
  {
    ScanFinds(keys, p, n, 256, 0, 0);
  }

  // A process that has its code page mapped and has given up its stack page:
  // 512 pages do not fit, and yet a page is returned.
  lemma ShortRun()
    ensures var keys := {Slot(1, 256)};
            && !(exists a :: Window(keys, 1, a, 512))
            && FindFree(keys, 1, 512) != 0
  {
    var keys := {Slot(1, 256)};
    forall a
      ensures !Window(keys, 1, a, 512)
    {
      OnlyWindow(keys, 1, a);
    }
    FindFreeRightIff(keys, 1, 512);
  }

  // Only one run of pages is that long.
  lemma OnlyWindow(keys: set<Slot>, p: nat, a: nat)
    requires Slot(p, 256) in keys
    ensures !Window(keys, p, a, 512)
  {
  }
}
