/** Guard-page memory breakpoints: the region walk of SetMemoryBreakpoint, its undoing, and re-arming. */
module VehMemory {
  import opened VehTables

  const PAGE_SIZE: nat := 0x1000
  const MAX_GUARD_PAGES: nat := 128
  const ADDRESS_SPACE: nat := 0x1_0000_0000_0000_0000

  function PageStart(p: nat): Address { p * 0x1000 }

  /** A page protection: the access constant and its three modifier bits. */
  datatype Protection = Protection(access: nat, guarded: bool, noCache: bool, writeCombine: bool)

  const FREE: nat := 0
  const PAGE_NOACCESS: nat := 1

  /** `tag` stands for the attributes (state, type, allocation) that also split regions;
      `protectable` says whether VirtualProtect succeeds on the region. */
  datatype Page = Page(protect: Protection, tag: nat, protectable: bool)

  /** A recorded region: `count` pages from page number `base`. */
  datatype Region = Region(base: nat, count: nat, originalProtect: Protection)

  datatype MemoryBreakpoint = MemoryBreakpoint(
    id: BreakpointId, access: nat, address: Address, size: nat, enabled: bool, regions: seq<Region>)

  const NO_MEMORY: MemoryBreakpoint := MemoryBreakpoint(0, 0, 0, 0, false, [])

  function MemoryDisabled(): MemoryBreakpoint -> bool {
    (b: MemoryBreakpoint) => !b.enabled
  }

  function MemoryWithId(id: BreakpointId): MemoryBreakpoint -> bool {
    (b: MemoryBreakpoint) => b.enabled && b.id == id
  }

  /** FindMemoryBreakpointByFault. Accesses are bit sets over read 1, write 2 and execute 4. */
  function MemoryHit(fault: Address, access: nat): MemoryBreakpoint -> bool {
    (b: MemoryBreakpoint) =>
      b.enabled && b.address <= fault < (b.address + b.size) % ADDRESS_SPACE && SharesBit(b.access, access)
  }

  predicate SharesBit(x: nat, y: nat) {
    exists bit | bit in {1, 2, 4} :: (x / bit) % 2 == 1 && (y / bit) % 2 == 1
  }

  predicate Covers(r: Region, q: nat) {
    r.base <= q < r.base + r.count
  }

  predicate Guardable(page: Page) {
    page.protect.access != PAGE_NOACCESS && page.protect.access != FREE && page.protectable
  }

  function WithGuard(p: Protection): Protection { p.(guarded := true) }

  function WithoutGuard(p: Protection): Protection { p.(guarded := false) }

  /** VirtualQuery: the maximal run of pages with equal attributes that starts at `p`. */
  function RunLength(pages: seq<Page>, p: nat): (n: nat)
    requires p < |pages|
    ensures 1 <= n <= |pages| - p
    ensures forall q :: p <= q < p + n ==> pages[q] == pages[p]
    ensures p + n < |pages| ==> pages[p + n] != pages[p]
    decreases |pages| - p
  {
    if p + 1 < |pages| && pages[p + 1] == pages[p] then 1 + RunLength(pages, p + 1) else 1
  }

  /** VirtualProtect on a run of pages. */
  function Protect(pages: seq<Page>, base: nat, count: nat, protect: Protection): (out: seq<Page>)
    ensures |out| == |pages|
  {
    seq(|pages|, q requires 0 <= q < |pages| =>
      if base <= q < base + count then pages[q].(protect := protect) else pages[q])
  }

  /** The loop of SetMemoryBreakpoint from page number `p` with `count` regions already recorded:
      the pages afterwards and the further regions recorded. */
  function Walk(pages: seq<Page>, p: nat, end: nat, count: nat): (r: (seq<Page>, seq<Region>))
    ensures |r.0| == |pages|
    decreases |pages| - p
  {
    if PageStart(p) < end && count < MAX_GUARD_PAGES && p < |pages| then
      var n := RunLength(pages, p);
      if Guardable(pages[p]) then
        var region := Region(p, n, WithoutGuard(pages[p].protect));
        var (out, rest) := Walk(Protect(pages, p, n, WithGuard(pages[p].protect)), p + n, end, count + 1);
        (out, [region] + rest)
      else
        Walk(pages, p + n, end, count)
    else (pages, [])
  }

  /** RestoreMemoryBreakpoint: the recorded protections are put back, region by region. */
  function Restore(pages: seq<Page>, regions: seq<Region>): (out: seq<Page>)
    ensures |out| == |pages|
    decreases |regions|
  {
    if regions == [] then pages
    else
      var r := regions[0];
      Restore(Protect(pages, r.base, r.count, r.originalProtect), regions[1..])
  }

  /** The inner loop of RearmMemoryBreakpoints. */
  function RearmRegions(pages: seq<Page>, regions: seq<Region>): (out: seq<Page>)
    ensures |out| == |pages|
    decreases |regions|
  {
    if regions == [] then pages
    else
      var r := regions[0];
      RearmRegions(Protect(pages, r.base, r.count, WithGuard(r.originalProtect)), regions[1..])
  }

  /** RearmMemoryBreakpoints. */
  function RearmAll(pages: seq<Page>, table: seq<MemoryBreakpoint>): (out: seq<Page>)
    ensures |out| == |pages|
    decreases |table|
  {
    if table == [] then pages
    else RearmAll(if table[0].enabled then RearmRegions(pages, table[0].regions) else pages, table[1..])
  }

  /** RestoreMemoryBreakpoint on every enabled entry, as the agent does when it ends. */
  function RestoreAll(pages: seq<Page>, table: seq<MemoryBreakpoint>): (out: seq<Page>)
    ensures |out| == |pages|
    decreases |table|
  {
    if table == [] then pages
    else RestoreAll(if table[0].enabled then Restore(pages, table[0].regions) else pages, table[1..])
  }

  /** Some region of the list contains page `q`. */
  predicate InRegions(regions: seq<Region>, q: nat) {
    exists k :: 0 <= k < |regions| && Covers(regions[k], q)
  }

  /** Some enabled breakpoint recorded page `q`. */
  predicate Recorded(table: seq<MemoryBreakpoint>, q: nat) {
    exists i :: 0 <= i < |table| && table[i].enabled && InRegions(table[i].regions, q)
  }

  /** The processor's half of a guard fault: the guard of the page touched is taken off. */
  function Unguard(pages: seq<Page>, q: nat): (out: seq<Page>)
    ensures |out| == |pages|
  {
    if q < |pages| then pages[q := pages[q].(protect := WithoutGuard(pages[q].protect))] else pages
  }

  /** SetMemoryBreakpoint. */
  function SetMemory(pages: seq<Page>, table: seq<MemoryBreakpoint>, id: BreakpointId, access: nat, address: Address, size: nat)
    : (r: (seq<Page>, seq<MemoryBreakpoint>))
  {
    var i := First(table, MemoryDisabled());
    if address == 0 || size == 0 || access == 0 || i < 0 then (pages, table)
    else
      var (out, regions) := Walk(pages, address / PAGE_SIZE, (address + size) % ADDRESS_SPACE, 0);
      if regions == [] then (out, table)
      else (out, table[i := MemoryBreakpoint(id, access, address, size, true, regions)])
  }

  /** RemoveMemoryBreakpoint. */
  function RemoveMemory(pages: seq<Page>, table: seq<MemoryBreakpoint>, id: BreakpointId)
    : (r: (seq<Page>, seq<MemoryBreakpoint>))
  {
    var i := First(table, MemoryWithId(id));
    if i < 0 then (pages, table) else (Restore(pages, table[i].regions), table[i := NO_MEMORY])
  }

  /** Regions in increasing page order: in particular no page is recorded twice. */
  ghost predicate Ordered(regions: seq<Region>) {
    forall i, j :: 0 <= i < j < |regions| ==> regions[i].base + regions[i].count <= regions[j].base
  }

  /** What one walk does: `added` is what it recorded, `out` the pages afterwards. */
  ghost predicate WalkResult(pages: seq<Page>, p: nat, end: nat, count: nat, out: seq<Page>, added: seq<Region>) {
    && |out| == |pages|
    && Ordered(added)
    && (forall k :: 0 <= k < |added| ==> p <= added[k].base && added[k].base + added[k].count <= |pages|)
    && (forall k, q: nat :: 0 <= k < |added| && Covers(added[k], q) ==>
          Guardable(pages[q]) && added[k].originalProtect == WithoutGuard(pages[q].protect))
    && (forall q: nat :: q < |pages| ==>
          out[q] == if InRegions(added, q) then pages[q].(protect := WithGuard(pages[q].protect)) else pages[q])
    && (count + |added| < MAX_GUARD_PAGES ==>
          forall q: nat :: p <= q < |pages| && PageStart(q) < end && Guardable(pages[q]) ==> InRegions(added, q))
  }

  /** The walk records regions in page order, each page of the range that can be guarded exactly once
      unless the 128-region table fills up, guards exactly the recorded pages and touches nothing else. */
  lemma {:induction false} WalkRecords(pages: seq<Page>, p: nat, end: nat, count: nat)
    ensures var r := Walk(pages, p, end, count); WalkResult(pages, p, end, count, r.0, r.1)
    decreases |pages| - p, 1
  {
    if PageStart(p) < end && count < MAX_GUARD_PAGES && p < |pages| {
      if Guardable(pages[p]) {
        WalkGuards(pages, p, end, count);
      } else {
        WalkSkips(pages, p, end, count);
      }
    } else {
      WalkStop(pages, p, end, count);
    }
  }

  lemma {:induction false} WalkStop(pages: seq<Page>, p: nat, end: nat, count: nat)
    requires !(PageStart(p) < end && count < MAX_GUARD_PAGES && p < |pages|)
    ensures WalkResult(pages, p, end, count, pages, [])
  {
  }

  lemma {:induction false} WalkSkips(pages: seq<Page>, p: nat, end: nat, count: nat)
    requires PageStart(p) < end && count < MAX_GUARD_PAGES && p < |pages| && !Guardable(pages[p])
    ensures var r := Walk(pages, p, end, count); WalkResult(pages, p, end, count, r.0, r.1)
    decreases |pages| - p, 0
  {
    WalkRecords(pages, p + RunLength(pages, p), end, count);
  }

  lemma {:induction false} WalkGuards(pages: seq<Page>, p: nat, end: nat, count: nat)
    requires PageStart(p) < end && count < MAX_GUARD_PAGES && p < |pages| && Guardable(pages[p])
    ensures var r := Walk(pages, p, end, count); WalkResult(pages, p, end, count, r.0, r.1)
    decreases |pages| - p, 0
  {
    var head := Region(p, RunLength(pages, p), WithoutGuard(pages[p].protect));
    var pages' := Protect(pages, p, head.count, WithGuard(pages[p].protect));
    WalkRecords(pages', p + head.count, end, count + 1);
    var r := Walk(pages', p + head.count, end, count + 1);
    assert Walk(pages, p, end, count) == (r.0, [head] + r.1);
    WalkCons(pages, p, end, count, pages', head, r.0, r.1);
  }

  lemma {:induction false} InRegionsCons(head: Region, rest: seq<Region>, q: nat)
    ensures InRegions([head] + rest, q) <==> Covers(head, q) || InRegions(rest, q)
  {
    var added := [head] + rest;
    if Covers(head, q) { assert Covers(added[0], q); }
    if InRegions(rest, q) {
      var k :| 0 <= k < |rest| && Covers(rest[k], q);
      assert Covers(added[k + 1], q);
    }
  }

  lemma {:induction false} WalkCons(pages: seq<Page>, p: nat, end: nat, count: nat,
                                    pages': seq<Page>, head: Region, out: seq<Page>, rest: seq<Region>)
    requires p < |pages| && Guardable(pages[p])
    requires head == Region(p, RunLength(pages, p), WithoutGuard(pages[p].protect))
    requires pages' == Protect(pages, p, head.count, WithGuard(pages[p].protect))
    requires WalkResult(pages', p + head.count, end, count + 1, out, rest)
    ensures WalkResult(pages, p, end, count, out, [head] + rest)
  {
    var added := [head] + rest;
    forall k, q: nat | 0 <= k < |added| && Covers(added[k], q)
      ensures q < |pages| && Guardable(pages[q]) && added[k].originalProtect == WithoutGuard(pages[q].protect)
    {
      if k > 0 { assert Covers(rest[k - 1], q); assert pages'[q] == pages[q]; }
    }
    forall q: nat | q < |pages|
      ensures out[q] == if InRegions(added, q) then pages[q].(protect := WithGuard(pages[q].protect)) else pages[q]
    {
      InRegionsCons(head, rest, q);
      if Covers(head, q) {
        assert pages[q] == pages[p];
        assert !InRegions(rest, q);
      }
    }
    forall q: nat | p <= q < |pages| && PageStart(q) < end && Guardable(pages[q]) && count + |added| < MAX_GUARD_PAGES
      ensures InRegions(added, q)
    {
      InRegionsCons(head, rest, q);
    }
  }

  /** Every page, after a restore of ordered regions. */
  lemma {:induction false} RestoreAt(pages: seq<Page>, regions: seq<Region>, q: nat)
    requires q < |pages| && Ordered(regions)
    ensures !InRegions(regions, q) ==> Restore(pages, regions)[q] == pages[q]
    ensures forall k :: 0 <= k < |regions| && Covers(regions[k], q) ==>
              Restore(pages, regions)[q] == pages[q].(protect := regions[k].originalProtect)
    decreases |regions|
  {
    if regions != [] {
      var r := regions[0];
      var rest := regions[1..];
      assert forall k :: 0 <= k < |rest| ==> rest[k] == regions[k + 1];
      RestoreAt(Protect(pages, r.base, r.count, r.originalProtect), rest, q);
      if InRegions(rest, q) {
        var k :| 0 <= k < |rest| && Covers(rest[k], q);
        assert Covers(regions[k + 1], q);
      }
      if Covers(r, q) { assert Covers(regions[0], q); assert !InRegions(rest, q); }
      forall k | 0 <= k < |regions| && Covers(regions[k], q)
        ensures Restore(pages, regions)[q] == pages[q].(protect := regions[k].originalProtect)
      {
        if k > 0 { assert Covers(rest[k - 1], q); }
      }
    }
  }

  /** Setting a breakpoint and taking it away again gives back the old protections exactly when no page
      it recorded carried a guard beforehand: the recorded protection has the guard stripped. */
  lemma {:induction false} SetThenRestore(pages: seq<Page>, p: nat, end: nat)
    ensures var r := Walk(pages, p, end, 0);
            Restore(r.0, r.1) == pages
            <==> forall q: nat :: q < |pages| && InRegions(r.1, q) ==> !pages[q].protect.guarded
  {
    var r := Walk(pages, p, end, 0);
    WalkRecords(pages, p, end, 0);
    var back := Restore(r.0, r.1);
    forall q: nat | q < |pages|
      ensures back[q] == if InRegions(r.1, q) then pages[q].(protect := WithoutGuard(pages[q].protect)) else pages[q]
    {
      RestoreAt(r.0, r.1, q);
    }
    if forall q: nat :: q < |pages| && InRegions(r.1, q) ==> !pages[q].protect.guarded {
      assert forall q: nat :: q < |pages| ==> back[q] == pages[q];
    } else {
      var q: nat :| q < |pages| && InRegions(r.1, q) && pages[q].protect.guarded;
      assert back[q] != pages[q];
    }
  }
}
