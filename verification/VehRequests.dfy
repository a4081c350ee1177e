/** What the control requests achieve, told by memory, tables, pages and trap flags. */
module VehRequests {
  import opened VehTables
  import opened VehHardware
  import opened VehMemory
  import opened VehEngine
  import opened VehImage
  import VehGuards
  import VehRuns

  // Software breakpoints.

  predicate HasFree(software: seq<SoftwareBreakpoint>) {
    exists i :: 0 <= i < |software| && !software[i].enabled
  }

  lemma {:induction false} FreeIsFound(software: seq<SoftwareBreakpoint>)
    ensures First(software, Disabled()) >= 0 <==> HasFree(software)
  {
    if i :| 0 <= i < |software| && !software[i].enabled { assert Disabled()(software[i]); }
  }

  /** In every state of a running agent: with an address that is not 0, not planted and in memory, on a writable page,
      and with a free entry, a set puts 0xCC there and one more enabled entry into the table, which holds the id, the
      flag, the address and the byte that was there. In every other case it changes nothing. */
  lemma {:induction false} SetPlants(s: Engine, id: BreakpointId, temporary: bool, address: Address, writable: bool)
    requires s.running
    ensures var s' := Step(s, SetSoftware(id, temporary, address, writable));
            if address != 0 && !Planted(s.software, address) && HasFree(s.software) && address in s.mem && writable then
              && s' == s.(mem := s.mem[address := 0xCC], software := s'.software)
              && EnabledCount(s'.software) == EnabledCount(s.software) + 1
              && exists i :: 0 <= i < |s.software| && !s.software[i].enabled
                   && s'.software == s.software[i := SoftwareBreakpoint(id, temporary, address, s.mem[address], true)]
            else s' == s
  {
    SearchIsPlanted(s.software, address);
    FreeIsFound(s.software);
    var i := First(s.software, Disabled());
    if i >= 0 && address in s.mem {
      EnableCounts(s.software, i, SoftwareBreakpoint(id, temporary, address, s.mem[address], true));
    }
  }

  lemma {:induction false} EnableCounts(software: seq<SoftwareBreakpoint>, i: nat, b: SoftwareBreakpoint)
    requires i < |software| && !software[i].enabled && b.enabled
    ensures EnabledCount(software[i := b]) == EnabledCount(software) + 1
  {
    if i == 0 {
      assert software[0 := b][1..] == software[1..];
    } else {
      assert software[i := b][1..] == software[1..][i - 1 := b];
      EnableCounts(software[1..], i - 1, b);
    }
  }

  /** From the request to the stop: a breakpoint set where none was is hit by the first thread that runs into it,
      which then asks the debugger with the breakpoint's id and address and continues at that address, where the
      program's byte is back. */
  lemma {:induction false} SetThenHit(s: Engine, id: BreakpointId, temporary: bool, address: Address, t: ThreadId, f: Filter)
    requires s.running && t != 0 && t !in s.stops && id != 0
    requires address != 0 && !Planted(s.software, address) && HasFree(s.software) && address in s.mem
    ensures var planted := Step(s, SetSoftware(id, temporary, address, true));
            var (hit, verdict) := OnException(planted, t, BreakpointTrap(address + 1), f);
            && verdict == Ask(Stop(id, address, false, false, false, f.outputDebugString || f.policy == PolicyContinue))
            && hit.mem == s.mem && EditsOf(hit, t) == map[Ip := address]
            && (t in hit.trap <==> t in s.trap || !temporary)
            && (Planted(hit.software, address) <==> !temporary)
  {
    hide Planted, Step, HasFree, OnException, EnabledCount;
    var planted := Step(s, SetSoftware(id, temporary, address, true));
    SetPlants(s, id, temporary, address, true);
    var i :| 0 <= i < |s.software| && !s.software[i].enabled
             && planted.software == s.software[i := SoftwareBreakpoint(id, temporary, address, s.mem[address], true)];
    FoundThere(s.software, i, planted.software[i]);
    FirstHitAsks(planted, t, i, f);
    assert s.mem[address := INT3][address := s.mem[address]] == s.mem;
    PlantedAfter(s.software, i, planted.software[i]);
  }

  /** A thread that runs into the entry found at its address asks with that entry's id and address, its byte put back. */
  lemma {:induction false} FirstHitAsks(s: Engine, t: ThreadId, i: nat, f: Filter)
    requires s.running && i < |s.software| && s.software[i].id != 0 && First(s.software, AtAddress(s.software[i].address)) == i
    ensures var b := s.software[i];
            var (hit, verdict) := OnException(s, t, BreakpointTrap(b.address + 1), f);
            && verdict == Ask(Stop(b.id, b.address, false, false, false, f.outputDebugString || f.policy == PolicyContinue))
            && hit.mem == s.mem[b.address := b.originalByte] && EditsOf(hit, t) == map[Ip := b.address]
            && hit.trap == (if b.temporary then s.trap else s.trap + {t})
            && hit.software == (if b.temporary then s.software[i := NO_SOFTWARE] else s.software)
  {
    hide AddPending;
  }

  /** A new entry at an address of its own is the one found there, and the only one. */
  lemma {:induction false} FoundThere(software: seq<SoftwareBreakpoint>, i: nat, b: SoftwareBreakpoint)
    requires i < |software| && !software[i].enabled && b.enabled && !Planted(software, b.address)
    ensures First(software[i := b], AtAddress(b.address)) == i
  {
    var after := software[i := b];
    assert AtAddress(b.address)(after[i]);
    forall j | 0 <= j < |software| && j != i
      ensures !AtAddress(b.address)(after[j])
    {
      assert after[j] == software[j];
    }
  }

  lemma {:induction false} PlantedAfter(software: seq<SoftwareBreakpoint>, i: nat, b: SoftwareBreakpoint)
    requires i < |software| && !software[i].enabled && b.enabled && !Planted(software, b.address)
    ensures Planted(software[i := b], b.address) && !Planted(software[i := b][i := NO_SOFTWARE], b.address)
  {
    assert software[i := b][i] == b;
    forall j | 0 <= j < |software| && j != i
      ensures software[i := b][i := NO_SOFTWARE][j] == software[j]
    {
    }
  }

  /** The entry a removal names: the first enabled one with the id, or else with the address. */
  ghost predicate Named(software: seq<SoftwareBreakpoint>, id: BreakpointId, address: Address, i: nat)
    requires i < |software|
  {
    var b := software[i];
    && b.enabled
    && (if exists j :: 0 <= j < |software| && software[j].enabled && software[j].id == id then
          b.id == id && forall j :: 0 <= j < i && software[j].enabled ==> software[j].id != id
        else
          address != 0 && b.address == address && forall j :: 0 <= j < i && software[j].enabled ==> software[j].address != address)
  }

  /** A removal writes the byte back and clears the entry it names; when it names none it changes nothing. */
  lemma {:induction false} RemoveLifts(s: Engine, id: BreakpointId, address: Address)
    requires s.running
    ensures var s' := Step(s, RemoveSoftware(id, address));
            && (forall i: nat :: i < |s.software| && Named(s.software, id, address, i) ==>
                  s' == s.(mem := s.mem[s.software[i].address := s.software[i].originalByte],
                           software := s.software[i := SoftwareBreakpoint(0, false, 0, 0, false)]))
            && ((forall i: nat :: i < |s.software| ==> !Named(s.software, id, address, i)) ==> s' == s)
  {
    var k := First(s.software, WithId(id));
    assert k >= 0 <==> exists j :: 0 <= j < |s.software| && s.software[j].enabled && s.software[j].id == id by {
      if j :| 0 <= j < |s.software| && s.software[j].enabled && s.software[j].id == id { assert WithId(id)(s.software[j]); }
    }
    var i := FindToRemove(s.software, id, address);
    assert i >= 0 ==> Named(s.software, id, address, i) by {
      if 0 <= k { assert forall j :: 0 <= j < k && s.software[j].enabled ==> !WithId(id)(s.software[j]); }
      else if i >= 0 { assert forall j :: 0 <= j < i && s.software[j].enabled ==> !AtAddress(address)(s.software[j]); }
    }
    forall j: nat | j < |s.software| && Named(s.software, id, address, j)
      ensures j == i
    {
      if k >= 0 { assert WithId(id)(s.software[j]); } else { assert AtAddress(address)(s.software[j]); }
    }
  }

  /** One set request for each id and address, permanent and on a writable page. */
  function Sets(wanted: seq<(BreakpointId, Address)>): (run: seq<Event>)
    ensures |run| == |wanted|
  {
    seq(|wanted|, i requires 0 <= i < |wanted| => SetSoftware(wanted[i].0, false, wanted[i].1, true))
  }

  predicate Among(wanted: seq<(BreakpointId, Address)>, n: nat, a: Address)
    requires n <= |wanted|
  {
    exists i :: 0 <= i < n && wanted[i].1 == a
  }

  function FreeEntries(software: seq<SoftwareBreakpoint>): (n: nat) {
    if software == [] then 0 else (if software[0].enabled then 0 else 1) + FreeEntries(software[1..])
  }

  lemma {:induction false} FreeCounts(software: seq<SoftwareBreakpoint>)
    ensures FreeEntries(software) > 0 <==> HasFree(software)
    ensures FreeEntries(software) + EnabledCount(software) == |software|
  {
    if software != [] {
      FreeCounts(software[1..]);
      if i :| 0 <= i < |software| && !software[i].enabled { if i > 0 { assert software[1..][i - 1] == software[i]; } }
      if HasFree(software[1..]) {
        var i :| 0 <= i < |software[1..]| && !software[1..][i].enabled;
        assert software[i + 1] == software[1..][i];
      }
    }
  }

  lemma {:induction false} SetsPlant(s: Engine, wanted: seq<(BreakpointId, Address)>)
    requires s.running && forall i :: 0 <= i < |wanted| ==> wanted[i].1 in s.mem && wanted[i].1 != 0 && !Planted(s.software, wanted[i].1)
    requires forall i, j :: 0 <= i < j < |wanted| ==> wanted[i].1 != wanted[j].1
    ensures var (after, n) := (Run(s, Sets(wanted)), FreeEntries(s.software));
            var m := if n < |wanted| then n else |wanted|;
            && FreeEntries(after.software) == n - m
            && (forall a :: Planted(after.software, a) <==> Planted(s.software, a) || Among(wanted, m, a))
            && after.mem.Keys == s.mem.Keys
            && forall a :: a in s.mem ==> after.mem[a] == if Among(wanted, m, a) then 0xCC else s.mem[a]
    decreases |wanted|
  {
    if wanted != [] {
      var rest, s' := wanted[1..], Step(s, SetSoftware(wanted[0].0, false, wanted[0].1, true));
      assert Sets(wanted)[1..] == Sets(rest);
      assert Run(s, Sets(wanted)) == Run(s', Sets(rest));
      OneSet(s, wanted[0].0, wanted[0].1);
      hide Run, Step, Sets, Planted;
      forall i | 0 <= i < |rest|
        ensures rest[i] == wanted[i + 1] && !Planted(s'.software, rest[i].1)
      {
      }
      SetsPlant(s', rest);
      AmongNext(wanted);
    }
  }

  lemma {:induction false} AmongNext(wanted: seq<(BreakpointId, Address)>)
    requires wanted != []
    ensures forall n: nat, a :: n <= |wanted| ==>
              (Among(wanted, n, a) <==> n > 0 && (a == wanted[0].1 || Among(wanted[1..], n - 1, a)))
  {
    forall n: nat, a | n <= |wanted|
      ensures Among(wanted, n, a) <==> n > 0 && (a == wanted[0].1 || Among(wanted[1..], n - 1, a))
    {
      if n > 0 && Among(wanted[1..], n - 1, a) {
        var i :| 0 <= i < n - 1 && wanted[1..][i].1 == a;
        assert wanted[i + 1].1 == a;
      }
      if Among(wanted, n, a) {
        var i :| 0 <= i < n && wanted[i].1 == a;
        if i > 0 { assert wanted[1..][i - 1].1 == a; }
      }
    }
  }

  lemma {:induction false} OneSet(s: Engine, id: BreakpointId, address: Address)
    requires s.running && address in s.mem && address != 0 && !Planted(s.software, address)
    ensures var s' := Step(s, SetSoftware(id, false, address, true));
            && s'.running
            && (if FreeEntries(s.software) == 0 then s' == s
                else
                  && FreeEntries(s'.software) == FreeEntries(s.software) - 1 && s'.mem == s.mem[address := 0xCC]
                  && forall a :: Planted(s'.software, a) <==> Planted(s.software, a) || a == address)
  {
    SetPlants(s, id, false, address, true);
    FreeCounts(s.software);
    var s' := Step(s, SetSoftware(id, false, address, true));
    FreeCounts(s'.software);
    if HasFree(s.software) {
      var i :| 0 <= i < |s.software| && !s.software[i].enabled
               && s'.software == s.software[i := SoftwareBreakpoint(id, false, address, s.mem[address], true)];
      hide Step, HasFree, FreeEntries, EnabledCount;
      AlsoPlanted(s.software, i, s'.software[i]);
    }
  }

  lemma {:induction false} AlsoPlanted(software: seq<SoftwareBreakpoint>, i: nat, b: SoftwareBreakpoint)
    requires i < |software| && !software[i].enabled && b.enabled
    ensures forall a :: Planted(software[i := b], a) <==> Planted(software, a) || a == b.address
  {
    var after := software[i := b];
    assert after[i] == b;
    forall a | Planted(software, a)
      ensures Planted(after, a)
    {
      var j :| 0 <= j < |software| && software[j].enabled && software[j].address == a;
      assert after[j] == software[j];
    }
  }

  /** From the agent's first state: of any set requests for different addresses of the program the first 256 are planted,
      and the others change nothing. */
  lemma {:induction false} TableHolds(program: Bytes, pages: seq<Page>, wanted: seq<(BreakpointId, Address)>)
    requires forall i :: 0 <= i < |wanted| ==> wanted[i].1 in program && wanted[i].1 != 0
    requires forall i, j :: 0 <= i < j < |wanted| ==> wanted[i].1 != wanted[j].1
    ensures var after := Run(VehRuns.Initial(program, pages), Sets(wanted));
            var m := if |wanted| < 256 then |wanted| else 256;
            && (forall a :: Planted(after.software, a) <==> Among(wanted, m, a))
            && after.mem.Keys == program.Keys
            && forall a :: a in program ==> after.mem[a] == if Among(wanted, m, a) then 0xCC else program[a]
  {
    var s := VehRuns.Initial(program, pages);
    AllFree(s.software);
    hide Run, Sets;
    SetsPlant(s, wanted);
  }

  /** The tables it starts with: 256 software, 16 hardware and 64 memory breakpoints and 64 pending steps, all free. */
  lemma {:induction false} FirstTables(program: Bytes, pages: seq<Page>)
    ensures var s := VehRuns.Initial(program, pages);
            && s.running && s.stops == map[] && s.rearmThread == 0 && s.trap == {}
            && |s.software| == 256 && |s.hardware| == 16 && |s.memory| == 64 && |s.pending| == 64
            && (forall i :: 0 <= i < 256 ==> !s.software[i].enabled) && (forall i :: 0 <= i < 16 ==> !s.hardware[i].enabled)
            && (forall i :: 0 <= i < 64 ==> !s.memory[i].enabled && s.pending[i].threadId == 0)
  {
  }

  lemma {:induction false} AllFree(software: seq<SoftwareBreakpoint>)
    requires forall i :: 0 <= i < |software| ==> !software[i].enabled
    ensures FreeEntries(software) == |software|
  {
    if software != [] { AllFree(software[1..]); }
  }

  // Hardware breakpoints.

  /** No enabled entry has this slot and owner, and some entry is free. */
  predicate SlotFree(table: seq<HardwareBreakpoint>, slot: bv64, owner: ThreadId) {
    && (forall i :: 0 <= i < |table| && table[i].enabled ==> table[i].slot != slot || table[i].threadId != owner)
    && exists i :: 0 <= i < |table| && !table[i].enabled
  }

  lemma {:induction false} FreeSlotIsFound(table: seq<HardwareBreakpoint>, slot: bv64, owner: ThreadId)
    ensures SlotFree(table, slot, owner) <==> First(table, InSlot(slot, owner)) < 0 && First(table, HardwareDisabled()) >= 0
  {
    var same, free := First(table, InSlot(slot, owner)), First(table, HardwareDisabled());
    forall i | 0 <= i < |table|
      ensures same < 0 ==> !(table[i].enabled && table[i].slot == slot && table[i].threadId == owner)
      ensures free < 0 ==> table[i].enabled
    {
      assert same < 0 ==> !InSlot(slot, owner)(table[i]);
      assert free < 0 ==> !HardwareDisabled()(table[i]);
    }
  }

  ghost predicate SameEnabled(table: seq<HardwareBreakpoint>, after: seq<HardwareBreakpoint>) {
    && |after| == |table|
    && forall i :: 0 <= i < |table| ==>
         (after[i].enabled <==> table[i].enabled) && (table[i].enabled ==> after[i] == table[i])
  }

  /** A hardware request with an address, a length and a slot below four, none of that slot and owner being enabled, and
      with a free entry: when the registers could be written to some thread, one more entry holds the request;
      otherwise, and in every other case, the enabled entries are those from before. */
  lemma {:induction false} SetTakesSlot(s: Engine, b: HardwareBreakpoint, applied: bool)
    requires s.running
    ensures var s' := Step(s, SetHardwareAt(b, applied));
            && s' == s.(hardware := s'.hardware)
            && (if b.address != 0 && b.slot < 4 && b.length != 0 && applied && SlotFree(s.hardware, b.slot, b.threadId)
                then exists i :: 0 <= i < |s.hardware| && !s.hardware[i].enabled && s'.hardware == s.hardware[i := b.(enabled := true)]
                else SameEnabled(s.hardware, s'.hardware))
  {
    hide SlotFree;
    FreeSlotIsFound(s.hardware, b.slot, b.threadId);
  }

  /** A hardware removal clears the first enabled entry with the id and no other. */
  lemma {:induction false} RemoveFreesSlot(s: Engine, id: BreakpointId, i: nat)
    requires s.running && i < |s.hardware|
    ensures var s' := Step(s, RemoveHardwareById(id));
            && s' == s.(hardware := s'.hardware) && |s'.hardware| == |s.hardware|
            && s'.hardware[i] ==
               if s.hardware[i].enabled && s.hardware[i].id == id
                  && forall j :: 0 <= j < i && s.hardware[j].enabled ==> s.hardware[j].id != id
               then HardwareBreakpoint(0, 0, 0, 0, 0, 0, false) else s.hardware[i]
  {
    var k := First(s.hardware, HardwareWithId(id));
    assert k < 0 || k > i ==> !HardwareWithId(id)(s.hardware[i]);
    assert forall j :: 0 <= j < k ==> !HardwareWithId(id)(s.hardware[j]);
    if k >= 0 && k < i { assert HardwareWithId(id)(s.hardware[k]); }
  }

  // Memory breakpoints.

  /** Pages a memory request is about: from the one of its address to its end, which wraps at 2^64, those that have an
      access other than none and whose protection can be changed. */
  predicate Wants(s: Engine, address: Address, size: nat, q: nat)
    requires q < |s.pages|
  {
    && address / 4096 <= q && q * 4096 < (address + size) % 0x1_0000_0000_0000_0000
    && s.pages[q].protect.access != 0 && s.pages[q].protect.access != 1 && s.pages[q].protectable
  }

  /** A memory request with an address, a size and an access, with a free entry and some page to guard: one more entry
      holds it, and its record is as `Watched` says. Without any of these it changes nothing. */
  lemma {:induction false} SetWatches(s: Engine, id: BreakpointId, access: nat, address: Address, size: nat)
    requires s.running
    ensures var s' := Step(s, SetMemoryAt(id, access, address, size));
            && s' == s.(pages := s'.pages, memory := s'.memory) && |s'.pages| == |s.pages|
            && (if address != 0 && size != 0 && access != 0 && (exists i :: 0 <= i < |s.memory| && !s.memory[i].enabled)
                   && (exists q :: 0 <= q < |s.pages| && Wants(s, address, size, q))
                then exists i, regions ::
                       && 0 <= i < |s.memory| && !s.memory[i].enabled
                       && s'.memory == s.memory[i := MemoryBreakpoint(id, access, address, size, true, regions)]
                       && Watched(s, s'.pages, address, size, regions)
                else s' == s)
  {
    hide Watched, Wants, Walk;
    var i, p, end := First(s.memory, MemoryDisabled()), address / PAGE_SIZE, (address + size) % ADDRESS_SPACE;
    if j :| 0 <= j < |s.memory| && !s.memory[j].enabled { assert MemoryDisabled()(s.memory[j]); }
    var (pages, regions) := Walk(s.pages, p, end, 0);
    WalkWatches(s, address, size, pages, regions);
  }

  /** The record of a request: regions that start inside it, each a run of equal pages with its protection stripped of
      the guard; every page wanted is recorded unless there are 128 regions; a page is guarded exactly when it is
      recorded or was guarded before, and is otherwise as it was. */
  ghost predicate Watched(s: Engine, pages: seq<Page>, address: Address, size: nat, regions: seq<Region>) {
    && |regions| <= 128 && |pages| == |s.pages|
    && (forall q: nat :: q < |pages| ==>
          pages[q] == if InRegions(regions, q) then s.pages[q].(protect := s.pages[q].protect.(guarded := true)) else s.pages[q])
    && (|regions| < 128 ==> forall q: nat :: q < |pages| && Wants(s, address, size, q) ==> InRegions(regions, q))
    && (forall k :: 0 <= k < |regions| ==> RunOfPages(s, address, size, regions[k]))
  }

  ghost predicate RunOfPages(s: Engine, address: Address, size: nat, r: Region) {
    && r.base + r.count <= |s.pages| && r.count > 0 && Wants(s, address, size, r.base)
    && r.originalProtect == s.pages[r.base].protect.(guarded := false)
    && forall q: nat :: Covers(r, q) ==> s.pages[q] == s.pages[r.base]
  }

  lemma {:induction false} WalkWatches(s: Engine, address: Address, size: nat, pages: seq<Page>, regions: seq<Region>)
    requires (pages, regions) == Walk(s.pages, address / PAGE_SIZE, (address + size) % ADDRESS_SPACE, 0)
    ensures Watched(s, pages, address, size, regions)
    ensures regions == [] ==> pages == s.pages
    ensures regions == [] <==> forall q: nat :: q < |s.pages| ==> !Wants(s, address, size, q)
  {
    hide Walk, RunOfPages, InRegions, Wants;
    WalkRuns(s.pages, address / PAGE_SIZE, (address + size) % ADDRESS_SPACE, 0);
    WalkGuardsWanted(s, address, size, pages, regions);
    forall k | 0 <= k < |regions|
      ensures RunOfPages(s, address, size, regions[k])
    {
      WalkedRun(s, address, size, regions, k);
    }
    if regions == [] {
      forall q: nat | q < |s.pages|
        ensures pages[q] == s.pages[q] && !Wants(s, address, size, q)
      {
        NoRegions(q);
      }
      assert pages == s.pages;
    } else {
      RunWants(s, address, size, regions[0]);
    }
  }

  lemma {:induction false} NoRegions(q: nat)
    ensures !InRegions([], q)
  {
  }

  lemma {:induction false} RunWants(s: Engine, address: Address, size: nat, r: Region)
    requires RunOfPages(s, address, size, r)
    ensures r.base < |s.pages| && Wants(s, address, size, r.base)
  {
  }

  lemma {:induction false} WalkGuardsWanted(s: Engine, address: Address, size: nat, pages: seq<Page>, regions: seq<Region>)
    requires (pages, regions) == Walk(s.pages, address / PAGE_SIZE, (address + size) % ADDRESS_SPACE, 0)
    ensures |pages| == |s.pages|
    ensures forall q: nat :: q < |pages| ==>
              pages[q] == if InRegions(regions, q) then s.pages[q].(protect := s.pages[q].protect.(guarded := true)) else s.pages[q]
    ensures |regions| < 128 ==> forall q: nat :: q < |pages| && Wants(s, address, size, q) ==> InRegions(regions, q)
  {
    WalkRecords(s.pages, address / PAGE_SIZE, (address + size) % ADDRESS_SPACE, 0);
    hide Walk, InRegions, Ordered, Covers;
  }

  lemma {:induction false} WalkedRun(s: Engine, address: Address, size: nat, regions: seq<Region>, k: nat)
    requires regions == Walk(s.pages, address / PAGE_SIZE, (address + size) % ADDRESS_SPACE, 0).1 && k < |regions|
    ensures RunOfPages(s, address, size, regions[k])
  {
    var p, end := address / PAGE_SIZE, (address + size) % ADDRESS_SPACE;
    WalkRecords(s.pages, p, end, 0);
    WalkRuns(s.pages, p, end, 0);
    hide Walk, InRegions, Ordered;
    assert RunFrom(s.pages, p, end, regions[k]);
    assert Covers(regions[k], regions[k].base);
  }

  ghost predicate RunFrom(pages: seq<Page>, p: nat, end: nat, r: Region) {
    && p <= r.base && r.count > 0 && r.base + r.count <= |pages| && PageStart(r.base) < end
    && forall q: nat :: Covers(r, q) ==> pages[q] == pages[r.base]
  }

  lemma {:induction false} RunEarlier(pages: seq<Page>, pages': seq<Page>, p: nat, p': nat, end: nat, r: Region)
    requires RunFrom(pages', p', end, r) && p <= p' && |pages'| == |pages|
    requires forall q: nat :: p' <= q < |pages| ==> pages'[q] == pages[q]
    ensures RunFrom(pages, p, end, r)
  {
  }

  lemma {:induction false} WalkStep(pages: seq<Page>, p: nat, end: nat, count: nat)
    requires PageStart(p) < end && count < MAX_GUARD_PAGES && p < |pages|
    ensures var n := RunLength(pages, p);
            Walk(pages, p, end, count).1 ==
            if Guardable(pages[p]) then
              [Region(p, n, WithoutGuard(pages[p].protect))]
              + Walk(Protect(pages, p, n, WithGuard(pages[p].protect)), p + n, end, count + 1).1
            else Walk(pages, p + n, end, count).1
  {
  }

  lemma {:induction false} WalkStops(pages: seq<Page>, p: nat, end: nat, count: nat)
    requires !(PageStart(p) < end && count < MAX_GUARD_PAGES && p < |pages|)
    ensures Walk(pages, p, end, count).1 == []
  {
  }

  /** Recorded regions start below the end and are runs of equal pages; there are at most 128. */
  lemma {:induction false} WalkRuns(pages: seq<Page>, p: nat, end: nat, count: nat)
    requires count <= MAX_GUARD_PAGES
    ensures count + |Walk(pages, p, end, count).1| <= MAX_GUARD_PAGES
    ensures forall r :: r in Walk(pages, p, end, count).1 ==> RunFrom(pages, p, end, r)
    decreases |pages| - p
  {
    hide Walk, RunFrom, Guardable;
    if PageStart(p) < end && count < MAX_GUARD_PAGES && p < |pages| {
      var n := RunLength(pages, p);
      WalkStep(pages, p, end, count);
      if Guardable(pages[p]) {
        var pages' := Protect(pages, p, n, WithGuard(pages[p].protect));
        FirstRun(pages, p, end, WithoutGuard(pages[p].protect));
        WalkRuns(pages', p + n, end, count + 1);
        RunsEarlier(pages, pages', p, p + n, end, Walk(pages', p + n, end, count + 1).1);
      } else {
        WalkRuns(pages, p + n, end, count);
        RunsEarlier(pages, pages, p, p + n, end, Walk(pages, p + n, end, count).1);
      }
    } else {
      WalkStops(pages, p, end, count);
    }
  }

  lemma {:induction false} RunsEarlier(pages: seq<Page>, pages': seq<Page>, p: nat, p': nat, end: nat, regions: seq<Region>)
    requires p <= p' && |pages'| == |pages| && forall q: nat :: p' <= q < |pages| ==> pages'[q] == pages[q]
    requires forall r :: r in regions ==> RunFrom(pages', p', end, r)
    ensures forall r :: r in regions ==> RunFrom(pages, p, end, r)
  {
    hide RunFrom;
    forall r | r in regions
      ensures RunFrom(pages, p, end, r)
    {
      RunEarlier(pages, pages', p, p', end, r);
    }
  }

  lemma {:induction false} FirstRun(pages: seq<Page>, p: nat, end: nat, protect: Protection)
    requires p < |pages| && PageStart(p) < end
    ensures RunFrom(pages, p, end, Region(p, RunLength(pages, p), protect))
  {
  }

  /** A memory removal clears the first enabled entry with the id and gives each page it recorded the recorded
      protection; other entries and pages stay. */
  lemma {:induction false} RemoveUnwatches(s: Engine, id: BreakpointId, i: nat, q: nat)
    requires s.running && i < |s.memory| && q < |s.pages|
    requires s.memory[i].enabled && s.memory[i].id == id && Ordered(s.memory[i].regions)
    requires forall j :: 0 <= j < i && s.memory[j].enabled ==> s.memory[j].id != id
    ensures var s' := Step(s, RemoveMemoryById(id));
            && s' == s.(pages := s'.pages, memory := s.memory[i := MemoryBreakpoint(0, 0, 0, 0, false, [])])
            && |s'.pages| == |s.pages|
            && (!InRegions(s.memory[i].regions, q) ==> s'.pages[q] == s.pages[q])
            && forall k :: 0 <= k < |s.memory[i].regions| && Covers(s.memory[i].regions[k], q) ==>
                 s'.pages[q] == s.pages[q].(protect := s.memory[i].regions[k].originalProtect)
  {
    hide Restore;
    assert MemoryWithId(id)(s.memory[i]);
    assert First(s.memory, MemoryWithId(id)) == i by {
      assert forall j :: 0 <= j < i ==> !MemoryWithId(id)(s.memory[j]);
    }
    RestoreAt(s.pages, s.memory[i].regions, q);
  }

  /** An id that no enabled entry has removes nothing. */
  lemma {:induction false} RemoveNothing(s: Engine, id: BreakpointId)
    requires s.running && forall j :: 0 <= j < |s.memory| && s.memory[j].enabled ==> s.memory[j].id != id
    ensures Step(s, RemoveMemoryById(id)) == s
  {
  }

  // Re-arming.

  function WithGuards(regions: seq<Region>): (out: seq<Region>)
    ensures |out| == |regions|
  {
    seq(|regions|, k requires 0 <= k < |regions| => regions[k].(originalProtect := WithGuard(regions[k].originalProtect)))
  }

  function AllWithGuards(table: seq<MemoryBreakpoint>): (out: seq<MemoryBreakpoint>)
    ensures |out| == |table|
  {
    seq(|table|, i requires 0 <= i < |table| => table[i].(regions := WithGuards(table[i].regions)))
  }

  lemma {:induction false} RearmIsRestore(pages: seq<Page>, regions: seq<Region>)
    ensures RearmRegions(pages, regions) == Restore(pages, WithGuards(regions))
    decreases |regions|
  {
    if regions != [] {
      assert WithGuards(regions)[1..] == WithGuards(regions[1..]);
      RearmIsRestore(Protect(pages, regions[0].base, regions[0].count, WithGuard(regions[0].originalProtect)), regions[1..]);
    }
  }

  lemma {:induction false} RearmAllIsRestoreAll(pages: seq<Page>, table: seq<MemoryBreakpoint>)
    ensures RearmAll(pages, table) == RestoreAll(pages, AllWithGuards(table))
    decreases |table|
  {
    if table != [] {
      assert AllWithGuards(table)[1..] == AllWithGuards(table[1..]);
      RearmIsRestore(pages, table[0].regions);
      RearmAllIsRestoreAll(if table[0].enabled then RearmRegions(pages, table[0].regions) else pages, table[1..]);
    }
  }

  lemma {:induction false} SamePages(regions: seq<Region>, q: nat)
    ensures InRegions(WithGuards(regions), q) <==> InRegions(regions, q)
    ensures Ordered(WithGuards(regions)) <==> Ordered(regions)
  {
    var out := WithGuards(regions);
    assert forall k :: 0 <= k < |regions| ==> (Covers(out[k], q) <==> Covers(regions[k], q));
    assert forall k :: 0 <= k < |regions| ==> out[k].base == regions[k].base && out[k].count == regions[k].count;
  }

  /** The single step that finishes a re-arm gives every recorded page the protection recorded for it, with a guard, and
      touches no other page. */
  lemma {:induction false} RearmsExactly(pages: seq<Page>, table: seq<MemoryBreakpoint>, q: nat)
    requires q < |pages| && VehGuards.Disjoint(table) && VehGuards.WellRecorded(table)
    ensures !Recorded(table, q) ==> RearmAll(pages, table)[q] == pages[q]
    ensures forall i, k ::
              (0 <= i < |table| && table[i].enabled && 0 <= k < |table[i].regions| && Covers(table[i].regions[k], q)) ==>
                RearmAll(pages, table)[q] == pages[q].(protect := table[i].regions[k].originalProtect.(guarded := true))
  {
    var out := AllWithGuards(table);
    RearmAllIsRestoreAll(pages, table);
    forall i, x: nat | 0 <= i < |table|
      ensures InRegions(out[i].regions, x) <==> InRegions(table[i].regions, x)
      ensures Ordered(out[i].regions) <==> Ordered(table[i].regions)
    {
      SamePages(table[i].regions, x);
    }
    assert AllOrdered(out) && VehGuards.Disjoint(out);
    hide RearmAll, RestoreAll, Ordered, InRegions;
    if !Recorded(table, q) { RestoreNone(pages, out, q); }
    forall i, k | 0 <= i < |table| && table[i].enabled && 0 <= k < |table[i].regions| && Covers(table[i].regions[k], q)
      ensures RearmAll(pages, table)[q] == pages[q].(protect := table[i].regions[k].originalProtect.(guarded := true))
    {
      RestoreAllAt(pages, out, q, i, k);
    }
  }

  // Memory, threads and the end.

  /** A write of 1 to 256 bytes that are all in memory, on pages that are there and could be opened, puts them there, and
      gives every page of the range the first one's protection. Any other write changes nothing. */
  lemma {:induction false} WriteTakes(s: Engine, address: Address, data: seq<Byte>, writable: bool)
    requires s.running
    ensures var s' := Step(s, WriteMemory(address, data, writable));
            if writable && 1 <= |data| <= 256 && (forall a: nat :: address <= a < address + |data| ==> a in s.mem)
               && (address + |data| - 1) / 4096 < |s.pages| then
              && s' == s.(mem := s'.mem, pages := s'.pages) && s'.mem.Keys == s.mem.Keys && |s'.pages| == |s.pages|
              && (forall a :: a in s.mem ==> s'.mem[a] == if address <= a < address + |data| then data[a - address] else s.mem[a])
              && (forall q :: 0 <= q < |s.pages| ==>
                    s'.pages[q] == if address / 4096 <= q <= (address + |data| - 1) / 4096
                                   then s.pages[q].(protect := s.pages[address / 4096].protect) else s.pages[q])
            else s' == s
  {
  }

  /** A context request gives a thread outside the handler the trap flag it carries, and no other thread. */
  lemma {:induction false} ContextTakes(s: Engine, t: ThreadId, flags: TrapFlag, u: ThreadId)
    requires s.running
    ensures var s' := Step(s, SetContext(t, flags));
            && s' == s.(trap := s'.trap)
            && (u in s'.trap <==> if u == t && t !in s.stops && flags.Replaced? then flags.on else u in s.trap)
  {
  }

  /** At the agent's end every page has the protection that the entry recording it remembered, or its own when none
      did; the memory and hardware tables are empty, the agent no longer runs and nothing else has changed. */
  lemma {:induction false} EndRestores(s: Engine, q: nat)
    requires s.running && q < |s.pages| && VehGuards.Disjoint(s.memory) && VehGuards.WellRecorded(s.memory)
    ensures var s' := Step(s, Shutdown);
            && s' == s.(running := false, pages := s'.pages, memory := s'.memory, hardware := s'.hardware)
            && |s'.pages| == |s.pages| && |s'.memory| == |s.memory| && |s'.hardware| == |s.hardware|
            && (forall i :: 0 <= i < |s'.memory| ==> !s'.memory[i].enabled)
            && (forall i :: 0 <= i < |s'.hardware| ==> !s'.hardware[i].enabled)
            && (!Recorded(s.memory, q) ==> s'.pages[q] == s.pages[q])
            && forall i, k ::
                 (0 <= i < |s.memory| && s.memory[i].enabled && 0 <= k < |s.memory[i].regions| && Covers(s.memory[i].regions[k], q)) ==>
                   s'.pages[q] == s.pages[q].(protect := s.memory[i].regions[k].originalProtect)
  {
    hide RestoreAll;
    if Recorded(s.memory, q) {
      forall i, k | 0 <= i < |s.memory| && s.memory[i].enabled && 0 <= k < |s.memory[i].regions| && Covers(s.memory[i].regions[k], q)
        ensures RestoreAll(s.pages, s.memory)[q] == s.pages[q].(protect := s.memory[i].regions[k].originalProtect)
      {
        RestoreAllAt(s.pages, s.memory, q, i, k);
      }
    } else {
      RestoreNone(s.pages, s.memory, q);
    }
  }

  ghost predicate AllOrdered(table: seq<MemoryBreakpoint>) {
    forall i :: 0 <= i < |table| && table[i].enabled ==> Ordered(table[i].regions)
  }

  lemma {:induction false} RestoreNone(pages: seq<Page>, table: seq<MemoryBreakpoint>, q: nat)
    requires q < |pages| && AllOrdered(table) && !Recorded(table, q)
    ensures RestoreAll(pages, table)[q] == pages[q]
    decreases |table|
  {
    if table != [] {
      assert forall i :: 0 <= i < |table[1..]| ==> table[1..][i] == table[i + 1];
      if table[0].enabled { RestoreAt(pages, table[0].regions, q); }
      RestoreNone(if table[0].enabled then Restore(pages, table[0].regions) else pages, table[1..], q);
    }
  }

  lemma {:induction false} RestoreAllAt(pages: seq<Page>, table: seq<MemoryBreakpoint>, q: nat, i: nat, k: nat)
    requires q < |pages| && VehGuards.Disjoint(table) && AllOrdered(table)
    requires i < |table| && table[i].enabled && k < |table[i].regions| && Covers(table[i].regions[k], q)
    ensures RestoreAll(pages, table)[q] == pages[q].(protect := table[i].regions[k].originalProtect)
    decreases |table|
  {
    var rest := table[1..];
    assert forall j :: 0 <= j < |rest| ==> rest[j] == table[j + 1];
    var pages' := if table[0].enabled then Restore(pages, table[0].regions) else pages;
    if i == 0 {
      RestoreAt(pages, table[0].regions, q);
      assert InRegions(table[0].regions, q);
      assert !Recorded(rest, q);
      RestoreNone(pages', rest, q);
    } else {
      if table[0].enabled {
        assert InRegions(table[i].regions, q) && !InRegions(table[0].regions, q);
        RestoreAt(pages, table[0].regions, q);
      }
      RestoreAllAt(pages', rest, q, i - 1, k);
    }
  }
}
