/** Memory breakpoints over whole runs: every recorded page is guarded, or a thread is about to re-arm. */
module VehGuards {
  import opened VehTables
  import opened VehHardware
  import opened VehMemory
  import opened VehEngine

  ghost predicate AllGuarded(pages: seq<Page>, table: seq<MemoryBreakpoint>) {
    forall q: nat :: q < |pages| && Recorded(table, q) ==> pages[q].protect.guarded
  }

  ghost predicate GuardsHeld(s: Engine) {
    AllGuarded(s.pages, s.memory) || s.rearmThread != 0
  }

  /** No two enabled breakpoints recorded the same page. */
  ghost predicate Disjoint(table: seq<MemoryBreakpoint>) {
    forall i, j, q: nat :: 0 <= i < j < |table| && table[i].enabled && table[j].enabled && InRegions(table[i].regions, q)
      ==> !InRegions(table[j].regions, q)
  }

  /** Recorded regions are ordered and remember unguarded protections. */
  ghost predicate WellRecorded(table: seq<MemoryBreakpoint>) {
    forall i :: 0 <= i < |table| && table[i].enabled ==> CleanRegions(table[i].regions)
  }

  ghost predicate CleanRegions(regions: seq<Region>) {
    Ordered(regions) && forall k :: 0 <= k < |regions| ==> !regions[k].originalProtect.guarded && regions[k].count > 0
  }

  /** The side conditions on a run: a new memory breakpoint touches no page already recorded, and a memory write does
      not run from an unguarded page into a recorded one. */
  ghost function Apart(): (Engine, Event) -> bool {
    (s: Engine, e: Event) =>
      && (e.SetMemoryAt? ==> NewPages(s, e.address, e.size))
      && (e.WriteMemory? && WriteDone(s, e.address, e.data, e.writable) ==> SparesGuards(s, e.address, e.data))
  }

  ghost predicate SparesGuards(s: Engine, address: Address, data: seq<Byte>)
    requires |data| > 0 && (address + |data| - 1) / PAGE_SIZE < |s.pages|
  {
    var first, last := address / PAGE_SIZE, (address + |data| - 1) / PAGE_SIZE;
    s.pages[first].protect.guarded || forall q: nat :: first < q <= last ==> !Recorded(s.memory, q)
  }

  ghost predicate NewPages(s: Engine, address: Address, size: nat) {
    var regions := Walk(s.pages, address / PAGE_SIZE, (address + size) % ADDRESS_SPACE, 0).1;
    forall q: nat :: InRegions(regions, q) ==> !Recorded(s.memory, q)
  }

  // Re-arming.

  lemma {:induction false} RearmRegionsAt(pages: seq<Page>, regions: seq<Region>, q: nat)
    requires q < |pages|
    ensures RearmRegions(pages, regions)[q].protect.guarded <==> pages[q].protect.guarded || InRegions(regions, q)
    decreases |regions|
  {
    if regions != [] {
      var r := regions[0];
      RearmRegionsAt(Protect(pages, r.base, r.count, WithGuard(r.originalProtect)), regions[1..], q);
      assert regions == [r] + regions[1..];
      InRegionsCons(r, regions[1..], q);
    }
  }

  lemma {:induction false} RearmAllAt(pages: seq<Page>, table: seq<MemoryBreakpoint>, q: nat)
    requires q < |pages|
    ensures RearmAll(pages, table)[q].protect.guarded <==> pages[q].protect.guarded || Recorded(table, q)
    decreases |table|
  {
    if table != [] {
      var pages' := if table[0].enabled then RearmRegions(pages, table[0].regions) else pages;
      RearmRegionsAt(pages, table[0].regions, q);
      RearmAllAt(pages', table[1..], q);
      if Recorded(table[1..], q) {
        var i :| 0 <= i < |table[1..]| && table[1..][i].enabled && InRegions(table[1..][i].regions, q);
        assert table[i + 1] == table[1..][i];
      }
      if Recorded(table, q) {
        var i :| 0 <= i < |table| && table[i].enabled && InRegions(table[i].regions, q);
        if i > 0 { assert table[1..][i - 1] == table[i]; }
      }
    }
  }

  /** RearmMemoryBreakpoints guards every recorded page again, overlapping or not. */
  lemma {:induction false} RearmGuards(pages: seq<Page>, table: seq<MemoryBreakpoint>)
    ensures AllGuarded(RearmAll(pages, table), table)
  {
    forall q: nat | q < |pages| && Recorded(table, q)
      ensures RearmAll(pages, table)[q].protect.guarded
    {
      RearmAllAt(pages, table, q);
    }
  }

  // Setting and removing.

  lemma {:induction false} RecordedAfterUpdate(table: seq<MemoryBreakpoint>, i: nat, b: MemoryBreakpoint, q: nat)
    requires i < |table|
    ensures Recorded(table[i := b], q) <==>
              (b.enabled && InRegions(b.regions, q))
              || exists j :: 0 <= j < |table| && j != i && table[j].enabled && InRegions(table[j].regions, q)
  {
    var table' := table[i := b];
    if b.enabled && InRegions(b.regions, q) { assert table'[i] == b; }
    if j :| 0 <= j < |table| && j != i && table[j].enabled && InRegions(table[j].regions, q) {
      assert table'[j] == table[j];
    }
    if Recorded(table', q) {
      var j :| 0 <= j < |table'| && table'[j].enabled && InRegions(table'[j].regions, q);
    }
  }

  lemma {:induction false} WalkedClean(pages: seq<Page>, p: nat, end: nat)
    ensures CleanRegions(Walk(pages, p, end, 0).1)
  {
    WalkRecords(pages, p, end, 0);
    WalkCounts(pages, p, end, 0);
    var regions := Walk(pages, p, end, 0).1;
    forall k | 0 <= k < |regions|
      ensures !regions[k].originalProtect.guarded
    {
      assert regions[k].count > 0;
      assert Covers(regions[k], regions[k].base);
      assert regions[k].originalProtect == WithoutGuard(pages[regions[k].base].protect);
    }
  }

  lemma {:induction false} WalkCounts(pages: seq<Page>, p: nat, end: nat, count: nat)
    ensures forall k :: 0 <= k < |Walk(pages, p, end, count).1| ==> Walk(pages, p, end, count).1[k].count > 0
    decreases |pages| - p
  {
    if PageStart(p) < end && count < MAX_GUARD_PAGES && p < |pages| {
      var n := RunLength(pages, p);
      if Guardable(pages[p]) {
        WalkCounts(Protect(pages, p, n, WithGuard(pages[p].protect)), p + n, end, count + 1);
      } else {
        WalkCounts(pages, p + n, end, count);
      }
    }
  }

  /** The guards of the table and of one more entry recorded over pages that were guarded when it was set. */
  lemma {:induction false} OneMoreGuarded(before: seq<Page>, pages: seq<Page>, table: seq<MemoryBreakpoint>, i: nat, b: MemoryBreakpoint)
    requires AllGuarded(before, table) && i < |table| && |pages| == |before| && b.enabled
    requires forall q: nat :: q < |pages| ==> pages[q].protect.guarded == (before[q].protect.guarded || InRegions(b.regions, q))
    ensures AllGuarded(pages, table) && AllGuarded(pages, table[i := b])
  {
    forall q: nat | q < |pages| && Recorded(table[i := b], q)
      ensures pages[q].protect.guarded
    {
      RecordedAfterUpdate(table, i, b, q);
    }
  }

  lemma {:induction false} WalkGuardsMore(pages: seq<Page>, p: nat, end: nat)
    ensures var (out, regions) := Walk(pages, p, end, 0);
            forall q: nat :: q < |out| ==> out[q].protect.guarded == (pages[q].protect.guarded || InRegions(regions, q))
  {
    WalkRecords(pages, p, end, 0);
    hide Walk;
  }

  lemma {:induction false} SetKeepsGuards(s: Engine, id: BreakpointId, access: nat, address: Address, size: nat)
    requires GuardsHeld(s) && WellRecorded(s.memory)
    ensures var (pages, memory) := SetMemory(s.pages, s.memory, id, access, address, size);
            GuardsHeld(s.(pages := pages, memory := memory)) && WellRecorded(memory)
  {
    hide Walk, AllGuarded;
    var (pages, memory) := SetMemory(s.pages, s.memory, id, access, address, size);
    var i := First(s.memory, MemoryDisabled());
    if (pages, memory) != (s.pages, s.memory) {
      var p, end := address / PAGE_SIZE, (address + size) % ADDRESS_SPACE;
      var regions := Walk(s.pages, p, end, 0).1;
      WalkGuardsMore(s.pages, p, end);
      WalkedClean(s.pages, p, end);
      if AllGuarded(s.pages, s.memory) {
        OneMoreGuarded(s.pages, pages, s.memory, i, MemoryBreakpoint(id, access, address, size, true, regions));
      }
    }
  }

  lemma {:induction false} SetKeepsDisjoint(s: Engine, id: BreakpointId, access: nat, address: Address, size: nat)
    requires Disjoint(s.memory) && NewPages(s, address, size)
    ensures Disjoint(SetMemory(s.pages, s.memory, id, access, address, size).1)
  {
    var memory := SetMemory(s.pages, s.memory, id, access, address, size).1;
    var i := First(s.memory, MemoryDisabled());
    if memory != s.memory {
      forall j, q: nat | 0 <= j < |memory| && j != i && memory[j].enabled && InRegions(memory[j].regions, q)
        ensures !InRegions(memory[i].regions, q)
      {
        assert s.memory[j] == memory[j] && Recorded(s.memory, q);
      }
    }
  }

  lemma {:induction false} RestoreUnguards(pages: seq<Page>, regions: seq<Region>, q: nat)
    requires q < |pages| && CleanRegions(regions)
    ensures if InRegions(regions, q) then !Restore(pages, regions)[q].protect.guarded
            else Restore(pages, regions)[q] == pages[q]
  {
    RestoreAt(pages, regions, q);
    if InRegions(regions, q) {
      var k :| 0 <= k < |regions| && Covers(regions[k], q);
    }
  }

  /** Removing a breakpoint while everything is guarded and no re-arm is due leaves the others guarded
      exactly when no page of it is recorded by another. */
  lemma {:induction false} RemoveKeepsGuards(pages: seq<Page>, table: seq<MemoryBreakpoint>, id: BreakpointId)
    requires AllGuarded(pages, table) && WellRecorded(table) && First(table, MemoryWithId(id)) >= 0
    ensures var (pages', table') := RemoveMemory(pages, table, id);
            AllGuarded(pages', table')
            <==> forall q: nat :: q < |pages| && InRegions(table[First(table, MemoryWithId(id))].regions, q)
                   ==> !Recorded(table', q)
  {
    var i := First(table, MemoryWithId(id));
    var (pages', table') := RemoveMemory(pages, table, id);
    forall q: nat | q < |pages|
      ensures pages'[q].protect.guarded || !Recorded(table', q)
              <==> !InRegions(table[i].regions, q) || !Recorded(table', q)
    {
      RestoreUnguards(pages, table[i].regions, q);
      RecordedAfterUpdate(table, i, NO_MEMORY, q);
    }
  }

  lemma {:induction false} RemoveDisjoint(table: seq<MemoryBreakpoint>, i: nat, q: nat)
    requires Disjoint(table) && i < |table| && table[i].enabled && InRegions(table[i].regions, q)
    ensures !Recorded(table[i := NO_MEMORY], q)
  {
    RecordedAfterUpdate(table, i, NO_MEMORY, q);
  }

  lemma {:induction false} FaultKeepsGuards(s: Engine, t: ThreadId, address: Address, kind: nat, f: Filter)
    requires GuardsHeld(s) && t != 0 && s.running
    ensures GuardsHeld(OnException(s, t, GuardFault(address, kind), f).0)
    ensures OnException(s, t, GuardFault(address, kind), f).0.memory == s.memory
  {
    hide MemoryHit;
  }

  lemma {:induction false} SingleStepKeepsGuards(s: Engine, t: ThreadId, dr6: set<bv64>, f: Filter)
    requires GuardsHeld(s)
    ensures GuardsHeld(OnSingleStep(s, t, dr6, f).0) && OnSingleStep(s, t, dr6, f).0.memory == s.memory
  {
    hide AllGuarded, RearmAll;
    RearmGuards(s.pages, s.memory);
  }

  /** A write through the agent gives every page of its range the first page's protection: the guards are kept exactly
      when the first page is guarded or no other page of the range is recorded. */
  lemma {:induction false} WriteKeepsGuards(s: Engine, address: Address, data: seq<Byte>, writable: bool)
    requires AllGuarded(s.pages, s.memory) && WriteDone(s, address, data, writable)
    ensures AllGuarded(DoWriteMemory(s, address, data, writable).pages, s.memory) <==> SparesGuards(s, address, data)
  {
    var pages := DoWriteMemory(s, address, data, writable).pages;
    var first, last := address / PAGE_SIZE, (address + |data| - 1) / PAGE_SIZE;
    if q: nat :| first < q <= last && Recorded(s.memory, q) {
      assert pages[q].protect == s.pages[first].protect;
    }
  }

  /** The guard invariant; once the agent has ended no memory breakpoint is enabled. */
  ghost predicate Sound(s: Engine) {
    && GuardsHeld(s) && Disjoint(s.memory) && WellRecorded(s.memory)
    && (!s.running ==> forall i :: 0 <= i < |s.memory| ==> !s.memory[i].enabled)
  }

  lemma {:induction false} RemoveKeepsSound(s: Engine, id: BreakpointId)
    requires Sound(s)
    ensures var (pages, memory) := RemoveMemory(s.pages, s.memory, id); Sound(s.(pages := pages, memory := memory))
  {
    var i := First(s.memory, MemoryWithId(id));
    if i >= 0 {
      forall q: nat | InRegions(s.memory[i].regions, q)
        ensures !Recorded(s.memory[i := NO_MEMORY], q)
      {
        RemoveDisjoint(s.memory, i, q);
      }
      if AllGuarded(s.pages, s.memory) { RemoveKeepsGuards(s.pages, s.memory, id); }
    }
  }

  lemma {:induction false} ExceptionKeepsSound(s: Engine, t: ThreadId, x: Exception, f: Filter)
    requires Sound(s) && t != 0
    ensures Sound(OnException(s, t, x, f).0)
  {
    if s.running {
      match x
      case BreakpointTrap(ip) => BreakpointTouches(s, t, ip, f);
      case SingleStepTrap(dr6) =>
        var trapped := Trapped(s, t, x);
        assert GuardsHeld(trapped);
        hide GuardsHeld, OnSingleStep;
        SingleStepKeepsGuards(trapped, t, dr6, f);
        StillRunning(trapped, t, dr6, f);
      case GuardFault(address, kind) => FaultKeepsGuards(s, t, address, kind, f);
      case OtherException =>
    }
  }

  lemma {:induction false} StillRunning(s: Engine, t: ThreadId, dr6: set<bv64>, f: Filter)
    ensures OnSingleStep(s, t, dr6, f).0.running == s.running
  {
    hide RearmAll;
  }

  lemma {:induction false} BreakpointTouches(s: Engine, t: ThreadId, ip: Address, f: Filter)
    requires s.running
    ensures var s' := OnException(s, t, BreakpointTrap(ip), f).0;
            s'.pages == s.pages && s'.memory == s.memory && s'.rearmThread == s.rearmThread && s'.running
  {
    hide AddPending;
  }

  lemma {:induction false} ReplyTouches(s: Engine, t: ThreadId, reply: Reply)
    requires t in s.stops
    ensures var s' := OnReply(s, t, reply).0;
            s'.pages == s.pages && s'.memory == s.memory && s'.rearmThread == s.rearmThread && s'.running == s.running
  {
    hide AddPending, MarkPending, Consume;
    if First(s.pending, OfThread(t)) >= 0 { ConsumeTouches(s.(stops := s.stops - {t}), First(s.pending, OfThread(t))); }
  }

  lemma {:induction false} ConsumeTouches(s: Engine, k: nat)
    requires k < |s.pending|
    ensures Consume(s, k) == s.(mem := Consume(s, k).mem, pending := Consume(s, k).pending)
  {
  }

  lemma {:induction false} StepKeepsGuards(s: Engine, e: Event)
    requires Sound(s) && Possible(s, e) && Apart()(s, e)
    ensures Sound(Step(s, e))
  {
    match e
    case Raise(t, x, f) => ExceptionKeepsSound(s, t, x, f);
    case Answer(t, reply) => ReplyTouches(s, t, reply);
    case SetMemoryAt(id, access, address, size) =>
      SetKeepsGuards(s, id, access, address, size);
      SetKeepsDisjoint(s, id, access, address, size);
    case RemoveMemoryById(id) => RemoveKeepsSound(s, id);
    case WriteMemory(address, data, writable) =>
      if WriteDone(s, address, data, writable) && AllGuarded(s.pages, s.memory) {
        WriteKeepsGuards(s, address, data, writable);
      }
    case Shutdown =>
      var s' := DoShutdown(s);
      assert forall i :: 0 <= i < |s'.memory| ==> !s'.memory[i].enabled;
    case _ =>
  }

  /** In every reachable state, however many threads fault, all recorded pages of enabled breakpoints are
      guarded or a re-arm is pending, as long as breakpoints record disjoint pages. */
  lemma {:induction false} RunKeepsGuards(s: Engine, run: seq<Event>)
    requires Sound(s) && Along(s, run, Apart())
    ensures Sound(Run(s, run))
    decreases |run|
  {
    if run != [] {
      StepKeepsGuards(s, run[0]);
      RunKeepsGuards(Step(s, run[0]), run[1..]);
    }
  }
}
