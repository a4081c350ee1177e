/** The agent's globals and its handlers, updated in place and proved against the state machine of VehEngine. */
module VehAgent {
  import opened VehTables
  import opened VehHardware
  import opened VehMemory
  import opened VehEngine
  import VehRuns

  /** Regions recorded already, followed by those a walk adds. */
  ghost function Behind(regions: seq<Region>, walked: (seq<Page>, seq<Region>)): (seq<Page>, seq<Region>) {
    (walked.0, regions + walked.1)
  }

  lemma {:induction false} WalkOn(pages: seq<Page>, p: nat, end: nat, regions: seq<Region>)
    requires PageStart(p) < end && |regions| < MAX_GUARD_PAGES && p < |pages|
    ensures var n := RunLength(pages, p);
            Behind(regions, Walk(pages, p, end, |regions|)) ==
            if Guardable(pages[p]) then
              var more := regions + [Region(p, n, WithoutGuard(pages[p].protect))];
              Behind(more, Walk(Protect(pages, p, n, WithGuard(pages[p].protect)), p + n, end, |more|))
            else Behind(regions, Walk(pages, p + n, end, |regions|))
  {
    if Guardable(pages[p]) {
      var n := RunLength(pages, p);
      var region := Region(p, n, WithoutGuard(pages[p].protect));
      var rest := Walk(Protect(pages, p, n, WithGuard(pages[p].protect)), p + n, end, |regions| + 1).1;
      assert regions + ([region] + rest) == (regions + [region]) + rest;
    }
  }

  lemma {:induction false} WalkStops(pages: seq<Page>, p: nat, end: nat, count: nat)
    requires !(PageStart(p) < end && count < MAX_GUARD_PAGES && p < |pages|)
    ensures Walk(pages, p, end, count) == (pages, [])
  {
  }

  class Agent {
    var mem: map<Address, Byte>
    const software: array<SoftwareBreakpoint>
    const pending: array<PendingStep>
    const hardware: array<HardwareBreakpoint>
    const memory: array<MemoryBreakpoint>
    var pages: seq<Page>
    var rearmThread: ThreadId
    var stepStopThread: ThreadId
    var trap: set<ThreadId>
    var edits: map<ThreadId, Edits>
    var stops: map<ThreadId, Stop>
    var running: bool

    ghost function State(): Engine
      reads this, software, pending, hardware, memory
    {
      Engine(mem, software[..], pending[..], hardware[..], memory[..], pages, rearmThread, stepStopThread, trap, edits, stops,
             running)
    }

    /** Empty tables over a target with these bytes and page protections. */
    constructor (target: map<Address, Byte>, protections: seq<Page>)
      ensures State() == VehRuns.Initial(target, protections)
      ensures fresh(software) && fresh(pending) && fresh(hardware) && fresh(memory)
    {
      mem, pages := target, protections;
      software := new SoftwareBreakpoint[VehRuns.MAX_BREAKPOINTS](_ => NO_SOFTWARE);
      pending := new PendingStep[VehRuns.MAX_PENDING_STEP](_ => NO_PENDING);
      hardware := new HardwareBreakpoint[VehRuns.MAX_HARDWARE_BREAKPOINTS](_ => NO_HARDWARE);
      memory := new MemoryBreakpoint[VehRuns.MAX_MEMORY_BREAKPOINTS](_ => NO_MEMORY);
      rearmThread, stepStopThread, trap, edits, stops, running := 0, 0, {}, map[], map[], true;
    }

    // Software breakpoints.

    method FindBreakpointByAddress(address: Address) returns (i: int)
      ensures i == First(software[..], AtAddress(address))
    {
      for k := 0 to software.Length
        invariant forall j :: 0 <= j < k ==> !AtAddress(address)(software[..][j])
      {
        if software[k].enabled && software[k].address == address {
          assert AtAddress(address)(software[..][k]);
          return k;
        }
      }
      return -1;
    }

    method FindBreakpointById(id: BreakpointId) returns (i: int)
      ensures i == First(software[..], WithId(id))
    {
      for k := 0 to software.Length
        invariant forall j :: 0 <= j < k ==> !WithId(id)(software[..][j])
      {
        if software[k].enabled && software[k].id == id {
          assert WithId(id)(software[..][k]);
          return k;
        }
      }
      return -1;
    }

    method SetSoftwareBreakpoint(id: BreakpointId, temporary: bool, address: Address, writable: bool)
      modifies this`mem, software
      ensures State() == DoSetSoftware(old(State()), id, temporary, address, writable)
    {
      if address == 0 {
        return;
      }
      var existing := FindBreakpointByAddress(address);
      if existing >= 0 {
        return;
      }
      var free := -1;
      for k := 0 to software.Length
        invariant free == -1
        invariant forall j :: 0 <= j < k ==> !Disabled()(software[..][j])
      {
        if !software[k].enabled {
          assert Disabled()(software[..][k]);
          free := k;
          break;
        }
      }
      assert free == First(software[..], Disabled());
      if free < 0 || address !in mem || !writable {
        return;
      }
      var original := mem[address];
      mem := mem[address := INT3];
      software[free] := SoftwareBreakpoint(id, temporary, address, original, true);
    }

    method RemoveSoftwareBreakpoint(id: BreakpointId, address: Address)
      modifies this`mem, software
      ensures State() == DoRemoveSoftware(old(State()), id, address)
    {
      var i := FindBreakpointById(id);
      if i < 0 && address != 0 {
        i := FindBreakpointByAddress(address);
      }
      if i < 0 {
        return;
      }
      mem := mem[software[i].address := software[i].originalByte];
      software[i] := NO_SOFTWARE;
    }

    method AddPendingStep(t: ThreadId, id: BreakpointId, address: Address, stopAfterStep: bool)
      modifies pending
      ensures pending[..] == AddPending(old(pending[..]), PendingStep(t, id, stopAfterStep, address))
    {
      for k := 0 to pending.Length
        invariant pending[..] == old(pending[..])
        invariant forall j :: 0 <= j < k ==> !OfThread(0)(pending[..][j])
      {
        if pending[k].threadId == 0 {
          assert OfThread(0)(pending[..][k]);
          pending[k] := PendingStep(t, id, stopAfterStep, address);
          return;
        }
      }
    }

    method MarkPendingStepStop(t: ThreadId, id: BreakpointId)
      modifies pending
      ensures pending[..] == MarkPending(old(pending[..]), t, id)
    {
      for k := 0 to pending.Length
        invariant pending[..] == old(pending[..])
        invariant forall j :: 0 <= j < k ==> !OfThreadAndId(t, id)(pending[..][j])
      {
        if pending[k].threadId == t && pending[k].breakpointId == id {
          assert OfThreadAndId(t, id)(pending[..][k]);
          pending[k] := pending[k].(stopAfterStep := true);
          return;
        }
      }
    }

    method ConsumePendingStep(t: ThreadId) returns (found: bool, stopAfterStep: bool)
      modifies this`mem, pending
      ensures State() == ConsumeAny(old(State()), t)
      ensures var k := First(old(pending[..]), OfThread(t));
              found == (k >= 0) && stopAfterStep == (k >= 0 && old(pending[..])[k].stopAfterStep)
    {
      for k := 0 to pending.Length
        invariant pending[..] == old(pending[..]) && mem == old(mem)
        invariant forall j :: 0 <= j < k ==> !OfThread(t)(pending[..][j])
      {
        if pending[k].threadId == t {
          assert OfThread(t)(pending[..][k]);
          assert First(pending[..], OfThread(t)) == k;
          var e := pending[k];
          pending[k] := NO_PENDING;
          var i := FindBreakpointById(e.breakpointId);
          if i >= 0 && software[i].address == e.address {
            mem := mem[e.address := INT3];
          }
          return true, e.stopAfterStep;
        }
      }
      return false, false;
    }

    // Hardware breakpoints.

    /** The registers ApplyHardwareBreakpointsToThread writes into thread `t`. */
    method ComputeRegisters(t: ThreadId) returns (regs: DebugRegisters)
      ensures regs == Compute(hardware[..], t, hardware.Length)
    {
      regs := CLEARED;
      for k := 0 to hardware.Length
        invariant regs == Compute(hardware[..], t, k)
      {
        var b := hardware[k];
        if !b.enabled || b.slot > 3 || (b.threadId != 0 && b.threadId != t) {
          continue;
        }
        regs := Load(regs, b);
      }
    }

    method SetHardwareBreakpoint(b: HardwareBreakpoint, applied: bool)
      modifies hardware
      ensures State() == old(State()).(hardware := SetHardware(old(hardware[..]), b, applied))
    {
      if b.address == 0 || b.slot > 3 || b.length == 0 {
        return;
      }
      for k := 0 to hardware.Length
        invariant forall j :: 0 <= j < k ==> !InSlot(b.slot, b.threadId)(hardware[..][j])
      {
        if hardware[k].enabled && hardware[k].slot == b.slot && hardware[k].threadId == b.threadId {
          assert InSlot(b.slot, b.threadId)(hardware[..][k]);
          return;
        }
      }
      for k := 0 to hardware.Length
        invariant hardware[..] == old(hardware[..])
        invariant forall j :: 0 <= j < k ==> !HardwareDisabled()(hardware[..][j])
      {
        if !hardware[k].enabled {
          assert HardwareDisabled()(hardware[..][k]);
          hardware[k] := b.(enabled := true);
          if !applied {
            hardware[k] := NO_HARDWARE;
          }
          return;
        }
      }
    }

    method RemoveHardwareBreakpoint(id: BreakpointId)
      modifies hardware
      ensures State() == old(State()).(hardware := RemoveHardware(old(hardware[..]), id))
    {
      for k := 0 to hardware.Length
        invariant hardware[..] == old(hardware[..])
        invariant forall j :: 0 <= j < k ==> !HardwareWithId(id)(hardware[..][j])
      {
        if hardware[k].enabled && hardware[k].id == id {
          assert HardwareWithId(id)(hardware[..][k]);
          hardware[k] := NO_HARDWARE;
          return;
        }
      }
    }

    method FindHardwareBreakpointByDr6(dr6: set<bv64>) returns (i: int)
      ensures i == First(hardware[..], HitIn(dr6))
    {
      for k := 0 to hardware.Length
        invariant forall j :: 0 <= j < k ==> !HitIn(dr6)(hardware[..][j])
      {
        if hardware[k].enabled && hardware[k].slot < 4 && hardware[k].slot in dr6 {
          assert HitIn(dr6)(hardware[..][k]);
          return k;
        }
      }
      return -1;
    }

    // Memory breakpoints.

    method RearmMemoryBreakpoints()
      modifies this`pages
      ensures pages == RearmAll(old(pages), memory[..])
    {
      for k := 0 to memory.Length
        invariant RearmAll(pages, memory[k..]) == RearmAll(old(pages), memory[..])
      {
        var b := memory[k];
        assert memory[k..][0] == b && memory[k..][1..] == memory[k + 1..];
        if b.enabled {
          ghost var before := pages;
          for r := 0 to |b.regions|
            invariant RearmRegions(pages, b.regions[r..]) == RearmRegions(before, b.regions)
          {
            var region := b.regions[r];
            assert b.regions[r..][0] == region && b.regions[r..][1..] == b.regions[r + 1..];
            pages := Protect(pages, region.base, region.count, WithGuard(region.originalProtect));
          }
        }
      }
    }

    method FindFreeMemoryBreakpoint() returns (free: int)
      ensures free == First(memory[..], MemoryDisabled())
    {
      for k := 0 to memory.Length
        invariant forall j :: 0 <= j < k ==> !MemoryDisabled()(memory[..][j])
      {
        if !memory[k].enabled {
          assert MemoryDisabled()(memory[..][k]);
          return k;
        }
      }
      return -1;
    }

    /** The loop over the pages from `address` to `end`. */
    method GuardPages(address: Address, end: nat) returns (regions: seq<Region>)
      modifies this`pages
      ensures (pages, regions) == Walk(old(pages), address / PAGE_SIZE, end, 0)
    {
      hide Walk, Protect, RunLength, Guardable;
      var p := address / PAGE_SIZE;
      regions := [];
      ghost var whole := Walk(pages, p, end, 0);
      assert [] + whole.1 == whole.1;
      while PageStart(p) < end && |regions| < MAX_GUARD_PAGES && p < |pages|
        invariant |pages| == old(|pages|) && |regions| <= MAX_GUARD_PAGES
        invariant whole == Behind(regions, Walk(pages, p, end, |regions|))
        decreases |pages| - p
      {
        WalkOn(pages, p, end, regions);
        var n := RunLength(pages, p);
        if Guardable(pages[p]) {
          var oldProtect := pages[p].protect;
          pages := Protect(pages, p, n, WithGuard(oldProtect));
          regions := regions + [Region(p, n, WithoutGuard(oldProtect))];
        }
        p := p + n;
      }
      WalkStops(pages, p, end, |regions|);
      assert regions + [] == regions;
    }

    method SetMemoryBreakpoint(id: BreakpointId, access: nat, address: Address, size: nat)
      modifies this`pages, memory
      ensures (pages, memory[..]) == SetMemory(old(pages), old(memory[..]), id, access, address, size)
    {
      hide Walk;
      if address == 0 || size == 0 || access == 0 {
        return;
      }
      var free := FindFreeMemoryBreakpoint();
      if free < 0 {
        return;
      }
      var regions := GuardPages(address, (address + size) % ADDRESS_SPACE);
      if regions == [] {
        return;
      }
      memory[free] := MemoryBreakpoint(id, access, address, size, true, regions);
    }

    method RemoveMemoryBreakpoint(id: BreakpointId)
      modifies this`pages, memory
      ensures (pages, memory[..]) == RemoveMemory(old(pages), old(memory[..]), id)
    {
      for k := 0 to memory.Length
        invariant pages == old(pages) && memory[..] == old(memory[..])
        invariant forall j :: 0 <= j < k ==> !MemoryWithId(id)(memory[..][j])
      {
        if memory[k].enabled && memory[k].id == id {
          assert MemoryWithId(id)(memory[..][k]);
          RestoreMemoryBreakpoint(k);
          return;
        }
      }
    }

    method RestoreMemoryBreakpoint(k: nat)
      requires k < memory.Length
      modifies this`pages, memory
      ensures pages == Restore(old(pages), old(memory[k]).regions)
      ensures memory[..] == old(memory[..])[k := NO_MEMORY]
    {
      var regions := memory[k].regions;
      for r := 0 to |regions|
        invariant memory[..] == old(memory[..])
        invariant Restore(pages, regions[r..]) == Restore(old(pages), regions)
      {
        var region := regions[r];
        assert regions[r..][0] == region && regions[r..][1..] == regions[r + 1..];
        pages := Protect(pages, region.base, region.count, region.originalProtect);
      }
      memory[k] := NO_MEMORY;
    }

    method FindMemoryBreakpointByFault(fault: Address, access: nat) returns (i: int)
      ensures i == First(memory[..], MemoryHit(fault, access))
    {
      for k := 0 to memory.Length
        invariant forall j :: 0 <= j < k ==> !MemoryHit(fault, access)(memory[..][j])
      {
        var b := memory[k];
        if b.enabled && b.address <= fault < (b.address + b.size) % ADDRESS_SPACE && SharesBit(b.access, access) {
          assert MemoryHit(fault, access)(memory[..][k]);
          return k;
        }
      }
      return -1;
    }

    method IsGuardedFaultAddress(fault: Address) returns (guarded: bool)
      ensures guarded <==> Recorded(memory[..], fault / PAGE_SIZE)
    {
      var q := fault / PAGE_SIZE;
      for k := 0 to memory.Length
        invariant forall j :: 0 <= j < k ==> !(memory[..][j].enabled && InRegions(memory[..][j].regions, q))
      {
        var b := memory[k];
        if b.enabled {
          for r := 0 to |b.regions|
            invariant forall j :: 0 <= j < r ==> !Covers(b.regions[j], q)
          {
            if Covers(b.regions[r], q) {
              assert InRegions(b.regions, q) && memory[..][k] == b;
              return true;
            }
          }
        }
      }
      return false;
    }

    // The exception handler.

    /** The policy decision and the message; the thread then waits for the reply. */
    method Ask(t: ThreadId, stop: Stop, f: Filter) returns (verdict: Verdict)
      modifies this`stops
      ensures (State(), verdict) == Report(old(State()), t, stop, f)
    {
      var policy := if f.outputDebugString then PolicyContinue else f.policy;
      if stop.breakpointId == 0 && !stop.stepComplete && !f.outputDebugString && !f.matched && policy == PolicyBreakpointOnly {
        return PassOn;
      }
      var asked := stop.(policyContinue := policy == PolicyContinue);
      stops := stops[t := asked];
      return Verdict.Ask(asked);
    }

    /** Takes the breakpoint at entry `i` out of the way of the thread that hit it. */
    method Lift(t: ThreadId, i: nat)
      requires i < software.Length
      modifies this`mem, this`trap, this`edits, software, pending
      ensures State() == Lifted(old(State()), t, i)
    {
      hide AddPending;
      var b := software[i];
      mem := mem[b.address := b.originalByte];
      if b.temporary {
        software[i] := NO_SOFTWARE;
      }
      edits := edits[t := map[Ip := b.address]];
      if !b.temporary {
        trap := trap + {t};
        AddPendingStep(t, b.id, b.address, false);
      }
    }

    method HandleBreakpoint(t: ThreadId, ip: Address, f: Filter) returns (verdict: Verdict)
      modifies this`mem, this`trap, this`edits, this`stops, software, pending
      ensures (State(), verdict) == OnBreakpoint(old(State()), t, ip, f)
    {
      hide Lifted, Report;
      var i := FindBreakpointByAddress(if ip > 0 then ip - 1 else 0);
      var stop := Stop(0, 0, false, false, false, false);
      if i >= 0 {
        stop := stop.(breakpointId := software[i].id, address := software[i].address);
        Lift(t, i);
      }
      verdict := Ask(t, stop, f);
    }

    method HandleSingleStep(t: ThreadId, dr6: set<bv64>, f: Filter) returns (verdict: Verdict)
      modifies this, pending
      ensures (State(), verdict) == OnSingleStep(old(State()), t, dr6, f)
    {
      hide RearmAll;
      var stepComplete := false;
      if rearmThread == t {
        rearmThread := 0;
        RearmMemoryBreakpoints();
        if stepStopThread != t {
          return Resume;
        }
        stepStopThread := 0;
        stepComplete := true;
      }
      if !stepComplete {
        var found, stop := ConsumePendingStep(t);
        if found {
          if !stop {
            return Resume;
          }
          stepComplete := true;
        }
      }
      verdict := ReportStep(t, stepComplete, dr6, f);
    }

    method ReportStep(t: ThreadId, stepComplete: bool, dr6: set<bv64>, f: Filter) returns (verdict: Verdict)
      modifies this`edits, this`stops
      ensures (State(), verdict) == ReportSingleStep(old(State()), t, stepComplete, dr6, f)
    {
      var i := FindHardwareBreakpointByDr6(dr6);
      var stop := Stop(0, 0, false, false, stepComplete, false);
      if i >= 0 {
        stop := stop.(breakpointId := hardware[i].id, address := hardware[i].address, hardware := true);
        edits := edits[t := map[Dr6 := 0]];
      }
      verdict := Ask(t, stop, f);
    }

    method HandleGuardFault(t: ThreadId, address: Address, kind: nat, f: Filter) returns (verdict: Verdict)
      modifies this`rearmThread, this`trap, this`stops
      ensures (State(), verdict) == OnGuardFault(old(State()), t, address, kind, f)
    {
      hide Recorded;
      var i := FindMemoryBreakpointByFault(address, AccessOf(kind));
      var stop := Stop(0, 0, false, false, false, false);
      if i >= 0 {
        stop := stop.(breakpointId := memory[i].id, address := address, memory := true);
        rearmThread, trap := t, trap + {t};
      } else {
        var guarded := IsGuardedFaultAddress(address);
        if guarded {
          rearmThread, trap := t, trap + {t};
          return Resume;
        }
      }
      verdict := Ask(t, stop, f);
    }

    /** What the processor and the system do to the target before the handler runs. */
    method Trap(t: ThreadId, x: Exception)
      modifies this`edits, this`trap, this`pages
      ensures State() == Trapped(old(State()), t, x)
    {
      edits := edits[t := map[]];
      match x
      case SingleStepTrap(_) => trap := trap - {t};
      case GuardFault(address, _) => pages := Unguard(pages, address / PAGE_SIZE);
      case _ =>
    }

    /** VehHandler up to the pipe exchange. */
    method HandleException(t: ThreadId, x: Exception, f: Filter) returns (verdict: Verdict)
      modifies this, software, pending
      ensures (State(), verdict) == OnException(old(State()), t, x, f)
    {
      hide Trapped, OnBreakpoint, OnSingleStep, OnGuardFault, Report;
      Trap(t, x);
      if !running {
        return PassOn;
      }
      match x
      case BreakpointTrap(ip) => verdict := HandleBreakpoint(t, ip, f);
      case SingleStepTrap(dr6) => verdict := HandleSingleStep(t, dr6, f);
      case GuardFault(address, kind) => verdict := HandleGuardFault(t, address, kind, f);
      case OtherException => verdict := Ask(t, Stop(0, 0, false, false, false, false), f);
    }

    /** ApplyContextRequestToContext. */
    method ApplyContext(t: ThreadId, flags: TrapFlag, registers: Edits)
      modifies this`edits, this`trap
      ensures State() == WithContext(old(State()), t, flags, registers)
    {
      if flags.Replaced? {
        trap := if flags.on then trap + {t} else trap - {t};
      }
      edits := edits[t := (if t in edits then edits[t] else map[]) + registers];
    }

    /** VehHandler after the pipe exchange. */
    method HandleReply(t: ThreadId, reply: Reply) returns (verdict: Verdict)
      requires t in stops
      modifies this, pending
      ensures (State(), verdict) == OnReply(old(State()), t, reply)
    {
      hide WithContext, AddPending, MarkPending;
      var stop := stops[t];
      stops := stops - {t};
      if reply.Execution? || reply.StepOnce? {
        ApplyContext(t, reply.flags, reply.registers);
        if reply.Execution? {
          return Resume;
        }
        if stop.breakpointId != 0 {
          if stop.memory {
            stepStopThread := t;
          } else {
            MarkPendingStepStop(t, stop.breakpointId);
            trap := trap + {t};
          }
        } else {
          AddPendingStep(t, 0, 0, true);
          trap := trap + {t};
        }
        return Resume;
      }
      if stop.breakpointId == 0 {
        return if stop.policyContinue then Resume else PassOn;
      }
      if !stop.hardware && !stop.memory {
        var found, ignored := ConsumePendingStep(t);
        mem := mem[stop.address := INT3];
      }
      return Resume;
    }

    // Requests that change the target directly, and the end of the agent.

    method WriteMemory(address: Address, data: seq<Byte>, writable: bool)
      modifies this`mem, this`pages
      ensures State() == DoWriteMemory(old(State()), address, data, writable)
    {
      if |data| == 0 || |data| > MAX_WRITE {
        return;
      }
      var first, last := address / PAGE_SIZE, (address + |data| - 1) / PAGE_SIZE;
      if !writable || last >= |pages| {
        return;
      }
      for i := 0 to |data|
        invariant forall a: nat :: address <= a < address + i ==> a in mem
      {
        if address + i !in mem {
          assert !WriteDone(State(), address, data, writable);
          return;
        }
      }
      var oldProtect := pages[first].protect;
      for i := 0 to |data|
        invariant pages == old(pages) && mem == WriteBytes(old(mem), address, data[..i])
      {
        mem := mem[address + i := data[i]];
      }
      assert data[..|data|] == data && WriteDone(old(State()), address, data, writable);
      pages := Protect(pages, first, last - first + 1, oldProtect);
    }

    method SetContext(t: ThreadId, flags: TrapFlag)
      modifies this`trap
      ensures State() == DoSetContext(old(State()), t, flags)
    {
      if t !in stops && flags.Replaced? {
        trap := if flags.on then trap + {t} else trap - {t};
      }
    }

    method RestoreMemoryBreakpoints()
      modifies this`pages, memory
      ensures pages == RestoreAll(old(pages), old(memory[..])) && memory[..] == Emptied(old(memory[..]))
    {
      hide Restore;
      ghost var table := memory[..];
      assert table[0..] == table;
      for k := 0 to memory.Length
        invariant RestoreAll(pages, table[k..]) == RestoreAll(old(pages), table)
        invariant forall j :: 0 <= j < k ==> memory[j] == Emptied(table)[j]
        invariant memory[k..] == table[k..]
      {
        assert table[k..][0] == table[k] == memory[k] && table[k..][1..] == table[k + 1..];
        ghost var tail := memory[k + 1..];
        if memory[k].enabled {
          RestoreMemoryBreakpoint(k);
        }
        assert memory[k + 1..] == tail;
      }
    }

    method ClearHardware()
      modifies hardware
      ensures hardware[..] == seq(hardware.Length, _ => NO_HARDWARE)
    {
      for k := 0 to hardware.Length
        invariant forall j :: 0 <= j < k ==> hardware[j] == NO_HARDWARE
      {
        hardware[k] := NO_HARDWARE;
      }
    }

    /** What the agent thread does once it is told to stop or the pipe is broken. */
    method End()
      modifies this`running, this`pages, memory, hardware
      ensures State() == DoShutdown(old(State()))
    {
      hide RestoreAll;
      running := false;
      RestoreMemoryBreakpoints();
      ClearHardware();
    }
  }
}
