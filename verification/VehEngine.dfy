/** The exception agent as a state machine. A step is one control request, the part of the exception handler
    that runs up to the pipe exchange, or the part that runs after the reply: other threads may run between
    the two. */
module VehEngine {
  import opened VehTables
  import opened VehHardware
  import opened VehMemory

  /** What a thread inside the pipe exchange remembers. */
  datatype Stop = Stop(
    breakpointId: BreakpointId, address: Address, hardware: bool, memory: bool, stepComplete: bool, policyContinue: bool)

  datatype Engine = Engine(
    mem: map<Address, Byte>,             // target bytes
    software: seq<SoftwareBreakpoint>,
    pending: seq<PendingStep>,
    hardware: seq<HardwareBreakpoint>,
    memory: seq<MemoryBreakpoint>,
    pages: seq<Page>,                    // target page protections
    rearmThread: ThreadId,               // g_pendingGuardRearmThreadId
    stepStopThread: ThreadId,            // g_pendingGuardStepStopThreadId
    trap: set<ThreadId>,                 // threads that run with the trap flag set
    edits: map<ThreadId, Edits>,         // what the handler changed in a thread's context record
    stops: map<ThreadId, Stop>,          // threads waiting for a reply
    running: bool)                       // g_running, with the pipe open

  datatype Register = Ip | Sp | Fp | Ax | Bx | Cx | Dx | Si | Di | Dr6

  /** Registers of a context record that no longer hold what they held at the exception. */
  type Edits = map<Register, nat>

  datatype Policy = PolicySearch | PolicyContinue | PolicyBreakpointOnly

  /** What the exception policies say about the code raised. */
  datatype Filter = Filter(policy: Policy, matched: bool, outputDebugString: bool)

  datatype Exception =
    | BreakpointTrap(ip: Address)
    | SingleStepTrap(dr6: set<bv64>)
    | GuardFault(address: Address, kind: nat)
    | OtherException

  /** `flags`, when the reply replaces the thread's flag word, is the trap flag it carries; `registers` are those the
      reply sets. A reply meant for another thread sets nothing. */
  datatype Reply =
    | Execution(flags: TrapFlag, registers: Edits)
    | StepOnce(flags: TrapFlag, registers: Edits)
    | Search
    | PipeFailed
  datatype TrapFlag = Unchanged | Replaced(on: bool)

  datatype Verdict = Resume | PassOn | Ask(stop: Stop)

  datatype Event =
    | Raise(thread: ThreadId, exception: Exception, filter: Filter)
    | Answer(thread: ThreadId, reply: Reply)
    | SetSoftware(id: BreakpointId, temporary: bool, address: Address, writable: bool)
    | RemoveSoftware(id: BreakpointId, address: Address)
    | SetHardwareAt(b: HardwareBreakpoint, applied: bool)
    | RemoveHardwareById(id: BreakpointId)
    | SetMemoryAt(id: BreakpointId, access: nat, address: Address, size: nat)
    | RemoveMemoryById(id: BreakpointId)
    | WriteMemory(address: Address, data: seq<Byte>, writable: bool)
    | SetContext(thread: ThreadId, flags: TrapFlag)
    | Shutdown

  const MAX_WRITE: nat := 256

  /** SetSoftwareBreakpoint; `writable` is whether the page could be opened for writing. */
  function DoSetSoftware(s: Engine, id: BreakpointId, temporary: bool, address: Address, writable: bool): Engine {
    if address == 0 || First(s.software, AtAddress(address)) >= 0 then s
    else
      var i := First(s.software, Disabled());
      if i < 0 || address !in s.mem || !writable then s
      else s.(mem := s.mem[address := INT3],
              software := s.software[i := SoftwareBreakpoint(id, temporary, address, s.mem[address], true)])
  }

  /** RemoveSoftwareBreakpoint: by id first, then by address. */
  function FindToRemove(software: seq<SoftwareBreakpoint>, id: BreakpointId, address: Address): (i: int)
    ensures -1 <= i < |software|
    ensures i >= 0 ==> software[i].enabled
  {
    var i := First(software, WithId(id));
    if i < 0 && address != 0 then First(software, AtAddress(address)) else i
  }

  function DoRemoveSoftware(s: Engine, id: BreakpointId, address: Address): Engine {
    var i := FindToRemove(s.software, id, address);
    if i < 0 then s
    else s.(mem := s.mem[s.software[i].address := s.software[i].originalByte],
            software := s.software[i := NO_SOFTWARE])
  }

  /** ConsumePendingStep on slot `k`: the slot is freed and the breakpoint it names, if still there, replanted. */
  function Consume(s: Engine, k: nat): Engine
    requires k < |s.pending|
  {
    var e := s.pending[k];
    var i := First(s.software, WithId(e.breakpointId));
    s.(pending := s.pending[k := NO_PENDING],
       mem := if i >= 0 && s.software[i].address == e.address then s.mem[e.address := INT3] else s.mem)
  }

  function ConsumeAny(s: Engine, t: ThreadId): Engine {
    var k := First(s.pending, OfThread(t));
    if k >= 0 then Consume(s, k) else s
  }

  /** Deciding whether the debugger is asked at all. */
  function Report(s: Engine, t: ThreadId, stop: Stop, f: Filter): (Engine, Verdict) {
    var policy := if f.outputDebugString then PolicyContinue else f.policy;
    if stop.breakpointId == 0 && !stop.stepComplete && !f.outputDebugString && !f.matched && policy == PolicyBreakpointOnly
    then (s, PassOn)
    else
      var asked := stop.(policyContinue := policy == PolicyContinue);
      (s.(stops := s.stops[t := asked]), Ask(asked))
  }

  /** The breakpoint at entry `i` lifted for thread `t`: a temporary one leaves the table, another gets a pending step. */
  function Lifted(s: Engine, t: ThreadId, i: nat): Engine
    requires i < |s.software|
  {
    var b := s.software[i];
    var lifted := s.(mem := s.mem[b.address := b.originalByte], edits := s.edits[t := map[Ip := b.address]]);
    if b.temporary then lifted.(software := s.software[i := NO_SOFTWARE])
    else lifted.(trap := s.trap + {t}, pending := AddPending(s.pending, PendingStep(t, b.id, false, b.address)))
  }

  function OnBreakpoint(s: Engine, t: ThreadId, ip: Address, f: Filter): (Engine, Verdict) {
    var i := First(s.software, AtAddress(if ip > 0 then ip - 1 else 0));
    if i < 0 then Report(s, t, Stop(0, 0, false, false, false, false), f)
    else
      Report(Lifted(s, t, i), t, Stop(s.software[i].id, s.software[i].address, false, false, false, false), f)
  }

  function ReportSingleStep(s: Engine, t: ThreadId, stepComplete: bool, dr6: set<bv64>, f: Filter): (Engine, Verdict) {
    var i := First(s.hardware, HitIn(dr6));
    if i >= 0 then
      Report(s.(edits := s.edits[t := map[Dr6 := 0]]), t,
             Stop(s.hardware[i].id, s.hardware[i].address, true, false, stepComplete, false), f)
    else Report(s, t, Stop(0, 0, false, false, stepComplete, false), f)
  }

  function OnSingleStep(s: Engine, t: ThreadId, dr6: set<bv64>, f: Filter): (Engine, Verdict) {
    if s.rearmThread == t then
      var armed := s.(rearmThread := 0, pages := RearmAll(s.pages, s.memory));
      if armed.stepStopThread == t then ReportSingleStep(armed.(stepStopThread := 0), t, true, dr6, f)
      else (armed, Resume)
    else
      var k := First(s.pending, OfThread(t));
      if k < 0 then ReportSingleStep(s, t, false, dr6, f)
      else if !s.pending[k].stopAfterStep then (Consume(s, k), Resume)
      else ReportSingleStep(Consume(s, k), t, true, dr6, f)
  }

  /** Access kinds 1 and 8 are write and execute; anything else counts as a read. */
  function AccessOf(kind: nat): nat {
    if kind == 1 then 2 else if kind == 8 then 4 else 1
  }

  function OnGuardFault(s: Engine, t: ThreadId, address: Address, kind: nat, f: Filter): (Engine, Verdict) {
    var armed := s.(rearmThread := t, trap := s.trap + {t});
    var i := First(s.memory, MemoryHit(address, AccessOf(kind)));
    if i >= 0 then Report(armed, t, Stop(s.memory[i].id, address, false, true, false, false), f)
    else if Recorded(s.memory, address / PAGE_SIZE) then (armed, Resume)
    else Report(s, t, Stop(0, 0, false, false, false, false), f)
  }

  /** What the processor and the system have done before the handler runs: a context record holding the registers
      as they were, the trap flag cleared by a single step, the guard taken off the page that faulted. */
  function Trapped(s: Engine, t: ThreadId, x: Exception): Engine {
    var recorded := s.(edits := s.edits[t := map[]]);
    match x
    case SingleStepTrap(_) => recorded.(trap := s.trap - {t})
    case GuardFault(address, _) => recorded.(pages := Unguard(s.pages, address / PAGE_SIZE))
    case _ => recorded
  }

  /** VehHandler up to the pipe exchange. */
  function OnException(s0: Engine, t: ThreadId, x: Exception, f: Filter): (Engine, Verdict) {
    var s := Trapped(s0, t, x);
    if !s.running then (s, PassOn)
    else
      match x
      case BreakpointTrap(ip) => OnBreakpoint(s, t, ip, f)
      case SingleStepTrap(dr6) => OnSingleStep(s, t, dr6, f)
      case GuardFault(address, kind) => OnGuardFault(s, t, address, kind, f)
      case OtherException => Report(s, t, Stop(0, 0, false, false, false, false), f)
  }

  predicate IsSoftware(stop: Stop) {
    stop.breakpointId != 0 && !stop.hardware && !stop.memory
  }

  function WithTrapFlag(s: Engine, t: ThreadId, flags: TrapFlag): Engine {
    match flags
    case Unchanged => s
    case Replaced(on) => s.(trap := if on then s.trap + {t} else s.trap - {t})
  }

  function EditsOf(s: Engine, t: ThreadId): Edits {
    if t in s.edits then s.edits[t] else map[]
  }

  /** ApplyContextRequestToContext on the record the thread resumes with. */
  function WithContext(s: Engine, t: ThreadId, flags: TrapFlag, registers: Edits): Engine {
    WithTrapFlag(s, t, flags).(edits := s.edits[t := EditsOf(s, t) + registers])
  }

  /** VehHandler after the pipe exchange. */
  function OnReply(s0: Engine, t: ThreadId, reply: Reply): (Engine, Verdict)
    requires t in s0.stops
  {
    var stop := s0.stops[t];
    var s := s0.(stops := s0.stops - {t});
    match reply
    case Execution(flags, registers) => (WithContext(s, t, flags, registers), Resume)
    case StepOnce(flags, registers) =>
      var s' := WithContext(s, t, flags, registers);
      if stop.breakpointId == 0 then
        (s'.(pending := AddPending(s'.pending, PendingStep(t, 0, true, 0)), trap := s'.trap + {t}), Resume)
      else if stop.memory then (s'.(stepStopThread := t), Resume)
      else (s'.(pending := MarkPending(s'.pending, t, stop.breakpointId), trap := s'.trap + {t}), Resume)
    case _ =>
      if IsSoftware(stop) then
        var s' := ConsumeAny(s, t);
        (s'.(mem := s'.mem[stop.address := INT3]), Resume)
      else if stop.breakpointId == 0 && !stop.policyContinue then (s, PassOn)
      else (s, Resume)
  }

  // Requests that change the target directly, and the end of the agent.

  function WriteBytes(mem: map<Address, Byte>, address: Address, data: seq<Byte>): (out: map<Address, Byte>)
    ensures out.Keys == mem.Keys
  {
    map a | a in mem :: if address <= a < address + |data| then data[a - address] else mem[a]
  }

  /** The write goes through: its size is allowed and its pages could be opened. */
  predicate WriteDone(s: Engine, address: Address, data: seq<Byte>, writable: bool) {
    && writable && 0 < |data| <= MAX_WRITE
    && (forall a: nat :: address <= a < address + |data| ==> a in s.mem)
    && (address + |data| - 1) / PAGE_SIZE < |s.pages|
  }

  /** HandleWriteMemoryRequest. VirtualProtect reports the first page's protection, and that is what every page of
      the range gets back. */
  function DoWriteMemory(s: Engine, address: Address, data: seq<Byte>, writable: bool): Engine {
    if !WriteDone(s, address, data, writable) then s
    else
      var first, last := address / PAGE_SIZE, (address + |data| - 1) / PAGE_SIZE;
      s.(mem := WriteBytes(s.mem, address, data),
         pages := Protect(s.pages, first, last - first + 1, s.pages[first].protect))
  }

  /** HandleSetContextRequest: a thread inside the handler does not resume with what is set meanwhile. */
  function DoSetContext(s: Engine, t: ThreadId, flags: TrapFlag): Engine {
    if t in s.stops then s else WithTrapFlag(s, t, flags)
  }

  function Emptied(table: seq<MemoryBreakpoint>): (out: seq<MemoryBreakpoint>)
    ensures |out| == |table| && forall i :: 0 <= i < |out| ==> !out[i].enabled
  {
    seq(|table|, i requires 0 <= i < |table| => if table[i].enabled then NO_MEMORY else table[i])
  }

  /** The end of the agent thread: guards are taken off and hardware breakpoints cleared; planted bytes stay. */
  function DoShutdown(s: Engine): Engine {
    s.(running := false, pages := RestoreAll(s.pages, s.memory),
       memory := Emptied(s.memory), hardware := seq(|s.hardware|, _ => NO_HARDWARE))
  }

  /** Exceptions come from running threads, replies go to waiting ones, requests are read while the agent runs. */
  predicate Possible(s: Engine, e: Event) {
    match e
    case Raise(t, x, f) => t != 0 && t !in s.stops
    case Answer(t, reply) => t in s.stops
    case _ => s.running
  }

  function Step(s: Engine, e: Event): Engine
    requires Possible(s, e)
  {
    match e
    case Raise(t, x, f) => OnException(s, t, x, f).0
    case Answer(t, reply) => OnReply(s, t, reply).0
    case SetSoftware(id, temporary, address, writable) => DoSetSoftware(s, id, temporary, address, writable)
    case RemoveSoftware(id, address) => DoRemoveSoftware(s, id, address)
    case SetHardwareAt(b, applied) => s.(hardware := SetHardware(s.hardware, b, applied))
    case RemoveHardwareById(id) => s.(hardware := RemoveHardware(s.hardware, id))
    case SetMemoryAt(id, access, address, size) =>
      var (pages, memory) := SetMemory(s.pages, s.memory, id, access, address, size);
      s.(pages := pages, memory := memory)
    case RemoveMemoryById(id) =>
      var (pages, memory) := RemoveMemory(s.pages, s.memory, id);
      s.(pages := pages, memory := memory)
    case WriteMemory(address, data, writable) => DoWriteMemory(s, address, data, writable)
    case SetContext(t, flags) => DoSetContext(s, t, flags)
    case Shutdown => DoShutdown(s)
  }

  /** Every event of the run is possible where it happens, and `ok` holds of it there. */
  predicate Along(s: Engine, run: seq<Event>, ok: (Engine, Event) -> bool)
    decreases |run|
  {
    run == [] || (Possible(s, run[0]) && ok(s, run[0]) && Along(Step(s, run[0]), run[1..], ok))
  }

  /** The state after a run; an event that is not possible where it stands does nothing. */
  function Run(s: Engine, run: seq<Event>): Engine
    decreases |run|
  {
    if run == [] then s
    else Run(if Possible(s, run[0]) then Step(s, run[0]) else s, run[1..])
  }
}
