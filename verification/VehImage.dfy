/** The program image: what target memory holds while breakpoints are planted, lifted and removed. */
module VehImage {
  import opened VehTables
  import opened VehHardware
  import opened VehMemory
  import opened VehEngine

  type Bytes = map<Address, Byte>

  /** An enabled entry sits at `address`. */
  predicate Planted(software: seq<SoftwareBreakpoint>, address: Address) {
    exists i :: 0 <= i < |software| && software[i].enabled && software[i].address == address
  }

  ghost predicate DistinctAddresses(software: seq<SoftwareBreakpoint>) {
    forall i, j :: 0 <= i < j < |software| && software[i].enabled && software[j].enabled ==>
      software[i].address != software[j].address
  }

  /** Memory is the program except that an address with an enabled entry may hold the breakpoint
      instruction, and every enabled entry remembers the program's byte. */
  ghost predicate Shows(mem: Bytes, software: seq<SoftwareBreakpoint>, program: Bytes) {
    && mem.Keys == program.Keys
    && (forall i :: 0 <= i < |software| && software[i].enabled ==>
          software[i].address in program && software[i].originalByte == program[software[i].address])
    && (forall a :: a in program ==> mem[a] == program[a] || (mem[a] == INT3 && Planted(software, a)))
  }

  ghost predicate Image(s: Engine, program: Bytes) {
    && DistinctAddresses(s.software)
    && Shows(s.mem, s.software, program)
    && (forall t :: t in s.stops && IsSoftware(s.stops[t]) ==> s.stops[t].address in program)
  }

  /** The reply takes the fall-through, which plants 0xCC without looking at the table. */
  predicate FallsThrough(s: Engine, t: ThreadId, reply: Reply)
    requires t in s.stops
  {
    (reply.Search? || reply.PipeFailed?) && IsSoftware(s.stops[t])
  }

  /** What a caller can check before such a reply: an entry is still enabled where the thread stopped,
      or the program has 0xCC there anyway. */
  predicate SafeReply(s: Engine, program: Bytes, t: ThreadId, reply: Reply)
    requires t in s.stops
  {
    FallsThrough(s, t, reply) ==>
      var a := s.stops[t].address;
      Planted(s.software, a) || (a in program && program[a] == INT3)
  }

  /** What a caller can check before a memory write: at planted addresses it writes the byte the entry remembers. */
  predicate SafeWrite(software: seq<SoftwareBreakpoint>, address: Address, data: seq<Byte>) {
    forall i :: 0 <= i < |software| && software[i].enabled && address <= software[i].address < address + |data| ==>
      software[i].originalByte == data[software[i].address - address]
  }

  /** A write request changes the program itself; nothing else does. */
  function Intended(s: Engine, program: Bytes, e: Event): Bytes {
    if e.WriteMemory? && WriteDone(s, e.address, e.data, e.writable) then WriteBytes(program, e.address, e.data) else program
  }

  /** The side conditions: replies that fall through and writes that go through are safe. */
  predicate Careful(s: Engine, program: Bytes, e: Event) {
    && (e.Answer? && e.thread in s.stops ==> SafeReply(s, program, e.thread, e.reply))
    && (e.WriteMemory? && WriteDone(s, e.address, e.data, e.writable) ==> SafeWrite(s.software, e.address, e.data))
  }

  predicate CarefulRun(s: Engine, program: Bytes, run: seq<Event>)
    decreases |run|
  {
    run == [] ||
    (Possible(s, run[0]) && Careful(s, program, run[0])
     && CarefulRun(Step(s, run[0]), Intended(s, program, run[0]), run[1..]))
  }

  /** The program after the writes of a run. */
  function ProgramAfter(s: Engine, program: Bytes, run: seq<Event>): Bytes
    decreases |run|
  {
    if run == [] then program
    else if !Possible(s, run[0]) then ProgramAfter(s, program, run[1..])
    else ProgramAfter(Step(s, run[0]), Intended(s, program, run[0]), run[1..])
  }

  lemma {:induction false} WritePlanted(mem: Bytes, software: seq<SoftwareBreakpoint>, program: Bytes, a: Address, v: Byte)
    requires Shows(mem, software, program) && Planted(software, a)
    requires a in program && (v == INT3 || v == program[a])
    ensures Shows(mem[a := v], software, program)
  {
  }

  lemma {:induction false} Clear(mem: Bytes, software: seq<SoftwareBreakpoint>, program: Bytes, i: nat)
    requires Shows(mem, software, program) && DistinctAddresses(software)
    requires i < |software| && software[i].enabled
    ensures Shows(mem[software[i].address := software[i].originalByte], software[i := NO_SOFTWARE], program)
    ensures DistinctAddresses(software[i := NO_SOFTWARE])
  {
    var software' := software[i := NO_SOFTWARE];
    forall a | a in program && a != software[i].address && Planted(software, a)
      ensures Planted(software', a)
    {
      var j :| 0 <= j < |software| && software[j].enabled && software[j].address == a;
      assert software'[j] == software[j];
    }
  }

  lemma {:induction false} Plant(mem: Bytes, software: seq<SoftwareBreakpoint>, program: Bytes, i: nat, b: SoftwareBreakpoint)
    requires Shows(mem, software, program) && DistinctAddresses(software)
    requires i < |software| && !software[i].enabled && b.enabled
    requires b.address in mem && !Planted(software, b.address) && b.originalByte == mem[b.address]
    ensures Shows(mem[b.address := INT3], software[i := b], program)
    ensures DistinctAddresses(software[i := b])
  {
    var software' := software[i := b];
    assert software'[i] == b;
    forall a | a in program && Planted(software, a)
      ensures Planted(software', a)
    {
      var j :| 0 <= j < |software| && software[j].enabled && software[j].address == a;
      assert software'[j] == software[j];
    }
  }

  lemma {:induction false} SearchIsPlanted(software: seq<SoftwareBreakpoint>, a: Address)
    ensures First(software, AtAddress(a)) >= 0 <==> Planted(software, a)
  {
    if Planted(software, a) {
      var i :| 0 <= i < |software| && software[i].enabled && software[i].address == a;
      assert AtAddress(a)(software[i]);
    }
  }

  lemma {:induction false} SetKeepsImage(s: Engine, program: Bytes, id: BreakpointId, temporary: bool, address: Address, writable: bool)
    requires Image(s, program)
    ensures Image(DoSetSoftware(s, id, temporary, address, writable), program)
  {
    SearchIsPlanted(s.software, address);
    var i := First(s.software, Disabled());
    if DoSetSoftware(s, id, temporary, address, writable) != s {
      Plant(s.mem, s.software, program, i, SoftwareBreakpoint(id, temporary, address, s.mem[address], true));
    }
  }

  lemma {:induction false} RemoveKeepsImage(s: Engine, program: Bytes, id: BreakpointId, address: Address)
    requires Image(s, program)
    ensures Image(DoRemoveSoftware(s, id, address), program)
  {
    var i := FindToRemove(s.software, id, address);
    if i >= 0 { Clear(s.mem, s.software, program, i); }
  }

  lemma {:induction false} ConsumeKeepsImage(s: Engine, program: Bytes, t: ThreadId)
    requires Image(s, program)
    ensures Image(ConsumeAny(s, t), program) && ConsumeAny(s, t).software == s.software
  {
    var k := First(s.pending, OfThread(t));
    if k >= 0 {
      var e := s.pending[k];
      var i := First(s.software, WithId(e.breakpointId));
      if i >= 0 && s.software[i].address == e.address {
        WritePlanted(s.mem, s.software, program, e.address, INT3);
      }
    }
  }

  /** Asking the debugger only records the stop. */
  lemma {:induction false} ReportKeepsImage(s: Engine, program: Bytes, t: ThreadId, stop: Stop, f: Filter)
    requires Image(s, program) && (IsSoftware(stop) ==> stop.address in program)
    ensures Image(Report(s, t, stop, f).0, program)
  {
  }

  lemma {:induction false} BreakpointKeepsImage(s: Engine, program: Bytes, t: ThreadId, ip: Address, f: Filter)
    requires Image(s, program)
    ensures Image(OnBreakpoint(s, t, ip, f).0, program)
  {
    hide AddPending, Report;
    var i := First(s.software, AtAddress(if ip > 0 then ip - 1 else 0));
    if i < 0 {
      OtherKeepsImage(s, program, t, f);
    } else {
      var b := s.software[i];
      LiftKeepsImage(s, program, t, i);
      ReportKeepsImage(Lifted(s, t, i), program, t, Stop(b.id, b.address, false, false, false, false), f);
    }
  }

  lemma {:induction false} LiftKeepsImage(s: Engine, program: Bytes, t: ThreadId, i: nat)
    requires Image(s, program) && i < |s.software| && s.software[i].enabled
    ensures Image(Lifted(s, t, i), program) && s.software[i].address in program
  {
    hide AddPending;
    var b := s.software[i];
    if b.temporary {
      Clear(s.mem, s.software, program, i);
    } else {
      WritePlanted(s.mem, s.software, program, b.address, b.originalByte);
    }
  }

  lemma {:induction false} ReportSingleStepKeepsImage(s: Engine, program: Bytes, t: ThreadId, stepComplete: bool, dr6: set<bv64>, f: Filter)
    requires Image(s, program)
    ensures Image(ReportSingleStep(s, t, stepComplete, dr6, f).0, program)
  {
    var i := First(s.hardware, HitIn(dr6));
    if i >= 0 {
      ReportKeepsImage(s, program, t, Stop(s.hardware[i].id, s.hardware[i].address, true, false, stepComplete, false), f);
    } else {
      ReportKeepsImage(s, program, t, Stop(0, 0, false, false, stepComplete, false), f);
    }
  }

  lemma {:induction false} SingleStepKeepsImage(s: Engine, program: Bytes, t: ThreadId, dr6: set<bv64>, f: Filter)
    requires Image(s, program)
    ensures Image(OnSingleStep(s, t, dr6, f).0, program)
  {
    if s.rearmThread == t {
      var armed := s.(rearmThread := 0, pages := RearmAll(s.pages, s.memory));
      assert Image(armed, program);
      if armed.stepStopThread == t {
        ReportSingleStepKeepsImage(armed.(stepStopThread := 0), program, t, true, dr6, f);
      }
    } else {
      var k := First(s.pending, OfThread(t));
      if k < 0 {
        ReportSingleStepKeepsImage(s, program, t, false, dr6, f);
      } else {
        ConsumeKeepsImage(s, program, t);
        ReportSingleStepKeepsImage(Consume(s, k), program, t, true, dr6, f);
      }
    }
  }

  lemma {:induction false} GuardFaultKeepsImage(s: Engine, program: Bytes, t: ThreadId, address: Address, kind: nat, f: Filter)
    requires Image(s, program)
    ensures Image(OnGuardFault(s, t, address, kind, f).0, program)
  {
  }

  lemma {:induction false} ExceptionKeepsImage(s: Engine, program: Bytes, t: ThreadId, x: Exception, f: Filter)
    requires Image(s, program)
    ensures Image(OnException(s, t, x, f).0, program)
  {
    var trapped := Trapped(s, t, x);
    assert trapped.mem == s.mem && trapped.software == s.software && trapped.stops == s.stops;
    assert Image(trapped, program);
    hide Image;
    if trapped.running {
      match x
      case BreakpointTrap(ip) => BreakpointKeepsImage(trapped, program, t, ip, f);
      case SingleStepTrap(dr6) => SingleStepKeepsImage(trapped, program, t, dr6, f);
      case GuardFault(address, kind) => GuardFaultKeepsImage(trapped, program, t, address, kind, f);
      case OtherException => OtherKeepsImage(trapped, program, t, f);
    }
  }

  lemma {:induction false} OtherKeepsImage(s: Engine, program: Bytes, t: ThreadId, f: Filter)
    requires Image(s, program)
    ensures Image(Report(s, t, Stop(0, 0, false, false, false, false), f).0, program)
  {
    ReportKeepsImage(s, program, t, Stop(0, 0, false, false, false, false), f);
  }

  /** What a fall-through leaves behind: the slot consumed, then 0xCC at the stop's address. */
  lemma {:induction false} FallThrough(s: Engine, t: ThreadId, reply: Reply)
    requires t in s.stops && FallsThrough(s, t, reply)
    ensures var consumed := ConsumeAny(s.(stops := s.stops - {t}), t);
            OnReply(s, t, reply).0 == consumed.(mem := consumed.mem[s.stops[t].address := INT3])
  {
  }

  /** Writing 0xCC keeps the image exactly where an entry is enabled or the program has 0xCC itself. */
  lemma {:induction false} PlantBlindly(s: Engine, program: Bytes, a: Address)
    requires Image(s, program) && a in program
    ensures Image(s.(mem := s.mem[a := INT3]), program) <==> Planted(s.software, a) || program[a] == INT3
  {
    if Planted(s.software, a) { WritePlanted(s.mem, s.software, program, a, INT3); }
  }

  /** A reply keeps the image exactly when it is safe: the fall-through over an entry that is gone
      (a temporary breakpoint, or one removed meanwhile) leaves a stray 0xCC in the program. */
  lemma {:induction false} ReplyKeepsImage(s: Engine, program: Bytes, t: ThreadId, reply: Reply)
    requires Image(s, program) && t in s.stops
    ensures Image(OnReply(s, t, reply).0, program) <==> SafeReply(s, program, t, reply)
  {
    var waiting := s.(stops := s.stops - {t});
    assert Image(waiting, program);
    if FallsThrough(s, t, reply) {
      assert s.stops[t].address in program;
      hide Image, OnReply, ConsumeAny;
      ConsumeKeepsImage(waiting, program, t);
      FallThrough(s, t, reply);
      PlantBlindly(ConsumeAny(waiting, t), program, s.stops[t].address);
    } else {
      OtherReply(s, t, reply);
    }
  }

  lemma {:induction false} OtherReply(s: Engine, t: ThreadId, reply: Reply)
    requires t in s.stops && !FallsThrough(s, t, reply)
    ensures var s' := OnReply(s, t, reply).0;
            s'.mem == s.mem && s'.software == s.software && s'.stops == s.stops - {t}
  {
    hide AddPending, MarkPending, ConsumeAny, WithContext;
    match reply
    case Execution(flags, registers) => ContextOnly(s.(stops := s.stops - {t}), t, flags, registers);
    case StepOnce(flags, registers) => ContextOnly(s.(stops := s.stops - {t}), t, flags, registers);
    case _ =>
  }

  lemma {:induction false} ContextOnly(s: Engine, t: ThreadId, flags: TrapFlag, registers: Edits)
    ensures var s' := WithContext(s, t, flags, registers);
            s' == s.(trap := s'.trap, edits := s'.edits)
  {
  }

  /** A write keeps the image exactly when it writes at planted addresses what is remembered there. */
  lemma {:induction false} WriteKeepsImage(s: Engine, program: Bytes, address: Address, data: seq<Byte>, writable: bool)
    requires Image(s, program) && WriteDone(s, address, data, writable)
    ensures Image(DoWriteMemory(s, address, data, writable), WriteBytes(program, address, data))
            <==> SafeWrite(s.software, address, data)
  {
    var program' := WriteBytes(program, address, data);
    forall i | 0 <= i < |s.software| && s.software[i].enabled
      ensures s.software[i].originalByte == program'[s.software[i].address] <==>
                (address <= s.software[i].address < address + |data| ==>
                   s.software[i].originalByte == data[s.software[i].address - address])
    {
    }
  }

  lemma {:induction false} StepKeepsImage(s: Engine, program: Bytes, e: Event)
    requires Image(s, program) && Possible(s, e) && Careful(s, program, e)
    ensures Image(Step(s, e), Intended(s, program, e))
  {
    match e
    case Raise(t, x, f) => ExceptionKeepsImage(s, program, t, x, f);
    case Answer(t, reply) => ReplyKeepsImage(s, program, t, reply);
    case SetSoftware(id, temporary, address, writable) => SetKeepsImage(s, program, id, temporary, address, writable);
    case RemoveSoftware(id, address) => RemoveKeepsImage(s, program, id, address);
    case WriteMemory(address, data, writable) =>
      if WriteDone(s, address, data, writable) { WriteKeepsImage(s, program, address, data, writable); }
    case _ =>
  }

  /** In every state reached by requests, safe writes, exceptions and safe replies from any threads, the image of the
      program, as changed by the writes, is intact. */
  lemma {:induction false} RunKeepsImage(s: Engine, program: Bytes, run: seq<Event>)
    requires Image(s, program) && CarefulRun(s, program, run)
    ensures Image(Run(s, run), ProgramAfter(s, program, run))
    decreases |run|
  {
    if run != [] {
      StepKeepsImage(s, program, run[0]);
      RunKeepsImage(Step(s, run[0]), Intended(s, program, run[0]), run[1..]);
    }
  }

  /** The agent's end leaves the program behind exactly when no enabled entry is planted over a different byte; from
      then on a planted byte that is hit is passed on to the process. */
  lemma {:induction false} ShutdownLeaves(s: Engine, program: Bytes, t: ThreadId, ip: Address, f: Filter)
    requires Image(s, program)
    ensures DoShutdown(s).mem == program <==>
              forall i :: 0 <= i < |s.software| && s.software[i].enabled ==>
                s.mem[s.software[i].address] == s.software[i].originalByte
    ensures OnException(DoShutdown(s), t, BreakpointTrap(ip), f).1 == PassOn
    ensures OnException(DoShutdown(s), t, BreakpointTrap(ip), f).0.mem == s.mem
  {
    if forall i :: 0 <= i < |s.software| && s.software[i].enabled ==>
         s.mem[s.software[i].address] == s.software[i].originalByte
    {
      forall a | a in program
        ensures s.mem[a] == program[a]
      {
        assert s.mem[a] == program[a] || Planted(s.software, a);
      }
    }
  }

  function EnabledCount(software: seq<SoftwareBreakpoint>): nat {
    if software == [] then 0 else (if software[0].enabled then 1 else 0) + EnabledCount(software[1..])
  }

  lemma {:induction false} ClearCounts(software: seq<SoftwareBreakpoint>, i: nat)
    requires i < |software| && software[i].enabled
    ensures EnabledCount(software[i := NO_SOFTWARE]) == EnabledCount(software) - 1
  {
    if i == 0 {
      assert software[0 := NO_SOFTWARE][1..] == software[1..];
    } else {
      assert software[i := NO_SOFTWARE][1..] == software[1..][i - 1 := NO_SOFTWARE];
      ClearCounts(software[1..], i - 1);
    }
  }

  /** Removal requests for whatever is enabled, one at a time, until nothing is. */
  function RemoveAll(s: Engine): Engine
    decreases EnabledCount(s.software)
  {
    var i := First(s.software, (b: SoftwareBreakpoint) => b.enabled);
    if i < 0 then s
    else
      var b := s.software[i];
      assert WithId(b.id)(b);
      ClearCounts(s.software, FindToRemove(s.software, b.id, b.address));
      RemoveAll(DoRemoveSoftware(s, b.id, b.address))
  }

  /** Removing every breakpoint gives the program back, byte for byte. */
  lemma {:induction false} RemoveAllRestores(s: Engine, program: Bytes)
    requires Image(s, program)
    ensures RemoveAll(s).mem == program
    decreases EnabledCount(s.software)
  {
    var enabled := (b: SoftwareBreakpoint) => b.enabled;
    var i := First(s.software, enabled);
    if i >= 0 {
      var b := s.software[i];
      assert WithId(b.id)(b);
      ClearCounts(s.software, FindToRemove(s.software, b.id, b.address));
      RemoveKeepsImage(s, program, b.id, b.address);
      RemoveAllRestores(DoRemoveSoftware(s, b.id, b.address), program);
    } else {
      forall j | 0 <= j < |s.software|
        ensures !s.software[j].enabled
      {
        assert !enabled(s.software[j]);
      }
    }
  }

  /** Any temporary breakpoint shows the failure: hit it, let the pipe fail, and the program keeps a 0xCC
      that no entry accounts for. */
  lemma {:induction false} TemporaryStopCorrupts(s: Engine, program: Bytes, t: ThreadId, i: nat, f: Filter)
    requires Image(s, program) && Possible(s, Raise(t, OtherException, f))
    requires i < |s.software| && s.software[i].enabled && s.software[i].temporary && s.software[i].id != 0
    requires program[s.software[i].address] != INT3 && s.running
    ensures var a := s.software[i].address;
            var hit := Raise(t, BreakpointTrap(a + 1), f);
            var after := Run(s, [hit, Answer(t, PipeFailed)]);
            a in after.mem && after.mem[a] == INT3 && !Planted(after.software, a) && !Image(after, program)
  {
    hide OnReply, OnException, Image;
    var a := s.software[i].address;
    var hit := Raise(t, BreakpointTrap(a + 1), f);
    TemporaryHit(s, program, t, i, f);
    var stopped := OnException(s, t, hit.exception, f).0;
    assert Run(s, [hit, Answer(t, PipeFailed)]) == Run(stopped, [Answer(t, PipeFailed)]) by {
      assert [hit, Answer(t, PipeFailed)][1..] == [Answer(t, PipeFailed)];
    }
    assert Run(stopped, [Answer(t, PipeFailed)]) == OnReply(stopped, t, PipeFailed).0 by {
      assert [Answer(t, PipeFailed)][1..] == [];
    }
    ExceptionKeepsImage(s, program, t, hit.exception, f);
    ReplyKeepsImage(stopped, program, t, PipeFailed);
    FallThrough(stopped, t, PipeFailed);
  }

  /** A hit on a temporary breakpoint takes its entry out of the table; the stop keeps its address. */
  lemma {:induction false} TemporaryHit(s: Engine, program: Bytes, t: ThreadId, i: nat, f: Filter)
    requires Image(s, program) && s.running && i < |s.software| && s.software[i].enabled && s.software[i].temporary
    requires s.software[i].id != 0
    ensures var a := s.software[i].address;
            var stopped := OnException(s, t, BreakpointTrap(a + 1), f).0;
            && t in stopped.stops && stopped.stops[t].address == a && IsSoftware(stopped.stops[t])
            && stopped.software == s.software[i := NO_SOFTWARE] && !Planted(stopped.software, a) && a in program
  {
    hide AddPending;
    var a := s.software[i].address;
    assert AtAddress(a)(s.software[i]);
    assert First(s.software, AtAddress(a)) == i;
  }
}
