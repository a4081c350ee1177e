/** The agent from its first state: what every run keeps. */
module VehRuns {
  import opened VehTables
  import opened VehHardware
  import opened VehMemory
  import opened VehEngine
  import opened VehImage
  import VehRearm
  import VehGuards

  const MAX_BREAKPOINTS: nat := 256
  const MAX_HARDWARE_BREAKPOINTS: nat := 16
  const MAX_MEMORY_BREAKPOINTS: nat := 64
  const MAX_PENDING_STEP: nat := 64

  /** Empty tables over a target whose memory is the program. */
  function Initial(program: Bytes, pages: seq<Page>): Engine {
    Engine(program,
           seq(MAX_BREAKPOINTS, _ => NO_SOFTWARE),
           seq(MAX_PENDING_STEP, _ => NO_PENDING),
           seq(MAX_HARDWARE_BREAKPOINTS, _ => NO_HARDWARE),
           seq(MAX_MEMORY_BREAKPOINTS, _ => NO_MEMORY),
           pages, 0, 0, {}, map[], map[], true)
  }

  lemma {:induction false} OwnersStep(s: Engine, e: Event)
    requires OwnersUnique(s.hardware) && Possible(s, e)
    ensures OwnersUnique(Step(s, e).hardware)
  {
    match e
    case SetHardwareAt(b, applied) => OwnersStayUnique(s.hardware, b, applied, 0);
    case RemoveHardwareById(id) => OwnersStayUnique(s.hardware, NO_HARDWARE, false, id);
    case Shutdown => assert forall i :: 0 <= i < |Step(s, e).hardware| ==> !Step(s, e).hardware[i].enabled;
    case _ => HardwareStays(s, e);
  }

  lemma {:induction false} ExceptionHardware(s: Engine, t: ThreadId, x: Exception, f: Filter)
    ensures OnException(s, t, x, f).0.hardware == s.hardware
  {
    hide OnSingleStep, OnBreakpoint, MemoryHit, Recorded;
    if x.SingleStepTrap? { SingleStepHardware(Trapped(s, t, x), t, x.dr6, f); }
    if x.BreakpointTrap? { BreakpointHardware(Trapped(s, t, x), t, x.ip, f); }
  }

  lemma {:induction false} BreakpointHardware(s: Engine, t: ThreadId, ip: Address, f: Filter)
    ensures OnBreakpoint(s, t, ip, f).0.hardware == s.hardware
  {
    hide AddPending;
  }

  lemma {:induction false} SingleStepHardware(s: Engine, t: ThreadId, dr6: set<bv64>, f: Filter)
    ensures OnSingleStep(s, t, dr6, f).0.hardware == s.hardware
  {
    hide RearmAll;
  }

  lemma {:induction false} ReplyHardware(s: Engine, t: ThreadId, reply: Reply)
    requires t in s.stops
    ensures OnReply(s, t, reply).0.hardware == s.hardware
  {
    hide AddPending, MarkPending;
  }

  lemma {:induction false} HardwareStays(s: Engine, e: Event)
    requires Possible(s, e) && !e.SetHardwareAt? && !e.RemoveHardwareById? && !e.Shutdown?
    ensures Step(s, e).hardware == s.hardware
  {
    hide OnException, OnReply, SetMemory, RemoveMemory, WriteDone;
    match e
    case Raise(t, x, f) => ExceptionHardware(s, t, x, f);
    case Answer(t, reply) => ReplyHardware(s, t, reply);
    case _ =>
  }

  lemma {:induction false} OwnersRun(s: Engine, run: seq<Event>)
    requires OwnersUnique(s.hardware)
    ensures OwnersUnique(Run(s, run).hardware)
    decreases |run|
  {
    if run != [] {
      if Possible(s, run[0]) { OwnersStep(s, run[0]); }
      OwnersRun(if Possible(s, run[0]) then Step(s, run[0]) else s, run[1..]);
    }
  }

  /** From the first state on: careful replies and writes keep the program image, so that removing everything gives
      the program back as the writes left it; with unique ids, room for pending steps and harmless writes no breakpoint
      is lost. */
  lemma {:induction false} SoftwareReachable(program: Bytes, pages: seq<Page>, run: seq<Event>)
    ensures var s := Initial(program, pages);
            && (CarefulRun(s, program, run) ==>
                  && Image(Run(s, run), ProgramAfter(s, program, run))
                  && RemoveAll(Run(s, run)).mem == ProgramAfter(s, program, run))
            && (Along(s, run, VehRearm.Roomy()) ==> VehRearm.NoneLost(Run(s, run)))
  {
    var s := Initial(program, pages);
    if CarefulRun(s, program, run) {
      RunKeepsImage(s, program, run);
      RemoveAllRestores(Run(s, run), ProgramAfter(s, program, run));
    }
    if Along(s, run, VehRearm.Roomy()) {
      VehRearm.RunLosesNone(s, run);
    }
  }

  /** From the first state on, guards are held while memory breakpoints stay apart. */
  lemma {:induction false} GuardsReachable(program: Bytes, pages: seq<Page>, run: seq<Event>)
    requires Along(Initial(program, pages), run, VehGuards.Apart())
    ensures VehGuards.GuardsHeld(Run(Initial(program, pages), run))
  {
    VehGuards.RunKeepsGuards(Initial(program, pages), run);
  }

  /** In every reachable state a thread's debug registers are right unless a global entry clashes with one of
      its own. */
  lemma {:induction false} RegistersReachable(program: Bytes, pages: seq<Page>, run: seq<Event>, t: ThreadId)
    ensures var table := Run(Initial(program, pages), run).hardware;
            Faithful(Compute(table, t, |table|), table, t) <==> NoClash(table, t)
  {
    OwnersRun(Initial(program, pages), run);
    OnlyGlobalClashes(Run(Initial(program, pages), run).hardware, t);
  }
}
