/** Stepping past a stop: what one thread sees between its stop and its next single step, whatever the other
    threads and the control requests do meanwhile. */
module VehStepping {
  import opened VehTables
  import opened VehHardware
  import opened VehMemory
  import opened VehEngine

  /** Events of other threads and requests that do not set this thread's context. */
  function NotBy(t: ThreadId): (Engine, Event) -> bool {
    (s: Engine, e: Event) => e.Raise? || e.Answer? || e.SetContext? ==> e.thread != t
  }

  ghost predicate SamePending(pending: seq<PendingStep>, pending': seq<PendingStep>, t: ThreadId) {
    && |pending| == |pending'|
    && forall k :: 0 <= k < |pending| && (pending[k].threadId == t || pending'[k].threadId == t) ==> pending[k] == pending'[k]
  }

  /** What belongs to thread `t` is the same in the two states, and no re-arm has become its own. */
  ghost predicate SameFor(s: Engine, s': Engine, t: ThreadId) {
    && SamePending(s.pending, s'.pending, t)
    && (s.rearmThread != t ==> s'.rearmThread != t)
    && (t in s.trap <==> t in s'.trap)
    && EditsOf(s, t) == EditsOf(s', t)
    && (t in s.stops <==> t in s'.stops)
    && (t in s.stops ==> s.stops[t] == s'.stops[t])
  }

  lemma {:induction false} SameTrans(a: Engine, b: Engine, c: Engine, t: ThreadId)
    requires SameFor(a, b, t) && SameFor(b, c, t)
    ensures SameFor(a, c, t)
  {
  }

  lemma {:induction false} PendingLeaves(pending: seq<PendingStep>, u: ThreadId, id: BreakpointId, e: PendingStep, t: ThreadId)
    requires u != t && t != 0 && e.threadId == u
    ensures SamePending(pending, AddPending(pending, e), t) && SamePending(pending, MarkPending(pending, u, id), t)
  {
  }

  lemma {:induction false} SamePendingSelf(pending: seq<PendingStep>, t: ThreadId)
    ensures SamePending(pending, pending, t)
  {
  }

  /** What thread `u` does to its own pending entries, trap flag and context record. */
  lemma {:induction false} OwnLeaves(s: Engine, s': Engine, u: ThreadId, t: ThreadId)
    requires u != t && SamePending(s.pending, s'.pending, t) && (s'.rearmThread == s.rearmThread || s'.rearmThread != t)
    requires s'.trap == s.trap || s'.trap == s.trap + {u} || s'.trap == s.trap - {u}
    requires s'.edits == s.edits || s'.edits == s.edits[u := EditsOf(s', u)]
    requires s'.stops == s.stops || s'.stops == s.stops - {u} || (u in s'.stops && s'.stops == s.stops[u := s'.stops[u]])
    ensures SameFor(s, s', t)
  {
  }

  lemma {:induction false} ConsumeLeaves(s: Engine, u: ThreadId, t: ThreadId)
    requires u != t && t != 0
    ensures SameFor(s, ConsumeAny(s, u), t)
  {
  }

  lemma {:induction false} LiftLeaves(s: Engine, u: ThreadId, i: nat, t: ThreadId)
    requires u != t && t != 0 && i < |s.software|
    ensures SameFor(s, Lifted(s, u, i), t)
  {
    hide AddPending, SamePending, SameFor;
    var b := s.software[i];
    PendingLeaves(s.pending, u, 0, PendingStep(u, b.id, false, b.address), t);
    SamePendingSelf(s.pending, t);
    var s' := Lifted(s, u, i);
    assert s'.edits == s.edits[u := map[Ip := b.address]];
    OwnLeaves(s, s', u, t);
  }

  lemma {:induction false} BreakpointLeaves(s: Engine, u: ThreadId, ip: Address, f: Filter, t: ThreadId)
    requires u != t && t != 0
    ensures SameFor(s, OnBreakpoint(s, u, ip, f).0, t)
  {
    hide Lifted, Report, SameFor;
    var i := First(s.software, AtAddress(if ip > 0 then ip - 1 else 0));
    if i >= 0 {
      var lifted, stop := Lifted(s, u, i), Stop(s.software[i].id, s.software[i].address, false, false, false, false);
      LiftLeaves(s, u, i, t);
      ReportLeaves(lifted, u, stop, f, t);
      SameTrans(s, lifted, Report(lifted, u, stop, f).0, t);
    } else {
      ReportLeaves(s, u, Stop(0, 0, false, false, false, false), f, t);
    }
  }

  lemma {:induction false} ReportLeaves(s: Engine, u: ThreadId, stop: Stop, f: Filter, t: ThreadId)
    requires u != t
    ensures SameFor(s, Report(s, u, stop, f).0, t)
  {
    hide SamePending;
    SamePendingSelf(s.pending, t);
  }

  lemma {:induction false} ReportSingleStepLeaves(s: Engine, u: ThreadId, complete: bool, dr6: set<bv64>, f: Filter, t: ThreadId)
    requires u != t
    ensures SameFor(s, ReportSingleStep(s, u, complete, dr6, f).0, t)
  {
    var i := First(s.hardware, HitIn(dr6));
    if i >= 0 {
      ReportLeaves(s.(edits := s.edits[u := map[Dr6 := 0]]), u,
                   Stop(s.hardware[i].id, s.hardware[i].address, true, false, complete, false), f, t);
    } else {
      ReportLeaves(s, u, Stop(0, 0, false, false, complete, false), f, t);
    }
  }

  lemma {:induction false} SingleStepLeaves(s: Engine, u: ThreadId, dr6: set<bv64>, f: Filter, t: ThreadId)
    requires u != t && t != 0
    ensures SameFor(s, OnSingleStep(s, u, dr6, f).0, t)
  {
    hide ReportSingleStep;
    if s.rearmThread == u {
      var armed := s.(rearmThread := 0, pages := RearmAll(s.pages, s.memory));
      ReportSingleStepLeaves(armed.(stepStopThread := 0), u, true, dr6, f, t);
    } else {
      var k := First(s.pending, OfThread(u));
      if k < 0 {
        ReportSingleStepLeaves(s, u, false, dr6, f, t);
      } else {
        ReportSingleStepLeaves(Consume(s, k), u, true, dr6, f, t);
      }
    }
  }

  lemma {:induction false} GuardFaultLeaves(s: Engine, u: ThreadId, address: Address, kind: nat, f: Filter, t: ThreadId)
    requires u != t && t != 0
    ensures SameFor(s, OnGuardFault(s, u, address, kind, f).0, t)
  {
    hide Recorded, MemoryHit, SameFor, SamePending, Report;
    var armed := s.(rearmThread := u, trap := s.trap + {u});
    SamePendingSelf(s.pending, t);
    OwnLeaves(s, armed, u, t);
    var i := First(s.memory, MemoryHit(address, AccessOf(kind)));
    if i >= 0 {
      var stop := Stop(s.memory[i].id, address, false, true, false, false);
      ReportLeaves(armed, u, stop, f, t);
      SameTrans(s, armed, Report(armed, u, stop, f).0, t);
    } else {
      ReportLeaves(s, u, Stop(0, 0, false, false, false, false), f, t);
    }
  }

  lemma {:induction false} ContextLeaves(s: Engine, u: ThreadId, flags: TrapFlag, registers: Edits, t: ThreadId)
    requires u != t
    ensures var s' := WithContext(s.(stops := s.stops - {u}), u, flags, registers);
            && SameFor(s, s', t) && s'.pending == s.pending
            && SameFor(s', s'.(stepStopThread := u), t)
  {
    var s' := WithContext(s.(stops := s.stops - {u}), u, flags, registers);
    hide SamePending, SameFor;
    SamePendingSelf(s.pending, t);
    assert s'.edits == s.edits[u := EditsOf(s, u) + registers];
    OwnLeaves(s, s', u, t);
    OwnLeaves(s', s'.(stepStopThread := u), u, t);
  }

  lemma {:induction false} StepReplyLeaves(s: Engine, u: ThreadId, reply: Reply, t: ThreadId)
    requires u != t && t != 0 && u in s.stops && reply.StepOnce?
    ensures SameFor(s, OnReply(s, u, reply).0, t)
  {
    hide SamePending, SameFor, AddPending, MarkPending, WithContext;
    var stop := s.stops[u];
    var s' := WithContext(s.(stops := s.stops - {u}), u, reply.flags, reply.registers);
    ContextLeaves(s, u, reply.flags, reply.registers, t);
    var e := PendingStep(u, 0, true, 0);
    PendingLeaves(s'.pending, u, stop.breakpointId, e, t);
    var added := s'.(pending := AddPending(s'.pending, e), trap := s'.trap + {u});
    var marked := s'.(pending := MarkPending(s'.pending, u, stop.breakpointId), trap := s'.trap + {u});
    OwnLeaves(s', added, u, t);
    OwnLeaves(s', marked, u, t);
    SameTrans(s, s', OnReply(s, u, reply).0, t);
  }

  lemma {:induction false} ReplyLeaves(s: Engine, u: ThreadId, reply: Reply, t: ThreadId)
    requires u != t && t != 0 && u in s.stops
    ensures SameFor(s, OnReply(s, u, reply).0, t)
  {
    hide SamePending, SameFor, ConsumeAny, WithContext;
    match reply
    case Execution(flags, registers) => ContextLeaves(s, u, flags, registers, t);
    case StepOnce(flags, registers) => StepReplyLeaves(s, u, reply, t);
    case _ =>
      var waiting := s.(stops := s.stops - {u});
      SamePendingSelf(s.pending, t);
      OwnLeaves(s, waiting, u, t);
      ConsumeLeaves(waiting, u, t);
      var consumed := ConsumeAny(waiting, u);
      var planted := consumed.(mem := consumed.mem[s.stops[u].address := INT3]);
      SamePendingSelf(consumed.pending, t);
      OwnLeaves(consumed, planted, u, t);
      SameTrans(s, waiting, consumed, t);
      SameTrans(s, consumed, planted, t);
  }

  lemma {:induction false} ExceptionLeaves(s: Engine, u: ThreadId, x: Exception, f: Filter, t: ThreadId)
    requires u != t && t != 0
    ensures SameFor(s, OnException(s, u, x, f).0, t)
  {
    hide OnBreakpoint, OnSingleStep, OnGuardFault, Report;
    var trapped := Trapped(s, u, x);
    match x
    case BreakpointTrap(ip) => BreakpointLeaves(trapped, u, ip, f, t);
    case SingleStepTrap(dr6) => SingleStepLeaves(trapped, u, dr6, f, t);
    case GuardFault(address, kind) => GuardFaultLeaves(trapped, u, address, kind, f, t);
    case OtherException => ReportLeaves(trapped, u, Stop(0, 0, false, false, false, false), f, t);
  }

  lemma {:induction false} StepLeaves(s: Engine, e: Event, t: ThreadId)
    requires t != 0 && Possible(s, e) && NotBy(t)(s, e)
    ensures SameFor(s, Step(s, e), t)
  {
    hide SameFor, OnException, OnReply;
    match e
    case Raise(u, x, f) => ExceptionLeaves(s, u, x, f, t);
    case Answer(u, reply) => ReplyLeaves(s, u, reply, t);
    case _ => RequestLeaves(s, e, t);
  }

  lemma {:induction false} RequestLeaves(s: Engine, e: Event, t: ThreadId)
    requires Possible(s, e) && NotBy(t)(s, e) && !e.Raise? && !e.Answer?
    ensures SameFor(s, Step(s, e), t)
  {
    hide SamePending, SameFor, SetMemory, RemoveMemory, SetHardware, RemoveHardware, WriteDone;
    var s' := Step(s, e);
    SamePendingSelf(s.pending, t);
    if e.SetContext? {
      OwnLeaves(s, s', e.thread, t);
    } else {
      OwnLeaves(s, s', t + 1, t);
    }
  }

  /** Nothing other threads or requests do changes what the thread has pending, its stop, its context record, or,
      unless a request sets its context, its trap flag. */
  lemma {:induction false} RunLeaves(s: Engine, run: seq<Event>, t: ThreadId)
    requires t != 0 && Along(s, run, NotBy(t))
    ensures SameFor(s, Run(s, run), t)
    decreases |run|
  {
    hide Step;
    if run != [] {
      StepLeaves(s, run[0], t);
      RunLeaves(Step(s, run[0]), run[1..], t);
    }
  }

  // When a single step is reported as complete.

  predicate Complete(verdict: Verdict) {
    verdict.Ask? && verdict.stop.stepComplete
  }

  /** The pending entry that a single step of `t` would consume asks for a stop. */
  predicate Marked(pending: seq<PendingStep>, t: ThreadId) {
    var k := First(pending, OfThread(t));
    k >= 0 && pending[k].stopAfterStep
  }

  /** A STEP reply will leave thread `t` with a marked entry: its first entry is marked already, or names the
      breakpoint it stopped at, or the stop is no breakpoint and a slot before that entry is free. */
  predicate WillMark(s: Engine, t: ThreadId)
    requires t in s.stops
  {
    var (stop, k, free) := (s.stops[t], First(s.pending, OfThread(t)), First(s.pending, OfThread(0)));
    || Marked(s.pending, t)
    || (stop.breakpointId == 0 && free >= 0 && (k < 0 || free < k))
    || (stop.breakpointId != 0 && !stop.memory && k >= 0 && s.pending[k].breakpointId == stop.breakpointId)
  }

  lemma {:induction false} AddMarks(pending: seq<PendingStep>, t: ThreadId)
    requires t != 0
    ensures var k, free := First(pending, OfThread(t)), First(pending, OfThread(0));
            Marked(AddPending(pending, PendingStep(t, 0, true, 0)), t)
            <==> Marked(pending, t) || (free >= 0 && (k < 0 || free < k))
  {
    var k, free := First(pending, OfThread(t)), First(pending, OfThread(0));
    var after := AddPending(pending, PendingStep(t, 0, true, 0));
    if free >= 0 {
      assert OfThread(t)(after[free]);
      if k >= 0 && k < free { FirstIs(after, t, k); } else { FirstIs(after, t, free); }
    }
  }

  lemma {:induction false} FirstIs(pending: seq<PendingStep>, t: ThreadId, k: nat)
    requires k < |pending| && pending[k].threadId == t && forall j :: 0 <= j < k ==> pending[j].threadId != t
    ensures First(pending, OfThread(t)) == k
  {
    assert OfThread(t)(pending[k]);
  }

  lemma {:induction false} MarkMarks(pending: seq<PendingStep>, t: ThreadId, id: BreakpointId)
    ensures var k := First(pending, OfThread(t));
            Marked(MarkPending(pending, t, id), t)
            <==> Marked(pending, t) || (k >= 0 && pending[k].breakpointId == id)
  {
    var k, m := First(pending, OfThread(t)), First(pending, OfThreadAndId(t, id));
    var after := MarkPending(pending, t, id);
    if k >= 0 {
      if pending[k].breakpointId == id { assert OfThreadAndId(t, id)(pending[k]); }
      if m >= 0 { assert OfThread(t)(pending[m]); }
      FirstIs(after, t, k);
    }
    if m >= 0 { assert OfThread(t)(pending[m]); }
  }

  lemma {:induction false} ReplyMarks(s: Engine, t: ThreadId, flags: TrapFlag, registers: Edits)
    requires t in s.stops && t != 0
    ensures var s' := OnReply(s, t, StepOnce(flags, registers)).0;
            && (Marked(s'.pending, t) <==> WillMark(s, t))
            && s'.rearmThread == s.rearmThread
            && (t in s'.trap || (s.stops[t].breakpointId != 0 && s.stops[t].memory))
  {
    hide Marked, AddPending, MarkPending, ConsumeAny;
    AddMarks(s.pending, t);
    MarkMarks(s.pending, t, s.stops[t].breakpointId);
  }

  lemma {:induction false} SameMarks(s: Engine, s': Engine, t: ThreadId)
    requires SameFor(s, s', t)
    ensures First(s.pending, OfThread(t)) == First(s'.pending, OfThread(t))
    ensures Marked(s.pending, t) <==> Marked(s'.pending, t)
  {
    var k, k' := First(s.pending, OfThread(t)), First(s'.pending, OfThread(t));
    if k >= 0 { FirstIs(s'.pending, t, k); }
    if k' >= 0 { FirstIs(s.pending, t, k'); }
  }

  /** A single step is reported as complete by the re-arm it finishes, or else by the pending entry it consumes. */
  lemma {:induction false} SingleStepCompletes(s: Engine, t: ThreadId, dr6: set<bv64>, g: Filter)
    requires s.running
    ensures Complete(OnException(s, t, SingleStepTrap(dr6), g).1)
            <==> if s.rearmThread == t then s.stepStopThread == t else Marked(s.pending, t)
    ensures s.rearmThread != t && First(s.pending, OfThread(t)) < 0 && First(s.hardware, HitIn(dr6)) < 0
            && !g.matched && !g.outputDebugString && g.policy == PolicyBreakpointOnly
            ==> OnException(s, t, SingleStepTrap(dr6), g).1 == PassOn
  {
    hide Consume;
  }

  /** For every thread waiting for a reply: after STEP, and whatever the others do, its next single step is reported
      with STEP_COMPLETE exactly when the agent still runs and either the step finishes this thread's re-arm and the
      stop after it is this thread's, or no re-arm is this thread's and the reply left it with a marked entry. */
  lemma {:induction false} StepReported(s: Engine, t: ThreadId, flags: TrapFlag, registers: Edits, after: seq<Event>,
                                        dr6: set<bv64>, g: Filter)
    requires t != 0 && t in s.stops && Along(Step(s, Answer(t, StepOnce(flags, registers))), after, NotBy(t))
    ensures var ready := Run(Step(s, Answer(t, StepOnce(flags, registers))), after);
            && (Complete(OnException(ready, t, SingleStepTrap(dr6), g).1)
                <==> ready.running && if ready.rearmThread == t then ready.stepStopThread == t else WillMark(s, t))
            && (s.rearmThread != t ==> ready.rearmThread != t)
            && (t in ready.trap || (s.stops[t].breakpointId != 0 && s.stops[t].memory))
  {
    hide OnReply, OnException, WillMark, Marked;
    var answered := Step(s, Answer(t, StepOnce(flags, registers)));
    assert answered == OnReply(s, t, StepOnce(flags, registers)).0;
    var ready := Run(answered, after);
    ReplyMarks(s, t, flags, registers);
    RunLeaves(answered, after, t);
    SameMarks(answered, ready, t);
    if ready.running { SingleStepCompletes(ready, t, dr6, g); } else { StoppedPassesOn(ready, t, dr6, g); }
  }

  lemma {:induction false} StoppedPassesOn(s: Engine, t: ThreadId, dr6: set<bv64>, g: Filter)
    requires !s.running
    ensures OnException(s, t, SingleStepTrap(dr6), g).1 == PassOn
  {
  }

  ghost predicate NonePending(s: Engine, t: ThreadId) {
    forall k :: 0 <= k < |s.pending| ==> s.pending[k].threadId != t
  }

  lemma {:induction false} NoneFound(s: Engine, t: ThreadId)
    requires NonePending(s, t)
    ensures First(s.pending, OfThread(t)) < 0
  {
  }

  /** The debugger asks only about breakpoints, and no hardware breakpoint was hit. */
  predicate Unasked(s: Engine, dr6: set<bv64>, g: Filter) {
    First(s.hardware, HitIn(dr6)) < 0 && !g.matched && !g.outputDebugString && g.policy == PolicyBreakpointOnly
  }

  /** The step is lost: a thread stopped at a breakpoint but without a pending entry or a re-arm of its own is told to
      step, and its single step is handed on to the process as an exception nobody handles. */
  lemma {:induction false} StepLost(s: Engine, t: ThreadId, flags: TrapFlag, registers: Edits, after: seq<Event>,
                                    dr6: set<bv64>, g: Filter)
    requires t != 0 && t in s.stops && s.stops[t].breakpointId != 0 && !s.stops[t].memory
    requires NonePending(s, t) && s.rearmThread != t
    requires Along(Step(s, Answer(t, StepOnce(flags, registers))), after, NotBy(t))
    ensures var ready := Run(Step(s, Answer(t, StepOnce(flags, registers))), after);
            && t in ready.trap && !Complete(OnException(ready, t, SingleStepTrap(dr6), g).1)
            && (Unasked(ready, dr6, g) ==> OnException(ready, t, SingleStepTrap(dr6), g).1 == PassOn)
  {
    hide OnException, Complete;
    StepReported(s, t, flags, registers, after, dr6, g);
    var answered := Step(s, Answer(t, StepOnce(flags, registers)));
    var ready := Run(answered, after);
    assert NonePending(answered, t);
    RunLeaves(answered, after, t);
    if ready.running { SingleStepCompletes(ready, t, dr6, g); } else { StoppedPassesOn(ready, t, dr6, g); }
  }

  /** Hitting any temporary breakpoint leads to such a stop. */
  lemma {:induction false} TemporaryStepLost(s: Engine, t: ThreadId, i: nat, f: Filter, flags: TrapFlag, registers: Edits,
                                             dr6: set<bv64>, g: Filter)
    requires t != 0 && t !in s.stops && s.running && NonePending(s, t) && s.rearmThread != t
    requires i < |s.software| && s.software[i].enabled && s.software[i].temporary && s.software[i].id != 0
    requires First(s.software, AtAddress(s.software[i].address)) == i
    ensures var hit := Step(s, Raise(t, BreakpointTrap(s.software[i].address + 1), f));
            && t in hit.stops
            && var ready := Step(hit, Answer(t, StepOnce(flags, registers)));
               !Complete(OnException(ready, t, SingleStepTrap(dr6), g).1)
               && (Unasked(ready, dr6, g) ==> OnException(ready, t, SingleStepTrap(dr6), g).1 == PassOn)
  {
    var hit := Step(s, Raise(t, BreakpointTrap(s.software[i].address + 1), f));
    assert t in hit.stops && hit.pending == s.pending && hit.rearmThread == s.rearmThread;
    hide Step, OnException, Complete, Unasked;
    StepLost(hit, t, flags, registers, [], dr6, g);
  }

  /** So does hitting a hardware breakpoint. */
  lemma {:induction false} HardwareStepLost(s: Engine, t: ThreadId, hits: set<bv64>, f: Filter, flags: TrapFlag, registers: Edits,
                                            dr6: set<bv64>, g: Filter)
    requires t != 0 && t !in s.stops && s.running && NonePending(s, t) && s.rearmThread != t
    requires First(s.hardware, HitIn(hits)) >= 0 && s.hardware[First(s.hardware, HitIn(hits))].id != 0
    ensures var hit := Step(s, Raise(t, SingleStepTrap(hits), f));
            && t in hit.stops
            && var ready := Step(hit, Answer(t, StepOnce(flags, registers)));
               !Complete(OnException(ready, t, SingleStepTrap(dr6), g).1)
               && (Unasked(ready, dr6, g) ==> OnException(ready, t, SingleStepTrap(dr6), g).1 == PassOn)
  {
    var hit := Step(s, Raise(t, SingleStepTrap(hits), f));
    assert t in hit.stops && hit.pending == s.pending && hit.rearmThread == s.rearmThread;
    hide Step, OnException, Complete, Unasked;
    StepLost(hit, t, flags, registers, [], dr6, g);
  }

  /** And a STEP at a memory breakpoint is lost when another thread faults on a recorded page before the step: the
      re-arm is then the other thread's. */
  lemma {:induction false} MemoryStepLost(s: Engine, t: ThreadId, flags: TrapFlag, registers: Edits, u: ThreadId,
                                          address: Address, kind: nat, f: Filter, dr6: set<bv64>, g: Filter)
    requires t != 0 && t in s.stops && s.stops[t].breakpointId != 0 && s.stops[t].memory && NonePending(s, t) && s.running
    requires u != t && u != 0 && u !in s.stops && Recorded(s.memory, address / PAGE_SIZE)
    ensures var answered := Step(s, Answer(t, StepOnce(flags, registers)));
            var ready := Step(answered, Raise(u, GuardFault(address, kind), f));
            && ready.stepStopThread == t && !Complete(OnException(ready, t, SingleStepTrap(dr6), g).1)
            && (Unasked(ready, dr6, g) ==> OnException(ready, t, SingleStepTrap(dr6), g).1 == PassOn)
  {
    var answered := Step(s, Answer(t, StepOnce(flags, registers)));
    var fault := Raise(u, GuardFault(address, kind), f);
    hide Recorded, MemoryHit, NonePending;
    var ready := Step(answered, fault);
    assert ready.rearmThread == u && ready.pending == s.pending && ready.stepStopThread == t && ready.running;
    hide Step, OnException;
    NoneFound(s, t);
    SingleStepCompletes(ready, t, dr6, g);
  }

  // Stepping past a permanent breakpoint.

  /** `e` is the thread's only pending step. */
  ghost predicate OnlyPending(s: Engine, t: ThreadId, e: PendingStep) {
    && e in s.pending && e.threadId == t
    && (forall k :: 0 <= k < |s.pending| && s.pending[k].threadId == t ==> s.pending[k] == e)
    && (forall j, k :: 0 <= j < k < |s.pending| && s.pending[j].threadId == t ==> s.pending[k].threadId != t)
  }

  lemma {:induction false} OnlyPendingStays(s: Engine, s': Engine, t: ThreadId, e: PendingStep)
    requires SameFor(s, s', t) && OnlyPending(s, t, e)
    ensures OnlyPending(s', t, e)
  {
    var k :| 0 <= k < |s.pending| && s.pending[k] == e;
    assert s'.pending[k] == e;
  }

  lemma {:induction false} AddOnly(s: Engine, s': Engine, t: ThreadId, e: PendingStep)
    requires NonePending(s, t) && t != 0 && e.threadId == t && First(s.pending, OfThread(0)) >= 0
    requires s'.pending == AddPending(s.pending, e)
    ensures OnlyPending(s', t, e)
  {
    var i := First(s.pending, OfThread(0));
    assert s'.pending[i] == e;
  }

  /** The single step that finds this entry: reported or swallowed by its mark, and the breakpoint it names is
      planted again if the table still has it. */
  lemma {:induction false} StepConsumes(s: Engine, t: ThreadId, e: PendingStep, dr6: set<bv64>, f: Filter)
    requires OnlyPending(s, t, e) && t != 0 && s.rearmThread != t && s.running
    ensures var (s', verdict) := OnException(s, t, SingleStepTrap(dr6), f);
            && (if e.stopAfterStep then Complete(verdict) else verdict == Resume)
            && NonePending(s', t)
            && s'.software == s.software
            && (var i := First(s.software, WithId(e.breakpointId));
                i >= 0 && s.software[i].address == e.address ==> e.address in s'.mem && s'.mem[e.address] == INT3)
  {
    var j :| 0 <= j < |s.pending| && s.pending[j] == e;
    assert OfThread(t)(s.pending[j]);
    var k := First(s.pending, OfThread(t));
    assert s.pending[k] == e;
  }

  lemma {:induction false} PermanentHit(s: Engine, t: ThreadId, i: nat, f: Filter)
    requires t != 0 && t !in s.stops && NonePending(s, t) && s.running && First(s.pending, OfThread(0)) >= 0
    requires i < |s.software| && s.software[i].enabled && !s.software[i].temporary && s.software[i].id != 0
    requires First(s.software, AtAddress(s.software[i].address)) == i
    ensures var b := s.software[i];
            var hit := Step(s, Raise(t, BreakpointTrap(b.address + 1), f));
            && OnlyPending(hit, t, PendingStep(t, b.id, false, b.address))
            && t in hit.stops && hit.stops[t].breakpointId == b.id && !hit.stops[t].memory
            && t in hit.trap && hit.rearmThread == s.rearmThread
            && EditsOf(hit, t) == map[Ip := b.address]
  {
    var b := s.software[i];
    var hit := Step(s, Raise(t, BreakpointTrap(b.address + 1), f));
    hide AddPending;
    AddOnly(s, hit, t, PendingStep(t, b.id, false, b.address));
  }

  /** A permanent breakpoint is hit; others run; the debugger answers; others run; the thread single-steps.
      It continues at the breakpoint's address unless the reply sets another, with the trap flag unless an EXECUTION
      reply clears it. STEP makes the step reported as complete, EXECUTION makes it silent, and either way a
      breakpoint still in the table is planted again. */
  lemma {:induction false} StepPastBreakpoint(s: Engine, t: ThreadId, i: nat, f: Filter, before: seq<Event>,
                                              reply: Reply, after: seq<Event>, dr6: set<bv64>, g: Filter)
    requires t != 0 && t !in s.stops && NonePending(s, t) && s.rearmThread != t && s.running
    requires i < |s.software| && s.software[i].enabled && !s.software[i].temporary && s.software[i].id != 0
    requires First(s.software, AtAddress(s.software[i].address)) == i
    requires First(s.pending, OfThread(0)) >= 0
    requires reply.StepOnce? || reply.Execution?
    requires var hit := Step(s, Raise(t, BreakpointTrap(s.software[i].address + 1), f));
             && Along(hit, before, NotBy(t))
             && t in Run(hit, before).stops
             && Along(Step(Run(hit, before), Answer(t, reply)), after, NotBy(t))
    ensures var hit := Step(s, Raise(t, BreakpointTrap(s.software[i].address + 1), f));
            var answered := Step(Run(hit, before), Answer(t, reply));
            var ready := Run(answered, after);
            && (t in ready.trap <==> reply.StepOnce? || reply.flags != Replaced(false))
            && EditsOf(ready, t) == map[Ip := s.software[i].address] + reply.registers
            && (ready.running ==>
                  var (stepped, verdict) := OnException(ready, t, SingleStepTrap(dr6), g);
                  && (reply.StepOnce? ==> Complete(verdict))
                  && (reply.Execution? ==> verdict == Resume)
                  && (var j := First(stepped.software, WithId(s.software[i].id));
                      j >= 0 && stepped.software[j].address == s.software[i].address ==>
                        s.software[i].address in stepped.mem && stepped.mem[s.software[i].address] == INT3))
  {
    hide OnException, OnReply, OnlyPending, Complete, First;
    var b := s.software[i];
    var hit := Step(s, Raise(t, BreakpointTrap(b.address + 1), f));
    var e := PendingStep(t, b.id, false, b.address);
    PermanentHit(s, t, i, f);
    RunLeaves(hit, before, t);
    var asked := Run(hit, before);
    OnlyPendingStays(hit, asked, t, e);
    var answered := Step(asked, Answer(t, reply));
    assert answered == OnReply(asked, t, reply).0;
    var e' := if reply.StepOnce? then e.(stopAfterStep := true) else e;
    AnswerMarks(asked, answered, t, e, reply);
    RunLeaves(answered, after, t);
    var ready := Run(answered, after);
    OnlyPendingStays(answered, ready, t, e');
    if ready.running { StepConsumes(ready, t, e', dr6, g); }
  }

  lemma {:induction false} AnswerMarks(s: Engine, s': Engine, t: ThreadId, e: PendingStep, reply: Reply)
    requires t in s.stops && OnlyPending(s, t, e) && (reply.StepOnce? || reply.Execution?)
    requires s.stops[t].breakpointId == e.breakpointId != 0 && !s.stops[t].memory && t in s.trap
    requires s' == OnReply(s, t, reply).0
    ensures OnlyPending(s', t, if reply.StepOnce? then e.(stopAfterStep := true) else e)
    ensures s'.rearmThread == s.rearmThread && EditsOf(s', t) == EditsOf(s, t) + reply.registers
    ensures t in s'.trap <==> reply.StepOnce? || reply.flags != Replaced(false)
  {
    hide OnlyPending, MarkPending, AddPending;
    if reply.StepOnce? { MarkOnly(s, s', t, e); } else { assert s'.pending == s.pending; SamePendingOnly(s, s', t, e); }
  }

  lemma {:induction false} SamePendingOnly(s: Engine, s': Engine, t: ThreadId, e: PendingStep)
    requires OnlyPending(s, t, e) && s'.pending == s.pending
    ensures OnlyPending(s', t, e)
  {
  }

  lemma {:induction false} MarkOnly(s: Engine, s': Engine, t: ThreadId, e: PendingStep)
    requires OnlyPending(s, t, e) && s'.pending == MarkPending(s.pending, t, e.breakpointId)
    ensures OnlyPending(s', t, e.(stopAfterStep := true))
  {
    var j :| 0 <= j < |s.pending| && s.pending[j] == e;
    assert OfThreadAndId(t, e.breakpointId)(s.pending[j]);
    assert First(s.pending, OfThreadAndId(t, e.breakpointId)) == j;
    assert s'.pending[j] == e.(stopAfterStep := true);
  }

  /** At a stop that is not a breakpoint, STEP makes the next single step reported exactly when a slot was free. */
  lemma {:induction false} StepPastOtherStop(s: Engine, t: ThreadId, flags: TrapFlag, registers: Edits, after: seq<Event>,
                                             dr6: set<bv64>, g: Filter)
    requires t != 0 && t in s.stops && s.stops[t].breakpointId == 0 && NonePending(s, t) && s.rearmThread != t
    requires Along(Step(s, Answer(t, StepOnce(flags, registers))), after, NotBy(t))
    ensures var ready := Run(Step(s, Answer(t, StepOnce(flags, registers))), after);
            && t in ready.trap
            && (ready.running ==>
                  (Complete(OnException(ready, t, SingleStepTrap(dr6), g).1) <==> First(s.pending, OfThread(0)) >= 0))
  {
    hide OnException, Complete, Step, Run;
    StepReported(s, t, flags, registers, after, dr6, g);
  }
}
