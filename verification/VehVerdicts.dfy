/** When the debugger is asked, and what a thread does with the exception: resumed, or passed on to the process. */
module VehVerdicts {
  import opened VehTables
  import opened VehHardware
  import opened VehMemory
  import opened VehEngine
  import opened VehImage
  import opened VehRequests
  import VehStepping

  /** The policies want to hear of an exception that no breakpoint explains. */
  predicate Noticed(f: Filter) {
    f.outputDebugString || f.matched || f.policy != PolicyBreakpointOnly
  }

  /** They let it continue if the debugger does not handle it. */
  predicate Continues(f: Filter) {
    f.outputDebugString || f.policy == PolicyContinue
  }

  /** What becomes of a stop: breakpoints and completed steps are always reported. */
  function Reported(stop: Stop, f: Filter): Verdict {
    if stop.breakpointId != 0 || stop.stepComplete || Noticed(f) then Ask(stop.(policyContinue := Continues(f))) else PassOn
  }

  function NoBreakpoint(): Stop { Stop(0, 0, false, false, false, false) }

  /** An agent that has ended passes everything on; an exception that is neither trap nor guard fault is reported as
      the policies say. */
  lemma {:induction false} OtherVerdict(s: Engine, t: ThreadId, x: Exception, f: Filter)
    ensures !s.running ==> OnException(s, t, x, f).1 == PassOn
    ensures s.running && x.OtherException? ==> OnException(s, t, x, f).1 == Reported(NoBreakpoint(), f)
  {
  }

  predicate FirstAt(software: seq<SoftwareBreakpoint>, at: Address, i: nat)
    requires i < |software|
  {
    && software[i].enabled && software[i].address == at
    && forall j :: 0 <= j < i && software[j].enabled ==> software[j].address != at
  }

  /** A breakpoint trap is explained by the first enabled entry one byte below the instruction pointer. */
  lemma {:induction false} TrapVerdict(s: Engine, t: ThreadId, ip: Address, f: Filter)
    requires s.running
    ensures var verdict := OnException(s, t, BreakpointTrap(ip), f).1;
            var at := if ip > 0 then ip - 1 else 0;
            && (!Planted(s.software, at) ==> verdict == Reported(NoBreakpoint(), f))
            && forall i :: 0 <= i < |s.software| && FirstAt(s.software, at, i) ==>
                 verdict == Reported(Stop(s.software[i].id, at, false, false, false, false), f)
  {
    hide Lifted;
    var at := if ip > 0 then ip - 1 else 0;
    SearchIsPlanted(s.software, at);
    forall i | 0 <= i < |s.software| && FirstAt(s.software, at, i)
      ensures First(s.software, AtAddress(at)) == i
    {
      assert AtAddress(at)(s.software[i]);
      assert forall j :: 0 <= j < i ==> !AtAddress(at)(s.software[j]);
    }
  }

  /** The thread's first pending step is `k`. */
  predicate FirstPending(s: Engine, t: ThreadId, k: nat)
    requires k < |s.pending|
  {
    s.pending[k].threadId == t && forall j :: 0 <= j < k ==> s.pending[j].threadId != t
  }

  /** What a single step finishes: a re-arm of its thread, or else its first pending step; and then whether the debugger
      asked to hear of it. */
  ghost predicate Finishes(s: Engine, t: ThreadId) {
    s.rearmThread == t || exists k :: 0 <= k < |s.pending| && s.pending[k].threadId == t
  }

  ghost predicate Completes(s: Engine, t: ThreadId) {
    if s.rearmThread == t then s.stepStopThread == t
    else exists k :: 0 <= k < |s.pending| && FirstPending(s, t, k) && s.pending[k].stopAfterStep
  }

  /** A single step that finishes something is swallowed unless the debugger asked for it. Any other is explained by the
      first enabled hardware entry whose slot DR6 names, and clears DR6 then. The trap flag is off afterwards. */
  lemma {:induction false} StepVerdict(s: Engine, t: ThreadId, dr6: set<bv64>, f: Filter)
    requires s.running
    ensures var (s', verdict) := OnException(s, t, SingleStepTrap(dr6), f);
            && t !in s'.trap
            && if Finishes(s, t) && !Completes(s, t) then verdict == Resume && EditsOf(s', t) == map[]
               else
                 && (NoHit(s.hardware, dr6) ==>
                       verdict == Reported(NoBreakpoint().(stepComplete := Completes(s, t)), f) && EditsOf(s', t) == map[])
                 && forall i :: 0 <= i < |s.hardware| && FirstHit(s.hardware, dr6, i) ==>
                      && verdict == Reported(Stop(s.hardware[i].id, s.hardware[i].address, true, false, Completes(s, t), false), f)
                      && EditsOf(s', t) == map[Dr6 := 0]
  {
    hide Consume, RearmAll, ReportSingleStep, FirstHit, NoHit, Reported;
    var trapped := Trapped(s, t, SingleStepTrap(dr6));
    FindsPending(s, t);
    var k := First(s.pending, OfThread(t));
    if s.rearmThread == t {
      StepReport(trapped.(rearmThread := 0, pages := RearmAll(trapped.pages, trapped.memory), stepStopThread := 0), t, true, dr6, f);
    } else if k >= 0 {
      ConsumeOnly(trapped, k);
      StepReport(Consume(trapped, k), t, true, dr6, f);
    } else {
      StepReport(trapped, t, false, dr6, f);
    }
  }

  lemma {:induction false} StepReport(s: Engine, t: ThreadId, complete: bool, dr6: set<bv64>, f: Filter)
    ensures var (s', verdict) := ReportSingleStep(s, t, complete, dr6, f);
            && s'.trap == s.trap
            && (NoHit(s.hardware, dr6) ==>
                  verdict == Reported(NoBreakpoint().(stepComplete := complete), f) && EditsOf(s', t) == EditsOf(s, t))
            && forall i :: 0 <= i < |s.hardware| && FirstHit(s.hardware, dr6, i) ==>
                 && verdict == Reported(Stop(s.hardware[i].id, s.hardware[i].address, true, false, complete, false), f)
                 && EditsOf(s', t) == map[Dr6 := 0]
  {
    FindsHardware(s, dr6);
  }

  predicate NoHit(table: seq<HardwareBreakpoint>, dr6: set<bv64>) {
    forall i :: 0 <= i < |table| && table[i].enabled && table[i].slot < 4 ==> table[i].slot !in dr6
  }

  predicate FirstHit(table: seq<HardwareBreakpoint>, dr6: set<bv64>, i: nat)
    requires i < |table|
  {
    && table[i].enabled && table[i].slot < 4 && table[i].slot in dr6
    && forall j :: 0 <= j < i && table[j].enabled && table[j].slot < 4 ==> table[j].slot !in dr6
  }

  lemma {:induction false} FindsPending(s: Engine, t: ThreadId)
    ensures First(s.pending, OfThread(t)) >= 0 <==> exists k :: 0 <= k < |s.pending| && s.pending[k].threadId == t
    ensures forall k :: 0 <= k < |s.pending| && FirstPending(s, t, k) ==> k == First(s.pending, OfThread(t))
    ensures First(s.pending, OfThread(t)) >= 0 ==> FirstPending(s, t, First(s.pending, OfThread(t)))
  {
    var k := First(s.pending, OfThread(t));
    if j :| 0 <= j < |s.pending| && s.pending[j].threadId == t { assert OfThread(t)(s.pending[j]); }
    forall j | 0 <= j < |s.pending| && FirstPending(s, t, j)
      ensures j == k
    {
      assert OfThread(t)(s.pending[j]);
    }
    if k >= 0 { assert forall j :: 0 <= j < k ==> !OfThread(t)(s.pending[j]); }
  }

  lemma {:induction false} FindsHardware(s: Engine, dr6: set<bv64>)
    ensures First(s.hardware, HitIn(dr6)) < 0 ==> forall i :: 0 <= i < |s.hardware| ==> !FirstHit(s.hardware, dr6, i)
    ensures forall i :: 0 <= i < |s.hardware| && FirstHit(s.hardware, dr6, i) ==> i == First(s.hardware, HitIn(dr6))
    ensures First(s.hardware, HitIn(dr6)) >= 0 ==> FirstHit(s.hardware, dr6, First(s.hardware, HitIn(dr6)))
  {
    var k := First(s.hardware, HitIn(dr6));
    if k >= 0 { assert HitIn(dr6)(s.hardware[k]) && forall j :: 0 <= j < k ==> !HitIn(dr6)(s.hardware[j]); }
    forall i | 0 <= i < |s.hardware| && FirstHit(s.hardware, dr6, i)
      ensures i == k
    {
      assert HitIn(dr6)(s.hardware[i]);
    }
  }

  lemma {:induction false} ConsumeOnly(s: Engine, k: nat)
    requires k < |s.pending|
    ensures Consume(s, k) == s.(mem := Consume(s, k).mem, pending := Consume(s, k).pending)
  {
  }

  // Guard faults.

  /** The breakpoint asks for this access to this address: 1 is a write, 8 an execution, anything else a read. */
  predicate Claims(b: MemoryBreakpoint, address: Address, kind: nat) {
    && b.enabled && b.address <= address < (b.address + b.size) % 0x1_0000_0000_0000_0000
    && (if kind == 1 then (b.access / 2) % 2 else if kind == 8 then (b.access / 4) % 2 else b.access % 2) == 1
  }

  predicate FirstClaim(table: seq<MemoryBreakpoint>, address: Address, kind: nat, i: nat)
    requires i < |table|
  {
    Claims(table[i], address, kind) && forall j :: 0 <= j < i ==> !Claims(table[j], address, kind)
  }

  lemma {:induction false} ClaimsAreHits(b: MemoryBreakpoint, address: Address, kind: nat)
    ensures MemoryHit(address, AccessOf(kind))(b) <==> Claims(b, address, kind)
  {
    var y := AccessOf(kind);
    assert SharesBit(b.access, y) <==>
           (b.access % 2 == 1 && y % 2 == 1) || ((b.access / 2) % 2 == 1 && (y / 2) % 2 == 1)
           || ((b.access / 4) % 2 == 1 && (y / 4) % 2 == 1) by {
      assert 1 in {1, 2, 4} && 2 in {1, 2, 4} && 4 in {1, 2, 4};
      assert b.access / 1 == b.access && y / 1 == y;
    }
  }

  lemma {:induction false} FindsClaim(table: seq<MemoryBreakpoint>, address: Address, kind: nat)
    ensures var k := First(table, MemoryHit(address, AccessOf(kind)));
            && (k < 0 <==> forall i :: 0 <= i < |table| ==> !Claims(table[i], address, kind))
            && (k >= 0 ==> FirstClaim(table, address, kind, k))
            && forall i :: 0 <= i < |table| && FirstClaim(table, address, kind, i) ==> i == k
  {
    hide Claims, AccessOf, MemoryHit;
    var k := First(table, MemoryHit(address, AccessOf(kind)));
    forall i | 0 <= i < |table|
      ensures MemoryHit(address, AccessOf(kind))(table[i]) <==> Claims(table[i], address, kind)
    {
      ClaimsAreHits(table[i], address, kind);
    }
  }

  /** A guard fault always takes the guard off the page it hit. It is explained by the first entry that claims it, with
      the address as the stop's; if none does but the page is recorded it is swallowed. Either way the thread re-arms
      at its next single step. Any other is reported as the policies say. */
  lemma {:induction false} FaultVerdict(s: Engine, t: ThreadId, address: Address, kind: nat, f: Filter)
    requires s.running
    ensures var (s', verdict) := OnException(s, t, GuardFault(address, kind), f);
            && (forall i :: 0 <= i < |s.memory| && FirstClaim(s.memory, address, kind, i) ==>
                  verdict == Reported(Stop(s.memory[i].id, address, false, true, false, false), f)
                  && s'.rearmThread == t && s'.trap == s.trap + {t})
            && ((forall i :: 0 <= i < |s.memory| ==> !Claims(s.memory[i], address, kind)) ==>
                  if Recorded(s.memory, address / 4096) then verdict == Resume && s'.rearmThread == t && s'.trap == s.trap + {t}
                  else verdict == Reported(NoBreakpoint(), f) && s'.rearmThread == s.rearmThread && s'.trap == s.trap)
            && |s'.pages| == |s.pages|
            && forall q :: 0 <= q < |s.pages| ==>
                 s'.pages[q] == if q == address / 4096 then s.pages[q].(protect := s.pages[q].protect.(guarded := false)) else s.pages[q]
  {
    hide MemoryHit, Recorded, Claims, FirstClaim;
    FindsClaim(s.memory, address, kind);
  }

  // Replies.

  /** The verdict after the reply, for every stop and disposition: the exception is passed on exactly when the debugger
      neither resumes nor steps, no breakpoint explains the stop and the policy does not continue. */
  lemma {:induction false} ReplyVerdict(s: Engine, t: ThreadId, reply: Reply)
    requires t in s.stops
    ensures OnReply(s, t, reply).1 ==
            if (reply.Search? || reply.PipeFailed?) && s.stops[t].breakpointId == 0 && !s.stops[t].policyContinue then PassOn
            else Resume
    ensures OnReply(s, t, reply).0.stops == s.stops - {t}
  {
    hide WithContext, AddPending, MarkPending, ConsumeAny;
    if reply.Execution? || reply.StepOnce? {
      ContextOnly(s.(stops := s.stops - {t}), t, reply.flags, reply.registers);
    } else if IsSoftware(s.stops[t]) {
      AnyConsumeOnly(s.(stops := s.stops - {t}), t);
    }
  }

  /** At a software breakpoint a Search, or a broken pipe, plants 0xCC at the stop's address and frees the thread's first
      pending step, if it has one. */
  lemma {:induction false} SearchReplants(s: Engine, t: ThreadId, reply: Reply)
    requires t in s.stops && s.stops[t].breakpointId != 0 && !s.stops[t].hardware && !s.stops[t].memory
    requires reply.Search? || reply.PipeFailed?
    ensures var (s', a) := (OnReply(s, t, reply).0, s.stops[t].address);
            && a in s'.mem && s'.mem[a] == 0xCC && s'.software == s.software
            && (forall k :: 0 <= k < |s.pending| && FirstPending(s, t, k) ==>
                  s'.pending == s.pending[k := PendingStep(0, 0, false, 0)])
            && ((forall k :: 0 <= k < |s.pending| ==> s.pending[k].threadId != t) ==>
                  s'.pending == s.pending && s'.mem == s.mem[a := 0xCC])
  {
    FindsPending(s, t);
    hide FirstPending;
    FallThrough(s, t, reply);
  }

  lemma {:induction false} AnyConsumeOnly(s: Engine, t: ThreadId)
    ensures ConsumeAny(s, t) == s.(mem := ConsumeAny(s, t).mem, pending := ConsumeAny(s, t).pending)
  {
  }

  /** From the exception to its end, whatever the other threads do in between: one that is no trap, guard fault or
      single step reaches the debugger exactly when the policies notice it, and the debugger's Search, or a broken pipe,
      passes it on exactly when the policies do not continue it. */
  lemma {:induction false} ExceptionEnds(s: Engine, t: ThreadId, f: Filter, between: seq<Event>, reply: Reply)
    requires s.running && t != 0 && t !in s.stops && (reply.Search? || reply.PipeFailed?)
    requires Along(Step(s, Raise(t, OtherException, f)), between, VehStepping.NotBy(t))
    ensures var asked := Run(Step(s, Raise(t, OtherException, f)), between);
            && (t in asked.stops <==> Noticed(f))
            && (t in asked.stops ==> OnReply(asked, t, reply).1 == if Continues(f) then Resume else PassOn)
  {
    var raised := Step(s, Raise(t, OtherException, f));
    assert t in raised.stops <==> Noticed(f);
    hide OnReply, Step, OnException;
    VehStepping.RunLeaves(raised, between, t);
    var asked := Run(raised, between);
    if t in asked.stops { ReplyVerdict(asked, t, reply); }
  }

  /** From the request to the stop: when a memory request succeeds, and no other entry claims the access, the first
      thread that makes it is reported with the request's id and the address. */
  lemma {:induction false} SetThenFault(s: Engine, id: BreakpointId, access: nat, start: Address, size: nat,
                                        t: ThreadId, address: Address, kind: nat, f: Filter)
    requires s.running && id != 0 && access != 0 && start != 0 && size != 0
    requires Claims(MemoryBreakpoint(id, access, start, size, true, []), address, kind)
    requires forall j :: 0 <= j < |s.memory| ==> !Claims(s.memory[j], address, kind)
    requires exists i :: 0 <= i < |s.memory| && !s.memory[i].enabled
    requires exists q :: 0 <= q < |s.pages| && Wants(s, start, size, q)
    ensures var watching := Step(s, SetMemoryAt(id, access, start, size));
            OnException(watching, t, GuardFault(address, kind), f).1
            == Ask(Stop(id, address, false, true, false, Continues(f)))
  {
    hide OnException, Watched, Wants, SetMemory;
    SetWatches(s, id, access, start, size);
    var watching := Step(s, SetMemoryAt(id, access, start, size));
    var i, regions :| 0 <= i < |s.memory| && !s.memory[i].enabled
                      && watching.memory == s.memory[i := MemoryBreakpoint(id, access, start, size, true, regions)];
    assert FirstClaim(watching.memory, address, kind, i);
    FaultVerdict(watching, t, address, kind, f);
  }
}
