/** No software breakpoint is lost: one that is not planted is awaited by a pending step. */
module VehRearm {
  import opened VehTables
  import opened VehHardware
  import opened VehMemory
  import opened VehEngine
  import opened VehImage

  /** Some occupied slot will replant breakpoint `id` at `address`. */
  ghost predicate Awaited(pending: seq<PendingStep>, id: BreakpointId, address: Address) {
    exists k :: 0 <= k < |pending| && Names(pending[k], id, address)
  }

  predicate Names(e: PendingStep, id: BreakpointId, address: Address) {
    e.threadId != 0 && e.breakpointId == id && e.address == address
  }

  ghost predicate Kept(mem: Bytes, pending: seq<PendingStep>, b: SoftwareBreakpoint) {
    b.address in mem && (mem[b.address] == INT3 || Awaited(pending, b.id, b.address))
  }

  ghost predicate NoneLost(s: Engine) {
    forall i :: 0 <= i < |s.software| && s.software[i].enabled ==> Kept(s.mem, s.pending, s.software[i])
  }

  ghost predicate UniqueIds(software: seq<SoftwareBreakpoint>) {
    forall i, j :: 0 <= i < j < |software| && software[i].enabled && software[j].enabled ==> software[i].id != software[j].id
  }

  ghost predicate Orderly(s: Engine) {
    DistinctAddresses(s.software) && UniqueIds(s.software) && NoneLost(s)
  }

  /** A memory write loses no breakpoint: where it overwrites one it writes 0xCC or a pending step will. */
  ghost predicate HarmlessWrite(s: Engine, address: Address, data: seq<Byte>) {
    forall i :: 0 <= i < |s.software| && s.software[i].enabled && address <= s.software[i].address < address + |data| ==>
      || data[s.software[i].address - address] == INT3
      || Awaited(s.pending, s.software[i].id, s.software[i].address)
  }

  /** The side conditions on a run: a new breakpoint's id is not in use, a pending-step slot is free when a permanent
      breakpoint is hit, and writes that go through are harmless. */
  ghost function Roomy(): (Engine, Event) -> bool {
    (s: Engine, e: Event) =>
      && (e.SetSoftware? ==> First(s.software, WithId(e.id)) < 0)
      && (e.Raise? && e.exception.BreakpointTrap? ==> HitHasRoom(s, e.exception.ip))
      && (e.WriteMemory? && WriteDone(s, e.address, e.data, e.writable) ==> HarmlessWrite(s, e.address, e.data))
  }

  function HitIndex(s: Engine, ip: Address): int {
    First(s.software, AtAddress(if ip > 0 then ip - 1 else 0))
  }

  predicate HitHasRoom(s: Engine, ip: Address) {
    var i := HitIndex(s, ip);
    i >= 0 && !s.software[i].temporary ==> First(s.pending, OfThread(0)) >= 0
  }

  // The pending-step table.

  lemma {:induction false} AddKeepsAwaited(pending: seq<PendingStep>, e: PendingStep, id: BreakpointId, address: Address)
    ensures Awaited(pending, id, address) ==> Awaited(AddPending(pending, e), id, address)
    ensures Awaited(AddPending(pending, e), id, address) && !Names(e, id, address) ==> Awaited(pending, id, address)
    ensures e.threadId != 0 ==>
      (Awaited(AddPending(pending, e), e.breakpointId, e.address)
       <==> First(pending, OfThread(0)) >= 0 || Awaited(pending, e.breakpointId, e.address))
  {
    var i := First(pending, OfThread(0));
    var pending' := AddPending(pending, e);
    if Awaited(pending, id, address) {
      var k :| 0 <= k < |pending| && Names(pending[k], id, address);
      assert k != i && Names(pending'[k], id, address);
    }
    if Awaited(pending', id, address) && !Names(e, id, address) {
      var k :| 0 <= k < |pending'| && Names(pending'[k], id, address);
      assert k != i && Names(pending[k], id, address);
    }
    if e.threadId != 0 {
      if i >= 0 {
        assert Names(pending'[i], e.breakpointId, e.address);
      }
    }
  }

  lemma {:induction false} MarkKeepsAwaited(pending: seq<PendingStep>, t: ThreadId, marked: BreakpointId, id: BreakpointId, address: Address)
    requires Awaited(pending, id, address)
    ensures Awaited(MarkPending(pending, t, marked), id, address)
  {
    var k :| 0 <= k < |pending| && Names(pending[k], id, address);
    assert Names(MarkPending(pending, t, marked)[k], id, address);
  }

  // One step at a time.

  /** Consuming slot `k` orphans an entry: one the slot names, not found by its id because another entry has
      the same id, whose byte is lifted and which no other slot awaits. */
  ghost predicate Orphans(s: Engine, k: nat, i: nat)
    requires k < |s.pending| && i < |s.software|
  {
    var e := s.pending[k];
    && s.software[i].enabled && Names(e, s.software[i].id, s.software[i].address)
    && First(s.software, WithId(e.breakpointId)) != i
    && !Kept(s.mem, s.pending[k := NO_PENDING], s.software[i])
  }

  lemma {:induction false} ConsumeKeepsNone(s: Engine, k: nat)
    requires k < |s.pending| && DistinctAddresses(s.software) && NoneLost(s)
    ensures NoneLost(Consume(s, k)) <==> forall i: nat :: i < |s.software| ==> !Orphans(s, k, i)
  {
    var e := s.pending[k];
    var s' := Consume(s, k);
    var found := First(s.software, WithId(e.breakpointId));
    forall i: nat | i < |s.software| && s.software[i].enabled
      ensures Kept(s'.mem, s'.pending, s.software[i]) <==> !Orphans(s, k, i)
    {
      var b := s.software[i];
      assert Kept(s.mem, s.pending, b);
      if found == i {
        if b.address != e.address {
          OthersStayAwaited(s.pending, k, b.id, b.address);
        }
      } else {
        assert b.address in s.mem;
        if found >= 0 && s.software[found].address == e.address {
          assert b.address != e.address;
          assert s'.mem[b.address] == s.mem[b.address];
        }
        if !Names(e, b.id, b.address) {
          OthersStayAwaited(s.pending, k, b.id, b.address);
        }
      }
    }
  }

  lemma {:induction false} OthersStayAwaited(pending: seq<PendingStep>, k: nat, id: BreakpointId, address: Address)
    requires k < |pending| && !Names(pending[k], id, address)
    ensures Awaited(pending, id, address) ==> Awaited(pending[k := NO_PENDING], id, address)
  {
    if Awaited(pending, id, address) {
      var j :| 0 <= j < |pending| && Names(pending[j], id, address);
      assert Names(pending[k := NO_PENDING][j], id, address);
    }
  }

  /** With unique ids consuming a slot orphans nothing. */
  lemma {:induction false} ConsumeOrderly(s: Engine, k: nat)
    requires k < |s.pending| && Orderly(s)
    ensures Orderly(Consume(s, k))
  {
    ConsumeKeepsNone(s, k);
    forall i: nat | i < |s.software|
      ensures !Orphans(s, k, i)
    {
      var e := s.pending[k];
      if s.software[i].enabled && s.software[i].id == e.breakpointId {
        assert WithId(e.breakpointId)(s.software[i]);
      }
    }
  }

  lemma {:induction false} ConsumeAnyOrderly(s: Engine, t: ThreadId)
    requires Orderly(s)
    ensures Orderly(ConsumeAny(s, t))
  {
    var k := First(s.pending, OfThread(t));
    if k >= 0 { ConsumeOrderly(s, k); }
  }

  lemma {:induction false} SetOrderly(s: Engine, id: BreakpointId, temporary: bool, address: Address, writable: bool)
    requires Orderly(s) && First(s.software, WithId(id)) < 0
    ensures Orderly(DoSetSoftware(s, id, temporary, address, writable))
  {
    var s' := DoSetSoftware(s, id, temporary, address, writable);
    var free := First(s.software, Disabled());
    forall i | 0 <= i < |s.software| && s.software[i].enabled && s' != s
      ensures s.software[i].id != id && s.software[i].address != address
    {
      assert !WithId(id)(s.software[i]) && !AtAddress(address)(s.software[i]);
    }
    forall i | 0 <= i < |s'.software| && s'.software[i].enabled
      ensures Kept(s'.mem, s'.pending, s'.software[i])
    {
      if s' != s && i != free { assert Kept(s.mem, s.pending, s.software[i]); }
    }
  }

  /** Taking entry `i` out and writing at its address disturbs no other entry. */
  lemma {:induction false} ClearOrderly(s: Engine, i: nat, v: Byte)
    requires Orderly(s) && i < |s.software| && s.software[i].enabled
    ensures Orderly(s.(mem := s.mem[s.software[i].address := v], software := s.software[i := NO_SOFTWARE]))
  {
    forall j | 0 <= j < |s.software| && j != i && s.software[j].enabled
      ensures Kept(s.mem[s.software[i].address := v], s.pending, s.software[j])
    {
      assert Kept(s.mem, s.pending, s.software[j]);
    }
  }

  /** Hitting a permanent breakpoint loses it exactly when there is no free slot, its byte differs from 0xCC
      and no earlier hit still awaits it. */
  lemma {:induction false} HitKeepsNone(s: Engine, t: ThreadId, ip: Address, f: Filter)
    requires Orderly(s) && t != 0
    ensures NoneLost(OnBreakpoint(s, t, ip, f).0) <==>
              (HitHasRoom(s, ip)
               || s.software[HitIndex(s, ip)].originalByte == INT3
               || Awaited(s.pending, s.software[HitIndex(s, ip)].id, s.software[HitIndex(s, ip)].address))
    ensures NoneLost(OnBreakpoint(s, t, ip, f).0) ==> Orderly(OnBreakpoint(s, t, ip, f).0)
  {
    var i := HitIndex(s, ip);
    var s' := OnBreakpoint(s, t, ip, f).0;
    if i >= 0 {
      var b := s.software[i];
      if b.temporary {
        ClearOrderly(s, i, b.originalByte);
      } else {
        var e := PendingStep(t, b.id, false, b.address);
        assert s'.pending == AddPending(s.pending, e) && s'.mem == s.mem[b.address := b.originalByte];
        assert s'.software == s.software;
        forall j | 0 <= j < |s.software| && j != i && s.software[j].enabled
          ensures Kept(s'.mem, s'.pending, s.software[j])
        {
          assert Kept(s.mem, s.pending, s.software[j]);
          AddKeepsAwaited(s.pending, e, s.software[j].id, s.software[j].address);
        }
        AddKeepsAwaited(s.pending, e, b.id, b.address);
        assert NoneLost(s') <==> Kept(s'.mem, s'.pending, b);
      }
    }
  }

  lemma {:induction false} SingleStepOrderly(s: Engine, t: ThreadId, dr6: set<bv64>, f: Filter)
    requires Orderly(s)
    ensures Orderly(OnSingleStep(s, t, dr6, f).0)
  {
    ConsumeAnyOrderly(s, t);
    SingleStepTouches(s, t, dr6, f);
  }

  /** A single step changes bytes and pending steps only by consuming one, and not even that when it re-arms guards. */
  lemma {:induction false} SingleStepTouches(s: Engine, t: ThreadId, dr6: set<bv64>, f: Filter)
    ensures var s' := OnSingleStep(s, t, dr6, f).0;
            var base := if s.rearmThread == t then s else ConsumeAny(s, t);
            s'.mem == base.mem && s'.software == base.software && s'.pending == base.pending
  {
    hide Consume, ReportSingleStep, RearmAll;
    StepReportTouches(s.(rearmThread := 0, pages := RearmAll(s.pages, s.memory), stepStopThread := 0), t, true, dr6, f);
    var k := First(s.pending, OfThread(t));
    if k >= 0 { StepReportTouches(Consume(s, k), t, true, dr6, f); } else { StepReportTouches(s, t, false, dr6, f); }
  }

  lemma {:induction false} StepReportTouches(s: Engine, t: ThreadId, complete: bool, dr6: set<bv64>, f: Filter)
    ensures var s' := ReportSingleStep(s, t, complete, dr6, f).0;
            s'.mem == s.mem && s'.software == s.software && s'.pending == s.pending
  {
  }

  lemma {:induction false} ReplyOrderly(s: Engine, t: ThreadId, reply: Reply)
    requires Orderly(s) && t in s.stops
    ensures Orderly(OnReply(s, t, reply).0)
  {
    var waiting := s.(stops := s.stops - {t});
    var s' := OnReply(s, t, reply).0;
    assert Orderly(waiting);
    match reply
    case Execution(flags, registers) => ContextOnly(waiting, t, flags, registers);
    case StepOnce(flags, registers) =>
      ContextOnly(waiting, t, flags, registers);
      StepReplyKeeps(s, t, reply);
    case _ =>
      hide WithContext, AddPending, MarkPending;
      ConsumeAnyOrderly(waiting, t);
      var consumed := ConsumeAny(waiting, t);
      forall i | 0 <= i < |s.software| && s.software[i].enabled
        ensures Kept(s'.mem, s'.pending, s.software[i])
      {
        assert Kept(consumed.mem, consumed.pending, s.software[i]);
      }
  }

  lemma {:induction false} StepReplyKeeps(s: Engine, t: ThreadId, reply: Reply)
    requires Orderly(s) && t in s.stops && reply.StepOnce?
    ensures Orderly(OnReply(s, t, reply).0)
  {
    var s' := OnReply(s, t, reply).0;
    ContextOnly(s.(stops := s.stops - {t}), t, reply.flags, reply.registers);
    hide WithContext, AddPending, MarkPending;
    assert s'.software == s.software && s'.mem == s.mem;
    forall i | 0 <= i < |s.software| && s.software[i].enabled
      ensures Kept(s'.mem, s'.pending, s.software[i])
    {
      var b := s.software[i];
      assert Kept(s.mem, s.pending, b);
      AddKeepsAwaited(s.pending, PendingStep(t, 0, true, 0), b.id, b.address);
      if Awaited(s.pending, b.id, b.address) {
        MarkKeepsAwaited(s.pending, t, s.stops[t].breakpointId, b.id, b.address);
      }
    }
  }

  /** A write keeps every breakpoint exactly when it is harmless. */
  lemma {:induction false} WriteKeepsNone(s: Engine, address: Address, data: seq<Byte>, writable: bool)
    requires NoneLost(s) && WriteDone(s, address, data, writable)
    ensures NoneLost(DoWriteMemory(s, address, data, writable)) <==> HarmlessWrite(s, address, data)
  {
    var s' := DoWriteMemory(s, address, data, writable);
    forall i | 0 <= i < |s.software| && s.software[i].enabled
      ensures Kept(s'.mem, s'.pending, s.software[i]) <==>
                (address <= s.software[i].address < address + |data| ==>
                   || data[s.software[i].address - address] == INT3
                   || Awaited(s.pending, s.software[i].id, s.software[i].address))
    {
      assert Kept(s.mem, s.pending, s.software[i]);
    }
  }

  lemma {:induction false} ExceptionOrderly(s: Engine, t: ThreadId, x: Exception, f: Filter)
    requires Orderly(s) && t != 0 && (x.BreakpointTrap? ==> HitHasRoom(s, x.ip))
    ensures Orderly(OnException(s, t, x, f).0)
  {
    var trapped := Trapped(s, t, x);
    assert trapped.mem == s.mem && trapped.software == s.software && trapped.pending == s.pending;
    assert Orderly(trapped);
    hide NoneLost, UniqueIds, DistinctAddresses;
    if trapped.running {
      match x
      case BreakpointTrap(ip) => HitKeepsNone(trapped, t, ip, f);
      case SingleStepTrap(dr6) => SingleStepOrderly(trapped, t, dr6, f);
      case GuardFault(address, kind) => FaultOrderly(trapped, t, address, kind, f);
      case OtherException => FaultOrderly(trapped, t, 0, 0, f);
    }
  }

  lemma {:induction false} FaultOrderly(s: Engine, t: ThreadId, address: Address, kind: nat, f: Filter)
    requires Orderly(s)
    ensures Orderly(OnGuardFault(s, t, address, kind, f).0)
    ensures Orderly(Report(s, t, Stop(0, 0, false, false, false, false), f).0)
  {
  }

  lemma {:induction false} StepOrderly(s: Engine, e: Event)
    requires Orderly(s) && Possible(s, e) && Roomy()(s, e)
    ensures Orderly(Step(s, e))
  {
    match e
    case Raise(t, x, f) => ExceptionOrderly(s, t, x, f);
    case Answer(t, reply) => ReplyOrderly(s, t, reply);
    case SetSoftware(id, temporary, address, writable) => SetOrderly(s, id, temporary, address, writable);
    case RemoveSoftware(id, address) =>
      var i := FindToRemove(s.software, id, address);
      if i >= 0 { ClearOrderly(s, i, s.software[i].originalByte); }
    case WriteMemory(address, data, writable) =>
      if WriteDone(s, address, data, writable) { WriteKeepsNone(s, address, data, writable); }
    case _ => Untouched(s, e);
  }

  /** The other requests touch neither bytes nor software breakpoints nor pending steps. */
  lemma {:induction false} Untouched(s: Engine, e: Event)
    requires Possible(s, e)
    requires !e.Raise? && !e.Answer? && !e.SetSoftware? && !e.RemoveSoftware? && !e.WriteMemory?
    ensures Step(s, e).mem == s.mem && Step(s, e).software == s.software && Step(s, e).pending == s.pending
  {
  }

  /** Through any interleaving of threads, removals, re-adding under the same id, and failed pipes, no enabled
      breakpoint is lost. */
  lemma {:induction false} RunLosesNone(s: Engine, run: seq<Event>)
    requires Orderly(s) && Along(s, run, Roomy())
    ensures Orderly(Run(s, run))
    decreases |run|
  {
    if run != [] {
      StepOrderly(s, run[0]);
      RunLosesNone(Step(s, run[0]), run[1..]);
    }
  }

  /** Thread `t` hits the permanent breakpoint `j`: its byte is lifted and the first free slot names it. */
  lemma {:induction false} HitLifts(s: Engine, t: ThreadId, j: nat, f: Filter)
    requires s.running && j < |s.software| && s.software[j].enabled && !s.software[j].temporary
    requires DistinctAddresses(s.software) && t != 0 && t !in s.stops
    ensures var b := s.software[j];
            var hit := Step(s, Raise(t, BreakpointTrap(b.address + 1), f));
            && hit.software == s.software && hit.running && hit.rearmThread == s.rearmThread
            && hit.mem == s.mem[b.address := b.originalByte]
            && hit.pending == AddPending(s.pending, PendingStep(t, b.id, false, b.address))
  {
    hide AddPending;
    assert AtAddress(s.software[j].address)(s.software[j]);
    assert HitIndex(s, s.software[j].address + 1) == j;
  }

  /** The thread's only pending entry is in slot `k` and its id finds another entry first: stepping frees the slot and
      plants nothing at the slot's address. */
  lemma {:induction false} StepFindsOther(s: Engine, t: ThreadId, k: nat, g: Filter)
    requires s.running && s.rearmThread != t && t != 0 && k < |s.pending| && First(s.pending, OfThread(t)) == k
    requires var i := First(s.software, WithId(s.pending[k].breakpointId));
             i >= 0 && s.software[i].address != s.pending[k].address
    ensures var past := OnException(s, t, SingleStepTrap({}), g).0;
            past.software == s.software && past.mem == s.mem && past.pending == s.pending[k := NO_PENDING]
  {
  }

  /** The slot a hit takes is the thread's first, and freeing it again leaves nothing that awaits the breakpoint. */
  lemma {:induction false} OnlySlot(pending: seq<PendingStep>, t: ThreadId, id: BreakpointId, address: Address)
    requires t != 0 && First(pending, OfThread(0)) >= 0
    requires forall k :: 0 <= k < |pending| ==> pending[k].threadId != t && !Names(pending[k], id, address)
    ensures var e, k := PendingStep(t, id, false, address), First(pending, OfThread(0));
            var taken := AddPending(pending, e);
            && |taken| == |pending| && taken[k] == e && First(taken, OfThread(t)) == k
            && !Awaited(taken[k := NO_PENDING], id, address)
  {
    var e, k := PendingStep(t, id, false, address), First(pending, OfThread(0));
    assert OfThread(t)(AddPending(pending, e)[k]);
  }

  /** The agent never checks that ids differ, and this is what a shared id costs: hit the later of two
      breakpoints with one id, step past it, and its byte stays lifted with nobody awaiting it. */
  lemma {:induction false} SharedIdLoses(s: Engine, t: ThreadId, i: nat, j: nat, f: Filter, g: Filter)
    requires i < j < |s.software| && s.software[i].enabled && s.software[j].enabled && s.running
    requires s.software[i].id == s.software[j].id && !s.software[j].temporary
    requires DistinctAddresses(s.software) && s.software[j].address in s.mem && s.software[j].originalByte != INT3
    requires t != 0 && t !in s.stops && s.rearmThread != t && First(s.pending, OfThread(0)) >= 0
    requires forall k :: 0 <= k < |s.pending| ==>
               s.pending[k].threadId != t && !Names(s.pending[k], s.software[j].id, s.software[j].address)
    ensures var b := s.software[j];
            var hit := Step(s, Raise(t, BreakpointTrap(b.address + 1), f));
            var waiting := if t in hit.stops then Step(hit, Answer(t, Execution(Unchanged, map[]))) else hit;
            var past := OnException(waiting, t, SingleStepTrap({}), g).0;
            past.software == s.software && !Kept(past.mem, past.pending, b)
  {
    hide OnException, Report;
    var b := s.software[j];
    var hit := Step(s, Raise(t, BreakpointTrap(b.address + 1), f));
    HitLifts(s, t, j, f);
    var waiting := if t in hit.stops then Step(hit, Answer(t, Execution(Unchanged, map[]))) else hit;
    assert waiting.pending == hit.pending && waiting.mem == hit.mem && waiting.software == s.software;
    assert WithId(b.id)(s.software[i]);
    OnlySlot(s.pending, t, b.id, b.address);
    hide AddPending;
    StepFindsOther(waiting, t, First(s.pending, OfThread(0)), g);
  }
}
