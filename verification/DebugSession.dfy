/** The driver's debug session: handlers that check under a lock, release it, act, and check again. One step is one
    stretch between two lock operations or kernel calls; any number of callers interleave. */
module DebugSession {

  type Handle = nat
  type ProcessId = nat
  type Caller = nat

  const NO_HANDLE: Handle := 0

  datatype Stage = Created | Attached | Losing(reason: Status)

  /** Where a caller is inside a handler. While `Holding`, it alone is responsible for its debug object. */
  datatype Phase =
    | Idle
    | Checked(processId: ProcessId)
    | Holding(processId: ProcessId, handle: Handle, stage: Stage)
    | Stopping(processId: ProcessId, handle: Handle)

  datatype Status = Pending | Success | BufferTooSmall | InvalidParameter | NotSupported | DeviceBusy | NotFound | Failed

  datatype Event =
    | Attach(processId: ProcessId, inputFits: bool, ready: bool)
    | CreateObject(succeeds: bool)
    | DebugProcess(succeeds: bool)
    | Install
    | CloseLoser
    | Stop(processId: ProcessId, inputFits: bool, ready: bool)
    | FinishStop(removed: bool)
    | Close

  /** The lock-protected globals, the kernel's open debug objects, and the callers' positions. `next` is the kernel's
      next fresh handle; `closes` counts all closings and `strayCloses` those of a handle that is not open. */
  datatype Session = Session(
    installed: Handle, processId: ProcessId,
    open: set<Handle>, next: Handle, closes: nat, strayCloses: nat,
    callers: map<Caller, Phase>)

  const INITIAL: Session := Session(NO_HANDLE, 0, {}, 1, 0, 0, map[])

  function PhaseOf(callers: map<Caller, Phase>, c: Caller): Phase {
    if c in callers then callers[c] else Idle
  }

  function Goes(s: Session, c: Caller, p: Phase): Session {
    s.(callers := s.callers[c := p])
  }

  /** ZwClose. */
  function ZwClose(s: Session, h: Handle): Session {
    s.(open := s.open - {h}, closes := s.closes + 1, strayCloses := s.strayCloses + if h in s.open then 0 else 1)
  }

  /** WdblCloseDebugSessionLocked. */
  function CloseSession(s: Session): Session {
    (if s.installed != NO_HANDLE then ZwClose(s, s.installed) else s).(installed := NO_HANDLE, processId := 0)
  }

  function Refusal(processId: ProcessId, inputFits: bool, ready: bool): Status {
    if !inputFits then BufferTooSmall
    else if processId == 0 then InvalidParameter
    else if !ready then NotSupported
    else Pending
  }

  /** One step of caller `c`, with the status it returns to its client (`Pending` while the handler goes on). A step
      the caller is not ready for does nothing. */
  function Step(s: Session, c: Caller, e: Event): (r: (Session, Status)) {
    match (e, PhaseOf(s.callers, c))
    case (Attach(p, inputFits, ready), Idle) =>
      if Refusal(p, inputFits, ready) != Pending then (s, Refusal(p, inputFits, ready))
      else if s.installed != NO_HANDLE then (s, DeviceBusy)
      else (Goes(s, c, Checked(p)), Pending)
    case (CreateObject(succeeds), Checked(p)) =>
      if !succeeds then (Goes(s, c, Idle), Failed)
      else (Goes(s.(open := s.open + {s.next}, next := s.next + 1), c, Holding(p, s.next, Created)), Pending)
    case (DebugProcess(succeeds), Holding(p, h, Created)) =>
      (Goes(s, c, Holding(p, h, if succeeds then Attached else Losing(Failed))), Pending)
    case (Install, Holding(p, h, Attached)) =>
      if s.installed != NO_HANDLE then (Goes(s, c, Holding(p, h, Losing(DeviceBusy))), Pending)
      else (Goes(s.(installed := h, processId := p), c, Idle), Success)
    case (CloseLoser, Holding(_, h, Losing(reason))) =>
      (Goes(ZwClose(s, h), c, Idle), reason)
    case (Stop(p, inputFits, ready), Idle) =>
      if Refusal(p, inputFits, ready) != Pending then (s, Refusal(p, inputFits, ready))
      else if s.installed == NO_HANDLE || s.processId != p then (s, NotFound)
      else (Goes(s, c, Stopping(p, s.installed)), Pending)
    case (FinishStop(removed), Stopping(_, h)) =>
      (Goes(if s.installed == h then CloseSession(s) else s, c, Idle), if removed then Success else Failed)
    case (Close, Idle) => (CloseSession(s), Success)
    case _ => (s, Pending)
  }

  /** The handles in the hands of attaches in flight. */
  function Owned(callers: map<Caller, Phase>): set<Handle> {
    set c | c in callers && callers[c].Holding? :: callers[c].handle
  }

  function Installed(s: Session): set<Handle> {
    if s.installed == NO_HANDLE then {} else {s.installed}
  }

  ghost predicate SoleOwners(callers: map<Caller, Phase>) {
    forall c, d ::
      (c in callers && d in callers && callers[c].Holding? && callers[d].Holding?
       && callers[c].handle == callers[d].handle) ==> c == d
  }

  ghost predicate PhaseValid(s: Session, p: Phase) {
    match p
    case Idle => true
    case Checked(p) => p != 0
    case Holding(p, h, stage) =>
      p != 0 && NO_HANDLE < h < s.next && h != s.installed && (stage.Losing? ==> stage.reason in {Failed, DeviceBusy})
    case Stopping(p, h) => NO_HANDLE < h < s.next && h !in Owned(s.callers) && (h == s.installed ==> p == s.processId)
  }

  /** Ownership: the open debug objects are exactly the installed one and those of attaches in flight, each with one
      owner; every object ever created is open or was closed exactly once; a process id is stored exactly when a
      handle is. */
  ghost predicate Inv(s: Session) {
    && (s.installed == NO_HANDLE <==> s.processId == 0)
    && s.open == Installed(s) + Owned(s.callers)
    && s.strayCloses == 0
    && s.closes + |s.open| == s.next - 1
    && s.installed < s.next
    && SoleOwners(s.callers)
    && forall c :: c in s.callers ==> PhaseValid(s, s.callers[c])
  }

  function HandlesOf(p: Phase): set<Handle> {
    if p.Holding? then {p.handle} else {}
  }

  lemma {:induction false} OwnedAfter(callers: map<Caller, Phase>, c: Caller, p: Phase)
    requires SoleOwners(callers)
    ensures Owned(callers[c := p]) == Owned(callers) - HandlesOf(PhaseOf(callers, c)) + HandlesOf(p)
  {
    var after := callers[c := p];
    forall h | h in Owned(after)
      ensures h in Owned(callers) - HandlesOf(PhaseOf(callers, c)) + HandlesOf(p)
    {
      var d :| d in after && after[d].Holding? && after[d].handle == h;
      if d != c { assert callers[d].handle == h; }
    }
    forall h | h in Owned(callers) - HandlesOf(PhaseOf(callers, c)) + HandlesOf(p)
      ensures h in Owned(after)
    {
      if p.Holding? && h == p.handle {
        assert after[c].handle == h;
      } else {
        var d :| d in callers && callers[d].Holding? && callers[d].handle == h;
        assert after[d].handle == h;
      }
    }
  }

  lemma {:induction false} SoleAfter(callers: map<Caller, Phase>, c: Caller, p: Phase)
    requires SoleOwners(callers)
    requires p.Holding? ==> p.handle !in Owned(callers) || p.handle in HandlesOf(PhaseOf(callers, c))
    ensures SoleOwners(callers[c := p])
  {
    forall d | d in callers && d != c && callers[d].Holding? && p.Holding?
      ensures callers[d].handle != p.handle
    {
      OwnsIt(callers, d);
    }
  }

  lemma {:induction false} OwnsIt(callers: map<Caller, Phase>, c: Caller)
    requires c in callers && callers[c].Holding?
    ensures callers[c].handle in Owned(callers)
  {
  }

  lemma {:induction false} OwnedBounds(s: Session)
    requires Inv(s)
    ensures forall h :: h in Owned(s.callers) ==> NO_HANDLE < h < s.next && h != s.installed
  {
    forall h | h in Owned(s.callers)
      ensures NO_HANDLE < h < s.next && h != s.installed
    {
      var c :| c in s.callers && s.callers[c].Holding? && s.callers[c].handle == h;
      assert PhaseValid(s, s.callers[c]);
    }
  }

  /** Caller `c` moves to `p` while the globals become those of `t`; the others only need their positions to stay valid. */
  lemma {:induction false} MoveKeeps(s: Session, t: Session, c: Caller, p: Phase)
    requires Inv(s) && t.callers == s.callers[c := p] && PhaseValid(t, p)
    requires p.Holding? ==> p.handle !in Owned(s.callers) || p.handle in HandlesOf(PhaseOf(s.callers, c))
    requires (t.installed == NO_HANDLE <==> t.processId == 0) && t.installed < t.next && t.strayCloses == 0
    requires t.closes + |t.open| == t.next - 1
    requires t.open == Installed(t) + (Owned(s.callers) - HandlesOf(PhaseOf(s.callers, c)) + HandlesOf(p))
    requires forall d :: d in s.callers && d != c ==> PhaseValid(t, s.callers[d])
    ensures Inv(t)
  {
    hide Owned, SoleOwners;
    OwnedAfter(s.callers, c, p);
    SoleAfter(s.callers, c, p);
  }

  /** Moving on without gaining or losing an object. */
  lemma {:induction false} GoesKeeps(s: Session, c: Caller, p: Phase)
    requires Inv(s) && PhaseValid(s, p) && HandlesOf(PhaseOf(s.callers, c)) == HandlesOf(p)
    ensures Inv(Goes(s, c, p))
  {
    hide Owned, SoleOwners;
    var t, own := Goes(s, c, p), HandlesOf(p);
    if c in s.callers && s.callers[c].Holding? { OwnsIt(s.callers, c); }
    assert own <= Owned(s.callers);
    OwnedAfter(s.callers, c, p);
    assert Owned(t.callers) == Owned(s.callers) == Owned(s.callers) - own + own;
    forall d | d in s.callers
      ensures PhaseValid(t, s.callers[d])
    {
      assert PhaseValid(s, s.callers[d]);
    }
    MoveKeeps(s, t, c, p);
  }

  lemma {:induction false} CreateKeeps(s: Session, c: Caller)
    requires Inv(s) && PhaseOf(s.callers, c).Checked?
    ensures Inv(Step(s, c, CreateObject(true)).0)
  {
    hide Owned, SoleOwners;
    var p := Holding(s.callers[c].processId, s.next, Created);
    var t := Step(s, c, CreateObject(true)).0;
    OwnedBounds(s);
    OwnedAfter(s.callers, c, p);
    assert s.next !in s.open;
    forall d | d in s.callers && d != c
      ensures PhaseValid(t, s.callers[d])
    {
      assert PhaseValid(s, s.callers[d]);
    }
    assert PhaseValid(s, s.callers[c]);
    MoveKeeps(s, t, c, p);
  }

  lemma {:induction false} InstallKeeps(s: Session, c: Caller)
    requires Inv(s) && PhaseOf(s.callers, c).Holding? && s.installed == NO_HANDLE
    requires PhaseOf(s.callers, c).stage == Attached
    ensures Inv(Step(s, c, Install).0)
  {
    hide Owned;
    var t, h := Step(s, c, Install).0, s.callers[c].handle;
    OwnsIt(s.callers, c);
    OwnedAfter(s.callers, c, Idle);
    assert PhaseValid(s, s.callers[c]);
    forall d | d in s.callers && d != c
      ensures PhaseValid(t, s.callers[d])
    {
      assert PhaseValid(s, s.callers[d]);
    }
    MoveKeeps(s, t, c, Idle);
  }

  lemma {:induction false} GiveUpKeeps(s: Session, c: Caller)
    requires Inv(s) && PhaseOf(s.callers, c).Holding? && PhaseOf(s.callers, c).stage.Losing?
    ensures Inv(Step(s, c, CloseLoser).0)
  {
    hide Owned, SoleOwners;
    var t, h := Step(s, c, CloseLoser).0, s.callers[c].handle;
    OwnsIt(s.callers, c);
    OwnedAfter(s.callers, c, Idle);
    assert PhaseValid(s, s.callers[c]);
    forall d | d in s.callers && d != c
      ensures PhaseValid(t, s.callers[d])
    {
      assert PhaseValid(s, s.callers[d]);
    }
    MoveKeeps(s, t, c, Idle);
  }

  lemma {:induction false} CloseKeeps(s: Session)
    requires Inv(s)
    ensures Inv(CloseSession(s))
  {
    OwnedBounds(s);
    hide Owned, SoleOwners;
    var t := CloseSession(s);
    assert s.installed != NO_HANDLE ==> s.installed in s.open;
    forall d | d in s.callers
      ensures PhaseValid(t, s.callers[d])
    {
      assert PhaseValid(s, s.callers[d]);
    }
  }

  /** Every step of every caller keeps ownership. */
  lemma {:induction false} StepKeeps(s: Session, c: Caller, e: Event)
    requires Inv(s)
    ensures Inv(Step(s, c, e).0)
  {
    hide Inv;
    var p := PhaseOf(s.callers, c);
    match e
    case CreateObject(succeeds) =>
      if p.Checked? && succeeds { CreateKeeps(s, c); } else if p.Checked? { GoesKeeps(s, c, Idle); }
    case Install => if p.Holding? && p.stage == Attached { InstallStep(s, c); }
    case CloseLoser => if p.Holding? && p.stage.Losing? { GiveUpKeeps(s, c); }
    case FinishStop(_) =>
      if p.Stopping? {
        CloseKeeps(s);
        GoesKeeps(if s.installed == p.handle then CloseSession(s) else s, c, Idle);
      }
    case Close => CloseKeeps(s);
    case _ => MovesKeep(s, c, e);
  }

  lemma {:induction false} InstallStep(s: Session, c: Caller)
    requires Inv(s) && PhaseOf(s.callers, c).Holding? && PhaseOf(s.callers, c).stage == Attached
    ensures Inv(Step(s, c, Install).0)
  {
    if s.installed == NO_HANDLE {
      InstallKeeps(s, c);
    } else {
      GoesKeeps(s, c, PhaseOf(s.callers, c).(stage := Losing(DeviceBusy)));
    }
  }

  lemma {:induction false} MovesKeep(s: Session, c: Caller, e: Event)
    requires Inv(s) && (e.Attach? || e.DebugProcess? || e.Stop?)
    ensures Inv(Step(s, c, e).0)
  {
    hide Owned, SoleOwners;
    var p := PhaseOf(s.callers, c);
    if p.Holding? || p.Checked? { assert PhaseValid(s, s.callers[c]); }
    match e
    case Attach(processId, inputFits, ready) => if Step(s, c, e).0 != s { GoesKeeps(s, c, Checked(processId)); }
    case DebugProcess(succeeds) =>
      if Step(s, c, e).0 != s { GoesKeeps(s, c, p.(stage := if succeeds then Attached else Losing(Failed))); }
    case Stop(processId, inputFits, ready) =>
      if Step(s, c, e).0 != s {
        OwnedBounds(s);
        GoesKeeps(s, c, Stopping(processId, s.installed));
      }
  }

  function Run(s: Session, steps: seq<(Caller, Event)>): Session
    decreases |steps|
  {
    if steps == [] then s else Run(Step(s, steps[0].0, steps[0].1).0, steps[1..])
  }

  /** Ownership is kept through any interleaving of any callers. */
  lemma {:induction false} RunKeeps(s: Session, steps: seq<(Caller, Event)>)
    requires Inv(s)
    ensures Inv(Run(s, steps))
    decreases |steps|
  {
    if steps != [] {
      StepKeeps(s, steps[0].0, steps[0].1);
      RunKeeps(Step(s, steps[0].0, steps[0].1).0, steps[1..]);
    }
  }

  /** From the driver's first state on, whatever callers do and however they interleave. */
  lemma {:induction false} ReachableOwned(steps: seq<(Caller, Event)>)
    ensures Inv(Run(INITIAL, steps))
  {
    assert Owned(INITIAL.callers) == {};
    RunKeeps(INITIAL, steps);
  }

  /** When no attach is in flight nothing is open but the installed object; closing the device or unloading the
      driver then leaves nothing open. */
  lemma {:induction false} NothingLeaks(s: Session, c: Caller)
    requires Inv(s) && PhaseOf(s.callers, c).Idle? && forall d :: d in s.callers ==> !s.callers[d].Holding?
    ensures s.open == Installed(s)
    ensures var t := Step(s, c, Close).0; t.open == {} && t.closes == s.next - 1
  {
    assert Owned(s.callers) == {};
    StepKeeps(s, c, Close);
  }

  /** A stop ends a session exactly when the one it looked up is still installed, and never another process's. */
  lemma {:induction false} StopEndsOwnSession(s: Session, c: Caller, removed: bool)
    requires Inv(s) && PhaseOf(s.callers, c).Stopping?
    ensures var (t, p) := (Step(s, c, FinishStop(removed)).0, PhaseOf(s.callers, c).processId);
            && (s.installed == PhaseOf(s.callers, c).handle ==>
                  s.processId == p && t.installed == NO_HANDLE && t.open == s.open - {s.installed})
            && (s.installed != PhaseOf(s.callers, c).handle ==> t.installed == s.installed && t.open == s.open)
  {
  }

  /** An attach in flight ends by installing its own object or by closing it, never by leaving it behind. */
  lemma {:induction false} AttachEnds(s: Session, c: Caller, e: Event)
    requires Inv(s) && PhaseOf(s.callers, c).Holding? && PhaseOf(Step(s, c, e).0.callers, c).Idle?
    ensures var (t, status) := Step(s, c, e);
            var h := PhaseOf(s.callers, c).handle;
            && (status == Success <==> t.installed == h)
            && (status != Success ==> h !in t.open && t.closes == s.closes + 1 && t.installed == s.installed)
  {
    hide Owned, SoleOwners;
    assert PhaseValid(s, s.callers[c]);
    EndingSteps(s, c, e);
  }

  lemma {:induction false} EndingSteps(s: Session, c: Caller, e: Event)
    requires PhaseOf(s.callers, c).Holding? && PhaseOf(Step(s, c, e).0.callers, c).Idle?
    ensures var stage := PhaseOf(s.callers, c).stage;
            (e.Install? && stage == Attached && s.installed == NO_HANDLE) || (e.CloseLoser? && stage.Losing?)
  {
  }

  /** The driver's globals, changed one lock section or kernel call at a time. */
  class Driver {
    var debugObjectHandle: Handle
    var debugProcessId: ProcessId
    var open: set<Handle>
    var next: Handle
    var closes: nat
    var strayCloses: nat
    var callers: map<Caller, Phase>

    ghost function State(): Session
      reads this
    {
      Session(debugObjectHandle, debugProcessId, open, next, closes, strayCloses, callers)
    }

    constructor ()
      ensures State() == INITIAL
    {
      debugObjectHandle, debugProcessId, open, next, closes, strayCloses, callers := NO_HANDLE, 0, {}, 1, 0, 0, map[];
    }

    method CloseHandle(h: Handle)
      modifies this`open, this`closes, this`strayCloses
      ensures State() == ZwClose(old(State()), h)
    {
      closes := closes + 1;
      if h !in open {
        strayCloses := strayCloses + 1;
      }
      open := open - {h};
    }

    method CloseDebugSessionLocked()
      modifies this
      ensures State() == CloseSession(old(State()))
    {
      if debugObjectHandle != NO_HANDLE {
        CloseHandle(debugObjectHandle);
      }
      debugObjectHandle := NO_HANDLE;
      debugProcessId := 0;
    }

    /** The checks both handlers start with. */
    method CheckRequest(processId: ProcessId, inputFits: bool, ready: bool) returns (status: Status)
      ensures status == Refusal(processId, inputFits, ready)
    {
      if !inputFits {
        return BufferTooSmall;
      }
      if processId == 0 {
        return InvalidParameter;
      }
      if !ready {
        return NotSupported;
      }
      return Pending;
    }

    /** WdblHandleDebugActiveProcess up to the first release of the lock. */
    method BeginAttach(c: Caller, processId: ProcessId, inputFits: bool, ready: bool) returns (status: Status)
      requires PhaseOf(callers, c).Idle?
      modifies this
      ensures (State(), status) == Step(old(State()), c, Attach(processId, inputFits, ready))
    {
      status := CheckRequest(processId, inputFits, ready);
      if status != Pending {
        return;
      }
      if debugObjectHandle != NO_HANDLE {
        return DeviceBusy;
      }
      callers := callers[c := Checked(processId)];
    }

    /** ZwCreateDebugObject: handles are never given out twice. */
    method CreateDebugObject(c: Caller, succeeds: bool) returns (status: Status)
      requires PhaseOf(callers, c).Checked?
      modifies this
      ensures (State(), status) == Step(old(State()), c, CreateObject(succeeds))
    {
      var processId := callers[c].processId;
      if !succeeds {
        callers := callers[c := Idle];
        return Failed;
      }
      callers := callers[c := Holding(processId, next, Created)];
      open := open + {next};
      next := next + 1;
      status := Pending;
    }

    /** Opening the process and ZwDebugActiveProcess on the new object. */
    method DebugActiveProcess(c: Caller, succeeds: bool) returns (status: Status)
      requires PhaseOf(callers, c).Holding? && callers[c].stage == Created
      modifies this
      ensures (State(), status) == Step(old(State()), c, DebugProcess(succeeds))
    {
      callers := callers[c := callers[c].(stage := if succeeds then Attached else Losing(Failed))];
      status := Pending;
    }

    /** The second lock section: install unless somebody else has in the meantime. */
    method InstallSession(c: Caller) returns (status: Status)
      requires PhaseOf(callers, c).Holding? && callers[c].stage == Attached
      modifies this
      ensures (State(), status) == Step(old(State()), c, Install)
    {
      var processId, handle := callers[c].processId, callers[c].handle;
      if debugObjectHandle != NO_HANDLE {
        callers := callers[c := Holding(processId, handle, Losing(DeviceBusy))];
        return Pending;
      }
      debugObjectHandle := handle;
      debugProcessId := processId;
      callers := callers[c := Idle];
      status := Success;
    }

    /** An attach whose kernel call failed or who came second closes its own object. */
    method GiveUp(c: Caller) returns (status: Status)
      requires PhaseOf(callers, c).Holding? && callers[c].stage.Losing?
      modifies this
      ensures (State(), status) == Step(old(State()), c, CloseLoser)
    {
      status := callers[c].stage.reason;
      CloseHandle(callers[c].handle);
      callers := callers[c := Idle];
    }

    /** WdblHandleDebugActiveProcessStop up to the first release of the lock. */
    method BeginStop(c: Caller, processId: ProcessId, inputFits: bool, ready: bool) returns (status: Status)
      requires PhaseOf(callers, c).Idle?
      modifies this
      ensures (State(), status) == Step(old(State()), c, Stop(processId, inputFits, ready))
    {
      status := CheckRequest(processId, inputFits, ready);
      if status != Pending {
        return;
      }
      if debugObjectHandle == NO_HANDLE || debugProcessId != processId {
        return NotFound;
      }
      callers := callers[c := Stopping(processId, debugObjectHandle)];
    }

    /** The second lock section of a stop: close the session only if it is still the one looked up. */
    method EndStop(c: Caller, removed: bool) returns (status: Status)
      requires PhaseOf(callers, c).Stopping?
      modifies this
      ensures (State(), status) == Step(old(State()), c, FinishStop(removed))
    {
      if debugObjectHandle == callers[c].handle {
        CloseDebugSessionLocked();
      }
      callers := callers[c := Idle];
      status := if removed then Success else Failed;
    }

    /** WdblClose and the session part of WdblUnload. */
    method CloseDevice(c: Caller) returns (status: Status)
      requires PhaseOf(callers, c).Idle?
      modifies this
      ensures (State(), status) == Step(old(State()), c, Close)
    {
      CloseDebugSessionLocked();
      status := Success;
    }
  }
}
