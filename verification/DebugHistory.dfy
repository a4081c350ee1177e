/** Whose session is stored: runs of the debug session told with a record of who asked for what. */
module DebugHistory {
  import opened DebugSession

  /** `asked` holds, for each caller, the process id of the last attach it sent from outside a handler; `madeFor` holds,
      for each debug object, what its creator had asked for when it was created. */
  datatype History = History(session: Session, asked: map<Caller, ProcessId>, madeFor: map<Handle, ProcessId>)

  const NOTHING_YET: History := History(INITIAL, map[], map[])

  function Follow(h: History, c: Caller, e: Event): History {
    var s := Step(h.session, c, e).0;
    History(s,
            if e.Attach? && PhaseOf(h.session.callers, c).Idle? then h.asked[c := e.processId] else h.asked,
            if s.next > h.session.next && c in h.asked then h.madeFor[h.session.next := h.asked[c]] else h.madeFor)
  }

  function FollowAll(h: History, steps: seq<(Caller, Event)>): History
    decreases |steps|
  {
    if steps == [] then h else FollowAll(Follow(h, steps[0].0, steps[0].1), steps[1..])
  }

  /** Everywhere the session mentions a process id, it is the one asked for. */
  ghost predicate Recorded(h: History) {
    && (forall c :: c in h.session.callers && h.session.callers[c].Checked? ==>
          c in h.asked && h.session.callers[c].processId == h.asked[c])
    && (forall c :: c in h.session.callers && h.session.callers[c].Holding? ==>
          && c in h.asked && h.session.callers[c].processId == h.asked[c]
          && h.session.callers[c].handle in h.madeFor && h.madeFor[h.session.callers[c].handle] == h.asked[c])
    && (h.session.installed != NO_HANDLE ==>
          h.session.installed in h.madeFor && h.madeFor[h.session.installed] == h.session.processId)
    && (forall o :: o in h.madeFor ==> o < h.session.next)
  }

  lemma {:induction false} FollowKeeps(h: History, c: Caller, e: Event)
    requires Recorded(h)
    ensures Recorded(Follow(h, c, e))
  {
    hide Refusal;
    var s, t := h.session, Follow(h, c, e).session;
    forall d | d in t.callers && d != c
      ensures d in s.callers && t.callers[d] == s.callers[d]
    {
      OnlyMover(s, c, e, d);
    }
  }

  lemma {:induction false} OnlyMover(s: Session, c: Caller, e: Event, d: Caller)
    requires d != c
    ensures d in Step(s, c, e).0.callers <==> d in s.callers
    ensures d in s.callers ==> Step(s, c, e).0.callers[d] == s.callers[d]
  {
  }

  lemma {:induction false} FollowAllKeeps(h: History, steps: seq<(Caller, Event)>)
    requires Recorded(h)
    ensures Recorded(FollowAll(h, steps)) && FollowAll(h, steps).session == Run(h.session, steps)
    decreases |steps|
  {
    if steps != [] {
      FollowKeeps(h, steps[0].0, steps[0].1);
      FollowAllKeeps(Follow(h, steps[0].0, steps[0].1), steps[1..]);
    }
  }

  /** However any callers interleave from the first state on: the stored process id is the one in the attach request of
      the caller that created the installed object. */
  lemma {:induction false} StoredIsAsked(steps: seq<(Caller, Event)>)
    ensures var h := FollowAll(NOTHING_YET, steps);
            && h.session == Run(INITIAL, steps)
            && (h.session.installed != NO_HANDLE ==>
                  h.session.installed in h.madeFor && h.session.processId == h.madeFor[h.session.installed])
  {
    FollowAllKeeps(NOTHING_YET, steps);
  }

  /** And an attach that ends in success leaves its own request's process id stored. */
  lemma {:induction false} SuccessStores(steps: seq<(Caller, Event)>, c: Caller, e: Event)
    ensures var h := FollowAll(NOTHING_YET, steps);
            var (t, status) := Step(h.session, c, e);
            status == Success && PhaseOf(h.session.callers, c).Holding? ==>
              c in h.asked && t.processId == h.asked[c] && t.installed == PhaseOf(h.session.callers, c).handle
  {
    hide FollowAll;
    FollowAllKeeps(NOTHING_YET, steps);
    ReachableOwned(steps);
    var s := FollowAll(NOTHING_YET, steps).session;
    if PhaseOf(s.callers, c).Holding? && Step(s, c, e).1 == Success { OnlyInstallSucceeds(s, c, e); }
  }

  lemma {:induction false} OnlyInstallSucceeds(s: Session, c: Caller, e: Event)
    requires Inv(s) && PhaseOf(s.callers, c).Holding? && Step(s, c, e).1 == Success
    ensures e.Install? && Step(s, c, e).0.processId == s.callers[c].processId && Step(s, c, e).0.installed == s.callers[c].handle
  {
    hide Owned, SoleOwners;
    assert PhaseValid(s, s.callers[c]);
  }

  // Undisturbed calls.

  /** The events of one undisturbed attach. */
  function AttachSteps(c: Caller, p: ProcessId): seq<(Caller, Event)> {
    [(c, Attach(p, true, true)), (c, CreateObject(true)), (c, DebugProcess(true)), (c, Install)]
  }

  /** The statuses a run returns, one for each step. */
  function Statuses(s: Session, steps: seq<(Caller, Event)>): seq<Status>
    decreases |steps|
  {
    if steps == [] then []
    else [Step(s, steps[0].0, steps[0].1).1] + Statuses(Step(s, steps[0].0, steps[0].1).0, steps[1..])
  }

  /** Wherever no session is stored, an idle caller's undisturbed attach of any process but 0 succeeds and leaves a new
      object open and stored for that process. */
  lemma {:induction false} AttachSucceeds(s: Session, c: Caller, p: ProcessId)
    requires s.installed == NO_HANDLE && PhaseOf(s.callers, c).Idle? && p != 0
    ensures Statuses(s, AttachSteps(c, p)) == [Pending, Pending, Pending, Success]
    ensures Run(s, AttachSteps(c, p))
            == s.(installed := s.next, processId := p, open := s.open + {s.next}, next := s.next + 1, callers := s.callers[c := Idle])
  {
    var a := Step(s, c, Attach(p, true, true)).0;
    var b := Step(a, c, CreateObject(true)).0;
    var d := Step(b, c, DebugProcess(true)).0;
    var e := Step(d, c, Install).0;
    var steps := AttachSteps(c, p);
    assert steps[1..][1..] == steps[2..] && steps[2..][1..] == steps[3..];
    assert steps[3..] == [(c, Install)];
    assert Statuses(d, [(c, Install)]) == [Success] && Run(d, [(c, Install)]) == e;
    assert Statuses(b, steps[2..]) == [Pending, Success] && Run(b, steps[2..]) == e;
    assert Statuses(a, steps[1..]) == [Pending, Pending, Success] && Run(a, steps[1..]) == e;
    assert e.callers == s.callers[c := Idle];
  }

  /** What an idle caller's request is told at once, for every request. */
  lemma {:induction false} RequestAnswered(s: Session, c: Caller, q: ProcessId, fits: bool, ready: bool)
    requires PhaseOf(s.callers, c).Idle?
    ensures var attach, stop := Step(s, c, Attach(q, fits, ready)).1, Step(s, c, Stop(q, fits, ready)).1;
            && (!fits ==> attach == stop == BufferTooSmall)
            && (fits && q == 0 ==> attach == stop == InvalidParameter)
            && (fits && q != 0 && !ready ==> attach == stop == NotSupported)
            && (fits && q != 0 && ready ==>
                  && attach == (if s.installed == 0 then Pending else DeviceBusy)
                  && stop == (if s.installed != 0 && s.processId == q then Pending else NotFound))
    ensures Step(s, c, Attach(q, fits, ready)).1 != Pending ==> Step(s, c, Attach(q, fits, ready)).0 == s
    ensures Step(s, c, Stop(q, fits, ready)).1 != Pending ==> Step(s, c, Stop(q, fits, ready)).0 == s
  {
  }

  /** From the first state: after an undisturbed attach of `p`, a stop of `q` by anybody gets through exactly when it is
      `p`'s, another attach is told the device is busy, and the finished stop leaves nothing stored and nothing open. */
  lemma {:induction false} AttachThenStop(c: Caller, p: ProcessId, d: Caller, q: ProcessId, removed: bool)
    requires p != 0
    ensures var attached := Run(INITIAL, AttachSteps(c, p));
            var (stopping, status) := Step(attached, d, Stop(q, true, true));
            && Statuses(INITIAL, AttachSteps(c, p)) == [Pending, Pending, Pending, Success]
            && (status == Pending <==> q == p)
            && (q != 0 ==> Step(attached, d, Attach(q, true, true)).1 == DeviceBusy)
            && (q == p ==>
                  var (ended, result) := Step(stopping, d, FinishStop(removed));
                  && result == (if removed then Success else Failed)
                  && ended.installed == 0 && ended.processId == 0 && ended.open == {} && ended.closes == 1)
  {
    hide Statuses, Run, AttachSteps;
    AttachSucceeds(INITIAL, c, p);
    var attached := Run(INITIAL, AttachSteps(c, p));
    assert attached.open == {1};
    RequestAnswered(attached, d, q, true, true);
  }

  /** Why an attach in flight fails: the kernel refused, or the session was taken when it came to install. In both cases
      its next step closes its own object and returns that reason; before that it has only been told to go on. */
  lemma {:induction false} LosersAreTold(s: Session, c: Caller, p: ProcessId, h: Handle)
    requires c in s.callers && h != 0
    ensures s.callers[c] == Holding(p, h, Created) ==>
              var (refused, status) := Step(s, c, DebugProcess(false));
              status == Pending && Step(refused, c, CloseLoser).1 == Failed
              && Step(refused, c, CloseLoser).0.open == s.open - {h}
    ensures s.callers[c] == Holding(p, h, Attached) && s.installed != 0 ==>
              var (late, status) := Step(s, c, Install);
              && status == Pending && Step(late, c, CloseLoser).1 == DeviceBusy
              && Step(late, c, CloseLoser).0.open == s.open - {h}
              && Step(late, c, CloseLoser).0.installed == s.installed && Step(late, c, CloseLoser).0.processId == s.processId
    ensures s.callers[c] == Checked(p) ==>
              Step(s, c, CreateObject(false)) == (s.(callers := s.callers[c := Idle]), Failed)
  {
  }

  /** Two callers who both passed the first check and both attached: whoever installs first has the session, the other is
      told the device is busy and closes its object. */
  lemma {:induction false} OneWinner(s: Session, c: Caller, p: ProcessId, g: Handle, d: Caller, q: ProcessId, h: Handle)
    requires Inv(s) && s.installed == NO_HANDLE && c != d && c in s.callers && d in s.callers
    requires s.callers[c] == Holding(p, g, Attached) && s.callers[d] == Holding(q, h, Attached)
    ensures var (first, won) := Step(s, c, Install);
            var (second, _) := Step(first, d, Install);
            var (last, lost) := Step(second, d, CloseLoser);
            && won == Success && lost == DeviceBusy
            && last.installed == g && last.processId == p && g in last.open && h !in last.open
  {
    hide Owned;
    assert PhaseValid(s, s.callers[c]) && PhaseValid(s, s.callers[d]);
    OwnsIt(s.callers, c);
    OwnsIt(s.callers, d);
    assert g != h;
  }
}
