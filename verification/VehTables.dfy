/** Table entries of the vectored-exception agent and the searches over its fixed tables. */
module VehTables {
  import Bits

  type ThreadId = nat
  type BreakpointId = nat
  type Address = nat
  type Byte = Bits.Byte

  const INT3: Byte := 0xCC

  datatype SoftwareBreakpoint = SoftwareBreakpoint(
    id: BreakpointId, temporary: bool, address: Address, originalByte: Byte, enabled: bool)

  /** A pending-step slot is free when its thread id is 0. */
  datatype PendingStep = PendingStep(
    threadId: ThreadId, breakpointId: BreakpointId, stopAfterStep: bool, address: Address)

  const NO_SOFTWARE: SoftwareBreakpoint := SoftwareBreakpoint(0, false, 0, 0, false)
  const NO_PENDING: PendingStep := PendingStep(0, 0, false, 0)

  /** Index of the first entry satisfying `p`, or -1. Every table scan of the agent is one of these. */
  function First<T>(table: seq<T>, p: T -> bool, from: nat := 0): (i: int)
    requires from <= |table|
    ensures i == -1 || from <= i < |table|
    ensures i >= 0 ==> p(table[i]) && forall k :: from <= k < i ==> !p(table[k])
    ensures i < 0 ==> forall k :: from <= k < |table| ==> !p(table[k])
    decreases |table| - from
  {
    if from == |table| then -1
    else if p(table[from]) then from
    else First(table, p, from + 1)
  }

  function AtAddress(address: Address): SoftwareBreakpoint -> bool {
    (b: SoftwareBreakpoint) => b.enabled && b.address == address
  }

  function WithId(id: BreakpointId): SoftwareBreakpoint -> bool {
    (b: SoftwareBreakpoint) => b.enabled && b.id == id
  }

  function Disabled(): SoftwareBreakpoint -> bool {
    (b: SoftwareBreakpoint) => !b.enabled
  }

  function OfThread(t: ThreadId): PendingStep -> bool {
    (e: PendingStep) => e.threadId == t
  }

  function OfThreadAndId(t: ThreadId, id: BreakpointId): PendingStep -> bool {
    (e: PendingStep) => e.threadId == t && e.breakpointId == id
  }

  /** AddPendingStep: takes the first free slot and silently drops the entry when there is none. */
  function AddPending(pending: seq<PendingStep>, e: PendingStep): seq<PendingStep> {
    var i := First(pending, OfThread(0));
    if i >= 0 then pending[i := e] else pending
  }

  /** MarkPendingStepStop. */
  function MarkPending(pending: seq<PendingStep>, t: ThreadId, id: BreakpointId): seq<PendingStep> {
    var i := First(pending, OfThreadAndId(t, id));
    if i >= 0 then pending[i := pending[i].(stopAfterStep := true)] else pending
  }
}
