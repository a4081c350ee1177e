/** Hardware breakpoints: the slot table, the debug-register image computed for one thread (64-bit build),
    and its decoding under section 17.2.4 of volume 3 of the Intel SDM. */
module VehHardware {
  import opened VehTables

  datatype HardwareBreakpoint = HardwareBreakpoint(
    id: BreakpointId, slot: bv64, access: nat, length: nat, threadId: ThreadId, address: Address, enabled: bool)

  const NO_HARDWARE: HardwareBreakpoint := HardwareBreakpoint(0, 0, 0, 0, 0, 0, false)

  datatype DebugRegisters = DebugRegisters(dr0: Address, dr1: Address, dr2: Address, dr3: Address, dr7: bv64)

  const CLEARED: DebugRegisters := DebugRegisters(0, 0, 0, 0, 0)

  function HardwareDisabled(): HardwareBreakpoint -> bool {
    (b: HardwareBreakpoint) => !b.enabled
  }

  function HardwareWithId(id: BreakpointId): HardwareBreakpoint -> bool {
    (b: HardwareBreakpoint) => b.enabled && b.id == id
  }

  function InSlot(slot: bv64, t: ThreadId): HardwareBreakpoint -> bool {
    (b: HardwareBreakpoint) => b.enabled && b.slot == slot && b.threadId == t
  }

  /** FindHardwareBreakpointByDr6; `dr6` is the set of slots whose status bit is set. */
  function HitIn(dr6: set<bv64>): HardwareBreakpoint -> bool {
    (b: HardwareBreakpoint) => b.enabled && b.slot < 4 && b.slot in dr6
  }

  predicate Applicable(b: HardwareBreakpoint, t: ThreadId) {
    b.enabled && b.slot <= 3 && (b.threadId == 0 || b.threadId == t)
  }

  function AccessBits(access: nat): (bits: bv64)
    ensures bits <= 3
  {
    if access == 1 then 1 else if access == 2 then 3 else 0
  }

  function LengthBits(length: nat): (bits: bv64)
    ensures bits <= 3
  {
    if length == 2 then 1 else if length == 4 then 3 else if length == 8 then 2 else 0
  }

  function Added(d: bv64, slot: bv64, access: bv64, length: bv64): bv64
    requires slot <= 3
  {
    d | (1 << (slot * 2)) | (access << (16 + slot * 4)) | (length << (18 + slot * 4))
  }

  /** One applicable entry folded into the registers. */
  function Load(regs: DebugRegisters, b: HardwareBreakpoint): DebugRegisters
    requires b.slot <= 3
  {
    DebugRegisters(
      if b.slot == 0 then b.address else regs.dr0,
      if b.slot == 1 then b.address else regs.dr1,
      if b.slot == 2 then b.address else regs.dr2,
      if b.slot == 3 then b.address else regs.dr3,
      Added(regs.dr7, b.slot, AccessBits(b.access), LengthBits(b.length)))
  }

  /** ApplyHardwareBreakpointsToThread: the registers written into thread `t`, from the first `n` entries. */
  function Compute(table: seq<HardwareBreakpoint>, t: ThreadId, n: nat): DebugRegisters
    requires n <= |table|
  {
    if n == 0 then CLEARED
    else
      var regs := Compute(table, t, n - 1);
      if Applicable(table[n - 1], t) then Load(regs, table[n - 1]) else regs
  }

  // The processor's reading of the registers.

  datatype Condition = Execute | Write | IoReadWrite | ReadWrite

  datatype Watch = Watch(address: Address, condition: Condition, length: nat)

  function EnableOf(d: bv64, slot: bv64): bv64
    requires slot <= 3
  {
    (d >> (slot * 2)) & 1
  }

  function ConditionOf(d: bv64, slot: bv64): bv64
    requires slot <= 3
  {
    (d >> (16 + slot * 4)) & 3
  }

  function LengthOf(d: bv64, slot: bv64): bv64
    requires slot <= 3
  {
    (d >> (18 + slot * 4)) & 3
  }

  function AddressOf(regs: DebugRegisters, slot: bv64): Address
    requires slot <= 3
  {
    if slot == 0 then regs.dr0 else if slot == 1 then regs.dr1 else if slot == 2 then regs.dr2 else regs.dr3
  }

  function DecodeCondition(bits: bv64): Condition {
    if bits == 0 then Execute else if bits == 1 then Write else if bits == 2 then IoReadWrite else ReadWrite
  }

  function DecodeLength(bits: bv64): nat {
    if bits == 0 then 1 else if bits == 1 then 2 else if bits == 2 then 8 else 4
  }

  function Decode(regs: DebugRegisters, slot: bv64): Watch
    requires slot <= 3
  {
    Watch(AddressOf(regs, slot), DecodeCondition(ConditionOf(regs.dr7, slot)), DecodeLength(LengthOf(regs.dr7, slot)))
  }

  /** What a table entry asks the processor to watch. */
  function Meaning(b: HardwareBreakpoint): Watch {
    Watch(b.address,
          if b.access == 1 then Write else if b.access == 2 then ReadWrite else Execute,
          if b.length in {2, 4, 8} then b.length else 1)
  }

  /** Only the local-enable bits and the per-slot fields may be set. */
  const USED_BITS: bv64 := 0xFFFF_0055

  /** The registers say exactly what the applicable entries ask for: every one of them is watched as asked,
      a slot no applicable entry names is off, and no other control bit is set. */
  ghost predicate Faithful(regs: DebugRegisters, table: seq<HardwareBreakpoint>, t: ThreadId) {
    && (forall j :: 0 <= j < |table| && Applicable(table[j], t) ==>
          EnableOf(regs.dr7, table[j].slot) == 1 && Decode(regs, table[j].slot) == Meaning(table[j]))
    && (forall slot: bv64 :: slot <= 3 && EnableOf(regs.dr7, slot) == 1 ==>
          exists j :: 0 <= j < |table| && Applicable(table[j], t) && table[j].slot == slot)
    && regs.dr7 & !USED_BITS == 0
  }

  /** Applicable entries that share a slot ask for the same thing. */
  ghost predicate Agreeing(table: seq<HardwareBreakpoint>, t: ThreadId, n: nat)
    requires n <= |table|
  {
    forall i, j :: 0 <= i < j < n && Applicable(table[i], t) && Applicable(table[j], t) && table[i].slot == table[j].slot
      ==> Meaning(table[i]) == Meaning(table[j])
  }

  // The bits one entry adds stay inside its own slot: one fact per field, for any registers `after` that hold
  // `before` with entry `b` loaded.

  ghost predicate EnableLoaded(before: DebugRegisters, after: DebugRegisters, b: HardwareBreakpoint, slot: bv64)
    requires slot <= 3
  {
    EnableOf(after.dr7, slot) == if slot == b.slot then 1 else EnableOf(before.dr7, slot)
  }

  ghost predicate ConditionLoaded(before: DebugRegisters, after: DebugRegisters, b: HardwareBreakpoint, slot: bv64)
    requires slot <= 3
  {
    ConditionOf(after.dr7, slot)
    == if slot == b.slot then ConditionOf(before.dr7, slot) | AccessBits(b.access) else ConditionOf(before.dr7, slot)
  }

  ghost predicate LengthLoaded(before: DebugRegisters, after: DebugRegisters, b: HardwareBreakpoint, slot: bv64)
    requires slot <= 3
  {
    LengthOf(after.dr7, slot)
    == if slot == b.slot then LengthOf(before.dr7, slot) | LengthBits(b.length) else LengthOf(before.dr7, slot)
  }

  ghost predicate AddressLoaded(before: DebugRegisters, after: DebugRegisters, b: HardwareBreakpoint, slot: bv64)
    requires slot <= 3
  {
    AddressOf(after, slot) == if slot == b.slot then b.address else AddressOf(before, slot)
  }

  lemma {:induction false} LoadsEnable(regs: DebugRegisters, b: HardwareBreakpoint, slot: bv64)
    requires slot <= 3 && b.slot <= 3
    ensures EnableLoaded(regs, Load(regs, b), b, slot)
  {
  }

  lemma {:induction false} LoadsCondition(regs: DebugRegisters, b: HardwareBreakpoint, slot: bv64)
    requires slot <= 3 && b.slot <= 3
    ensures ConditionLoaded(regs, Load(regs, b), b, slot)
  {
    AddedCondition(regs.dr7, b.slot, AccessBits(b.access), LengthBits(b.length), slot);
  }

  lemma {:induction false} LoadsLength(regs: DebugRegisters, b: HardwareBreakpoint, slot: bv64)
    requires slot <= 3 && b.slot <= 3
    ensures LengthLoaded(regs, Load(regs, b), b, slot)
  {
    AddedLength(regs.dr7, b.slot, AccessBits(b.access), LengthBits(b.length), slot);
  }

  lemma {:induction false} LoadsAddress(regs: DebugRegisters, b: HardwareBreakpoint, slot: bv64)
    requires slot <= 3 && b.slot <= 3
    ensures AddressLoaded(regs, Load(regs, b), b, slot)
  {
  }

  lemma {:induction false} AddedCondition(d: bv64, slot: bv64, a: bv64, l: bv64, other: bv64)
    requires slot <= 3 && other <= 3 && a <= 3 && l <= 3
    ensures ConditionOf(Added(d, slot, a, l), other)
            == if other == slot then ConditionOf(d, other) | a else ConditionOf(d, other)
  {
  }

  lemma {:induction false} AddedLength(d: bv64, slot: bv64, a: bv64, l: bv64, other: bv64)
    requires slot <= 3 && other <= 3 && a <= 3 && l <= 3
    ensures LengthOf(Added(d, slot, a, l), other)
            == if other == slot then LengthOf(d, other) | l else LengthOf(d, other)
  {
  }

  lemma {:induction false} AddedUsed(d: bv64, slot: bv64, a: bv64, l: bv64)
    requires slot <= 3 && a <= 3 && l <= 3
    ensures d & !USED_BITS == 0 ==> Added(d, slot, a, l) & !USED_BITS == 0
  {
  }

  /** One slot of the registers, as numbers. */
  datatype SlotView = SlotView(address: Address, enable: bv64, condition: bv64, length: bv64)

  function View(regs: DebugRegisters, slot: bv64): SlotView
    requires slot <= 3
  {
    SlotView(AddressOf(regs, slot), EnableOf(regs.dr7, slot), ConditionOf(regs.dr7, slot), LengthOf(regs.dr7, slot))
  }

  function Wanted(b: HardwareBreakpoint): SlotView {
    SlotView(b.address, 1, AccessBits(b.access), LengthBits(b.length))
  }

  predicate Blank(view: SlotView) {
    view.enable == 0 && view.condition == 0 && view.length == 0
  }

  lemma {:induction false} ClearedBlank(slot: bv64)
    requires slot <= 3
    ensures Blank(View(CLEARED, slot))
  {
  }

  /** Loading into an empty slot, loading again what is already there, loading elsewhere. */
  lemma {:induction false} ViewLoaded(before: DebugRegisters, after: DebugRegisters, b: HardwareBreakpoint, slot: bv64)
    requires slot <= 3
    requires EnableLoaded(before, after, b, slot) && ConditionLoaded(before, after, b, slot)
    requires LengthLoaded(before, after, b, slot) && AddressLoaded(before, after, b, slot)
    ensures slot != b.slot ==> View(after, slot) == View(before, slot)
    ensures slot == b.slot && (Blank(View(before, slot)) || View(before, slot) == Wanted(b)) ==>
              View(after, slot) == Wanted(b)
  {
  }

  /** The strengthened induction: a slot nobody applicable names is blank. */
  ghost predicate Exact(view: SlotView, table: seq<HardwareBreakpoint>, t: ThreadId, n: nat, slot: bv64)
    requires n <= |table|
  {
    if exists j :: 0 <= j < n && Applicable(table[j], t) && table[j].slot == slot then
      forall j :: 0 <= j < n && Applicable(table[j], t) && table[j].slot == slot ==> view == Wanted(table[j])
    else Blank(view)
  }

  lemma {:induction false} WantedMeaning(b: HardwareBreakpoint, c: HardwareBreakpoint)
    requires Meaning(b) == Meaning(c)
    ensures Wanted(b) == Wanted(c)
  {
  }

  lemma {:induction false} ExactStep(before: SlotView, after: SlotView,
                                     table: seq<HardwareBreakpoint>, t: ThreadId, n: nat, slot: bv64)
    requires 0 < n <= |table| && Agreeing(table, t, n) && Applicable(table[n - 1], t)
    requires Exact(before, table, t, n - 1, slot)
    requires slot != table[n - 1].slot ==> after == before
    requires slot == table[n - 1].slot && (Blank(before) || before == Wanted(table[n - 1])) ==> after == Wanted(table[n - 1])
    ensures Exact(after, table, t, n, slot)
  {
    var b := table[n - 1];
    if b.slot == slot {
      SlotTaken(before, after, table, t, n, slot);
    } else {
      assert forall j :: 0 <= j < n && Applicable(table[j], t) && table[j].slot == slot ==> j < n - 1;
    }
  }

  lemma {:induction false} SlotTaken(before: SlotView, after: SlotView,
                                     table: seq<HardwareBreakpoint>, t: ThreadId, n: nat, slot: bv64)
    requires 0 < n <= |table| && Agreeing(table, t, n) && Applicable(table[n - 1], t) && slot == table[n - 1].slot
    requires Exact(before, table, t, n - 1, slot)
    requires Blank(before) || before == Wanted(table[n - 1]) ==> after == Wanted(table[n - 1])
    ensures Exact(after, table, t, n, slot)
  {
    hide Wanted, Blank, Meaning;
    var b := table[n - 1];
    forall j | 0 <= j < n - 1 && Applicable(table[j], t) && table[j].slot == slot
      ensures Wanted(table[j]) == Wanted(b)
    {
      WantedMeaning(table[j], b);
    }
  }

  lemma {:induction false} ComputeLoads(table: seq<HardwareBreakpoint>, t: ThreadId, n: nat, slot: bv64)
    requires 0 < n <= |table| && slot <= 3 && Applicable(table[n - 1], t)
    ensures var before, after, b := Compute(table, t, n - 1), Compute(table, t, n), table[n - 1];
            && EnableLoaded(before, after, b, slot) && ConditionLoaded(before, after, b, slot)
            && LengthLoaded(before, after, b, slot) && AddressLoaded(before, after, b, slot)
  {
    var before := Compute(table, t, n - 1);
    LoadsEnable(before, table[n - 1], slot);
    LoadsCondition(before, table[n - 1], slot);
    LoadsLength(before, table[n - 1], slot);
    LoadsAddress(before, table[n - 1], slot);
  }

  lemma {:induction false} ComputeExact(table: seq<HardwareBreakpoint>, t: ThreadId, n: nat, slot: bv64)
    requires n <= |table| && slot <= 3 && Agreeing(table, t, n)
    ensures Exact(View(Compute(table, t, n), slot), table, t, n, slot)
  {
    if n == 0 {
      ClearedBlank(slot);
    } else {
      ComputeExact(table, t, n - 1, slot);
      if Applicable(table[n - 1], t) {
        ComputeLoads(table, t, n, slot);
        var before, after := Compute(table, t, n - 1), Compute(table, t, n);
        ViewLoaded(before, after, table[n - 1], slot);
        ExactStep(View(before, slot), View(after, slot), table, t, n, slot);
      }
    }
  }

  lemma {:induction false} ComputeUsed(table: seq<HardwareBreakpoint>, t: ThreadId, n: nat)
    requires n <= |table|
    ensures Compute(table, t, n).dr7 & !USED_BITS == 0
  {
    if n > 0 {
      ComputeUsed(table, t, n - 1);
      var b := table[n - 1];
      if Applicable(b, t) {
        AddedUsed(Compute(table, t, n - 1).dr7, b.slot, AccessBits(b.access), LengthBits(b.length));
      }
    }
  }

  lemma {:induction false} DecodeMeaning(regs: DebugRegisters, b: HardwareBreakpoint)
    requires b.slot <= 3 && View(regs, b.slot) == Wanted(b)
    ensures Decode(regs, b.slot) == Meaning(b)
  {
  }

  /** The computed registers decode to exactly the applicable entries if and only if applicable entries that
      share a slot agree. A global and a thread-specific entry may share one, so the condition can fail. */
  lemma {:induction false} RegistersFaithful(table: seq<HardwareBreakpoint>, t: ThreadId)
    ensures Faithful(Compute(table, t, |table|), table, t) <==> Agreeing(table, t, |table|)
  {
    var n := |table|;
    var regs := Compute(table, t, n);
    if Agreeing(table, t, n) {
      ComputeUsed(table, t, n);
      forall j | 0 <= j < n && Applicable(table[j], t)
        ensures EnableOf(regs.dr7, table[j].slot) == 1 && Decode(regs, table[j].slot) == Meaning(table[j])
      {
        ComputeExact(table, t, n, table[j].slot);
        DecodeMeaning(regs, table[j]);
      }
      forall slot: bv64 | slot <= 3 && EnableOf(regs.dr7, slot) == 1
        ensures exists j :: 0 <= j < n && Applicable(table[j], t) && table[j].slot == slot
      {
        ComputeExact(table, t, n, slot);
      }
    }
  }

  // The table operations.

  /** SetHardwareBreakpoint; `applied` is whether the registers could be written to some thread. */
  function SetHardware(table: seq<HardwareBreakpoint>, b: HardwareBreakpoint, applied: bool): seq<HardwareBreakpoint> {
    if b.address == 0 || b.slot > 3 || b.length == 0 || First(table, InSlot(b.slot, b.threadId)) >= 0 then table
    else
      var i := First(table, HardwareDisabled());
      if i < 0 then table
      else table[i := if applied then b.(enabled := true) else NO_HARDWARE]
  }

  /** RemoveHardwareBreakpoint. */
  function RemoveHardware(table: seq<HardwareBreakpoint>, id: BreakpointId): seq<HardwareBreakpoint> {
    var i := First(table, HardwareWithId(id));
    if i < 0 then table else table[i := NO_HARDWARE]
  }

  /** At most one enabled entry per slot and owner. */
  ghost predicate OwnersUnique(table: seq<HardwareBreakpoint>) {
    forall i, j :: 0 <= i < j < |table| && table[i].enabled && table[j].enabled ==>
      table[i].slot != table[j].slot || table[i].threadId != table[j].threadId
  }

  lemma {:induction false} OwnersStayUnique(table: seq<HardwareBreakpoint>, b: HardwareBreakpoint, applied: bool, id: BreakpointId)
    requires OwnersUnique(table)
    ensures OwnersUnique(SetHardware(table, b, applied)) && OwnersUnique(RemoveHardware(table, id))
  {
    forall k | 0 <= k < |table| && First(table, InSlot(b.slot, b.threadId)) < 0
      ensures !(table[k].enabled && table[k].slot == b.slot && table[k].threadId == b.threadId)
    {
      assert !InSlot(b.slot, b.threadId)(table[k]);
    }
  }

  /** No global entry shares a slot with an entry of thread `t` that asks for something else. */
  ghost predicate NoClash(table: seq<HardwareBreakpoint>, t: ThreadId) {
    forall i, j :: 0 <= i < |table| && 0 <= j < |table|
      && table[i].enabled && table[j].enabled && table[i].slot == table[j].slot <= 3
      && table[i].threadId == 0 && table[j].threadId == t
      ==> Meaning(table[i]) == Meaning(table[j])
  }

  /** For a table built by set and remove, a thread's registers are wrong only where a global entry and one of
      its own claim the same slot and ask for different things. */
  lemma {:induction false} OnlyGlobalClashes(table: seq<HardwareBreakpoint>, t: ThreadId)
    requires OwnersUnique(table)
    ensures Faithful(Compute(table, t, |table|), table, t) <==> NoClash(table, t)
  {
    RegistersFaithful(table, t);
    assert Agreeing(table, t, |table|) <==> NoClash(table, t);
  }

  /** Both of these requests are accepted, and the registers of thread 7 no longer match the table. */
  lemma {:induction false} SharedSlotExample(free: seq<HardwareBreakpoint>)
    requires |free| == 16 && forall k :: 0 <= k < |free| ==> free[k] == NO_HARDWARE
    ensures var everywhere := HardwareBreakpoint(1, 0, 2, 4, 0, 0x1000, true);
            var seventh := HardwareBreakpoint(2, 0, 2, 4, 7, 0x2000, true);
            var table := SetHardware(SetHardware(free, everywhere, true), seventh, true);
            && everywhere in table && seventh in table
            && !Faithful(Compute(table, 7, |table|), table, 7)
  {
    var everywhere := HardwareBreakpoint(1, 0, 2, 4, 0, 0x1000, true);
    var seventh := HardwareBreakpoint(2, 0, 2, 4, 7, 0x2000, true);
    var one := SetHardware(free, everywhere, true);
    assert HardwareDisabled()(free[0]);
    assert one == free[0 := everywhere];
    assert HardwareDisabled()(one[1]) && !HardwareDisabled()(one[0]);
    var two := SetHardware(one, seventh, true);
    assert First(one, InSlot(0, 7)) < 0;
    assert two == one[1 := seventh];
    assert two[0] == everywhere && two[1] == seventh;
    RegistersFaithful(two, 7);
  }
}
