/**
 The bp75_* functions as one port runs them, with the other ports and the firmware taking any
 number of steps before each of its register accesses. Every access is a step of PhyLock.
 */
module PhyAccess {
  import opened PhyLock

  const SEMAPHORE_TIMEOUT: nat := 8192 + 1
  const ACQUIRE_TIMEOUT: nat := 200
  const MDIC_POLLS: nat := 640 * 3
  const MAX_PHY_MULTI_PAGE_REG: bv32 := 0xF
  const MAX_PHY_REG_ADDRESS: bv32 := 0x1F
  const PHY_PAGE_SELECT: bv32 := 0x1F
  const MDIC_REG_SHIFT := 16
  const MDIC_PHY_SHIFT := 21
  const MDIC_OP_WRITE: bv32 := 0x4000000
  const MDIC_OP_READ: bv32 := 0x8000000
  const MDIC_READY: bv32 := 0x10000000
  const MDIC_ERROR: bv32 := 0x40000000

  /** A word written to MDIC, whether the PHY was the port's own at that moment, and what MDIC last read as. */
  datatype Access = Access(word: bv32, owned: bool, answer: bv32)

  class Shared {
    var s: Sys
    ghost var others: nat            // steps taken by the other ports and the firmware
    ghost var accesses: seq<Access>  // what this port has put into its MDIC

    constructor (s: Sys)
      requires Initial(s)
      ensures this.s == s && Inv(s) && others == 0 && accesses == []
    {
      this.s, this.others, this.accesses := s, 0, [];
    }
  }

  predicate Of(m: Move, me: nat) {
    (m.Advance? || m.GiveUp?) && m.port == me
  }

  ghost predicate Ok(h: Shared, me: nat)
    reads h
  {
    Inv(h.s) && me < |h.s.ports|
  }

  lemma OthersLeaveMe(s: Sys, m: Move, me: nat)
    requires me < |s.ports| && Enabled(s, m) && !Of(m, me)
    ensures |Make(s, m).ports| == |s.ports| && Make(s, m).ports[me] == s.ports[me]
  {
  }

  /** Anything the other ports and the firmware may do. */
  method Others(h: Shared, me: nat)
    requires Ok(h, me)
    modifies h`s, h`others
    ensures Ok(h, me) && h.s.ports[me] == old(h.s.ports[me])
    ensures old(h.others) <= h.others && (h.others == old(h.others) ==> h.s == old(h.s))
  {
    var n: nat := *;
    while n > 0
      invariant Ok(h, me) && h.s.ports[me] == old(h.s.ports[me])
      invariant old(h.others) <= h.others && (h.others == old(h.others) ==> h.s == old(h.s))
    {
      hide Inv, Make;
      var m: Move := *;
      if Enabled(h.s, m) && !Of(m, me) {
        InvKept(h.s, m);
        OthersLeaveMe(h.s, m, me);
        h.s := Make(h.s, m);
        h.others := h.others + 1;
      }
      n := n - 1;
    }
  }

  /** The next step of this port, once the others have taken theirs. `at` is the state it acts on. */
  method Advance(h: Shared, me: nat) returns (at: Sys)
    requires Ok(h, me)
    modifies h`s, h`others
    ensures Ok(h, me) && Inv(at) && |at.ports| == |h.s.ports|
    ensures at.ports[me] == old(h.s.ports[me]) && h.s == PortStep(at, me)
    ensures old(h.others) <= h.others && (h.others == old(h.others) ==> at == old(h.s))
  {
    Others(h, me);
    at := h.s;
    InvKept(at, Move.Advance(me));
    hide Inv;
    h.s := PortStep(at, me);
  }

  method GiveUp(h: Shared, me: nat)
    requires Ok(h, me) && (h.s.ports[me].pc.Poll? || h.s.ports[me].pc.Latch?)
    modifies h`s, h`others
    ensures Ok(h, me)
    ensures h.s.ports[me] == old(h.s.ports[me]).(pc := if old(h.s.ports[me]).pc.Poll? then Out else Leave)
    ensures h.others == old(h.others)
  {
    InvKept(h.s, Move.GiveUp(me));
    hide Inv;
    h.s := Make(h.s, Move.GiveUp(me));
  }

  // ----- register accesses -----

  /** SW_FW_SYNC and the firmware are as they were. */
  ghost predicate SameRest(s: Sys, s': Sys) {
    s'.sync == s.sync && s'.fw == s.fw
  }

  /** Nobody has the semaphore, and nobody the PHY. */
  ghost predicate Quiet(s: Sys, phy: nat) {
    !s.smbi && !s.fw.lock && Free(s.sync, phy)
  }

  method ReadSwsm(h: Shared, me: nat) returns (smbi: bool, swesmbi: bool)
    requires Ok(h, me)
    requires var pc := h.s.ports[me].pc; pc.Poll? || pc.Latch? || pc.Check? || pc.Leave?
    modifies h`s, h`others
    ensures Ok(h, me)
    ensures var pc := old(h.s.ports[me]).pc;
            && (!pc.Poll? ==> smbi)
            && h.s.ports[me] == old(h.s.ports[me]).(pc :=
                 if pc.Poll? then (if smbi then Poll else Latch)
                 else if pc.Latch? then LatchWrite
                 else if pc.Check? then (if swesmbi then Locked else Latch)
                 else LeaveWrite)
    ensures old(h.others) <= h.others
    ensures h.others == old(h.others) ==>
              && (old(h.s.ports[me]).pc.Poll? ==> smbi == old(h.s.smbi)) && swesmbi == old(h.s.swesmbi)
              && h.s.swesmbi == old(h.s.swesmbi) && SameRest(old(h.s), h.s)
  {
    var at := Advance(h, me);
    smbi, swesmbi := at.smbi, at.swesmbi;
  }

  method WriteSwsm(h: Shared, me: nat, smbi: bool, swesmbi: bool)
    requires Ok(h, me)
    requires var pc := h.s.ports[me].pc; (pc.LatchWrite? && smbi && swesmbi) || (pc.LeaveWrite? && !smbi && !swesmbi)
    modifies h`s, h`others
    ensures Ok(h, me)
    ensures h.s.ports[me] == old(h.s.ports[me]).(pc := if old(h.s.ports[me]).pc.LatchWrite? then Check else Out)
    ensures old(h.others) <= h.others
    ensures h.others == old(h.others) ==>
              && SameRest(old(h.s), h.s)
              && (smbi && !old(h.s.fw.lock) ==> h.s.swesmbi)
  {
    var at := Advance(h, me);
  }

  method ReadSync(h: Shared, me: nat) returns (sync: set<nat>)
    requires Ok(h, me) && h.s.ports[me].pc.Locked?
    modifies h`s, h`others
    ensures Ok(h, me) && h.s.ports[me] == old(h.s.ports[me]).(pc := Loaded(sync))
    ensures old(h.others) <= h.others && (h.others == old(h.others) ==> sync == old(h.s.sync))
  {
    var at := Advance(h, me);
    sync := at.sync;
  }

  method WriteSync(h: Shared, me: nat, sync: set<nat>)
    requires Ok(h, me) && h.s.ports[me].pc.Loaded?
    requires var a := h.s.ports[me];
             if a.owns then sync == a.pc.copy - {SwBit(a.phy)}
             else Free(a.pc.copy, a.phy) && sync == a.pc.copy + {SwBit(a.phy)}
    modifies h`s, h`others
    ensures Ok(h, me) && h.s.ports[me] == Port(old(h.s.ports[me]).phy, !old(h.s.ports[me]).owns, Leave)
    ensures h.s.sync == sync && old(h.others) <= h.others
  {
    var at := Advance(h, me);
  }

  // ----- the semaphore -----

  /** bp75_put_hw_semaphore_generic. */
  method PutHwSemaphore(h: Shared, me: nat)
    requires Ok(h, me) && h.s.ports[me].pc.Leave?
    modifies h`s, h`others
    ensures Ok(h, me) && h.s.ports[me] == old(h.s.ports[me]).(pc := Out) && old(h.others) <= h.others
  {
    var smbi, swesmbi := ReadSwsm(h, me);
    WriteSwsm(h, me, false, false);
  }

  /** The polls for SMBI; `i` is how many did not get it. */
  method PollSmbi(h: Shared, me: nat) returns (i: nat, polls: nat)
    requires Ok(h, me) && h.s.ports[me].pc.Poll?
    modifies h`s, h`others
    ensures Ok(h, me) && i <= SEMAPHORE_TIMEOUT && polls <= SEMAPHORE_TIMEOUT
    ensures h.s.ports[me] == old(h.s.ports[me]).(pc := if i < SEMAPHORE_TIMEOUT then Latch else Poll)
    ensures old(h.others) <= h.others
    ensures h.others == old(h.others) && !old(h.s.smbi) ==> i == 0 && SameRest(old(h.s), h.s)
  {
    hide Inv, SameRest;
    i, polls := 0, 0;
    while i < SEMAPHORE_TIMEOUT
      invariant i <= SEMAPHORE_TIMEOUT && polls == i
      invariant Ok(h, me) && h.s.ports[me] == old(h.s.ports[me])
      invariant old(h.others) <= h.others
      invariant !old(h.s.smbi) && h.others == old(h.others) ==> i == 0 && h.s == old(h.s)
    {
      var smbi, swesmbi := ReadSwsm(h, me);
      polls := polls + 1;
      if !smbi {
        break;
      }
      i := i + 1;
    }
  }

  /** The attempts to latch SWESMBI; `i` is how many failed. */
  method LatchSwesmbi(h: Shared, me: nat) returns (i: nat, polls: nat)
    requires Ok(h, me) && h.s.ports[me].pc.Latch?
    modifies h`s, h`others
    ensures Ok(h, me) && i <= SEMAPHORE_TIMEOUT && polls <= SEMAPHORE_TIMEOUT
    ensures h.s.ports[me] == old(h.s.ports[me]).(pc := if i < SEMAPHORE_TIMEOUT then Locked else Latch)
    ensures old(h.others) <= h.others
    ensures h.others == old(h.others) && !old(h.s.fw.lock) ==> i == 0 && h.s.sync == old(h.s.sync)
  {
    hide Inv;
    i, polls := 0, 0;
    while i < SEMAPHORE_TIMEOUT
      invariant i <= SEMAPHORE_TIMEOUT && polls == i
      invariant Ok(h, me) && h.s.ports[me] == old(h.s.ports[me])
      invariant old(h.others) <= h.others
      invariant !old(h.s.fw.lock) && h.others == old(h.others) ==> i == 0 && SameRest(old(h.s), h.s)
    {
      var smbi, swesmbi := ReadSwsm(h, me);
      WriteSwsm(h, me, smbi, true);
      smbi, swesmbi := ReadSwsm(h, me);
      polls := polls + 1;
      if swesmbi {
        break;
      }
      i := i + 1;
    }
  }

  /** bp75_get_hw_semaphore_generic: both bits, or neither. */
  method GetHwSemaphore(h: Shared, me: nat) returns (ret: int, polls: nat)
    requires Ok(h, me) && h.s.ports[me].pc.Out?
    modifies h`s, h`others
    ensures Ok(h, me) && (ret == 0 || ret == -1)
    ensures h.s.ports[me] == old(h.s.ports[me]).(pc := if ret == 0 then Locked else Out)
    ensures polls <= SEMAPHORE_TIMEOUT + SEMAPHORE_TIMEOUT && old(h.others) <= h.others
    ensures h.others == old(h.others) && !old(h.s.smbi) && !old(h.s.fw.lock) ==> ret == 0 && h.s.sync == old(h.s.sync)
  {
    hide Inv;
    ret, polls := 0, 0;
    var at := Advance(h, me);
    var i;
    i, polls := PollSmbi(h, me);
    if i == SEMAPHORE_TIMEOUT {
      GiveUp(h, me);
      return -1, polls;
    }
    var more;
    i, more := LatchSwesmbi(h, me);
    polls := polls + more;
    if i == SEMAPHORE_TIMEOUT {
      GiveUp(h, me);
      PutHwSemaphore(h, me);
      return -1, polls;
    }
  }

  // ----- the PHY lock -----

  /** One attempt of bp75_acquire_phy: the semaphore is kept only if the PHY is found free. */
  method TryPhy(h: Shared, me: nat) returns (got: int, free: bool, sync: set<nat>, polls: nat)
    requires Ok(h, me) && h.s.ports[me].pc.Out? && !h.s.ports[me].owns
    modifies h`s, h`others
    ensures Ok(h, me) && (got == 0 || got == -1) && (free ==> got == 0)
    ensures h.s.ports[me] == if free then old(h.s.ports[me]).(pc := Loaded(sync)) else old(h.s.ports[me])
    ensures free ==> Free(sync, h.s.ports[me].phy)
    ensures polls <= SEMAPHORE_TIMEOUT + SEMAPHORE_TIMEOUT && old(h.others) <= h.others
    ensures h.others == old(h.others) && Quiet(old(h.s), old(h.s.ports[me].phy)) ==> free
  {
    hide Inv;
    free, sync := false, {};
    got, polls := GetHwSemaphore(h, me);
    if got != 0 {
      return;
    }
    sync := ReadSync(h, me);
    if Free(sync, h.s.ports[me].phy) {
      free := true;
    } else {
      var at := Advance(h, me);
      PutHwSemaphore(h, me);
    }
  }

  /**
   bp75_acquire_phy: 0 exactly when this port now owns its PHY; the semaphore is given back either way.
   If the PHY and the semaphore are free and nobody else takes a step, it succeeds.
   */
  method AcquirePhy(h: Shared, me: nat) returns (ret: int, attempts: nat, polls: nat)
    requires Ok(h, me) && h.s.ports[me].pc.Out? && !h.s.ports[me].owns
    modifies h`s, h`others
    ensures Ok(h, me) && (ret == 0 || ret == -1)
    ensures h.s.ports[me] == old(h.s.ports[me]).(owns := ret == 0)
    ensures attempts <= ACQUIRE_TIMEOUT && polls <= attempts * (SEMAPHORE_TIMEOUT + SEMAPHORE_TIMEOUT)
    ensures old(h.others) <= h.others
    ensures h.others == old(h.others) && Quiet(old(h.s), old(h.s.ports[me].phy)) ==> ret == 0
  {
    hide Inv, Quiet;
    ghost var quiet := Quiet(h.s, h.s.ports[me].phy);
    ret, attempts, polls := 0, 0, 0;
    var i: nat := 0;
    var free, sync := false, {};
    while i < ACQUIRE_TIMEOUT
      invariant i <= ACQUIRE_TIMEOUT && attempts == i && polls <= attempts * (SEMAPHORE_TIMEOUT + SEMAPHORE_TIMEOUT)
      invariant Ok(h, me) && h.s.ports[me] == old(h.s.ports[me]) && !free
      invariant old(h.others) <= h.others
      invariant quiet && h.others == old(h.others) ==> i == 0 && h.s == old(h.s)
    {
      var got, p;
      got, free, sync, p := TryPhy(h, me);
      attempts, polls := attempts + 1, polls + p;
      if got != 0 {
        return -1, attempts, polls;
      }
      if free {
        break;
      }
      i := i + 1;
    }
    if !free {
      return -1, attempts, polls;
    }
    WriteSync(h, me, sync + {SwBit(h.s.ports[me].phy)});
    PutHwSemaphore(h, me);
  }

  /**
   bp75_release_phy. The source tries for the semaphore until it gets it; `patience` is how
   often this model tries, and `done` is false if it is still trying.
   */
  method ReleasePhy(h: Shared, me: nat, patience: nat) returns (done: bool)
    requires Ok(h, me) && h.s.ports[me].pc.Out? && h.s.ports[me].owns
    modifies h`s, h`others
    ensures Ok(h, me) && h.s.ports[me] == old(h.s.ports[me]).(owns := !done)
    ensures h.accesses == old(h.accesses)
  {
    hide Inv;
    var left := patience;
    var ret := -1;
    while ret != 0 && left > 0
      invariant Ok(h, me)
      invariant h.s.ports[me] == old(h.s.ports[me]).(pc := if ret == 0 then Locked else Out)
      decreases left, ret != 0
    {
      var polls;
      ret, polls := GetHwSemaphore(h, me);
      left := left - 1;
    }
    if ret != 0 {
      return false;
    }
    var sync := ReadSync(h, me);
    WriteSync(h, me, sync - {SwBit(h.s.ports[me].phy)});
    PutHwSemaphore(h, me);
    return true;
  }

  // ----- the registers behind the lock -----

  function MdicWord(op: bv32, offset: bv32, data: bv16): bv32 {
    (data as bv32) | (offset << MDIC_REG_SHIFT) | (1 << MDIC_PHY_SHIFT) | op
  }

  // what the hardware finds in a command word
  function OpField(word: bv32): bv32 {
    word & 0xFC00_0000
  }

  function RegisterField(word: bv32): bv32 {
    (word >> 16) & 0x1F
  }

  function PhyField(word: bv32): bv32 {
    (word >> 21) & 0x1F
  }

  function DataField(word: bv32): bv32 {
    word & 0xFFFF
  }

  function Wide(data: bv16): bv32 {
    data as bv32
  }

  // what a register offset asks for: a page beyond the sixteen registers that every page has, and a register
  predicate Paged(offset: bv32) {
    offset > 0xF
  }

  function PageOf(offset: bv32): bv32 {
    offset & 0xFFFF
  }

  function RegisterOf(offset: bv32): bv32 {
    offset & 0x1F
  }

  /** The fields of a command word do not run into each other. */
  lemma MdicFields(op: bv32, offset: bv32, data: bv16)
    requires offset & !MAX_PHY_REG_ADDRESS == 0 && op & !0xC000000 == 0
    ensures DataField(MdicWord(op, offset, data)) == Wide(data)
    ensures RegisterField(MdicWord(op, offset, data)) == offset
    ensures PhyField(MdicWord(op, offset, data)) == 1
    ensures OpField(MdicWord(op, offset, data)) == op
  {
    MdicRegister(op, offset, data);
    MdicPhy(op, offset, data);
    NarrowData(data);
    ShiftedFields(offset);
    DataAndOp(data as bv32, offset << MDIC_REG_SHIFT, op);
  }

  lemma MdicRegister(op: bv32, offset: bv32, data: bv16)
    requires offset & !MAX_PHY_REG_ADDRESS == 0 && op & !0xC000000 == 0
    ensures (MdicWord(op, offset, data) >> MDIC_REG_SHIFT) & 0x1F == offset
  {
  }

  lemma NarrowData(data: bv16)
    ensures (data as bv32) & !0xFFFF == 0
  {
  }

  lemma ShiftedFields(offset: bv32)
    requires offset & !MAX_PHY_REG_ADDRESS == 0
    ensures (offset << MDIC_REG_SHIFT) & !0x1F0000 == 0 && 1 as bv32 << MDIC_PHY_SHIFT == 0x200000
  {
  }

  /** Values within masks that have no bit in common are found again under them. */
  lemma DataAndOp(data: bv32, register: bv32, op: bv32)
    requires data & !0xFFFF == 0 && register & !0x1F0000 == 0 && op & !0xC000000 == 0
    ensures (data | register | 0x200000 | op) & 0xFFFF == data
    ensures (data | register | 0x200000 | op) & 0xFC000000 == op
  {
  }

  lemma MdicPhy(op: bv32, offset: bv32, data: bv16)
    requires offset & !MAX_PHY_REG_ADDRESS == 0 && op & !0xC000000 == 0
    ensures (MdicWord(op, offset, data) >> MDIC_PHY_SHIFT) & 0x1F == 1
  {
  }

  /** The fields a command word shows. */
  ghost predicate Carries(word: bv32, write: bool, register: bv32, data: bv32) {
    && OpField(word) == OpCode(write) && RegisterField(word) == register && PhyField(word) == 1
    && DataField(word) == data
  }

  /** The operation field of a write, and of a read. */
  function OpCode(write: bool): bv32 {
    if write then 0x400_0000 else 0x800_0000
  }

  function OpOf(write: bool): bv32 {
    if write then MDIC_OP_WRITE else MDIC_OP_READ
  }

  lemma WordCarries(write: bool, register: bv32, data: bv16)
    requires register & !MAX_PHY_REG_ADDRESS == 0
    ensures Carries(MdicWord(OpOf(write), register, data), write, register, Wide(data))
  {
    OpIsCode(write);
    hide MdicWord, OpField, RegisterField, PhyField, DataField, Wide, OpOf, OpCode;
    MdicFields(OpOf(write), register, data);
  }

  lemma OpIsCode(write: bool)
    ensures OpOf(write) & !0xC000000 == 0 && OpOf(write) == OpCode(write)
  {
  }

  lemma RegisterKept(offset: bv32)
    ensures (MAX_PHY_REG_ADDRESS & offset) & !MAX_PHY_REG_ADDRESS == 0
    ensures MAX_PHY_REG_ADDRESS & offset == RegisterOf(offset)
  {
  }

  predicate Shows(answer: bv32, bit: bv32) {
    answer & bit != 0
  }

  predicate Ready(answer: bv32) {
    Shows(answer, MDIC_READY)
  }

  predicate Failed(answer: bv32) {
    Shows(answer, MDIC_ERROR)
  }

  /** MDIC says ready, and no error. */
  predicate Good(answer: bv32) {
    Shows(answer, 0x1000_0000) && !Shows(answer, 0x4000_0000)
  }

  lemma GoodAnswer(answer: bv32)
    ensures Good(answer) <==> Ready(answer) && !Failed(answer)
  {
    hide Shows;
  }

  method WriteMdic(h: Shared, me: nat, word: bv32)
    requires Ok(h, me) && h.s.ports[me].pc.Out?
    modifies h
    ensures Ok(h, me) && h.s.ports[me] == old(h.s.ports[me])
    ensures h.accesses == old(h.accesses) + [Access(word, h.s.ports[me].owns, word)]
  {
    hide Inv;
    Others(h, me);
    h.accesses := h.accesses + [Access(word, h.s.ports[me].owns, word)];
  }

  /** What the hardware answers is arbitrary. */
  method ReadMdic(h: Shared, me: nat) returns (mdic: bv32)
    requires Ok(h, me) && h.accesses != []
    modifies h
    ensures Ok(h, me) && h.s.ports[me] == old(h.s.ports[me])
    ensures h.accesses == old(h.accesses)[|old(h.accesses)| - 1 :=
                            old(h.accesses)[|old(h.accesses)| - 1].(answer := mdic)]
  {
    hide Inv;
    Others(h, me);
    mdic := *;
    ghost var n := |h.accesses| - 1;
    h.accesses := h.accesses[n := h.accesses[n].(answer := mdic)];
  }

  /** The MDIC transactions: one word, and then its answer. Only the owner of the PHY may start one. */
  method Mdic(h: Shared, me: nat, command: bv32) returns (ret: int, mdic: bv32)
    requires Ok(h, me) && h.s.ports[me].pc.Out? && h.s.ports[me].owns
    modifies h
    ensures Ok(h, me) && h.s.ports[me] == old(h.s.ports[me])
    ensures ret == if Good(mdic) then 0 else -1
    ensures h.accesses == old(h.accesses) + [Access(command, true, mdic)]
  {
    hide Inv, Good, Ready, Failed;
    mdic := command;
    WriteMdic(h, me, command);
    var i := 0;
    while i < MDIC_POLLS
      invariant i <= MDIC_POLLS && Ok(h, me) && h.s.ports[me] == old(h.s.ports[me])
      invariant h.accesses == old(h.accesses) + [Access(command, true, mdic)]
    {
      mdic := ReadMdic(h, me);
      if Ready(mdic) {
        break;
      }
      i := i + 1;
    }
    GoodAnswer(mdic);
    if !Ready(mdic) {
      return -1, mdic;
    }
    if Failed(mdic) {
      return -1, mdic;
    }
    return 0, mdic;
  }

  /** The words an access needs: one that selects the page if the register is not on every page, and its own. */
  function Needed(offset: bv32): nat {
    if Paged(offset) then 2 else 1
  }

  /**
   What an access has put into MDIC by its end: its words in order, each while the PHY was the
   port's own, as far as every answer was good; and 0 means all of them, with a good answer to the last.
   */
  ghost predicate Performed(made: seq<Access>, write: bool, offset: bv32, data: bv32, ret: int) {
    && |made| <= Needed(offset)
    && (forall i | 0 <= i < |made| :: made[i].owned)
    && (forall i | 0 <= i < |made| - 1 :: Good(made[i].answer))
    && (|made| == Needed(offset) ==> Carries(made[|made| - 1].word, write, RegisterOf(offset), data))
    && (Paged(offset) && |made| > 0 ==> Carries(made[0].word, true, 0x1F, PageOf(offset)))
    && (ret == 0 <==> |made| == Needed(offset) && Good(made[|made| - 1].answer))
  }

  lemma NothingPerformed(write: bool, offset: bv32, data: bv32)
    ensures Performed([], write, offset, data, -1)
  {
  }

  lemma PagePerformed(write: bool, offset: bv32, data: bv32, page: Access)
    requires Paged(offset) && page.owned && Carries(page.word, true, 0x1F, PageOf(offset)) && !Good(page.answer)
    ensures Performed([page], write, offset, data, -1)
  {
    hide Carries, Good;
  }

  lemma AllPerformed(write: bool, offset: bv32, data: bv32, made: seq<Access>, ret: int)
    requires |made| == Needed(offset) && made[|made| - 1].owned
    requires Paged(offset) ==>
               made[0].owned && Carries(made[0].word, true, 0x1F, PageOf(offset)) && Good(made[0].answer)
    requires Carries(made[|made| - 1].word, write, RegisterOf(offset), data)
    requires ret == 0 <==> Good(made[|made| - 1].answer)
    ensures Performed(made, write, offset, data, ret)
  {
    hide Carries, Good;
  }

  /** The common course of bp75_read_phy_reg and bp75_write_phy_reg: acquire, select the page, transact, release. */
  method AccessPhyReg(h: Shared, me: nat, write: bool, offset: bv32, data: bv16, patience: nat)
    returns (done: bool, ret: int, mdic: bv32)
    requires Ok(h, me) && h.s.ports[me].pc.Out? && !h.s.ports[me].owns
    modifies h
    ensures Ok(h, me) && (ret == 0 || ret == -1)
    ensures done ==> h.s.ports[me] == old(h.s.ports[me])
    ensures !done ==> h.s.ports[me] == old(h.s.ports[me]).(owns := true)
    ensures old(h.accesses) <= h.accesses
    ensures Performed(h.accesses[|old(h.accesses)|..], write, offset, Wide(data), ret)
    ensures ret == 0 ==> h.accesses != [] && mdic == h.accesses[|h.accesses| - 1].answer
  {
    hide Inv, Performed, Wide;
    ghost var before := h.accesses;
    mdic := 0;
    var attempts, polls;
    ret, attempts, polls := AcquirePhy(h, me);
    if ret != 0 {
      assert h.accesses[|before|..] == [];
      NothingPerformed(write, offset, Wide(data));
      return true, ret, mdic;
    }
    ret, mdic := Transact(h, me, write, offset, data);
    done := ReleasePhy(h, me, patience);
  }

  /** What an access does while it owns the PHY. */
  method Transact(h: Shared, me: nat, write: bool, offset: bv32, data: bv16) returns (ret: int, mdic: bv32)
    requires Ok(h, me) && h.s.ports[me].pc.Out? && h.s.ports[me].owns
    modifies h
    ensures Ok(h, me) && h.s.ports[me] == old(h.s.ports[me]) && (ret == 0 || ret == -1)
    ensures old(h.accesses) < h.accesses && mdic == h.accesses[|h.accesses| - 1].answer
    ensures Performed(h.accesses[|old(h.accesses)|..], write, offset, Wide(data), ret)
  {
    hide Inv, Carries, Good, Performed, MdicWord, OpOf, Wide, Paged, PageOf, RegisterOf;
    ghost var before := h.accesses;
    ret, mdic := 0, 0;
    PageNeeded(offset);
    if offset > MAX_PHY_MULTI_PAGE_REG {
      ret, mdic := SelectPage(h, me, offset);
      assert h.accesses[|before|..] == [h.accesses[|before|]];
      if ret != 0 {
        PagePerformed(write, offset, Wide(data), h.accesses[|before|]);
        return;
      }
    }
    RegisterKept(offset);
    WordCarries(write, MAX_PHY_REG_ADDRESS & offset, data);
    ret, mdic := Mdic(h, me, MdicWord(OpOf(write), MAX_PHY_REG_ADDRESS & offset, data));
    AllPerformed(write, offset, Wide(data), h.accesses[|before|..], ret);
  }

  lemma PageNeeded(offset: bv32)
    ensures Paged(offset) <==> offset > MAX_PHY_MULTI_PAGE_REG
  {
  }

  /** The page is the whole offset, cut to sixteen bits. */
  method SelectPage(h: Shared, me: nat, offset: bv32) returns (ret: int, mdic: bv32)
    requires Ok(h, me) && h.s.ports[me].pc.Out? && h.s.ports[me].owns
    modifies h
    ensures Ok(h, me) && h.s.ports[me] == old(h.s.ports[me])
    ensures |h.accesses| == |old(h.accesses)| + 1 && old(h.accesses) < h.accesses
    ensures var page := h.accesses[|old(h.accesses)|];
            && page.owned && Carries(page.word, true, 0x1F, PageOf(offset)) && page.answer == mdic
            && ret == if Good(mdic) then 0 else -1
  {
    PageSelected(offset);
    hide Inv, Carries, Good, MdicWord, OpOf, Wide, PageOf;
    ret, mdic := Mdic(h, me, MdicWord(OpOf(true), PHY_PAGE_SELECT, (offset & 0xFFFF) as bv16));
  }

  lemma PageSelected(offset: bv32)
    ensures Carries(MdicWord(OpOf(true), PHY_PAGE_SELECT, (offset & 0xFFFF) as bv16), true, 0x1F, PageOf(offset))
  {
    NarrowAndBack(offset);
    assert PHY_PAGE_SELECT & !MAX_PHY_REG_ADDRESS == 0;
    hide Carries, MdicWord, OpOf, Wide, PageOf;
    WordCarries(true, PHY_PAGE_SELECT, (offset & 0xFFFF) as bv16);
  }

  lemma NarrowAndBack(word: bv32)
    ensures Wide((word & 0xFFFF) as bv16) == PageOf(word) == DataField(word)
  {
  }

  /** bp75_write_phy_reg. */
  method WritePhyReg(h: Shared, me: nat, offset: bv32, data: bv16, patience: nat) returns (done: bool, ret: int)
    requires Ok(h, me) && h.s.ports[me].pc.Out? && !h.s.ports[me].owns
    modifies h
    ensures Ok(h, me) && h.s.ports[me] == old(h.s.ports[me]).(owns := !done)
    ensures old(h.accesses) <= h.accesses
    ensures Performed(h.accesses[|old(h.accesses)|..], true, offset, Wide(data), ret)
  {
    hide Inv, Performed, Wide;
    var mdic;
    done, ret, mdic := AccessPhyReg(h, me, true, offset, data, patience);
  }

  /** bp75_read_phy_reg: the value is the low half of the last answer. */
  method ReadPhyReg(h: Shared, me: nat, offset: bv32, patience: nat) returns (done: bool, ret: int, data: bv16)
    requires Ok(h, me) && h.s.ports[me].pc.Out? && !h.s.ports[me].owns
    modifies h
    ensures Ok(h, me) && h.s.ports[me] == old(h.s.ports[me]).(owns := !done)
    ensures old(h.accesses) <= h.accesses
    ensures Performed(h.accesses[|old(h.accesses)|..], false, offset, 0, ret)
    ensures ret == 0 ==> h.accesses != [] && Wide(data) == DataField(h.accesses[|h.accesses| - 1].answer)
  {
    assert Wide(0) == 0;
    hide Inv, Performed, Wide, DataField, PageOf;
    var mdic;
    done, ret, mdic := AccessPhyReg(h, me, false, offset, 0, patience);
    NarrowAndBack(mdic);
    data := (mdic & 0xFFFF) as bv16;
  }
}
