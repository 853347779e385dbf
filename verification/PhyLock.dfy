/**
 The lock around the PHY of the 75-series parts: any number of driver ports and the firmware,
 one register access at a time. SWSM.SMBI is set by the read that finds it clear; SWSM.SWESMBI
 can be set unless the firmware has the other half of that semaphore; both together allow a
 read-modify-write of SW_FW_SYNC, in which each PHY has a bit for software and one for firmware.
 */
module PhyLock {
  import opened Options

  /** Where a port is in acquire or release; `owns` in Port tells the two apart. */
  datatype Pc =
    | Out                        // not after the semaphore
    | Poll                       // reading SWSM until SMBI is found clear
    | Latch                      // has SMBI, about to read SWSM
    | LatchWrite                 // about to write it back with SWESMBI
    | Check                      // about to see whether that latched
    | Locked                     // has both, about to read SW_FW_SYNC
    | Loaded(copy: set<nat>)     // has read it
    | Leave                      // put_hw_semaphore: about to read SWSM
    | LeaveWrite                 // about to write it back with both bits clear

  datatype Port = Port(phy: nat, owns: bool, pc: Pc)

  datatype Firmware = Firmware(lock: bool, copy: Option<set<nat>>, owned: set<nat>)

  /** `sync` is SW_FW_SYNC as the set of its bits that are 1. */
  datatype Sys = Sys(smbi: bool, swesmbi: bool, sync: set<nat>, ports: seq<Port>, fw: Firmware)

  function SwBit(phy: nat): nat {
    1 + phy
  }

  function FwBit(phy: nat): nat {
    17 + phy
  }

  predicate HoldsSmbi(pc: Pc) {
    !pc.Out? && !pc.Poll?
  }

  predicate InLock(pc: Pc) {
    pc.Locked? || pc.Loaded?
  }

  // ----- the steps -----

  /** `GiveUp` is the end of a polling loop that ran out. */
  datatype Move =
    | Advance(port: nat)
    | GiveUp(port: nat)
    | FwLock
    | FwLoad
    | FwTake(phy: nat)
    | FwDrop(phy: nat)
    | FwUnlock

  predicate Enabled(s: Sys, m: Move) {
    match m
    case Advance(i) => i < |s.ports|
    case GiveUp(i) => i < |s.ports| && (s.ports[i].pc.Poll? || s.ports[i].pc.Latch?)
    case FwLock => !s.fw.lock && !s.swesmbi
    case FwLoad => s.fw.lock
    case FwTake(phy) => phy < 2 && s.fw.copy.Some? && Free(s.fw.copy.value, phy)
    case FwDrop(phy) => phy in s.fw.owned && s.fw.copy.Some?
    case FwUnlock => s.fw.lock && s.fw.copy.None?
  }

  predicate Free(copy: set<nat>, phy: nat) {
    SwBit(phy) !in copy && FwBit(phy) !in copy
  }

  /** The next register access of a port. */
  function PortStep(s: Sys, i: nat): Sys
    requires i < |s.ports|
  {
    var a := s.ports[i];
    match a.pc
    case Out => s.(ports := s.ports[i := a.(pc := Poll)])
    case Poll => s.(smbi := true, ports := s.ports[i := a.(pc := if s.smbi then Poll else Latch)])
    case Latch => s.(smbi := true, ports := s.ports[i := a.(pc := LatchWrite)])
    case LatchWrite => s.(swesmbi := s.swesmbi || !s.fw.lock, ports := s.ports[i := a.(pc := Check)])
    case Check => s.(smbi := true, ports := s.ports[i := a.(pc := if s.swesmbi then Locked else Latch)])
    case Locked => s.(ports := s.ports[i := a.(pc := Loaded(s.sync))])
    case Loaded(copy) =>
      if a.owns then s.(sync := copy - {SwBit(a.phy)}, ports := s.ports[i := Port(a.phy, false, Leave)])
      else if Free(copy, a.phy) then s.(sync := copy + {SwBit(a.phy)}, ports := s.ports[i := Port(a.phy, true, Leave)])
      else s.(ports := s.ports[i := a.(pc := Leave)])
    case Leave => s.(smbi := true, ports := s.ports[i := a.(pc := LeaveWrite)])
    case LeaveWrite => s.(smbi := false, swesmbi := false, ports := s.ports[i := a.(pc := Out)])
  }

  function Make(s: Sys, m: Move): Sys
    requires Enabled(s, m)
  {
    match m
    case Advance(i) => PortStep(s, i)
    case GiveUp(i) => s.(ports := s.ports[i := s.ports[i].(pc := if s.ports[i].pc.Poll? then Out else Leave)])
    case FwLock => s.(fw := s.fw.(lock := true, copy := None))
    case FwLoad => s.(fw := s.fw.(copy := Some(s.sync)))
    case FwTake(phy) => s.(sync := s.fw.copy.value + {FwBit(phy)}, fw := Firmware(s.fw.lock, None, s.fw.owned + {phy}))
    case FwDrop(phy) => s.(sync := s.fw.copy.value - {FwBit(phy)}, fw := Firmware(s.fw.lock, None, s.fw.owned - {phy}))
    case FwUnlock => s.(fw := s.fw.(lock := false))
  }

  // ----- the invariant -----

  /** The semaphore: one holder of SMBI at most, and software and firmware never both inside. */
  ghost predicate Semaphore(s: Sys) {
    && (forall i | 0 <= i < |s.ports| && HoldsSmbi(s.ports[i].pc) :: s.smbi)
    && (forall i, j | 0 <= i < j < |s.ports| :: !(HoldsSmbi(s.ports[i].pc) && HoldsSmbi(s.ports[j].pc)))
    && (forall i | 0 <= i < |s.ports| && InLock(s.ports[i].pc) :: s.swesmbi)
    && !(s.swesmbi && s.fw.lock)
  }

  /** A copy of SW_FW_SYNC about to be written back is still what the register holds. */
  ghost predicate Copies(s: Sys) {
    && (forall i | 0 <= i < |s.ports| && s.ports[i].pc.Loaded? :: s.ports[i].pc.copy == s.sync)
    && (s.fw.copy.Some? ==> s.fw.lock && s.fw.copy.value == s.sync)
  }

  /** The bits of SW_FW_SYNC are exactly the ownerships, and no PHY has two owners. */
  ghost predicate Ownership(s: Sys) {
    Bits(s) && Exclusive(s)
  }

  ghost predicate Bits(s: Sys) {
    && (forall i | 0 <= i < |s.ports| :: s.ports[i].phy < 2)
    && (forall i | 0 <= i < |s.ports| && s.ports[i].owns :: SwBit(s.ports[i].phy) in s.sync)
    && (forall phy | 0 <= phy < 2 && SwBit(phy) in s.sync ::
          exists i | 0 <= i < |s.ports| :: s.ports[i].owns && s.ports[i].phy == phy)
    && (forall phy | 0 <= phy < 2 :: FwBit(phy) in s.sync <==> phy in s.fw.owned)
    && s.fw.owned <= {0, 1}
  }

  /** Mutual exclusion: a PHY belongs to one port, or to the firmware, or to nobody. */
  ghost predicate Exclusive(s: Sys) {
    && (forall i, j | 0 <= i < j < |s.ports| && s.ports[i].owns && s.ports[j].owns :: s.ports[i].phy != s.ports[j].phy)
    && (forall i | 0 <= i < |s.ports| && s.ports[i].owns :: s.ports[i].phy !in s.fw.owned)
  }

  ghost predicate Inv(s: Sys) {
    Semaphore(s) && Copies(s) && Ownership(s)
  }

  lemma SemaphoreKept(s: Sys, m: Move)
    requires Semaphore(s) && Enabled(s, m)
    ensures Semaphore(Make(s, m))
  {
  }

  lemma CopiesKept(s: Sys, m: Move)
    requires Semaphore(s) && Copies(s) && Enabled(s, m)
    ensures Copies(Make(s, m))
  {
  }

  /** Moves that leave SW_FW_SYNC and all ownerships alone. */
  lemma NothingOwned(s: Sys, s': Sys)
    requires Ownership(s) && s'.sync == s.sync && s'.fw.owned == s.fw.owned && |s'.ports| == |s.ports|
    requires forall i | 0 <= i < |s.ports| :: s'.ports[i].phy == s.ports[i].phy && s'.ports[i].owns == s.ports[i].owns
    ensures Ownership(s')
  {
    forall phy | 0 <= phy < 2 && SwBit(phy) in s'.sync
      ensures exists i | 0 <= i < |s'.ports| :: s'.ports[i].owns && s'.ports[i].phy == phy
    {
      var i :| 0 <= i < |s.ports| && s.ports[i].owns && s.ports[i].phy == phy;
      assert s'.ports[i].owns && s'.ports[i].phy == phy;
    }
  }

  /** The owner of a PHY's bit, elsewhere than at port `i`, is still there after `i` has moved. */
  lemma OwnersStay(s: Sys, i: nat, a: Port, s': Sys, phy: nat)
    requires Bits(s) && i < |s.ports| && s'.ports == s.ports[i := a]
    requires phy < 2 && SwBit(phy) in s.sync && !(s.ports[i].owns && s.ports[i].phy == phy)
    ensures exists j | 0 <= j < |s'.ports| :: s'.ports[j].owns && s'.ports[j].phy == phy
  {
    var j :| 0 <= j < |s.ports| && s.ports[j].owns && s.ports[j].phy == phy;
    assert s'.ports[j] == s.ports[j];
  }

  /** A port that found its PHY free in the current word, and writes its own bit into it. */
  lemma PortTakes(s: Sys, i: nat, s': Sys)
    requires Ownership(s) && i < |s.ports| && !s.ports[i].owns && Free(s.sync, s.ports[i].phy)
    requires s' == s.(sync := s.sync + {SwBit(s.ports[i].phy)},
                      ports := s.ports[i := Port(s.ports[i].phy, true, Leave)])
    ensures Ownership(s')
  {
    var a := s.ports[i];
    assert Exclusive(s') by {
      assert forall j | 0 <= j < |s.ports| && s.ports[j].owns :: s.ports[j].phy != a.phy;
      assert a.phy !in s.fw.owned;
    }
    hide Exclusive;
    forall phy | 0 <= phy < 2 && SwBit(phy) in s'.sync
      ensures exists j | 0 <= j < |s'.ports| :: s'.ports[j].owns && s'.ports[j].phy == phy
    {
      if phy == a.phy {
        assert s'.ports[i].owns && s'.ports[i].phy == phy;
      } else {
        OwnersStay(s, i, s'.ports[i], s', phy);
      }
    }
  }

  lemma PortDrops(s: Sys, i: nat, s': Sys)
    requires Ownership(s) && i < |s.ports| && s.ports[i].owns
    requires s' == s.(sync := s.sync - {SwBit(s.ports[i].phy)},
                      ports := s.ports[i := Port(s.ports[i].phy, false, Leave)])
    ensures Ownership(s')
  {
    var a := s.ports[i];
    assert forall j | 0 <= j < |s.ports| && s.ports[j].owns && j != i :: s.ports[j].phy != a.phy;
    assert Exclusive(s');
    hide Exclusive;
    forall phy | 0 <= phy < 2 && SwBit(phy) in s'.sync
      ensures exists j | 0 <= j < |s'.ports| :: s'.ports[j].owns && s'.ports[j].phy == phy
    {
      OwnersStay(s, i, s'.ports[i], s', phy);
    }
  }

  lemma FirmwareMoves(s: Sys, phy: nat, take: bool, s': Sys)
    requires Ownership(s) && phy < 2 && s'.ports == s.ports
    requires if take then Free(s.sync, phy) && s'.sync == s.sync + {FwBit(phy)} && s'.fw.owned == s.fw.owned + {phy}
             else s'.sync == s.sync - {FwBit(phy)} && s'.fw.owned == s.fw.owned - {phy}
    ensures Ownership(s')
  {
    assert forall p | 0 <= p < 2 :: SwBit(p) in s'.sync <==> SwBit(p) in s.sync;
  }

  lemma OwnershipKept(s: Sys, m: Move)
    requires Inv(s) && Enabled(s, m)
    ensures Ownership(Make(s, m))
  {
    hide Ownership, Semaphore, Copies;
    if m.Advance? && s.ports[m.port].pc.Loaded? {
      var i := m.port;
      assert s.ports[i].pc.copy == s.sync by {
        CopyIsCurrent(s, i);
      }
      if s.ports[i].owns {
        PortDrops(s, i, Make(s, m));
      } else if Free(s.sync, s.ports[i].phy) {
        PortTakes(s, i, Make(s, m));
      } else {
        NothingOwned(s, Make(s, m));
      }
    } else if m.FwTake? || m.FwDrop? {
      FwCopyIsCurrent(s);
      FirmwareMoves(s, m.phy, m.FwTake?, Make(s, m));
    } else {
      NothingOwned(s, Make(s, m));
    }
  }

  lemma CopyIsCurrent(s: Sys, i: nat)
    requires Copies(s) && i < |s.ports| && s.ports[i].pc.Loaded?
    ensures s.ports[i].pc.copy == s.sync
  {
  }

  lemma FwCopyIsCurrent(s: Sys)
    requires Copies(s) && Ownership(s) && s.fw.copy.Some?
    ensures s.fw.copy.value == s.sync && s.fw.owned <= {0, 1}
  {
  }

  lemma InvKept(s: Sys, m: Move)
    requires Inv(s) && Enabled(s, m)
    ensures Inv(Make(s, m))
  {
    SemaphoreKept(s, m);
    CopiesKept(s, m);
    OwnershipKept(s, m);
    hide Semaphore, Copies, Ownership;
  }

  // ----- runs -----

  ghost predicate Legal(s: Sys, moves: seq<Move>)
    decreases |moves|
  {
    moves == [] || (Enabled(s, moves[0]) && Legal(Make(s, moves[0]), moves[1..]))
  }

  function MakeAll(s: Sys, moves: seq<Move>): Sys
    requires Legal(s, moves)
    decreases |moves|
  {
    if moves == [] then s else MakeAll(Make(s, moves[0]), moves[1..])
  }

  /** Nobody is after the semaphore and no PHY is owned. Other bits of SW_FW_SYNC may be anything. */
  ghost predicate Initial(s: Sys) {
    && !s.smbi && !s.swesmbi && !s.fw.lock && s.fw.copy.None? && s.fw.owned == {}
    && (forall i | 0 <= i < |s.ports| :: s.ports[i].pc.Out? && !s.ports[i].owns && s.ports[i].phy < 2)
    && (forall phy | 0 <= phy < 2 :: SwBit(phy) !in s.sync && FwBit(phy) !in s.sync)
  }

  lemma {:induction false} InvAlways(s: Sys, moves: seq<Move>)
    requires Inv(s) && Legal(s, moves)
    ensures Inv(MakeAll(s, moves))
    decreases |moves|
  {
    hide Inv, Make;
    if moves != [] {
      InvKept(s, moves[0]);
      InvAlways(Make(s, moves[0]), moves[1..]);
    }
  }

  /** In every reachable state, for any number of ports in any interleaving with the firmware, no PHY has two owners. */
  lemma MutualExclusion(s: Sys, moves: seq<Move>)
    requires Initial(s) && Legal(s, moves)
    ensures Exclusive(MakeAll(s, moves)) && Inv(MakeAll(s, moves))
  {
    assert Inv(s);
    InvAlways(s, moves);
  }

  /** The bit of SW_FW_SYNC a move may change, if any. */
  function OwnBits(s: Sys, m: Move): set<nat>
    requires Enabled(s, m)
  {
    match m
    case Advance(i) => {SwBit(s.ports[i].phy)}
    case FwTake(phy) => {FwBit(phy)}
    case FwDrop(phy) => {FwBit(phy)}
    case _ => {}
  }

  /** Although the word is read in one step and written in another, no write loses a change made by anyone else. */
  lemma OtherBitsKept(s: Sys, m: Move, bit: nat)
    requires Inv(s) && Enabled(s, m) && bit !in OwnBits(s, m)
    ensures bit in Make(s, m).sync <==> bit in s.sync
  {
    if m.Advance? && s.ports[m.port].pc.Loaded? {
      CopyIsCurrent(s, m.port);
    } else if m.FwTake? || m.FwDrop? {
      FwCopyIsCurrent(s);
    }
    hide Inv;
  }

  /** Over a whole run, the bits outside those of the two PHYs are never touched. */
  lemma {:induction false} ForeignBitsKept(s: Sys, moves: seq<Move>, bit: nat)
    requires Inv(s) && Legal(s, moves) && bit !in {SwBit(0), SwBit(1), FwBit(0), FwBit(1)}
    ensures bit in MakeAll(s, moves).sync <==> bit in s.sync
    decreases |moves|
  {
    if moves != [] {
      var m := moves[0];
      PhysInRange(s);
      hide Inv, Make;
      OtherBitsKept(s, m, bit);
      InvKept(s, m);
      ForeignBitsKept(Make(s, m), moves[1..], bit);
    }
  }

  lemma PhysInRange(s: Sys)
    requires Inv(s)
    ensures forall i | 0 <= i < |s.ports| :: s.ports[i].phy < 2
    ensures s.fw.owned <= {0, 1}
  {
  }
}
