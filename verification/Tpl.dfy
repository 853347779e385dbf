/**
 The two-port-link controller in software: a periodic step that switches off the transmitter
 facing a good link when the other link is lost, so that the loss shows on both sides.
 */
module Tpl {
  import opened Codes
  import opened Caps

  /** The transmitters of the controlling port and of its partner, and bp_tpl_flag. */
  datatype Tx = Tx(tx1: bool, tx2: bool, flag: bool)

  /** One run of bp_tpl_timer_fn with the links found up or down. */
  function Mirror(s: Tx, link1: bool, link2: bool): Tx {
    if !s.flag then Tx(true, true, false)
    else if link1 && s.tx1 then
      if !link2 && s.tx2 then s.(tx1 := false) else s.(tx2 := true)
    else if !link1 && s.tx1 then
      if link2 && s.tx2 then s.(tx2 := false) else s
    else if link2 && s.tx2 then s.(tx1 := true)
    else s
  }

  /** set_tx_fn refuses while two-port link is on: by the port's own words, or by those of its master. */
  predicate TxAllowed(caps: bv32, slaveCaps: bv32, first: bool, flag: bool) {
    if first then !(Cap(caps, TPL_CAP) && Cap(caps, SW_CTL_CAP) && flag)
    else (Cap(slaveCaps, TPL_CAP) && Cap(slaveCaps, SW_CTL_CAP)) || !(Cap(caps, TPL_CAP) && flag)
  }

  datatype Move =
    | Tick(link1: bool, link2: bool)
    | SetTpl(on: bool)
    | SetTx(first: bool, on: bool)

  function Make(caps: bv32, slaveCaps: bv32, s: Tx, m: Move): Tx {
    match m
    case Tick(link1, link2) => Mirror(s, link1, link2)
    case SetTpl(on) =>
      if !Cap(caps, TPL_CAP) then s
      else if on then Tx(true, true, true)
      else if s.flag then Tx(true, true, false)
      else s
    case SetTx(first, on) =>
      if !TxAllowed(caps, slaveCaps, first, s.flag) then s
      else if first then s.(tx1 := on) else s.(tx2 := on)
  }

  function MakeAll(caps: bv32, slaveCaps: bv32, s: Tx, moves: seq<Move>): Tx
    decreases |moves|
  {
    if moves == [] then s else MakeAll(caps, slaveCaps, Make(caps, slaveCaps, s, moves[0]), moves[1..])
  }

  /** The pair as the driver works on it, for parts without link control in hardware. */
  class Controller {
    const caps: bv32
    const slaveCaps: bv32
    var tx1: bool
    var tx2: bool
    var flag: bool
    var armed: bool

    function State(): Tx
      reads this
    {
      Tx(tx1, tx2, flag)
    }

    constructor (caps: bv32, slaveCaps: bv32, tx1: bool, tx2: bool)
      ensures this.caps == caps && this.slaveCaps == slaveCaps && State() == Tx(tx1, tx2, false) && !armed
    {
      this.caps, this.slaveCaps, this.tx1, this.tx2, this.flag, this.armed := caps, slaveCaps, tx1, tx2, false, false;
    }

    /** bp_tpl_timer_fn; it rearms itself while the flag is set. */
    method TimerFn(link1: bool, link2: bool)
      modifies this
      ensures State() == Mirror(old(State()), link1, link2) && armed == flag
    {
      if !flag {
        tx2 := true;
        tx1 := true;
        armed := false;
        return;
      }
      if link1 && tx1 {
        if !link2 && tx2 {
          tx1 := false;
        } else if !tx2 {
          tx2 := true;
        }
      } else if !link1 && tx1 {
        if link2 && tx2 {
          tx2 := false;
        }
      } else if link1 && !tx1 {
        if link2 && tx2 {
          tx1 := true;
        }
      } else if !link1 && !tx1 {
        if link2 && tx2 {
          tx1 := true;
        }
      }
      armed := true;
    }

    /** set_tpl_fn, with set_bypass_tpl_auto and remove_bypass_tpl_auto: switching off stops the timer. */
    method SetTplFn(on: bool) returns (ret: int)
      requires flag ==> armed
      modifies this
      ensures State() == Make(caps, slaveCaps, old(State()), SetTpl(on))
      ensures ret == if Cap(caps, TPL_CAP) then BP_OK else BP_NOT_CAP
      ensures ret == BP_OK ==> flag == on && (on || old(flag) ==> tx1 && tx2)
      ensures ret != BP_OK || (!on && !old(flag)) ==> State() == old(State())
      ensures flag ==> armed
    {
      if Cap(caps, TPL_CAP) {
        if on {
          tx2 := true;
          tx1 := true;
        }
        if on && !flag {
          flag := true;
          armed := true;
        } else if !on && flag {
          armed := false;
          flag := false;
          tx2 := true;
          tx1 := true;
        }
        return BP_OK;
      }
      return BP_NOT_CAP;
    }

    /** set_tx_fn on either port. */
    method SetTxFn(first: bool, on: bool) returns (ret: int)
      modifies this`tx1, this`tx2
      ensures State() == Make(caps, slaveCaps, old(State()), SetTx(first, on))
      ensures ret == if TxAllowed(caps, slaveCaps, first, flag) then BP_OK else BP_NOT_CAP
      ensures ret == BP_OK ==> if first then tx1 == on && tx2 == old(tx2) else tx2 == on && tx1 == old(tx1)
      ensures ret != BP_OK ==> flag && tx1 == old(tx1) && tx2 == old(tx2)
    {
      hide Cap;
      if first {
        if Cap(caps, TPL_CAP) && Cap(caps, SW_CTL_CAP) {
          if flag {
            return BP_NOT_CAP;
          }
        }
        tx1 := on;
      } else {
        if Cap(slaveCaps, TPL_CAP) && Cap(slaveCaps, SW_CTL_CAP) {
        } else if Cap(caps, TPL_CAP) && flag {
          return BP_NOT_CAP;
        }
        tx2 := on;
      }
      return BP_OK;
    }
  }

  // ----- safety -----

  /** While two-port link is on, somebody transmits. */
  predicate Safe(s: Tx) {
    s.flag ==> s.tx1 || s.tx2
  }

  lemma {:induction false} SafeAlways(caps: bv32, slaveCaps: bv32, s: Tx, moves: seq<Move>)
    requires Cap(caps, TPL_CAP) ==> Cap(caps, SW_CTL_CAP)
    requires !Cap(slaveCaps, TPL_CAP)
    requires Safe(s) && (s.flag ==> Cap(caps, TPL_CAP))
    ensures Safe(MakeAll(caps, slaveCaps, s, moves))
    decreases |moves|
  {
    hide Cap;
    if moves != [] {
      SafeAlways(caps, slaveCaps, Make(caps, slaveCaps, s, moves[0]), moves[1..]);
    }
  }

  /** Without software control a user can switch off the last transmitter, and the controller never recovers. */
  lemma UserBreaksLink(caps: bv32, slaveCaps: bv32, s: Tx)
    requires Cap(caps, TPL_CAP) && !Cap(caps, SW_CTL_CAP)
    ensures MakeAll(caps, slaveCaps, s, [SetTpl(true), Tick(false, true), SetTx(true, false)]) == Tx(false, false, true)
  {
    hide Cap;
    var moves := [SetTpl(true), Tick(false, true), SetTx(true, false)];
    assert moves[1..] == [Tick(false, true), SetTx(true, false)];
    assert moves[1..][1..] == [SetTx(true, false)];
    assert moves[1..][1..][1..] == [];
  }

  /**
   Under link changes and user calls of every kind, safety holds exactly when two-port link comes
   with software control.
   */
  lemma SafetyExact(caps: bv32, slaveCaps: bv32, s: Tx)
    requires !s.flag && !Cap(slaveCaps, TPL_CAP)
    ensures (forall moves :: Safe(MakeAll(caps, slaveCaps, s, moves)))
       <==> (Cap(caps, TPL_CAP) ==> Cap(caps, SW_CTL_CAP))
  {
    hide Cap, MakeAll;
    if Cap(caps, TPL_CAP) ==> Cap(caps, SW_CTL_CAP) {
      forall moves ensures Safe(MakeAll(caps, slaveCaps, s, moves)) {
        SafeAlways(caps, slaveCaps, s, moves);
      }
    } else {
      UserBreaksLink(caps, slaveCaps, s);
      assert !Safe(MakeAll(caps, slaveCaps, s, [SetTpl(true), Tick(false, true), SetTx(true, false)]));
    }
  }

  /**
   In a pair bypass_caps_init sets up, a user is refused on either port exactly while two-port link
   is on; else the call moves the transmitter of its own port, and only that.
   */
  lemma UserMovesOwnSide(q: Probe, slave: Probe, s: Tx, first: bool, on: bool)
    requires Cap(CapsInit(q).caps, TPL_CAP) && !slave.bypassFn
    ensures Make(CapsInit(q).caps, CapsInit(slave).caps, s, SetTx(first, on))
         == if s.flag then s else if first then Tx(on, s.tx2, false) else Tx(s.tx1, on, false)
  {
    hide CapsInit, Cap;
    TplImpliesControl(q);
    SlaveHasNoTpl(slave);
  }

  /** That condition is met by every pair bypass_caps_init sets up. */
  lemma InitialisedPairIsSafe(q: Probe, slave: Probe, s: Tx, moves: seq<Move>)
    requires !slave.bypassFn && !s.flag
    ensures Safe(MakeAll(CapsInit(q).caps, CapsInit(slave).caps, s, moves))
  {
    hide CapsInit, Cap;
    if Cap(CapsInit(q).caps, TPL_CAP) {
      TplImpliesControl(q);
    }
    SlaveHasNoTpl(slave);
    SafeAlways(CapsInit(q).caps, CapsInit(slave).caps, s, moves);
  }

  // ----- convergence -----

  function Ticks(s: Tx, link1: bool, link2: bool, n: nat): Tx {
    if n == 0 then s else Mirror(Ticks(s, link1, link2, n - 1), link1, link2)
  }

  /** With one link steadily up, from the second step on that side is silent and the other transmits. */
  lemma {:induction false} LossIsMirrored(s: Tx, link1: bool, n: nat)
    requires s.flag && (s.tx1 || s.tx2) && n >= 2
    ensures Ticks(s, link1, !link1, n) == Tx(!link1, link1, true)
  {
    if n > 2 {
      LossIsMirrored(s, link1, n - 1);
    } else {
      assert Ticks(s, link1, !link1, 1) == Mirror(Ticks(s, link1, !link1, 0), link1, !link1);
      assert Ticks(s, link1, !link1, 2) == Mirror(Ticks(s, link1, !link1, 1), link1, !link1);
    }
  }

  /** With both links up, both sides transmit from the first step on. */
  lemma {:induction false} RecoveryIsMirrored(s: Tx, n: nat)
    requires s.flag && (s.tx1 || s.tx2) && n >= 1
    ensures Ticks(s, true, true, n) == Tx(true, true, true)
  {
    if n > 1 {
      RecoveryIsMirrored(s, n - 1);
    } else {
      assert Ticks(s, true, true, 1) == Mirror(Ticks(s, true, true, 0), true, true);
    }
  }

  /** With both links down, nothing is switched. */
  lemma NothingWithoutLinks(s: Tx, n: nat)
    requires s.flag
    ensures Ticks(s, false, false, n) == s
  {
  }

  /**
   Link changes can bring both transmitters back exactly from the states in which one is on; from the
   dark there is no way out.
   */
  lemma RecoverableExactly(caps: bv32, slaveCaps: bv32, s: Tx)
    requires s.flag
    ensures (exists moves | OnlyTicks(moves) :: MakeAll(caps, slaveCaps, s, moves) == Tx(true, true, true))
       <==> s.tx1 || s.tx2
  {
    if s.tx1 || s.tx2 {
      var moves := [Tick(true, true)];
      assert moves[1..] == [];
      assert OnlyTicks(moves) && MakeAll(caps, slaveCaps, s, moves) == Tx(true, true, true);
    } else {
      forall moves | OnlyTicks(moves) ensures MakeAll(caps, slaveCaps, s, moves) != Tx(true, true, true) {
        StaysDead(caps, slaveCaps, s, moves);
      }
    }
  }

  ghost predicate OnlyTicks(moves: seq<Move>) {
    forall i | 0 <= i < |moves| :: moves[i].Tick?
  }

  lemma {:induction false} StaysDead(caps: bv32, slaveCaps: bv32, s: Tx, moves: seq<Move>)
    requires s == Tx(false, false, true) && OnlyTicks(moves)
    ensures MakeAll(caps, slaveCaps, s, moves) == s
    decreases |moves|
  {
    if moves != [] {
      StaysDead(caps, slaveCaps, s, moves[1..]);
    }
  }

  // ----- switching off -----

  lemma {:induction false} MakeAllAppend(caps: bv32, slaveCaps: bv32, s: Tx, a: seq<Move>, b: seq<Move>)
    ensures MakeAll(caps, slaveCaps, s, a + b) == MakeAll(caps, slaveCaps, MakeAll(caps, slaveCaps, s, a), b)
    decreases |a|
  {
    hide Make;
    if a == [] {
      assert a + b == b;
    } else {
      assert (a + b)[1..] == a[1..] + b;
      MakeAllAppend(caps, slaveCaps, Make(caps, slaveCaps, s, a[0]), a[1..], b);
    }
  }

  lemma One(caps: bv32, slaveCaps: bv32, s: Tx, m: Move)
    ensures MakeAll(caps, slaveCaps, s, [m]) == Make(caps, slaveCaps, s, m)
  {
    hide Make;
    assert [m][1..] == [];
  }

  /** Link changes and users never switch two-port link off by themselves. */
  lemma {:induction false} FlagStays(caps: bv32, slaveCaps: bv32, s: Tx, moves: seq<Move>)
    requires s.flag && SetTpl(false) !in moves
    ensures MakeAll(caps, slaveCaps, s, moves).flag
    decreases |moves|
  {
    hide Cap;
    if moves != [] {
      assert moves[0] in moves;
      FlagStays(caps, slaveCaps, Make(caps, slaveCaps, s, moves[0]), moves[1..]);
    }
  }

  lemma {:induction false} StaysRestored(caps: bv32, slaveCaps: bv32, ticks: seq<Move>)
    requires OnlyTicks(ticks)
    ensures MakeAll(caps, slaveCaps, Tx(true, true, false), ticks) == Tx(true, true, false)
    decreases |ticks|
  {
    if ticks != [] {
      StaysRestored(caps, slaveCaps, ticks[1..]);
    }
  }

  /**
   However two-port link has been used since it was switched on, with or without a transmitter
   left on, switching it off leaves both on, and no step of the controller afterwards undoes that.
   */
  lemma DisableRestores(caps: bv32, slaveCaps: bv32, s: Tx, moves: seq<Move>, ticks: seq<Move>)
    requires Cap(caps, TPL_CAP) && SetTpl(false) !in moves && OnlyTicks(ticks)
    ensures MakeAll(caps, slaveCaps, s, [SetTpl(true)] + moves + [SetTpl(false)] + ticks) == Tx(true, true, false)
  {
    hide Cap, MakeAll;
    var enabled := Make(caps, slaveCaps, s, SetTpl(true));
    var used := MakeAll(caps, slaveCaps, enabled, moves);
    One(caps, slaveCaps, s, SetTpl(true));
    FlagStays(caps, slaveCaps, enabled, moves);
    One(caps, slaveCaps, used, SetTpl(false));
    StaysRestored(caps, slaveCaps, ticks);
    MakeAllAppend(caps, slaveCaps, s, [SetTpl(true)], moves);
    MakeAllAppend(caps, slaveCaps, s, [SetTpl(true)] + moves, [SetTpl(false)]);
    MakeAllAppend(caps, slaveCaps, s, [SetTpl(true)] + moves + [SetTpl(false)], ticks);
  }
}
