/** What one call does to the card, whatever it was told before, and on which parts it reaches what it asks for. */
module CardCalls {
  import opened Options
  import opened Bits
  import opened Codes
  import opened Watchdog
  import opened Timeout
  import opened Commands
  import Brackets
  import opened Card

  /** The state a call leaves, given that of the card before it. */
  ghost predicate Leads(p: Part, call: Call, c: State, c': State) {
    && OthersAlone(call, c, c') && Spared(call, c, c') && (call.DiscPort? ==> c'.open == c.open)
    && (Brackets.Rejected(p, call) ==> c' == c)
    && (!Brackets.Rejected(p, call) && !call.DiscPort? && (call.TplHw? ==> Cap(p.caps, SW_CTL_CAP)) ==> !c'.open)
    && (!Brackets.Rejected(p, call) && Effective(p, call) ==> Asked(p, call, c'))
  }

  lemma Inside(p: Part, s: Setting, c: State)
    requires Accepted(p, s)
    ensures Carry(c, Word(p, Change(s)))
         == var r := Carry(c.(open := true), Inner(p, s)); if r.Some? then Some(r.value.(open := false)) else None
  {
    hide Inner, Carry, Accepted;
    CarryBracket(c, Inner(p, s));
  }

  lemma Single(p: Part, s: Setting, c: State, code: byte)
    requires Accepted(p, s) && Inner(p, s) == [code]
    ensures var r := Act(c.(open := true), code);
            Carry(c, Word(p, Change(s))) == if r.Some? then Some(r.value.(open := false)) else None
  {
    Inside(p, s, c);
    hide Inner, Carry, Accepted, Act, Word;
    CarryOne(c.(open := true), code);
  }

  /** The code that stands for a setting with one command, by its number. */
  predicate Says(s: Setting, code: byte) {
    match s
    case Bypass(on) => code == if on then 0x0a else 0x08
    case DisBypass(on) => !on && code == 0x24
    case Pwoff(on) => code == if on then 0x27 else 0x29
    case Pwup(on) => code == if on then 0x26 else 0x28
    case Timer(timeout) => if timeout == 0 then code == 0x06 else code == 0x10 + StepOf(Unsigned(timeout))
    case StdNic(on) => code == if on then 0x84 else 0x86
    case Tap(on) => code == if on then 0x0b else 0x09
    case TapPwup(on) => code == if on then 0x2a else 0x28
    case DisTap(on) => code == if on then 0x2c else 0x2e
    case Disc(on) => code == if on then 0x85 else 0x8a
    case DiscPwup(on) => code == if on then 0x87 else 0x28
    case DisDisc(on) => code == if on then 0x88 else 0x89
    case WaitAtPwup(on) => code == if on then 0x80 else 0x81
    case HwReset(on) => code == if on then 0x82 else 0x83
  }

  /** What the setting makes of an open card, if the code reaches it. */
  ghost predicate Works(p: Part, s: Setting, o: State, r: Option<State>) {
    && r.Some? && r.value.open && OthersAlone(Change(s), o, r.value) && Spared(Change(s), o, r.value)
    && Asked(p, Change(s), r.value)
  }

  lemma ActsOnWays(o: State)
    requires o.open
    ensures Act(o, 0x0a) == Some(o.(now := Bypassed)) && Act(o, 0x08) == Some(o.(now := Leave(o.now, Bypassed)))
    ensures Act(o, 0x0b) == Some(o.(now := Tapped)) && Act(o, 0x09) == Some(o.(now := Leave(o.now, Tapped)))
    ensures Act(o, 0x85) == Some(o.(now := Disconnected)) && Act(o, 0x8a) == Some(o.(now := Leave(o.now, Disconnected)))
  {
  }

  lemma ActsOnDisabled(o: State)
    requires o.open
    ensures Act(o, 0x22) == Some(o.(disabled := o.disabled + {Bypassed}))
    ensures Act(o, 0x24) == Some(o.(disabled := o.disabled - {Bypassed}))
    ensures Act(o, 0x2c) == Some(o.(disabled := o.disabled + {Tapped}))
    ensures Act(o, 0x2e) == Some(o.(disabled := o.disabled - {Tapped}))
    ensures Act(o, 0x88) == Some(o.(disabled := o.disabled + {Disconnected}))
    ensures Act(o, 0x89) == Some(o.(disabled := o.disabled - {Disconnected}))
  {
  }

  lemma ActsOnPower(o: State)
    requires o.open
    ensures Act(o, 0x26) == Some(o.(powerUp := Bypassed)) && Act(o, 0x28) == Some(o.(powerUp := Normal))
    ensures Act(o, 0x2a) == Some(o.(powerUp := Tapped)) && Act(o, 0x87) == Some(o.(powerUp := Disconnected))
    ensures Act(o, 0x27) == Some(o.(powerOff := Bypassed)) && Act(o, 0x29) == Some(o.(powerOff := Normal))
  {
  }

  lemma ActsOnFlags(o: State)
    requires o.open
    ensures Act(o, 0x80) == Some(o.(waits := true)) && Act(o, 0x81) == Some(o.(waits := false))
    ensures Act(o, 0x82) == Some(o.(resets := true)) && Act(o, 0x83) == Some(o.(resets := false))
    ensures Act(o, 0x84) == Some(o.(standard := true)) && Act(o, 0x86) == Some(o.(standard := false))
  {
  }

  lemma ActsOnLink(o: State)
    requires o.open
    ensures Act(o, 0x8c) == Some(o.(linked := true)) && Act(o, 0x8b) == Some(o.(linked := false))
    ensures Act(o, 0x06) == Some(o.(watch := None))
  {
  }

  lemma ActsOnWatch(o: State, step: nat)
    requires o.open && step < 16
    ensures Act(o, 0x10 + step) == Some(o.(watch := Some(step)))
  {
  }

  lemma WaysWork(p: Part, s: Setting, o: State, code: byte)
    requires o.open && Says(s, code) && (s.Bypass? || s.Tap? || s.Disc?)
    ensures Works(p, s, o, Act(o, code))
  {
    hide Act, Cap, Serves, Pow2, StepOf;
    ActsOnWays(o);
  }

  lemma DisabledWork(p: Part, s: Setting, o: State, code: byte)
    requires o.open && Says(s, code) && (s.DisBypass? || s.DisTap? || s.DisDisc?)
    ensures Works(p, s, o, Act(o, code))
  {
    hide Act, Cap, Serves, Pow2, StepOf;
    ActsOnDisabled(o);
  }

  lemma PowerWorks(p: Part, s: Setting, o: State, code: byte)
    requires o.open && Says(s, code) && (s.Pwoff? || s.Pwup? || s.TapPwup? || s.DiscPwup?)
    ensures Works(p, s, o, Act(o, code))
  {
    hide Act, Cap, Serves, Pow2, StepOf;
    ActsOnPower(o);
  }

  lemma WaitWorks(p: Part, s: Setting, o: State, code: byte)
    requires o.open && Says(s, code) && s.WaitAtPwup?
    ensures Works(p, s, o, Act(o, code))
  {
    hide Act, Cap, Standard, Serves, Pow2, StepOf;
    ActsOnFlags(o);
  }

  lemma ResetWorks(p: Part, s: Setting, o: State, code: byte)
    requires o.open && Says(s, code) && s.HwReset?
    ensures Works(p, s, o, Act(o, code))
  {
    hide Act, Cap, Standard, Serves, Pow2, StepOf;
    ActsOnFlags(o);
  }

  lemma StandardWorks(p: Part, s: Setting, o: State, code: byte)
    requires o.open && Says(s, code) && s.StdNic? && p.ver >= 8
    ensures Works(p, s, o, Act(o, code))
  {
    hide Act, Cap, Serves, Pow2, StepOf;
    ActsOnFlags(o);
  }

  lemma TimerWorks(p: Part, timeout: int, o: State, code: byte)
    requires o.open && Says(Timer(timeout), code)
    ensures Works(p, Timer(timeout), o, Act(o, code))
  {
    hide Act, Cap, Serves, Pow2, StepOf;
    ActsOnLink(o);
    if timeout != 0 {
      var step := StepOf(Unsigned(timeout));
      ActsOnWatch(o, step);
      StepServes(Unsigned(timeout));
    }
  }

  lemma StepServes(timeout: u32)
    ensures Serves(timeout, 100 * Pow2(StepOf(timeout)))
  {
    RoundingCovers(timeout);
    hide Serves, Pow2, StepOf, Least;
  }

  // ----- standard NIC mode on older firmware -----

  /** A stream takes an open card from one state to another, and leaves it open. */
  ghost predicate Turns(o: State, word: seq<byte>, o': State) {
    o.open && o'.open && Carry(o, word) == Some(o')
  }

  lemma TurnsOn(o: State, a: seq<byte>, o': State, b: seq<byte>, o'': State)
    requires Turns(o, a, o') && Turns(o', b, o'')
    ensures Turns(o, a + b, o'')
  {
    hide Carry;
    CarryAppend(o, a, b);
  }

  lemma TurnsFive(o: State, a: seq<byte>, o1: State, b: seq<byte>, o2: State, c: seq<byte>, o3: State,
                  e: seq<byte>, o4: State, f: seq<byte>, o5: State)
    requires Turns(o, a, o1) && Turns(o1, b, o2) && Turns(o2, c, o3) && Turns(o3, e, o4) && Turns(o4, f, o5)
    ensures Turns(o, a + b + c + e + f, o5)
  {
    hide Turns;
    TurnsOn(o, a, o1, b, o2);
    TurnsOn(o, a + b, o2, c, o3);
    TurnsOn(o, a + b + c, o3, e, o4);
    TurnsOn(o, a + b + c + e, o4, f, o5);
  }

  function LeaveIf(c: bool, now: Way, way: Way): Way {
    if c then Leave(now, way) else now
  }

  function Choose(c: bool, way: Way, other: Way): Way {
    if c then way else other
  }

  function With(c: bool, ways: set<Way>, way: Way): set<Way> {
    if c then ways + {way} else ways
  }

  function Without(c: bool, ways: set<Way>, way: Way): set<Way> {
    if c then ways - {way} else ways
  }

  function OffIf(c: bool, watch: Option<nat>): Option<nat> {
    if c then None else watch
  }

  // the same on whole states
  function Drop(c: bool, o: State, way: Way): State {
    o.(now := LeaveIf(c, o.now, way))
  }

  function Disable(c: bool, o: State, way: Way): State {
    o.(disabled := With(c, o.disabled, way))
  }

  function Enable(c: bool, o: State, way: Way): State {
    o.(disabled := Without(c, o.disabled, way))
  }

  function StartAs(c: bool, o: State, way: Way): State {
    o.(powerUp := Choose(c, way, o.powerUp))
  }

  function Unwatch(c: bool, o: State): State {
    o.(watch := OffIf(c, o.watch))
  }

  lemma WhenTurns(o: State, c: bool, code: byte, o': State)
    requires o.open && o'.open && Act(o, code) == Some(o')
    ensures Turns(o, When(c, [code]), if c then o' else o)
  {
    hide Act, Carry, When;
    CarryWhen(o, c, code);
  }

  lemma DropTurns(o: State, c: bool)
    requires o.open
    ensures Turns(o, When(c, [TAP_OFF]), Drop(c, o, Tapped)) && Turns(o, When(c, [BYPASS_OFF]), Drop(c, o, Bypassed))
  {
    ActsOnWays(o);
    hide Act, Turns, When;
    WhenTurns(o, c, TAP_OFF, Drop(true, o, Tapped));
    WhenTurns(o, c, BYPASS_OFF, Drop(true, o, Bypassed));
  }

  lemma UnwatchTurns(o: State, c: bool)
    requires o.open
    ensures Turns(o, When(c, [WDT_OFF]), Unwatch(c, o))
  {
    ActsOnLink(o);
    hide Act, Turns, When;
    WhenTurns(o, c, WDT_OFF, Unwatch(true, o));
  }

  lemma StartTurns(o: State, c: bool)
    requires o.open
    ensures Turns(o, When(c, [TAP_STATE_PWRON]), StartAs(c, o, Tapped))
    ensures Turns(o, When(c, [BYPASS_STATE_PWRON]), StartAs(c, o, Bypassed))
  {
    ActsOnPower(o);
    hide Act, Turns, When;
    WhenTurns(o, c, TAP_STATE_PWRON, StartAs(true, o, Tapped));
    WhenTurns(o, c, BYPASS_STATE_PWRON, StartAs(true, o, Bypassed));
  }

  lemma NormalTurns(o: State)
    requires o.open
    ensures Turns(o, [NORMAL_STATE_PWRON], StartAs(true, o, Normal))
  {
    ActsOnPower(o);
    hide Act, Turns;
    WhenTurns(o, true, NORMAL_STATE_PWRON, StartAs(true, o, Normal));
  }

  lemma EnableTurns(o: State, c: bool)
    requires o.open
    ensures Turns(o, When(c, [EN_TAP_CAP]), Enable(c, o, Tapped))
    ensures Turns(o, When(c, [EN_DISC_CAP]), Enable(c, o, Disconnected))
    ensures Turns(o, When(c, [EN_BYPASS_CAP]), Enable(c, o, Bypassed))
  {
    ActsOnDisabled(o);
    hide Act, Turns, When;
    WhenTurns(o, c, EN_TAP_CAP, Enable(true, o, Tapped));
    WhenTurns(o, c, EN_DISC_CAP, Enable(true, o, Disconnected));
    WhenTurns(o, c, EN_BYPASS_CAP, Enable(true, o, Bypassed));
  }

  lemma DisableTurns(o: State, c: bool)
    requires o.open
    ensures Turns(o, When(c, [DIS_TAP_CAP]), Disable(c, o, Tapped))
    ensures Turns(o, When(c, [DIS_BYPASS_CAP]), Disable(c, o, Bypassed))
  {
    ActsOnDisabled(o);
    hide Act, Turns, When;
    WhenTurns(o, c, DIS_TAP_CAP, Disable(true, o, Tapped));
    WhenTurns(o, c, DIS_BYPASS_CAP, Disable(true, o, Bypassed));
  }

  lemma TurnedIsOpen(o: State, word: seq<byte>, o': State)
    requires Turns(o, word, o')
    ensures o'.open
  {
  }

  /** std_nic_on, as the card takes it. */
  function NicOn(p: Part, o: State): State {
    var o1 := Unwatch(Cap(p.caps, WD_CTL_CAP), o);
    var o3 := Drop(Cap(p.caps, TAP_CAP), Drop(Cap(p.caps, BP_CAP), o1, Bypassed), Tapped);
    var o5 := Disable(Cap(p.caps, BP_DIS_CAP), StartAs(true, o3, Normal), Bypassed);
    Disable(Cap(p.caps, TAP_DIS_CAP), o5, Tapped)
  }

  /** std_nic_off, as the card takes it. */
  function NicOff(p: Part, o: State): State {
    var o1 := StartAs(Cap(p.caps, TAP_PWUP_CTL_CAP), o, Tapped);
    var o2 := StartAs(Cap(p.caps, BP_PWUP_CTL_CAP), o1, Bypassed);
    var o4 := Enable(Cap(p.caps, DISC_DIS_CAP), Enable(Cap(p.caps, TAP_DIS_CAP), o2, Tapped), Disconnected);
    Enable(Cap(p.caps, BP_DIS_CAP), o4, Bypassed)
  }

  lemma NicOnTurns(p: Part, o: State)
    requires o.open && p.ver < 8
    ensures Turns(o, StdNicWord(p, true), NicOn(p, o))
  {
    hide Turns, Cap, When, Drop, Disable, Unwatch, StartAs;
    var wd, bp, tap := Cap(p.caps, WD_CTL_CAP), Cap(p.caps, BP_CAP), Cap(p.caps, TAP_CAP);
    var bpDis, tapDis := Cap(p.caps, BP_DIS_CAP), Cap(p.caps, TAP_DIS_CAP);
    var a, b, c := When(wd, [WDT_OFF]), When(bp, [BYPASS_OFF]), When(tap, [TAP_OFF]);
    var e, f, g := [NORMAL_STATE_PWRON], When(bpDis, [DIS_BYPASS_CAP]), When(tapDis, [DIS_TAP_CAP]);
    var o1 := Unwatch(wd, o);
    UnwatchTurns(o, wd);
    TurnedIsOpen(o, a, o1);
    var o2 := Drop(bp, o1, Bypassed);
    DropTurns(o1, bp);
    TurnedIsOpen(o1, b, o2);
    var o3 := Drop(tap, o2, Tapped);
    DropTurns(o2, tap);
    TurnedIsOpen(o2, c, o3);
    var o4 := StartAs(true, o3, Normal);
    NormalTurns(o3);
    TurnedIsOpen(o3, e, o4);
    var o5 := Disable(bpDis, o4, Bypassed);
    DisableTurns(o4, bpDis);
    TurnedIsOpen(o4, f, o5);
    DisableTurns(o5, tapDis);
    TurnsFive(o, a, o1, b, o2, c, o3, e, o4, f, o5);
    TurnsOn(o, a + b + c + e + f, o5, g, Disable(tapDis, o5, Tapped));
  }

  lemma NicOffTurns(p: Part, o: State)
    requires o.open && p.ver < 8
    ensures Turns(o, StdNicWord(p, false), NicOff(p, o))
  {
    hide Turns, Cap, When, StartAs, Enable;
    var tapUp, bpUp := Cap(p.caps, TAP_PWUP_CTL_CAP), Cap(p.caps, BP_PWUP_CTL_CAP);
    var tapDis, discDis, bpDis := Cap(p.caps, TAP_DIS_CAP), Cap(p.caps, DISC_DIS_CAP), Cap(p.caps, BP_DIS_CAP);
    var a, b, c := When(tapUp, [TAP_STATE_PWRON]), When(bpUp, [BYPASS_STATE_PWRON]), When(tapDis, [EN_TAP_CAP]);
    var e, f := When(discDis, [EN_DISC_CAP]), When(bpDis, [EN_BYPASS_CAP]);
    var o1 := StartAs(tapUp, o, Tapped);
    StartTurns(o, tapUp);
    TurnedIsOpen(o, a, o1);
    var o2 := StartAs(bpUp, o1, Bypassed);
    StartTurns(o1, bpUp);
    TurnedIsOpen(o1, b, o2);
    var o3 := Enable(tapDis, o2, Tapped);
    EnableTurns(o2, tapDis);
    TurnedIsOpen(o2, c, o3);
    var o4 := Enable(discDis, o3, Disconnected);
    EnableTurns(o3, discDis);
    TurnedIsOpen(o3, e, o4);
    EnableTurns(o4, bpDis);
    TurnsFive(o, a, o1, b, o2, c, o3, e, o4, f, Enable(bpDis, o4, Bypassed));
  }

  // ----- any call -----

  /** What a setting makes of an open card. */
  ghost predicate Leaves(p: Part, s: Setting, o: State, r: Option<State>) {
    && r.Some? && r.value.open && OthersAlone(Change(s), o, r.value) && Spared(Change(s), o, r.value)
    && (Effective(p, Change(s)) ==> Asked(p, Change(s), r.value))
  }

  lemma AskedNic(p: Part, on: bool, c: State)
    ensures Asked(p, Change(StdNic(on)), c) <==> Standard(p, c) == on && (p.ver < 8 ==> NicPower(p, on, c))
    ensures Effective(p, Change(StdNic(on))) <==> p.ver >= 8 || NicEffective(p, on)
  {
    hide Cap, Standard, NicPower;
  }

  lemma NicAlone(on: bool, o: State, r: State)
    requires r == o.(now := r.now, powerUp := r.powerUp, watch := r.watch, disabled := r.disabled)
    requires (Normal in r.disabled) == (Normal in o.disabled)
    ensures OthersAlone(Change(StdNic(on)), o, r)
  {
    forall a: Aspect | a !in About(Change(StdNic(on))) ensures Same(a, o, r) {
      if a.Disabled? {
        assert a.way == Normal;
      }
    }
  }

  lemma NicOnLeaves(p: Part, o: State)
    requires o.open && p.ver < 8
    ensures Leaves(p, StdNic(true), o, Some(NicOn(p, o)))
  {
    AskedNic(p, true, NicOn(p, o));
    hide Cap, Asked, Effective, About, OthersAlone;
    NicAlone(true, o, NicOn(p, o));
  }

  lemma NicOffLeaves(p: Part, o: State)
    requires o.open && p.ver < 8
    ensures Leaves(p, StdNic(false), o, Some(NicOff(p, o)))
  {
    AskedNic(p, false, NicOff(p, o));
    hide Cap, Asked, Effective, About, OthersAlone;
    NicAlone(false, o, NicOff(p, o));
  }

  lemma BypassDisabledTurns(o: State)
    requires o.open
    ensures Turns(o, [BYPASS_OFF, DIS_BYPASS_CAP], Disable(true, Drop(true, o, Bypassed), Bypassed))
  {
    assert [BYPASS_OFF, DIS_BYPASS_CAP] == [BYPASS_OFF] + [DIS_BYPASS_CAP];
    var o1 := Drop(true, o, Bypassed);
    DropTurns(o, true);
    assert When(true, [BYPASS_OFF]) == [BYPASS_OFF] && When(true, [DIS_BYPASS_CAP]) == [DIS_BYPASS_CAP];
    hide Turns, Drop, Disable;
    TurnedIsOpen(o, [BYPASS_OFF], o1);
    DisableTurns(o1, true);
    TurnsOn(o, [BYPASS_OFF], o1, [DIS_BYPASS_CAP], Disable(true, o1, Bypassed));
  }

  lemma BypassDisabledLeaves(p: Part, o: State)
    requires o.open
    ensures Leaves(p, DisBypass(true), o, Some(Disable(true, Drop(true, o, Bypassed), Bypassed)))
  {
    hide Cap, Standard, Serves, Pow2, StepOf;
  }

  lemma InnerSays(p: Part, s: Setting)
    requires Accepted(p, s) && s != DisBypass(true) && (s.StdNic? ==> p.ver >= 8)
    ensures Inner(p, s) == [] || (|Inner(p, s)| == 1 && Says(s, Inner(p, s)[0]))
    ensures Effective(p, Change(s)) ==> Inner(p, s) != []
  {
    hide Cap, Accepted, StepOf, NicEffective;
  }

  lemma NothingLeaves(p: Part, s: Setting, o: State)
    requires o.open && !Effective(p, Change(s))
    ensures Leaves(p, s, o, Some(o))
  {
    hide Asked, Effective, About;
  }

  lemma WorksLeaves(p: Part, s: Setting, o: State, r: Option<State>)
    requires Works(p, s, o, r)
    ensures Leaves(p, s, o, r)
  {
    hide Asked, Effective, OthersAlone, Spared;
  }

  lemma SaidWorks(p: Part, s: Setting, o: State, code: byte)
    requires o.open && Says(s, code) && (s.StdNic? ==> p.ver >= 8)
    ensures Works(p, s, o, Act(o, code))
  {
    hide Says, Act, Works;
    match s
    case Bypass(_) | Tap(_) | Disc(_) => WaysWork(p, s, o, code);
    case DisBypass(_) | DisTap(_) | DisDisc(_) => DisabledWork(p, s, o, code);
    case Pwoff(_) | Pwup(_) | TapPwup(_) | DiscPwup(_) => PowerWorks(p, s, o, code);
    case Timer(timeout) => TimerWorks(p, timeout, o, code);
    case StdNic(_) => StandardWorks(p, s, o, code);
    case WaitAtPwup(_) => WaitWorks(p, s, o, code);
    case HwReset(_) => ResetWorks(p, s, o, code);
  }

  lemma NicLeaves(p: Part, on: bool, o: State)
    requires o.open && p.ver < 8
    ensures Leaves(p, StdNic(on), o, Carry(o, StdNicWord(p, on)))
  {
    if on {
      NicOnTurns(p, o);
      NicOnLeaves(p, o);
    } else {
      NicOffTurns(p, o);
      NicOffLeaves(p, o);
    }
    hide Leaves, NicOn, NicOff, StdNicWord, Carry;
  }

  lemma InnerLeaves(p: Part, s: Setting, o: State)
    requires Accepted(p, s) && o.open
    ensures Leaves(p, s, o, Carry(o, Inner(p, s)))
  {
    if s == DisBypass(true) {
      BypassDisabledTurns(o);
      BypassDisabledLeaves(p, o);
      hide Leaves, Disable, Drop, Carry;
    } else if s.StdNic? && p.ver < 8 {
      hide Leaves, Carry;
      NicLeaves(p, s.on, o);
    } else {
      InnerSays(p, s);
      hide Inner, Accepted, Effective, Leaves, Works, Says, Act;
      if Inner(p, s) == [] {
        CarryNothing(o);
        NothingLeaves(p, s, o);
      } else {
        var code := Inner(p, s)[0];
        assert Inner(p, s) == [code];
        CarryOne(o, code);
        SaidWorks(p, s, o, code);
        WorksLeaves(p, s, o, Act(o, code));
      }
    }
  }

  lemma CarryNothing(o: State)
    ensures Carry(o, []) == Some(o)
  {
  }

  lemma Reopened(call: Call, c: State, r: State)
    requires OthersAlone(call, c.(open := true), r) && Spared(call, c.(open := true), r)
    ensures OthersAlone(call, c, r.(open := false)) && Spared(call, c, r.(open := false))
  {
    hide About;
    forall a: Aspect | a !in About(call) ensures Same(a, c, r.(open := false)) {
      assert Same(a, c.(open := true), r);
    }
  }

  lemma ClosedAsked(p: Part, call: Call, r: State)
    ensures Asked(p, call, r.(open := false)) <==> Asked(p, call, r)
  {
    hide Cap, Serves, Pow2;
  }

  lemma SettingLeads(p: Part, s: Setting, c: State)
    requires Accepted(p, s)
    ensures var r := Carry(c, Word(p, Change(s))); r.Some? && Leads(p, Change(s), c, r.value)
  {
    Inside(p, s, c);
    hide Inner, Accepted, Effective, Asked, OthersAlone, Spared, Carry, Word;
    InnerLeaves(p, s, c.(open := true));
    var r := Carry(c.(open := true), Inner(p, s)).value;
    Reopened(Change(s), c, r);
    ClosedAsked(p, Change(s), r);
  }

  lemma RejectedLeads(p: Part, call: Call, c: State)
    requires Brackets.Rejected(p, call)
    ensures var r := Carry(c, Word(p, call)); r.Some? && Leads(p, call, c, r.value)
  {
    Brackets.RejectedIsSilent(p, call);
    CarryNothing(c);
    hide Brackets.Rejected, Word, Effective, Asked, About;
  }

  lemma UnheardLink(c: State)
    requires !c.open
    ensures Act(c, 0x8c) == Some(c) && Act(c, 0x8b) == Some(c)
  {
  }

  lemma LinkWord(p: Part, on: bool)
    requires !Brackets.Rejected(p, TplHw(on))
    ensures var code: byte := if on then 0x8c else 0x8b;
            Word(p, TplHw(on)) == if Cap(p.caps, SW_CTL_CAP) then [CMND_ON] + [code] + [CMND_OFF] else [code]
  {
    var code: byte := if on then 0x8c else 0x8b;
    assert [] + [code] + [] == [code];
    hide Cap;
  }

  /** The card after a link command, which outside a bracket it does not hear. */
  function LinkTold(p: Part, on: bool, c: State): State {
    if Cap(p.caps, SW_CTL_CAP) then c.(open := false, linked := on) else if c.open then c.(linked := on) else c
  }

  lemma LinkCarries(p: Part, on: bool, c: State)
    requires !Brackets.Rejected(p, TplHw(on))
    ensures Carry(c, Word(p, TplHw(on))) == Some(LinkTold(p, on, c))
  {
    var code: byte := if on then 0x8c else 0x8b;
    LinkWord(p, on);
    hide Cap, Word, Carry, Act, Brackets.Rejected;
    CarryOne(c, code);
    if Cap(p.caps, SW_CTL_CAP) {
      CarryBracket(c, [code]);
      CarryOne(c.(open := true), code);
      ActsOnLink(c.(open := true));
    } else if c.open {
      ActsOnLink(c);
    } else {
      UnheardLink(c);
    }
  }

  lemma LinkLeads(p: Part, on: bool, c: State)
    requires !Brackets.Rejected(p, TplHw(on))
    ensures var r := Carry(c, Word(p, TplHw(on))); r.Some? && Leads(p, TplHw(on), c, r.value)
  {
    LinkCarries(p, on, c);
    hide Cap, Word, Carry, Brackets.Rejected;
  }

  function PortCode(first: bool, on: bool): byte {
    if first then (if on then 0x8d else 0xa0) else (if on then 0x8e else 0xa1)
  }

  lemma PortWord(p: Part, first: bool, on: bool)
    requires !Brackets.Rejected(p, DiscPort(first, on))
    ensures Word(p, DiscPort(first, on)) == [PortCode(first, on)]
  {
    hide Cap;
  }

  lemma PortActs(first: bool, on: bool, c: State)
    ensures Act(c, PortCode(first, on)) == Some(if first then c.(silentA := on) else c.(silentB := on))
  {
    hide ActInside;
  }

  lemma PortIsLed(p: Part, first: bool, on: bool, c: State)
    requires !Brackets.Rejected(p, DiscPort(first, on))
    ensures Leads(p, DiscPort(first, on), c, if first then c.(silentA := on) else c.(silentB := on))
  {
    hide Cap, Brackets.Rejected;
  }

  lemma PortLeads(p: Part, first: bool, on: bool, c: State)
    requires !Brackets.Rejected(p, DiscPort(first, on))
    ensures var r := Carry(c, Word(p, DiscPort(first, on))); r.Some? && Leads(p, DiscPort(first, on), c, r.value)
  {
    hide Word, Carry, Leads, Act, PortCode, Brackets.Rejected;
    PortWord(p, first, on);
    PortActs(first, on, c);
    PortIsLed(p, first, on, c);
    CarryOne(c, PortCode(first, on));
  }

  /**
   What a call does to the card, whatever it was told before: a rejected call nothing; an accepted one
   leaves alone what it is not about, and on the parts on which it is effective the card is then as asked.
   */
  lemma CallLeads(p: Part, call: Call, c: State)
    requires !call.ResetCont?
    ensures var r := Carry(c, Word(p, call)); r.Some? && Leads(p, call, c, r.value)
  {
    hide Leads, Word, Carry;
    if Brackets.Rejected(p, call) {
      RejectedLeads(p, call, c);
    } else {
      match call
      case Change(s) => SettingLeads(p, s, c);
      case TplHw(on) => LinkLeads(p, on, c);
      case DiscPort(first, on) => PortLeads(p, first, on, c);
    }
  }

  // ----- exactly these parts -----

  ghost predicate Reaches(p: Part, call: Call, c: State) {
    var r := Carry(c, Word(p, call)); r.Some? && Asked(p, call, r.value)
  }

  const PLAIN := State(false, Normal, Normal, Normal, {Bypassed, Tapped}, None, true, true, true, true, true, true)
  const EAGER := State(false, Normal, Normal, Normal, {}, Some(0), false, false, false, false, false, false)

  /** A state in which the card is not as the call asks. */
  function Against(call: Call): State {
    match call
    case Change(Tap(on)) => if on then EAGER else PLAIN.(now := Tapped)
    case Change(Disc(on)) => if on then EAGER else PLAIN.(now := Disconnected)
    case Change(DisDisc(on)) => if on then EAGER else PLAIN.(disabled := {Disconnected})
    case Change(DiscPwup(on)) => if on then EAGER else PLAIN.(powerUp := Disconnected)
    case Change(StdNic(on)) => if on then EAGER else PLAIN
    case Change(WaitAtPwup(on)) => if on then EAGER else PLAIN
    case Change(HwReset(on)) => if on then EAGER else PLAIN
    case TplHw(on) => if on then EAGER else PLAIN
    case _ => EAGER
  }

  lemma IneffectiveIsSilent(p: Part, s: Setting)
    requires Accepted(p, s) && !Effective(p, Change(s)) && !s.StdNic?
    ensures Inner(p, s) == []
    ensures !Asked(p, Change(s), Against(Change(s)))
  {
    hide Cap, Accepted;
  }

  lemma NicFails(p: Part, on: bool)
    requires p.ver < 8 && !NicEffective(p, on)
    ensures Standard(p, if on then NicOn(p, EAGER.(open := true)) else NicOff(p, PLAIN.(open := true))) != on
  {
    hide Cap;
  }

  lemma NicMisses(p: Part, on: bool)
    requires Accepted(p, StdNic(on)) && p.ver < 8 && !NicEffective(p, on)
    ensures !Reaches(p, Change(StdNic(on)), Against(Change(StdNic(on))))
  {
    var c := Against(Change(StdNic(on)));
    var o := c.(open := true);
    Inside(p, StdNic(on), c);
    NicFails(p, on);
    if on {
      NicOnTurns(p, o);
      AskedNic(p, on, NicOn(p, o));
      ClosedAsked(p, Change(StdNic(on)), NicOn(p, o));
    } else {
      NicOffTurns(p, o);
      AskedNic(p, on, NicOff(p, o));
      ClosedAsked(p, Change(StdNic(on)), NicOff(p, o));
    }
    hide Accepted, Asked, Word, Carry, StdNicWord, NicOn, NicOff, Standard, NicEffective;
  }

  lemma SilentMisses(p: Part, s: Setting)
    requires Accepted(p, s) && !Effective(p, Change(s)) && !s.StdNic?
    ensures !Reaches(p, Change(s), Against(Change(s)))
  {
    IneffectiveIsSilent(p, s);
    Inside(p, s, Against(Change(s)));
    CarryNothing(Against(Change(s)).(open := true));
    hide Accepted, Asked, Word, Carry, Inner, Effective, Against;
    ClosedAsked(p, Change(s), Against(Change(s)));
    ClosedAsked(p, Change(s), Against(Change(s)).(open := true));
  }

  lemma BareMisses(p: Part, on: bool)
    requires !Brackets.Rejected(p, TplHw(on)) && !Cap(p.caps, SW_CTL_CAP)
    ensures !Reaches(p, TplHw(on), Against(TplHw(on)))
  {
    LinkCarries(p, on, Against(TplHw(on)));
    hide Cap, Word, Carry, Brackets.Rejected;
  }

  /**
   An accepted call reaches what it asks for from every state of the card exactly on the parts on which it
   is effective.
   */
  lemma EffectiveExactly(p: Part, call: Call)
    requires !Brackets.Rejected(p, call) && !call.ResetCont?
    ensures Effective(p, call) <==> forall c :: Reaches(p, call, c)
  {
    if Effective(p, call) {
      hide Effective, Asked, Word, Carry, Brackets.Rejected, OthersAlone, Spared;
      forall c ensures Reaches(p, call, c) {
        CallLeads(p, call, c);
      }
    } else {
      assert !Reaches(p, call, Against(call)) by {
        if call.TplHw? {
          BareMisses(p, call.on);
        } else if call.s.StdNic? {
          NicMisses(p, call.s.on);
        } else {
          SilentMisses(p, call.s);
        }
      }
      hide Effective, Reaches, Against;
    }
  }
}
