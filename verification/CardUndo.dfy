/** A setting followed by its opposite. */
module CardUndo {
  import opened Options
  import opened Bits
  import opened Codes
  import opened Timeout
  import opened Commands
  import opened Card
  import opened CardCalls

  function Opposite(s: Setting): Setting {
    match s
    case Bypass(on) => Setting.Bypass(!on)
    case DisBypass(on) => Setting.DisBypass(!on)
    case Pwoff(on) => Setting.Pwoff(!on)
    case Pwup(on) => Setting.Pwup(!on)
    case Timer(timeout) => Setting.Timer(0)
    case StdNic(on) => Setting.StdNic(!on)
    case Tap(on) => Setting.Tap(!on)
    case TapPwup(on) => Setting.TapPwup(!on)
    case DisTap(on) => Setting.DisTap(!on)
    case Disc(on) => Setting.Disc(!on)
    case DiscPwup(on) => Setting.DiscPwup(!on)
    case DisDisc(on) => Setting.DisDisc(!on)
    case WaitAtPwup(on) => Setting.WaitAtPwup(!on)
    case HwReset(on) => Setting.HwReset(!on)
  }

  /** A setting that changes something, and nothing that its opposite does not name. */
  ghost predicate Turned(p: Part, s: Setting, c: State) {
    && !c.open && Asked(p, Change(Opposite(s)), c) && (s.Timer? ==> s.timeout != 0)
    && ((s.Bypass? || s.Tap? || s.Disc?) && s.on ==> c.now == Normal)
    && (s.DisBypass? && s.on ==> c.now != Bypassed)
  }

  lemma TurnedPower(p: Part, s: Setting, c: State)
    requires Turned(p, s, c) && (s.Pwoff? || s.Pwup? || s.TapPwup? || s.DiscPwup?)
    ensures s.Pwoff? ==> c.powerOff == if s.on then Normal else Bypassed
    ensures s.Pwup? ==> c.powerUp == if s.on then Normal else Bypassed
    ensures s.TapPwup? ==> c.powerUp == if s.on then Normal else Tapped
    ensures s.DiscPwup? ==> c.powerUp == if s.on then Normal else Disconnected
  {
    hide Cap, Serves, Pow2;
  }

  lemma TurnedWays(p: Part, s: Setting, c: State)
    requires Turned(p, s, c) && (s.Bypass? || s.Tap? || s.Disc?)
    ensures s.Bypass? ==> c.now == if s.on then Normal else Bypassed
    ensures s.Tap? ==> c.now == if s.on then Normal else Tapped
    ensures s.Disc? ==> c.now == if s.on then Normal else Disconnected
  {
    hide Cap, Serves, Pow2;
  }

  lemma SingleIs(p: Part, s: Setting, c: State, code: byte, r: State)
    requires Accepted(p, s) && Inner(p, s) == [code] && Act(c.(open := true), code) == Some(r)
    ensures Carry(c, Word(p, Change(s))) == Some(r.(open := false))
  {
    hide Accepted, Act, Word, Carry, Inner;
    Single(p, s, c, code);
  }

  lemma ThereAndBack(c: State, there: seq<byte>, c1: State, back: seq<byte>)
    requires Carry(c, there) == Some(c1) && Carry(c1, back) == Some(c)
    ensures Carry(c, there + back) == Some(c)
  {
    hide Carry;
    CarryAppend(c, there, back);
  }

  lemma BackAndForth(p: Part, s: Setting, c: State, a: byte, b: byte, o1: State)
    requires Accepted(p, s) && Accepted(p, Opposite(s)) && !c.open
    requires Inner(p, s) == [a] && Inner(p, Opposite(s)) == [b]
    requires o1.open && Act(c.(open := true), a) == Some(o1) && Act(o1, b) == Some(c.(open := true))
    ensures Carry(c, Word(p, Change(s)) + Word(p, Change(Opposite(s)))) == Some(c)
  {
    hide Accepted, Act, Word, Carry, Inner, Opposite;
    SingleIs(p, s, c, a, o1);
    SingleIs(p, Opposite(s), o1.(open := false), b, c.(open := true));
    ThereAndBack(c, Word(p, Change(s)), o1.(open := false), Word(p, Change(Opposite(s))));
  }

  lemma OppositeGate(p: Part, s: Setting)
    ensures Accepted(p, Opposite(s)) <==> Accepted(p, s)
  {
    hide Cap;
  }

  lemma BypassCodes(o: State, o1: State, on: bool)
    requires o.open && o.now == (if on then Normal else Bypassed)
    requires Act(o, if on then 0x0a else 0x08) == Some(o1)
    ensures Act(o1, if on then 0x08 else 0x0a) == Some(o)
  {
    hide Act;
    ActsOnWays(o);
    ActsOnWays(o1);
  }

  lemma TapCodes(o: State, o1: State, on: bool)
    requires o.open && o.now == (if on then Normal else Tapped)
    requires Act(o, if on then 0x0b else 0x09) == Some(o1)
    ensures Act(o1, if on then 0x09 else 0x0b) == Some(o)
  {
    hide Act;
    ActsOnWays(o);
    ActsOnWays(o1);
  }

  lemma DiscCodes(o: State, o1: State, on: bool)
    requires o.open && o.now == (if on then Normal else Disconnected)
    requires Act(o, if on then 0x85 else 0x8a) == Some(o1)
    ensures Act(o1, if on then 0x8a else 0x85) == Some(o)
  {
    hide Act;
    ActsOnWays(o);
    ActsOnWays(o1);
  }

  lemma WaysUndo(p: Part, s: Setting, o: State, a: byte, b: byte, o1: State)
    requires o.open && Turned(p, s, o.(open := false)) && Says(s, a) && Says(Opposite(s), b) && Act(o, a) == Some(o1)
    requires s.Bypass? || s.Tap? || s.Disc?
    ensures Act(o1, b) == Some(o)
  {
    TurnedWays(p, s, o.(open := false));
    hide Act, Turned, StepOf;
    match s
    case Bypass(on) => BypassCodes(o, o1, on);
    case Tap(on) => TapCodes(o, o1, on);
    case Disc(on) => DiscCodes(o, o1, on);
  }

  lemma InAndOut(ways: set<Way>, way: Way)
    ensures way !in ways ==> ways + {way} - {way} == ways
    ensures way in ways ==> ways - {way} + {way} == ways
  {
  }

  lemma DisabledUndo(p: Part, s: Setting, o: State, a: byte, b: byte, o1: State)
    requires o.open && Turned(p, s, o.(open := false)) && Says(s, a) && Says(Opposite(s), b) && Act(o, a) == Some(o1)
    requires s.DisTap? || s.DisDisc?
    ensures Act(o1, b) == Some(o)
  {
    hide Act, Cap, Serves, Pow2, StepOf;
    InAndOut(o.disabled, if s.DisTap? then Tapped else Disconnected);
    ActsOnDisabled(o);
    ActsOnDisabled(o1);
  }

  lemma PowerOffCodes(o: State, o1: State, on: bool)
    requires o.open && o.powerOff == (if on then Normal else Bypassed)
    requires Act(o, if on then 0x27 else 0x29) == Some(o1)
    ensures Act(o1, if on then 0x29 else 0x27) == Some(o)
  {
    hide Act;
    ActsOnPower(o);
    ActsOnPower(o1);
  }

  lemma PowerUpCodes(o: State, o1: State, on: bool, way: Way, code: byte)
    requires o.open && o.powerUp == if on then Normal else way
    requires || (way == Bypassed && code == 0x26) || (way == Tapped && code == 0x2a)
             || (way == Disconnected && code == 0x87)
    requires Act(o, if on then code else 0x28) == Some(o1)
    ensures Act(o1, if on then 0x28 else code) == Some(o)
  {
    hide Act;
    ActsOnPower(o);
    ActsOnPower(o1);
  }

  lemma PowerUndo(p: Part, s: Setting, o: State, a: byte, b: byte, o1: State)
    requires o.open && Turned(p, s, o.(open := false)) && Says(s, a) && Says(Opposite(s), b) && Act(o, a) == Some(o1)
    requires s.Pwoff? || s.Pwup? || s.TapPwup? || s.DiscPwup?
    ensures Act(o1, b) == Some(o)
  {
    TurnedPower(p, s, o.(open := false));
    hide Act, Turned, StepOf;
    match s
    case Pwoff(on) => PowerOffCodes(o, o1, on);
    case Pwup(on) => PowerUpCodes(o, o1, on, Bypassed, 0x26);
    case TapPwup(on) => PowerUpCodes(o, o1, on, Tapped, 0x2a);
    case DiscPwup(on) => PowerUpCodes(o, o1, on, Disconnected, 0x87);
  }

  lemma FlagsUndo(p: Part, s: Setting, o: State, a: byte, b: byte, o1: State)
    requires o.open && Turned(p, s, o.(open := false)) && Says(s, a) && Says(Opposite(s), b) && Act(o, a) == Some(o1)
    requires s.WaitAtPwup? || s.HwReset?
    ensures Act(o1, b) == Some(o)
  {
    hide Act, Cap, Serves, Pow2, StepOf;
    ActsOnFlags(o);
    ActsOnFlags(o1);
  }

  lemma TimerUndo(p: Part, s: Setting, o: State, a: byte, b: byte, o1: State)
    requires o.open && Turned(p, s, o.(open := false)) && Says(s, a) && Says(Opposite(s), b) && Act(o, a) == Some(o1)
    requires s.Timer?
    ensures Act(o1, b) == Some(o)
  {
    hide Act, Cap, Serves, Pow2, StepOf;
    ActsOnWatch(o, StepOf(Unsigned(s.timeout)));
    ActsOnLink(o1);
  }

  lemma CodesUndo(p: Part, s: Setting, o: State, a: byte, b: byte) returns (o1: State)
    requires o.open && Turned(p, s, o.(open := false)) && Says(s, a) && Says(Opposite(s), b)
    requires !s.StdNic? && !s.DisBypass?
    ensures o1.open && Act(o, a) == Some(o1) && Act(o1, b) == Some(o)
  {
    hide Act, Says, Turned;
    SaidActs(s, o, a);
    o1 := Act(o, a).value;
    match s
    case Bypass(_) | Tap(_) | Disc(_) => WaysUndo(p, s, o, a, b, o1);
    case DisTap(_) | DisDisc(_) => DisabledUndo(p, s, o, a, b, o1);
    case Pwoff(_) | Pwup(_) | TapPwup(_) | DiscPwup(_) => PowerUndo(p, s, o, a, b, o1);
    case Timer(timeout) => TimerUndo(p, s, o, a, b, o1);
    case WaitAtPwup(_) | HwReset(_) => FlagsUndo(p, s, o, a, b, o1);
  }

  lemma SaidActs(s: Setting, o: State, code: byte)
    requires o.open && Says(s, code) && !s.StdNic?
    ensures Act(o, code).Some? && Act(o, code).value.open
  {
    hide Act, Works;
    SaidWorks(Part(0, 0, 8, false), s, o, code);
    assert Act(o, code).Some? && Act(o, code).value.open by {
      WorksOpen(s, o, Act(o, code));
    }
  }

  lemma WorksOpen(s: Setting, o: State, r: Option<State>)
    requires Works(Part(0, 0, 8, false), s, o, r)
    ensures r.Some? && r.value.open
  {
    hide Asked, OthersAlone, Spared;
  }

  lemma BypassDisabledCarries(p: Part, c: State)
    requires Accepted(p, DisBypass(true)) && c.now != Bypassed && !c.open
    ensures Carry(c, Word(p, Change(DisBypass(true)))) == Some(c.(disabled := c.disabled + {Bypassed}))
  {
    Inside(p, DisBypass(true), c);
    BypassDisabledTurns(c.(open := true));
    hide Accepted, Word, Carry;
  }

  lemma BypassEnabledCarries(p: Part, c: State)
    requires Accepted(p, DisBypass(false)) && !c.open
    ensures Carry(c, Word(p, Change(DisBypass(false)))) == Some(c.(disabled := c.disabled - {Bypassed}))
  {
    var o := c.(open := true);
    ActsOnDisabled(o);
    hide Accepted, Word, Carry, Act, Cap;
    SingleIs(p, DisBypass(false), c, 0x24, o.(disabled := o.disabled - {Bypassed}));
  }

  lemma TurnedBypass(p: Part, on: bool, c: State)
    requires Turned(p, DisBypass(on), c)
    ensures !c.open && c.now != Bypassed && (Bypassed in c.disabled <==> !on)
  {
    hide Cap, Serves, Pow2;
  }

  /** DisBypass, whose two sides are not one command each. */
  lemma BypassUndone(p: Part, on: bool, c: State)
    requires Accepted(p, DisBypass(on)) && Turned(p, DisBypass(on), c)
    ensures Carry(c, Word(p, Change(DisBypass(on))) + Word(p, Change(DisBypass(!on)))) == Some(c)
  {
    InAndOut(c.disabled, Bypassed);
    OppositeGate(p, DisBypass(on));
    TurnedBypass(p, on, c);
    hide Accepted, Word, Carry, Turned;
    var c1 := c.(disabled := if on then c.disabled + {Bypassed} else c.disabled - {Bypassed});
    if on {
      BypassDisabledCarries(p, c);
      BypassEnabledCarries(p, c1);
    } else {
      BypassEnabledCarries(p, c);
      BypassDisabledCarries(p, c1);
    }
    ThereAndBack(c, Word(p, Change(DisBypass(on))), c1, Word(p, Change(DisBypass(!on))));
  }

  lemma CodesBackAndForth(p: Part, s: Setting, c: State, a: byte, b: byte)
    requires Accepted(p, s) && Accepted(p, Opposite(s)) && Turned(p, s, c) && !s.StdNic? && !s.DisBypass?
    requires Inner(p, s) == [a] && Inner(p, Opposite(s)) == [b] && Says(s, a) && Says(Opposite(s), b)
    ensures Carry(c, Word(p, Change(s)) + Word(p, Change(Opposite(s)))) == Some(c)
  {
    assert !c.open && c.(open := true).(open := false) == c;
    hide Accepted, Turned, Word, Carry, Act, Says, Inner, Opposite;
    var o1 := CodesUndo(p, s, c.(open := true), a, b);
    BackAndForth(p, s, c, a, b, o1);
  }

  /** A setting followed by its opposite leaves the card as it was, if it was as the opposite asks. */
  lemma Undone(p: Part, s: Setting, c: State)
    requires Accepted(p, s) && !s.StdNic? && Turned(p, s, c)
    requires Effective(p, Change(s)) && Effective(p, Change(Opposite(s)))
    ensures Carry(c, Word(p, Change(s)) + Word(p, Change(Opposite(s)))) == Some(c)
  {
    OppositeGate(p, s);
    if s.DisBypass? {
      hide Accepted, Turned, Word, Carry;
      BypassUndone(p, s.on, c);
    } else {
      assert !Opposite(s).StdNic? && !Opposite(s).DisBypass?;
      hide Accepted, Turned, Word, Carry, Act, Says, Inner, Opposite, Effective;
      InnerSays(p, s);
      InnerSays(p, Opposite(s));
      CodesBackAndForth(p, s, c, Inner(p, s)[0], Inner(p, Opposite(s))[0]);
    }
  }
}
