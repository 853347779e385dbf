/**
 What the calls do to the card. The effect of a command is in the PIC's firmware and not in the
 driver, so it is an assumption, `Act`, made on the command codes of bypass.h by their numbers: the card
 keeps what it was last told, and hears only its bracket commands and the port commands outside a bracket.
 */
module Card {
  import opened Options
  import opened Bits
  import opened Codes
  import opened Pic
  import opened Timeout
  import opened Commands

  /** How the pair of ports is connected. */
  datatype Way = Normal | Bypassed | Tapped | Disconnected

  /** What the card has been told. */
  datatype State = State(
    open: bool,                  // between CMND_ON and CMND_OFF
    now: Way,
    powerUp: Way,
    powerOff: Way,
    disabled: set<Way>,
    watch: Option<nat>,          // the step of the watchdog, if it is on
    standard: bool,              // standard NIC mode, as firmware from version 8 on keeps it
    waits: bool,                 // at power-up
    resets: bool,                // on a hardware reset
    linked: bool,                // two-port link
    silentA: bool,               // the transmitters of the two ports
    silentB: bool)

  function Leave(now: Way, way: Way): Way {
    if now == way then Normal else now
  }

  /** A port command, which needs no bracket. */
  function ActOnPort(c: State, code: byte): Option<State> {
    match code
    case 0x8d => Some(c.(silentA := true))
    case 0x8e => Some(c.(silentB := true))
    case 0xa0 => Some(c.(silentA := false))
    case 0xa1 => Some(c.(silentB := false))
    case _ => None
  }

  /** A command inside a bracket. */
  function ActInside(c: State, code: byte): Option<State> {
    match code
    case 0x06 => Some(c.(watch := None))
    case 0x08 => Some(c.(now := Leave(c.now, Bypassed)))
    case 0x09 => Some(c.(now := Leave(c.now, Tapped)))
    case 0x0a => Some(c.(now := Bypassed))
    case 0x0b => Some(c.(now := Tapped))
    case 0x22 => Some(c.(disabled := c.disabled + {Bypassed}))
    case 0x24 => Some(c.(disabled := c.disabled - {Bypassed}))
    case 0x26 => Some(c.(powerUp := Bypassed))
    case 0x27 => Some(c.(powerOff := Bypassed))
    case 0x28 => Some(c.(powerUp := Normal))
    case 0x29 => Some(c.(powerOff := Normal))
    case 0x2a => Some(c.(powerUp := Tapped))
    case 0x2c => Some(c.(disabled := c.disabled + {Tapped}))
    case 0x2e => Some(c.(disabled := c.disabled - {Tapped}))
    case 0x80 => Some(c.(waits := true))
    case 0x81 => Some(c.(waits := false))
    case 0x82 => Some(c.(resets := true))
    case 0x83 => Some(c.(resets := false))
    case 0x84 => Some(c.(standard := true))
    case 0x85 => Some(c.(now := Disconnected))
    case 0x86 => Some(c.(standard := false))
    case 0x87 => Some(c.(powerUp := Disconnected))
    case 0x88 => Some(c.(disabled := c.disabled + {Disconnected}))
    case 0x89 => Some(c.(disabled := c.disabled - {Disconnected}))
    case 0x8a => Some(c.(now := Leave(c.now, Disconnected)))
    case 0x8b => Some(c.(linked := false))
    case 0x8c => Some(c.(linked := true))
    case _ => if 0x10 <= code < 0x20 then Some(c.(watch := Some(code - 0x10))) else None
  }

  /** One command; of a code that is not listed nothing is assumed. */
  function Act(c: State, code: byte): Option<State> {
    if code == 0x04 then Some(c.(open := true))
    else if code == 0x02 then Some(c.(open := false))
    else if ActOnPort(c, code).Some? then ActOnPort(c, code)
    else if ActInside(c, code).Some? && !c.open then Some(c)
    else ActInside(c, code)
  }

  function Then(c: Option<State>, code: byte): Option<State> {
    if c.Some? then Act(c.value, code) else None
  }

  function Carry(c: State, word: seq<byte>): Option<State> {
    if word == [] then Some(c) else Then(Carry(c, word[..|word| - 1]), word[|word| - 1])
  }

  /** What the PIC has seen, as far as it reaches its command register. */
  function After(c: State, log: seq<Event>): Option<State> {
    if log == [] then Some(c)
    else
      var before, e := After(c, log[..|log| - 1]), log[|log| - 1];
      if e.Wrote? && e.addr == 10 then Then(before, e.value) else before
  }

  // ----- what a call asks for -----

  /** Standard NIC mode as std_nic_status reads it: a flag, or on older firmware everything at its plainest. */
  predicate Standard(p: Part, c: State) {
    if p.ver >= 8 then c.standard
    else
      && (Cap(p.caps, BP_CAP) ==>
            c.watch == None && Bypassed in c.disabled && c.now != Bypassed && c.powerUp != Bypassed)
      && (Cap(p.caps, TAP_CAP) ==> Tapped in c.disabled && c.now != Tapped && c.powerUp != Tapped)
  }

  /** Older firmware is also told how to power up, and to allow again whatever the part can disable. */
  predicate NicPower(p: Part, on: bool, c: State) {
    if on then c.powerUp == Normal
    else
      && (Cap(p.caps, BP_DIS_CAP) ==> Bypassed !in c.disabled)
      && (Cap(p.caps, TAP_DIS_CAP) ==> Tapped !in c.disabled)
      && (Cap(p.caps, DISC_DIS_CAP) ==> Disconnected !in c.disabled)
      && (Cap(p.caps, BP_PWUP_CTL_CAP) ==> c.powerUp == Bypassed)
      && (Cap(p.caps, TAP_PWUP_CTL_CAP) && !Cap(p.caps, BP_PWUP_CTL_CAP) ==> c.powerUp == Tapped)
  }

  predicate PowersUp(c: State, on: bool, way: Way) {
    c.powerUp == if on then way else Normal
  }

  /** The card is in the state the call names. */
  ghost predicate Asked(p: Part, call: Call, c: State) {
    match call
    case Change(Bypass(on)) => (c.now == Bypassed) == on
    case Change(DisBypass(on)) => (Bypassed in c.disabled) == on && (on ==> c.now != Bypassed)
    case Change(Pwoff(on)) => c.powerOff == if on then Bypassed else Normal
    case Change(Pwup(on)) => PowersUp(c, on, Bypassed)
    case Change(Timer(timeout)) =>
      if timeout == 0 then c.watch == None
      else c.watch.Some? && Serves(Unsigned(timeout), 100 * Pow2(c.watch.value))
    case Change(StdNic(on)) => Standard(p, c) == on && (p.ver < 8 ==> NicPower(p, on, c))
    case Change(Tap(on)) => (c.now == Tapped) == on
    case Change(TapPwup(on)) => PowersUp(c, on, Tapped)
    case Change(DisTap(on)) => (Tapped in c.disabled) == on
    case Change(Disc(on)) => (c.now == Disconnected) == on
    case Change(DiscPwup(on)) => PowersUp(c, on, Disconnected)
    case Change(DisDisc(on)) => (Disconnected in c.disabled) == on
    case Change(WaitAtPwup(on)) => c.waits == on
    case Change(HwReset(on)) => c.resets == on
    case TplHw(on) => c.linked == on
    case DiscPort(first, on) => (if first then c.silentA else c.silentB) == on
    case ResetCont => true
  }

  datatype Aspect =
    | Now
    | PowerUp
    | PowerOff
    | Disabled(way: Way)
    | Watch
    | StandardFlag
    | Waits
    | Resets
    | Linked
    | Silent(first: bool)

  predicate Same(a: Aspect, c: State, c': State) {
    match a
    case Now => c.now == c'.now
    case PowerUp => c.powerUp == c'.powerUp
    case PowerOff => c.powerOff == c'.powerOff
    case Disabled(way) => (way in c.disabled) == (way in c'.disabled)
    case Watch => c.watch == c'.watch
    case StandardFlag => c.standard == c'.standard
    case Waits => c.waits == c'.waits
    case Resets => c.resets == c'.resets
    case Linked => c.linked == c'.linked
    case Silent(first) => if first then c.silentA == c'.silentA else c.silentB == c'.silentB
  }

  /** The aspects a call is about. */
  function About(call: Call): set<Aspect> {
    match call
    case Change(Bypass(_)) | Change(Tap(_)) | Change(Disc(_)) => {Now}
    case Change(DisBypass(_)) => {Now, Disabled(Bypassed)}
    case Change(DisTap(_)) => {Disabled(Tapped)}
    case Change(DisDisc(_)) => {Disabled(Disconnected)}
    case Change(Pwoff(_)) => {PowerOff}
    case Change(Pwup(_)) | Change(TapPwup(_)) | Change(DiscPwup(_)) => {PowerUp}
    case Change(Timer(_)) => {Watch}
    case Change(StdNic(_)) =>
      {Now, PowerUp, Watch, StandardFlag, Disabled(Bypassed), Disabled(Tapped), Disabled(Disconnected)}
    case Change(WaitAtPwup(_)) => {Waits}
    case Change(HwReset(_)) => {Resets}
    case TplHw(_) => {Linked}
    case DiscPort(first, _) => {Silent(first)}
    case ResetCont => {}
  }

  /** Every aspect the call is not about is as it was. */
  ghost predicate OthersAlone(call: Call, c: State, c': State) {
    forall a: Aspect | a !in About(call) :: Same(a, c, c')
  }

  /** Leaving one way of connecting the ports does not leave another. */
  predicate Spared(call: Call, c: State, c': State) {
    match call
    case Change(Bypass(on)) => !on && c.now != Bypassed ==> c'.now == c.now
    case Change(DisBypass(on)) => c.now != Bypassed || !on ==> c'.now == c.now
    case Change(Tap(on)) => !on && c.now != Tapped ==> c'.now == c.now
    case Change(Disc(on)) => !on && c.now != Disconnected ==> c'.now == c.now
    case _ => true
  }

  /** The older firmware is told everything that makes up standard NIC mode, or something that ends it. */
  predicate NicEffective(p: Part, on: bool) {
    if on then && (Cap(p.caps, BP_CAP) ==> Cap(p.caps, WD_CTL_CAP) && Cap(p.caps, BP_DIS_CAP))
               && (Cap(p.caps, TAP_CAP) ==> Cap(p.caps, TAP_DIS_CAP))
    else || (Cap(p.caps, BP_CAP) && (Cap(p.caps, BP_DIS_CAP) || Cap(p.caps, BP_PWUP_CTL_CAP)))
         || (Cap(p.caps, TAP_CAP)
             && (Cap(p.caps, TAP_DIS_CAP) || (Cap(p.caps, TAP_PWUP_CTL_CAP) && !Cap(p.caps, BP_PWUP_CTL_CAP))))
  }

  /** The parts on which an accepted call reaches what it asks for, whatever the card was told before. */
  predicate Effective(p: Part, call: Call) {
    match call
    case Change(Tap(_)) => p.ver >= 1
    case Change(Disc(_)) | Change(DisDisc(_)) | Change(WaitAtPwup(_)) | Change(HwReset(_)) => p.ver >= 8
    case Change(DiscPwup(on)) =>
      if on then p.ver >= 8 else Cap(p.caps, BP_PWUP_CTL_CAP) || Cap(p.caps, TAP_PWUP_CTL_CAP)
    case Change(StdNic(on)) => p.ver >= 8 || NicEffective(p, on)
    case TplHw(_) => Cap(p.caps, SW_CTL_CAP)
    case _ => true
  }

  // ----- streams -----

  lemma {:induction false} CarryAppend(c: State, a: seq<byte>, b: seq<byte>)
    ensures Carry(c, a + b) == if Carry(c, a).Some? then Carry(Carry(c, a).value, b) else None
    decreases |b|
  {
    hide Act;
    if b == [] {
      assert a + b == a;
    } else {
      assert (a + b)[..|a + b| - 1] == a + b[..|b| - 1];
      CarryAppend(c, a, b[..|b| - 1]);
    }
  }

  lemma CarryOne(c: State, code: byte)
    ensures Carry(c, [code]) == Act(c, code)
  {
    hide Act;
    assert [code][..0] == [];
  }

  lemma CarryWhen(c: State, cond: bool, code: byte)
    ensures Carry(c, When(cond, [code])) == if cond then Act(c, code) else Some(c)
  {
    hide Act;
    CarryOne(c, code);
  }

  /** A bracket opens the card, and closes it. */
  lemma CarryBracket(c: State, inner: seq<byte>)
    ensures Carry(c, [CMND_ON] + inner + [CMND_OFF])
         == var r := Carry(c.(open := true), inner); if r.Some? then Some(r.value.(open := false)) else None
  {
    CarryOne(c, CMND_ON);
    CarryAppend(c, [CMND_ON], inner);
    CarryAppend(c, [CMND_ON] + inner, [CMND_OFF]);
    hide Carry;
    var r := Carry(c.(open := true), inner);
    if r.Some? {
      CarryOne(r.value, CMND_OFF);
    }
  }
}
