/**
 The set_*_fn functions: capability checks, and command codes written to the command register
 between CMND_ON and CMND_OFF. `Word` says which codes a call sends; the methods send them.
 */
module Commands {
  import opened Bits
  import opened Codes
  import opened Pic
  import opened Pins
  import opened Wires
  import opened Watchdog
  import opened Timeout
  import opened Device
  import opened Bus

  /**
   What a call's outcome depends on: the capability words, the firmware version, and whether the
   partner port exists.
   */
  datatype Part = Part(caps: bv32, capsEx: bv32, ver: nat, peer: bool)

  function PartOf(d: Device): Part {
    Part(d.caps, d.capsEx, d.extVer, d.hasPeer)
  }

  /** The settings that share one shape: set_bypass_fn, set_dis_bypass_fn, and so on. */
  datatype Setting =
    | Bypass(on: bool)
    | DisBypass(on: bool)
    | Pwoff(on: bool)
    | Pwup(on: bool)
    | Timer(timeout: int)
    | StdNic(on: bool)
    | Tap(on: bool)
    | TapPwup(on: bool)
    | DisTap(on: bool)
    | Disc(on: bool)
    | DiscPwup(on: bool)
    | DisDisc(on: bool)
    | WaitAtPwup(on: bool)
    | HwReset(on: bool)

  /** `first` of a port setting tells the bypass port from its partner. */
  datatype Call =
    | Change(s: Setting)
    | TplHw(on: bool)
    | ResetCont
    | DiscPort(first: bool, on: bool)

  // ----- what is sent -----

  /** The capability a setting asks for. */
  function Gate(s: Setting): bv32 {
    match s
    case Bypass(_) => BP_CAP
    case DisBypass(_) => BP_DIS_CAP
    case Pwoff(_) => BP_PWOFF_CTL_CAP
    case Pwup(_) => BP_PWUP_CTL_CAP
    case Timer(_) => WD_CTL_CAP
    case StdNic(_) => STD_NIC_CAP
    case Tap(_) => TAP_CAP
    case TapPwup(_) => TAP_PWUP_CTL_CAP
    case DisTap(_) => TAP_DIS_CAP
    case Disc(_) => DISC_CAP
    case DiscPwup(_) => DISC_PWUP_CTL_CAP
    case DisDisc(_) => DISC_DIS_CAP
    case WaitAtPwup(_) => SW_CTL_CAP
    case HwReset(_) => SW_CTL_CAP
  }

  predicate Accepted(p: Part, s: Setting) {
    Cap(p.caps, Gate(s)) && Cap(p.caps, SW_CTL_CAP)
  }

  function When(c: bool, word: seq<byte>): seq<byte> {
    if c then word else []
  }

  function Pick(on: bool, yes: byte, no: byte): byte {
    if on then yes else no
  }

  function Unsigned(x: int): u32 {
    x % U32
  }

  /** std_nic_on and std_nic_off undo or restore every mode the part has. */
  function StdNicWord(p: Part, on: bool): seq<byte> {
    if p.ver >= BP_FW_EXT_VER8 then [Pick(on, STD_NIC_ON, STD_NIC_OFF)]
    else if on then
      When(Cap(p.caps, WD_CTL_CAP), [WDT_OFF]) + When(Cap(p.caps, BP_CAP), [BYPASS_OFF])
      + When(Cap(p.caps, TAP_CAP), [TAP_OFF]) + [NORMAL_STATE_PWRON]
      + When(Cap(p.caps, BP_DIS_CAP), [DIS_BYPASS_CAP]) + When(Cap(p.caps, TAP_DIS_CAP), [DIS_TAP_CAP])
    else
      When(Cap(p.caps, TAP_PWUP_CTL_CAP), [TAP_STATE_PWRON]) + When(Cap(p.caps, BP_PWUP_CTL_CAP), [BYPASS_STATE_PWRON])
      + When(Cap(p.caps, TAP_DIS_CAP), [EN_TAP_CAP]) + When(Cap(p.caps, DISC_DIS_CAP), [EN_DISC_CAP])
      + When(Cap(p.caps, BP_DIS_CAP), [EN_BYPASS_CAP])
  }

  /** The commands an accepted setting sends inside its bracket. */
  function Inner(p: Part, s: Setting): seq<byte> {
    match s
    case Bypass(on) => [Pick(on, BYPASS_ON, BYPASS_OFF)]
    case DisBypass(on) => if on then [BYPASS_OFF, DIS_BYPASS_CAP] else [EN_BYPASS_CAP]
    case Pwoff(on) => [Pick(on, BYPASS_STATE_PWROFF, NORMAL_STATE_PWROFF)]
    case Pwup(on) => [Pick(on, BYPASS_STATE_PWRON, NORMAL_STATE_PWRON)]
    case Timer(timeout) => [if timeout == 0 then WDT_OFF else WDT_ON + StepOf(Unsigned(timeout))]
    case StdNic(on) => StdNicWord(p, on)
    case Tap(on) => When(p.ver >= PXG2TBPI_VER, [Pick(on, TAP_ON, TAP_OFF)])
    case TapPwup(on) => [Pick(on, TAP_STATE_PWRON, NORMAL_STATE_PWRON)]
    case DisTap(on) => [Pick(on, DIS_TAP_CAP, EN_TAP_CAP)]
    case Disc(on) => When(p.ver >= BP_FW_EXT_VER8, [Pick(on, DISC_ON, DISC_OFF)])
    case DiscPwup(on) =>
      if on then When(p.ver >= BP_FW_EXT_VER8, [DISC_STATE_PWRON])
      else When(Cap(p.caps, BP_PWUP_CTL_CAP) || Cap(p.caps, TAP_PWUP_CTL_CAP), [NORMAL_STATE_PWRON])
    case DisDisc(on) => When(p.ver >= BP_FW_EXT_VER8, [Pick(on, DIS_DISC_CAP, EN_DISC_CAP)])
    case WaitAtPwup(on) => When(p.ver >= BP_FW_EXT_VER8, [Pick(on, BP_WAIT_AT_PWUP_EN, BP_WAIT_AT_PWUP_DIS)])
    case HwReset(on) => When(p.ver >= BP_FW_EXT_VER8, [Pick(on, BP_HW_RESET_EN, BP_HW_RESET_DIS)])
  }

  /** Everything one call writes to the command register, in order. */
  function Word(p: Part, c: Call): seq<byte> {
    match c
    case Change(s) => When(Accepted(p, s), [CMND_ON] + Inner(p, s) + [CMND_OFF])
    case TplHw(on) =>
      When(p.peer && Cap(p.capsEx, TPL2_CAP_EX),
           When(Cap(p.caps, SW_CTL_CAP), [CMND_ON]) + [Pick(on, TPL2_ON, TPL2_OFF)]
           + When(Cap(p.caps, SW_CTL_CAP), [CMND_OFF]))
    case ResetCont => When(Cap(p.caps, SW_CTL_CAP), [CMND_ON, RESET_CONT])
    case DiscPort(first, on) =>
      When(Cap(p.capsEx, DISC_PORT_CAP_EX), [if first then Pick(on, TX_DISA, TX_ENA) else Pick(on, TX_DISB, TX_ENB)])
  }

  /** What a call returns. Tap, disconnect, wait and reset settings do not pass on a failure of the inner command. */
  function Answer(p: Part, c: Call): int {
    match c
    case Change(s) =>
      if !Accepted(p, s) then BP_NOT_CAP
      else if s.Timer? && s.timeout != 0 then IntervalOf(Unsigned(s.timeout))
      else if s.DiscPwup? || s.DisDisc? then (if Inner(p, s) == [] then BP_NOT_CAP else BP_OK)
      else BP_OK
    case TplHw(_) => if p.peer && Cap(p.capsEx, TPL2_CAP_EX) then BP_OK else BP_NOT_CAP
    case ResetCont => if Cap(p.caps, SW_CTL_CAP) then BP_OK else BP_NOT_CAP
    case DiscPort(_, _) => BP_OK
  }

  /** The watchdog fields a setting leaves, apart from kicks and an expiry noticed on the way. */
  function Target(p: Part, s: Setting, w: Wd): Wd {
    if !Accepted(p, s) then w
    else if s.Timer? then
      if s.timeout == 0 then w.(status := WDT_STATUS_DIS)
      else Wd(WDT_STATUS_EN, w.onTime, IntervalOf(Unsigned(s.timeout)))
    else if s.StdNic? && s.on && p.ver < BP_FW_EXT_VER8 && Cap(p.caps, WD_CTL_CAP) then w.(status := WDT_STATUS_DIS)
    else w
  }

  // ----- sending it -----

  function Sent(word: seq<byte>): (frames: seq<Event>)
    ensures |frames| == |word|
  {
    seq(|word|, i requires 0 <= i < |word| => Wrote(CMND_REG_ADDR, word[i]))
  }

  /** The PIC registers once the codes have been written, before the PIC acts on them. */
  function Latched(regs: seq<byte>, word: seq<byte>): seq<byte>
    requires |regs| == 16
  {
    if word == [] then regs else regs[CMND_REG_ADDR := word[|word| - 1]]
  }

  /** Where a call began: the board, the number of timer runs, the steps recorded. */
  datatype Mark = Mark(board: Board, fires: nat, history: seq<WdHistory.Timed>)

  ghost function MarkOf(d: Device): Mark
    reads d
  {
    Mark(d.board, d.timing.fires, d.history)
  }

  /** From `b` to `b'` exactly the codes of `word` went out as frames, with no more than `spare` kicks between them. */
  ghost predicate Conveyed(v: Variant, reachable: bool, b: Board, b': Board, word: seq<byte>, spare: int) {
    && |b.pic.regs| == 16
    && SameButPins(v, b.regs, b'.regs)
    && if reachable
       then Added(b.pic.log, b'.pic.log, Sent(word), spare) && b'.pic.regs == Latched(b.pic.regs, word)
       else b' == b
  }

  /** Since `m` the device has sent `word`, and the timer has added no more kicks than it ran. */
  ghost predicate Issued(d: Device, m: Mark, word: seq<byte>)
    reads d
  {
    && d.Ok() && !d.wdtBusy
    && m.fires <= d.timing.fires && m.history <= d.history
    && Conveyed(d.variant, d.Reachable(), m.board, d.board, word, d.timing.fires - m.fires)
  }

  lemma NothingIssued(d: Device)
    requires d.Ok() && !d.wdtBusy
    ensures Issued(d, MarkOf(d), [])
  {
    hide SameButPins, Added, Mclk, Traced, TimerKept;
    SameReflexive(d.variant, d.board.regs);
    AddedNothing(d.board.pic.log);
    assert Sent([]) == [];
  }

  lemma OneMore(v: Variant, reachable: bool, b: Board, b1: Board, b2: Board, word: seq<byte>, value: byte,
                n: int, k: int)
    requires Conveyed(v, reachable, b, b1, word, n) && SameButPins(v, b1.regs, b2.regs)
    requires if reachable
             then Added(b1.pic.log, b2.pic.log, [Wrote(CMND_REG_ADDR, value)], k)
                  && b2.pic.regs == b1.pic.regs[CMND_REG_ADDR := value]
             else b2 == b1
    ensures Conveyed(v, reachable, b, b2, word + [value], n + k)
  {
    hide SameButPins, Added;
    SameTransitive(v, b.regs, b1.regs, b2.regs);
    if reachable {
      AddedAppend(b.pic.log, b1.pic.log, b2.pic.log, Sent(word), n, [Wrote(CMND_REG_ADDR, value)], k);
      assert Sent(word + [value]) == Sent(word) + [Wrote(CMND_REG_ADDR, value)];
    }
  }

  /** Neither wdt_on nor wdt_off has been recorded. */
  ghost predicate Unswitched(h: seq<WdHistory.Timed>, h': seq<WdHistory.Timed>) {
    h <= h' && WdHistory.NoSwitch(h'[|h|..])
  }

  lemma WriteUnswitched(h: seq<WdHistory.Timed>, h': seq<WdHistory.Timed>, begun: u64, done: u64, addr: nat)
    requires WriteRecorded(h, h', begun, done, addr)
    ensures Unswitched(h, h')
  {
    forall i | |h| <= i < |h'| ensures !WdHistory.Switches(h'[i].call) {
      if |h| < i < |h'| - 1 {
        assert h'[..|h'| - 1][i] == h'[i];
      }
    }
  }

  /** write_data. */
  method WriteData(d: Device, value: byte, ghost m: Mark, ghost word: seq<byte>)
    requires Issued(d, m, word)
    modifies d`board, d`onTime, d`timerExpires, d`jiffies, d`history, d`timing, d`wdtBusy, d`wdtStatus
    ensures Issued(d, m, word + [value])
    ensures old(d.wdtStatus) != WDT_STATUS_EN ==> d.onTime == old(d.onTime)
    ensures WdKept(old(d.Wd()), d.Wd()) && Unswitched(old(d.history), d.history)
  {
    hide SameButPins, Added, Conveyed, Mclk, Traced, TimerKept, WriteRecorded;
    ghost var b, n := d.board, d.timing.fires;
    WriteReg(d, value, CMND_REG_ADDR);
    OneMore(d.variant, d.Reachable(), m.board, b, d.board, word, value, n - m.fires, d.timing.fires - n);
    if d.Reachable() {
      WriteUnswitched(old(d.history), d.history, old(d.jiffies), d.jiffies, CMND_REG_ADDR);
    } else {
      assert d.history[|d.history|..] == [];
    }
  }

  /** The shape of cmnd_on, bypass_on and the other single commands: refuse, or send one code. */
  method Command(d: Device, need: bv32, minVer: nat, value: byte, ghost m: Mark, ghost word: seq<byte>)
    returns (ret: int)
    requires Issued(d, m, word)
    modifies d`board, d`onTime, d`timerExpires, d`jiffies, d`history, d`timing, d`wdtBusy, d`wdtStatus
    ensures old(d.wdtStatus) != WDT_STATUS_EN ==> d.onTime == old(d.onTime)
    ensures Issued(d, m, word + When(Cap(d.caps, need) && d.extVer >= minVer, [value]))
    ensures ret == if Cap(d.caps, need) && d.extVer >= minVer then BP_OK else BP_NOT_CAP
    ensures WdKept(old(d.Wd()), d.Wd())
  {
    hide Issued;
    assert word + [] == word;
    if Cap(d.caps, need) && d.extVer >= minVer {
      WriteData(d, value, m, word);
      return BP_OK;
    }
    return BP_NOT_CAP;
  }

  method WdtOff(d: Device, ghost m: Mark, ghost word: seq<byte>) returns (ret: int)
    requires Issued(d, m, word)
    modifies d`board, d`onTime, d`timerExpires, d`jiffies, d`history, d`timing, d`wdtBusy, d`wdtStatus
    ensures Issued(d, m, word + When(Cap(d.caps, WD_CTL_CAP), [WDT_OFF]))
    ensures ret == if Cap(d.caps, WD_CTL_CAP) then BP_OK else BP_NOT_CAP
    ensures if ret == BP_OK
            then d.wdtStatus == WDT_STATUS_DIS
                 && d.history != [] && d.history[|d.history| - 1] == WdHistory.Timed(d.jiffies, WdHistory.TurnOff)
            else WdKept(old(d.Wd()), d.Wd())
  {
    hide Conveyed, Traced, TimerKept, Mclk;
    ret := Command(d, WD_CTL_CAP, 0, WDT_OFF, m, word);
    if ret == BP_OK {
      ghost var w := d.Wd();
      d.wdtStatus := WDT_STATUS_DIS;
      Recorded(d, w, WdHistory.TurnOff);
    }
  }

  /** The steps of a wdt_on. */
  ghost predicate OnRecorded(h: seq<WdHistory.Timed>, h': seq<WdHistory.Timed>, begun: u64, done: u64, timeout: u32) {
    && |h'| >= |h| + 2 && h <= h'
    && WdHistory.NoSwitch(h'[|h| + 1..|h'| - 1])
    && h'[|h|..] == WdHistory.SwitchingOn(begun, h'[|h| + 1..|h'| - 1], done, timeout)
  }

  /** wdt_on's first step: the watchdog counts as off, and the time is taken. */
  method BeginOn(d: Device, ghost m: Mark, ghost word: seq<byte>)
    requires Issued(d, m, word)
    modifies d`onTime, d`wdtStatus, d`history, d`noted
    ensures Issued(d, m, word) && d.noted == d.TimerNow()
    ensures d.wdtStatus == WDT_STATUS_DIS && d.onTime == d.jiffies
    ensures d.history == old(d.history) + [WdHistory.Timed(d.jiffies, WdHistory.OnBegins)]
  {
    hide Conveyed, Traced, TimerKept, Settled;
    ghost var w := d.Wd();
    TimerNoted(d.hz, d.resetTime, d.noted, d.timing, d.jiffies, d.timerExpires);
    d.noted := d.TimerNow();
    d.wdtStatus := WDT_STATUS_DIS;
    d.onTime := d.jiffies;
    Recorded(d, w, WdHistory.OnBegins);
  }

  /** And its last: the interval counts. */
  method EndOn(d: Device, n: nat, timeout: u32, ghost m: Mark, ghost word: seq<byte>)
    requires Issued(d, m, word) && Least(n, Clamp(timeout))
    modifies d`interval, d`wdtStatus, d`history
    ensures Issued(d, m, word)
    ensures d.Wd() == Wd(WDT_STATUS_EN, d.onTime, IntervalOf(timeout)) && Serves(timeout, d.interval)
    ensures d.history == old(d.history) + [WdHistory.Timed(d.jiffies, WdHistory.OnEnds(timeout))]
  {
    hide Conveyed, Traced, TimerKept, Settled, StepOf, IntervalOf, Clamp, Least, Serves;
    StepChosen(timeout, n);
    ghost var w := d.Wd();
    d.interval := Pow2(n) * 100;
    d.wdtStatus := WDT_STATUS_EN;
    Recorded(d, w, WdHistory.OnEnds(timeout));
  }

  /** wdt_on on a part that has the watchdog. */
  method WdtOn(d: Device, timeout: u32, ghost m: Mark, ghost word: seq<byte>)
    requires Issued(d, m, word)
    modifies d`board, d`onTime, d`timerExpires, d`jiffies, d`history, d`timing, d`wdtBusy, d`wdtStatus, d`interval,
             d`noted
    ensures Issued(d, m, word + [WDT_ON + StepOf(timeout)])
    ensures d.Wd() == Wd(WDT_STATUS_EN, old(d.jiffies), IntervalOf(timeout)) && Serves(timeout, d.interval)
    ensures OnRecorded(old(d.history), d.history, old(d.jiffies), d.jiffies, timeout)
    ensures TimerKept(d.hz, d.resetTime, old(d.TimerNow()), d.timing, d.jiffies, d.timerExpires)
  {
    hide Conveyed, Traced, TimerKept, Settled, StepOf, IntervalOf, Clamp, Least, Serves, OnRecorded, Unswitched;
    ghost var h := d.history;
    BeginOn(d, m, word);
    ghost var begun := d.history;
    var n := StepFor(timeout);
    StepChosen(timeout, n);
    var pulse := WdtOnCommand(n);
    WdtOnCommandIsSum(n);
    WriteData(d, pulse, m, word);
    ghost var sent := d.history;
    EndOn(d, n, timeout, m, word + [pulse]);
    OnShape(h, begun, sent, d.history, d.onTime, d.jiffies, timeout);
  }

  lemma OnShape(h: seq<WdHistory.Timed>, begun: seq<WdHistory.Timed>, sent: seq<WdHistory.Timed>,
                h': seq<WdHistory.Timed>, at: u64, done: u64, timeout: u32)
    requires begun == h + [WdHistory.Timed(at, WdHistory.OnBegins)] && Unswitched(begun, sent)
    requires h' == sent + [WdHistory.Timed(done, WdHistory.OnEnds(timeout))]
    ensures OnRecorded(h, h', at, done, timeout)
  {
    hide WdHistory.NoSwitch;
    assert h'[|h| + 1..|h'| - 1] == sent[|begun|..];
  }

  lemma StepChosen(timeout: u32, n: nat)
    requires Least(n, Clamp(timeout))
    ensures n == StepOf(timeout) && n <= TIMEOUT_MAX_STEP && Pow2(n) * 100 == IntervalOf(timeout)
    ensures Serves(timeout, Pow2(n) * 100)
  {
    hide Least, Pow2, StepOf, Serves;
    RoundingCovers(timeout);
    LeastUnique(n, StepOf(timeout), Clamp(timeout));
  }

  /** One of a list of commands sent only if the part has the mode in question. */
  method SendIf(d: Device, c: bool, value: byte, ghost m: Mark, ghost word: seq<byte>)
    requires Issued(d, m, word)
    modifies d`board, d`onTime, d`timerExpires, d`jiffies, d`history, d`timing, d`wdtBusy, d`wdtStatus
    ensures old(d.wdtStatus) != WDT_STATUS_EN ==> d.onTime == old(d.onTime)
    ensures Issued(d, m, word + When(c, [value]))
    ensures WdKept(old(d.Wd()), d.Wd())
  {
    hide Issued;
    assert word + [] == word;
    if c {
      WriteData(d, value, m, word);
    }
  }

  lemma Regroup(w: seq<byte>, a: seq<byte>, b: seq<byte>, c: seq<byte>, e: seq<byte>, f: seq<byte>, g: seq<byte>)
    ensures w + a + b + c + e + f + g == w + (a + b + c + e + f + g)
    ensures a == [] ==> w + b + c + e + f + g == w + (b + c + e + f + g)
  {
    var r := a + b;
    assert w + a + b == w + r;
    assert w + r + c == w + (r + c);
    assert w + (r + c) + e == w + (r + c + e);
    assert w + (r + c + e) + f == w + (r + c + e + f);
    assert w + (r + c + e + f) + g == w + (r + c + e + f + g);
    if a == [] {
      assert a + b == b && w + a == w;
    }
  }

  method StdNicOn(d: Device, ghost m: Mark, ghost word: seq<byte>)
    requires Issued(d, m, word)
    modifies d`board, d`onTime, d`timerExpires, d`jiffies, d`history, d`timing, d`wdtBusy, d`wdtStatus
    ensures Issued(d, m, word + StdNicWord(PartOf(d), true))
    ensures if d.extVer < BP_FW_EXT_VER8 && Cap(d.caps, WD_CTL_CAP) then d.wdtStatus == WDT_STATUS_DIS
            else WdKept(old(d.Wd()), d.Wd())
  {
    hide Issued, Cap, When;
    if d.extVer >= BP_FW_EXT_VER8 {
      WriteData(d, STD_NIC_ON, m, word);
    } else {
      var r := WdtOff(d, m, word);
      ghost var w := word + When(Cap(d.caps, WD_CTL_CAP), [WDT_OFF]);
      SendIf(d, Cap(d.caps, BP_CAP), BYPASS_OFF, m, w);
      w := w + When(Cap(d.caps, BP_CAP), [BYPASS_OFF]);
      SendIf(d, Cap(d.caps, TAP_CAP), TAP_OFF, m, w);
      w := w + When(Cap(d.caps, TAP_CAP), [TAP_OFF]);
      WriteData(d, NORMAL_STATE_PWRON, m, w);
      w := w + [NORMAL_STATE_PWRON];
      SendIf(d, Cap(d.caps, BP_DIS_CAP), DIS_BYPASS_CAP, m, w);
      w := w + When(Cap(d.caps, BP_DIS_CAP), [DIS_BYPASS_CAP]);
      SendIf(d, Cap(d.caps, TAP_DIS_CAP), DIS_TAP_CAP, m, w);
      w := w + When(Cap(d.caps, TAP_DIS_CAP), [DIS_TAP_CAP]);
      assert w == word + StdNicWord(PartOf(d), true) by {
        Regroup(word, When(Cap(d.caps, WD_CTL_CAP), [WDT_OFF]), When(Cap(d.caps, BP_CAP), [BYPASS_OFF]),
                When(Cap(d.caps, TAP_CAP), [TAP_OFF]), [NORMAL_STATE_PWRON],
                When(Cap(d.caps, BP_DIS_CAP), [DIS_BYPASS_CAP]), When(Cap(d.caps, TAP_DIS_CAP), [DIS_TAP_CAP]));
      }
    }
  }

  method StdNicOff(d: Device, ghost m: Mark, ghost word: seq<byte>)
    requires Issued(d, m, word)
    modifies d`board, d`onTime, d`timerExpires, d`jiffies, d`history, d`timing, d`wdtBusy, d`wdtStatus
    ensures Issued(d, m, word + StdNicWord(PartOf(d), false))
    ensures WdKept(old(d.Wd()), d.Wd())
  {
    hide Issued, Cap, When;
    if d.extVer >= BP_FW_EXT_VER8 {
      WriteData(d, STD_NIC_OFF, m, word);
    } else {
      SendIf(d, Cap(d.caps, TAP_PWUP_CTL_CAP), TAP_STATE_PWRON, m, word);
      ghost var w := word + When(Cap(d.caps, TAP_PWUP_CTL_CAP), [TAP_STATE_PWRON]);
      SendIf(d, Cap(d.caps, BP_PWUP_CTL_CAP), BYPASS_STATE_PWRON, m, w);
      w := w + When(Cap(d.caps, BP_PWUP_CTL_CAP), [BYPASS_STATE_PWRON]);
      SendIf(d, Cap(d.caps, TAP_DIS_CAP), EN_TAP_CAP, m, w);
      w := w + When(Cap(d.caps, TAP_DIS_CAP), [EN_TAP_CAP]);
      SendIf(d, Cap(d.caps, DISC_DIS_CAP), EN_DISC_CAP, m, w);
      w := w + When(Cap(d.caps, DISC_DIS_CAP), [EN_DISC_CAP]);
      SendIf(d, Cap(d.caps, BP_DIS_CAP), EN_BYPASS_CAP, m, w);
      w := w + When(Cap(d.caps, BP_DIS_CAP), [EN_BYPASS_CAP]);
      assert w == word + StdNicWord(PartOf(d), false) by {
        Regroup(word, [], When(Cap(d.caps, TAP_PWUP_CTL_CAP), [TAP_STATE_PWRON]),
                When(Cap(d.caps, BP_PWUP_CTL_CAP), [BYPASS_STATE_PWRON]), When(Cap(d.caps, TAP_DIS_CAP), [EN_TAP_CAP]),
                When(Cap(d.caps, DISC_DIS_CAP), [EN_DISC_CAP]), When(Cap(d.caps, BP_DIS_CAP), [EN_BYPASS_CAP]));
      }
    }
  }

  /** Settings of the tap and disconnect modes, and of the card's start. */
  predicate Modal(s: Setting) {
    s.Tap? || s.TapPwup? || s.DisTap? || s.Disc? || s.DiscPwup? || s.DisDisc? || s.WaitAtPwup? || s.HwReset?
  }

  /** The middle of a set_*_fn for those. */
  method ApplyModal(d: Device, s: Setting, ghost m: Mark, ghost word: seq<byte>) returns (ret: int)
    requires Issued(d, m, word) && Accepted(PartOf(d), s) && Modal(s)
    modifies d`board, d`onTime, d`timerExpires, d`jiffies, d`history, d`timing, d`wdtBusy, d`wdtStatus
    ensures Issued(d, m, word + Inner(PartOf(d), s))
    ensures !s.Tap? && !s.Disc? && !s.WaitAtPwup? && !s.HwReset? ==> ret == Answer(PartOf(d), Change(s))
    ensures WdKept(old(d.Wd()), d.Wd())
  {
    hide Issued, Cap, WdKept;
    match s
    case Tap(on) =>
      ret := Command(d, TAP_CAP, PXG2TBPI_VER, if on then TAP_ON else TAP_OFF, m, word);
    case TapPwup(on) =>
      ret := ApplyPwup(d, TAP_PWUP_CTL_CAP, on, 0, TAP_STATE_PWRON, m, word);
    case DisTap(on) =>
      ret := Command(d, TAP_DIS_CAP, 0, if on then DIS_TAP_CAP else EN_TAP_CAP, m, word);
    case Disc(on) =>
      ret := Command(d, DISC_CAP, BP_FW_EXT_VER8, if on then DISC_ON else DISC_OFF, m, word);
    case DiscPwup(on) =>
      ret := ApplyPwup(d, DISC_PWUP_CTL_CAP, on, BP_FW_EXT_VER8, DISC_STATE_PWRON, m, word);
    case DisDisc(on) =>
      ret := Command(d, DISC_DIS_CAP, BP_FW_EXT_VER8, if on then DIS_DISC_CAP else EN_DISC_CAP, m, word);
    case WaitAtPwup(on) =>
      ret := Command(d, SW_CTL_CAP, BP_FW_EXT_VER8, if on then BP_WAIT_AT_PWUP_EN else BP_WAIT_AT_PWUP_DIS, m, word);
    case HwReset(on) =>
      ret := Command(d, SW_CTL_CAP, BP_FW_EXT_VER8, if on then BP_HW_RESET_EN else BP_HW_RESET_DIS, m, word);
  }

  /** The middle of a set_*_fn. */
  method Apply(d: Device, s: Setting, ghost m: Mark, ghost word: seq<byte>) returns (ret: int)
    requires Issued(d, m, word) && Accepted(PartOf(d), s)
    modifies d`board, d`onTime, d`timerExpires, d`jiffies, d`history, d`timing, d`wdtBusy, d`wdtStatus, d`interval,
             d`noted
    ensures Issued(d, m, word + Inner(PartOf(d), s))
    ensures !s.Tap? && !s.Disc? && !s.WaitAtPwup? && !s.HwReset? ==> ret == Answer(PartOf(d), Change(s))
    ensures WdKept(Target(PartOf(d), s, old(d.Wd())), d.Wd())
  {
    hide Issued, Cap, StepOf, IntervalOf, StdNicWord;
    ret := BP_OK;
    match s
    case Bypass(on) =>
      ret := Command(d, BP_CAP, 0, if on then BYPASS_ON else BYPASS_OFF, m, word);
    case DisBypass(on) =>
      if on {
        WriteData(d, BYPASS_OFF, m, word);
        WriteData(d, DIS_BYPASS_CAP, m, word + [BYPASS_OFF]);
        assert word + [BYPASS_OFF] + [DIS_BYPASS_CAP] == word + [BYPASS_OFF, DIS_BYPASS_CAP];
      } else {
        ret := Command(d, BP_DIS_CAP, 0, EN_BYPASS_CAP, m, word);
      }
    case Pwoff(on) =>
      ret := Command(d, BP_PWOFF_CTL_CAP, 0, if on then BYPASS_STATE_PWROFF else NORMAL_STATE_PWROFF, m, word);
    case Pwup(on) =>
      ret := ApplyPwup(d, BP_PWUP_CTL_CAP, on, 0, BYPASS_STATE_PWRON, m, word);
    case Timer(timeout) =>
      if timeout == 0 {
        ret := WdtOff(d, m, word);
      } else {
        WdtOn(d, Unsigned(timeout), m, word);
        ret := d.interval;
      }
    case StdNic(on) =>
      if on {
        StdNicOn(d, m, word);
      } else {
        StdNicOff(d, m, word);
      }
    case _ =>
      ret := ApplyModal(d, s, m, word);
  }

  lemma OneCap(caps: bv32, a: bv32, b: bv32)
    requires Cap(caps, a)
    ensures Cap(caps, a | b) && Cap(caps, b | a)
  {
  }

  lemma NeitherCap(caps: bv32, a: bv32, b: bv32)
    requires !Cap(caps, a) && !Cap(caps, b)
    ensures !Cap(caps, a | b)
  {
    assert caps & (a | b) == (caps & a) | (caps & b);
  }

  lemma EitherCap(caps: bv32, a: bv32, b: bv32)
    ensures Cap(caps, a | b) <==> Cap(caps, a) || Cap(caps, b)
  {
    hide Cap;
    if Cap(caps, a) {
      OneCap(caps, a, b);
    } else if Cap(caps, b) {
      OneCap(caps, b, a);
    } else {
      NeitherCap(caps, a, b);
    }
  }

  /** The power-up settings: a mode of their own, or the normal state, which two capabilities allow. */
  method ApplyPwup(d: Device, need: bv32, on: bool, minVer: nat, value: byte, ghost m: Mark, ghost word: seq<byte>)
    returns (ret: int)
    requires Issued(d, m, word)
    modifies d`board, d`onTime, d`timerExpires, d`jiffies, d`history, d`timing, d`wdtBusy, d`wdtStatus
    ensures var able := if on then Cap(d.caps, need) && d.extVer >= minVer
                        else Cap(d.caps, BP_PWUP_CTL_CAP) || Cap(d.caps, TAP_PWUP_CTL_CAP);
            && Issued(d, m, word + When(able, [Pick(on, value, NORMAL_STATE_PWRON)]))
            && ret == if able then BP_OK else BP_NOT_CAP
    ensures WdKept(old(d.Wd()), d.Wd())
  {
    EitherCap(d.caps, BP_PWUP_CTL_CAP, TAP_PWUP_CTL_CAP);
    hide Issued, Cap;
    if on {
      ret := Command(d, need, minVer, value, m, word);
    } else {
      ret := Command(d, BP_PWUP_CTL_CAP | TAP_PWUP_CTL_CAP, 0, NORMAL_STATE_PWRON, m, word);
    }
  }

  /** A set_*_fn: check the capability, open the bracket, send the commands, close it. */
  method SetFn(d: Device, s: Setting) returns (ret: int)
    requires d.Ok() && !d.wdtBusy
    modifies d`board, d`onTime, d`timerExpires, d`jiffies, d`history, d`timing, d`wdtBusy, d`wdtStatus, d`interval,
             d`noted
    ensures Issued(d, old(MarkOf(d)), Word(PartOf(d), Change(s)))
    ensures ret == Answer(PartOf(d), Change(s))
    ensures WdKept(Target(PartOf(d), s, old(d.Wd())), d.Wd())
  {
    hide Issued, Cap, Inner, Settled, Traced, TimerKept, StepOf, IntervalOf;
    NothingIssued(d);
    ghost var m := MarkOf(d);
    ghost var none: seq<byte> := [];
    if !Cap(d.caps, Gate(s)) {
      return BP_NOT_CAP;
    }
    ret := Command(d, SW_CTL_CAP, 0, CMND_ON, m, none);
    assert none + none == none && none + [CMND_ON] == [CMND_ON];
    if ret < 0 {
      return ret;
    }
    ret := Apply(d, s, m, [CMND_ON]);
    var r := Command(d, SW_CTL_CAP, 0, CMND_OFF, m, [CMND_ON] + Inner(PartOf(d), s));
    if s.Tap? || s.Disc? || s.WaitAtPwup? || s.HwReset? {
      ret := BP_OK;
    }
  }

  /** The command part of tpl_hw_on and tpl_hw_off. */
  method TplHwFn(d: Device, on: bool) returns (ret: int)
    requires d.Ok() && !d.wdtBusy
    modifies d`board, d`onTime, d`timerExpires, d`jiffies, d`history, d`timing, d`wdtBusy, d`wdtStatus
    ensures Issued(d, old(MarkOf(d)), Word(PartOf(d), TplHw(on)))
    ensures ret == Answer(PartOf(d), TplHw(on))
    ensures WdKept(old(d.Wd()), d.Wd())
  {
    hide Issued, Cap, Settled, Traced, TimerKept;
    NothingIssued(d);
    ghost var m := MarkOf(d);
    ghost var none: seq<byte> := [];
    if !d.hasPeer {
      return BP_NOT_CAP;
    }
    if Cap(d.capsEx, TPL2_CAP_EX) {
      var r := Command(d, SW_CTL_CAP, 0, CMND_ON, m, none);
      ghost var word := When(Cap(d.caps, SW_CTL_CAP), [CMND_ON]);
      assert none + word == word;
      WriteData(d, if on then TPL2_ON else TPL2_OFF, m, word);
      r := Command(d, SW_CTL_CAP, 0, CMND_OFF, m, word + [Pick(on, TPL2_ON, TPL2_OFF)]);
      return BP_OK;
    }
    return BP_NOT_CAP;
  }

  /** reset_cont_fn opens a bracket and does not close it. */
  method ResetContFn(d: Device) returns (ret: int)
    requires d.Ok() && !d.wdtBusy
    modifies d`board, d`onTime, d`timerExpires, d`jiffies, d`history, d`timing, d`wdtBusy, d`wdtStatus
    ensures Issued(d, old(MarkOf(d)), Word(PartOf(d), ResetCont))
    ensures ret == Answer(PartOf(d), ResetCont)
    ensures WdKept(old(d.Wd()), d.Wd())
  {
    hide Issued, Cap, Settled, Traced, TimerKept;
    NothingIssued(d);
    ghost var m := MarkOf(d);
    ghost var none: seq<byte> := [];
    assert none + none == none && none + [CMND_ON] + [RESET_CONT] == [CMND_ON, RESET_CONT];
    ret := Command(d, SW_CTL_CAP, 0, CMND_ON, m, none);
    if ret < 0 {
      return ret;
    }
    ret := Command(d, SW_CTL_CAP, 0, RESET_CONT, m, none + [CMND_ON]);
  }

  /** disc_port_on and disc_port_off, on the device of the bypass port: a command without a bracket. */
  method DiscPortFn(d: Device, first: bool, on: bool) returns (ret: int)
    requires d.Ok() && !d.wdtBusy
    modifies d`board, d`onTime, d`timerExpires, d`jiffies, d`history, d`timing, d`wdtBusy, d`wdtStatus
    ensures Issued(d, old(MarkOf(d)), Word(PartOf(d), DiscPort(first, on)))
    ensures ret == Answer(PartOf(d), DiscPort(first, on))
    ensures WdKept(old(d.Wd()), d.Wd())
  {
    hide Issued, Cap, Settled, Traced, TimerKept;
    NothingIssued(d);
    ghost var none: seq<byte> := [];
    if Cap(d.capsEx, DISC_PORT_CAP_EX) {
      var value: byte := if first then (if on then TX_DISA else TX_ENA) else (if on then TX_DISB else TX_ENB);
      assert none + [value] == [value];
      WriteData(d, value, MarkOf(d), none);
    }
    return BP_OK;
  }
}
