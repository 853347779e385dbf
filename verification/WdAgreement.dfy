/**
 What the driver believes about the watchdog against what the PIC says. The effect of the
 watchdog commands on the PIC's registers is not in the driver; it is the assumption `Obeyed`.
 */
module WdAgreement {
  import opened Bits
  import opened Codes
  import opened Pins
  import opened Watchdog
  import opened Timeout
  import opened Device
  import opened Bus
  import opened Commands

  /** The int `(1 << v) * 100`, where C defines it. */
  datatype Ms = Ms(value: nat) | Undefined

  function ShiftMs(v: byte): Ms {
    if v <= 24 then Ms(Pow2(v) * 100) else Undefined
  }

  /** WDT_EN in the status register. */
  predicate Enabled(regs: seq<byte>)
    requires |regs| == 16
  {
    regs[STATUS_REG_ADDR] % 2 == 1
  }

  function Programmed(regs: seq<byte>): Ms
    requires |regs| == 16
  {
    if Enabled(regs) then ShiftMs(regs[WDT_REG_ADDR]) else Ms(0)
  }

  /** wdt_programmed. Without its partner port a 10G9 reads -1 twice and shifts by 255. */
  method WdtProgrammed(d: Device) returns (ret: int, timeout: Ms)
    requires d.Ok() && !d.wdtBusy
    modifies d`board, d`onTime, d`timerExpires, d`jiffies, d`history, d`timing, d`wdtBusy
    ensures d.Ok() && !d.wdtBusy
    ensures ret == if Cap(d.caps, WD_CTL_CAP) then BP_OK else BP_NOT_CAP
    ensures ret == BP_OK ==> timeout == if d.Reachable() then Programmed(old(d.board.pic.regs)) else Undefined
    ensures ret == BP_OK && d.Reachable() ==>
              && |d.board.pic.regs| == 16
              && (d.board.pic.regs[0] % 2 == 0 ==> timeout == Ms(0))
              && (d.board.pic.regs[0] % 2 == 1 && d.board.pic.regs[4] <= 24 ==>
                    timeout == Ms(100 * Pow2(d.board.pic.regs[4])))
    ensures d.board.pic.regs == old(d.board.pic.regs)
  {
    hide SameButPins, Mclk, Traced, TimerKept, Pow2;
    timeout := Undefined;
    if Cap(d.caps, WD_CTL_CAP) {
      var status := ReadReg(d, STATUS_REG_ADDR);
      if status % 2 == 1 {
        var v := ReadReg(d, WDT_REG_ADDR);
        timeout := ShiftMs(v % 256);
      } else {
        timeout := Ms(0);
      }
      return BP_OK, timeout;
    }
    return BP_NOT_CAP, timeout;
  }

  // ----- the assumption on the PIC -----

  datatype WdCommand = None | Off | On(step: nat)

  function Meaning(value: byte): WdCommand {
    if value == WDT_OFF then Off else if WDT_ON <= value < WDT_ON + 16 then On(value % 16) else None
  }

  /** The last watchdog command in a stream. */
  function LastWd(word: seq<byte>): WdCommand {
    if word == [] then None
    else if Meaning(word[|word| - 1]) != None then Meaning(word[|word| - 1])
    else LastWd(word[..|word| - 1])
  }

  /**
   The PIC stores the low nibble of a WDT_ON command and shows in WDT_EN whether the watchdog is on;
   other commands leave both alone.
   */
  ghost predicate Obeyed(before: seq<byte>, word: seq<byte>, after: seq<byte>) {
    && |before| == |after| == 16
    && match LastWd(word)
       case None => Enabled(after) == Enabled(before) && after[WDT_REG_ADDR] == before[WDT_REG_ADDR]
       case Off => !Enabled(after)
       case On(step) => Enabled(after) && after[WDT_REG_ADDR] == step
  }

  /** The mirror in the driver is right about the PIC. */
  ghost predicate Agrees(w: Wd, regs: seq<byte>)
    requires |regs| == 16
  {
    && (w.status == WDT_STATUS_EN || w.status == WDT_STATUS_EXP ==> Enabled(regs) && Programmed(regs) == Ms(w.interval))
    && (w.status == WDT_STATUS_DIS ==> Programmed(regs) == Ms(0))
  }

  lemma {:induction false} LastWdAppend(a: seq<byte>, b: seq<byte>)
    ensures LastWd(a + b) == if LastWd(b) == None then LastWd(a) else LastWd(b)
    decreases |b|
  {
    if b == [] {
      assert a + b == a;
    } else {
      assert (a + b)[..|a + b| - 1] == a + b[..|b| - 1];
      LastWdAppend(a, b[..|b| - 1]);
    }
  }

  lemma LastWdOne(value: byte)
    ensures LastWd([value]) == Meaning(value)
  {
    assert [value][..0] == [];
  }

  lemma LastWdWhen(c: bool, value: byte)
    ensures LastWd(When(c, [value])) == if c then Meaning(value) else None
  {
    LastWdOne(value);
  }

  lemma LastWdInStdNic(p: Part, on: bool)
    ensures LastWd(StdNicWord(p, on))
         == if on && p.ver < BP_FW_EXT_VER8 && Cap(p.caps, WD_CTL_CAP) then Off else None
  {
    if p.ver >= BP_FW_EXT_VER8 {
      LastWdOne(Pick(on, STD_NIC_ON, STD_NIC_OFF));
    } else if on {
      LastOfSix(Cap(p.caps, WD_CTL_CAP), WDT_OFF, Cap(p.caps, BP_CAP), BYPASS_OFF, Cap(p.caps, TAP_CAP), TAP_OFF,
                true, NORMAL_STATE_PWRON, Cap(p.caps, BP_DIS_CAP), DIS_BYPASS_CAP,
                Cap(p.caps, TAP_DIS_CAP), DIS_TAP_CAP);
    } else {
      LastOfSix(false, WDT_OFF, Cap(p.caps, TAP_PWUP_CTL_CAP), TAP_STATE_PWRON,
                Cap(p.caps, BP_PWUP_CTL_CAP), BYPASS_STATE_PWRON, Cap(p.caps, TAP_DIS_CAP), EN_TAP_CAP,
                Cap(p.caps, DISC_DIS_CAP), EN_DISC_CAP, Cap(p.caps, BP_DIS_CAP), EN_BYPASS_CAP);
      var first := When(Cap(p.caps, TAP_PWUP_CTL_CAP), [TAP_STATE_PWRON]);
      assert When(false, [WDT_OFF]) + first == first;
    }
  }

  lemma LastOfSix(ca: bool, a: byte, cb: bool, b: byte, cc: bool, c: byte,
                  ce: bool, e: byte, cf: bool, f: byte, cg: bool, g: byte)
    requires Meaning(b) == Meaning(c) == Meaning(e) == Meaning(f) == Meaning(g) == None
    ensures LastWd(When(ca, [a]) + When(cb, [b]) + When(cc, [c]) + When(ce, [e]) + When(cf, [f]) + When(cg, [g]))
         == if ca then Meaning(a) else None
  {
    LastWdWhen(ca, a);
    LastWdWhen(cb, b);
    LastWdWhen(cc, c);
    LastWdWhen(ce, e);
    LastWdWhen(cf, f);
    LastWdWhen(cg, g);
    hide LastWd, When, Meaning;
    var s1, s2, s3 := When(ca, [a]), When(cb, [b]), When(cc, [c]);
    var s4, s5, s6 := When(ce, [e]), When(cf, [f]), When(cg, [g]);
    LastWdAppend(s1, s2);
    LastWdAppend(s1 + s2, s3);
    LastWdAppend(s1 + s2 + s3, s4);
    LastWdAppend(s1 + s2 + s3 + s4, s5);
    LastWdAppend(s1 + s2 + s3 + s4 + s5, s6);
  }

  /** The watchdog command among those of a setting. */
  function WdCommandOf(p: Part, s: Setting): WdCommand {
    if s.Timer? then (if s.timeout == 0 then Off else On(StepOf(Unsigned(s.timeout))))
    else if s.StdNic? && s.on && p.ver < BP_FW_EXT_VER8 && Cap(p.caps, WD_CTL_CAP) then Off
    else None
  }

  lemma LastWdInner(p: Part, s: Setting)
    ensures LastWd(Inner(p, s)) == WdCommandOf(p, s)
  {
    hide Cap, StepOf;
    if s.StdNic? {
      LastWdInStdNic(p, s.on);
    } else if s == DisBypass(true) {
      assert [BYPASS_OFF, DIS_BYPASS_CAP][..1] == [BYPASS_OFF];
      LastWdOne(BYPASS_OFF);
    } else if Inner(p, s) != [] {
      LastWdOne(Inner(p, s)[0]);
      assert Inner(p, s) == [Inner(p, s)[0]];
    }
  }

  lemma LastWdInSetting(p: Part, s: Setting)
    ensures LastWd(Word(p, Change(s))) == if Accepted(p, s) then WdCommandOf(p, s) else None
  {
    LastWdInner(p, s);
    LastWdOne(CMND_ON);
    LastWdOne(CMND_OFF);
    LastWdAppend([CMND_ON], Inner(p, s));
    LastWdAppend([CMND_ON] + Inner(p, s), [CMND_OFF]);
    hide Inner, WdCommandOf, Accepted;
  }

  /** No setting makes the driver and an obedient PIC disagree, whatever the settings before it. */
  lemma SettingKeepsAgreement(p: Part, s: Setting, w: Wd, w': Wd, before: seq<byte>, after: seq<byte>)
    requires |before| == 16 && Agrees(w, before)
    requires Obeyed(Latched(before, Word(p, Change(s))), Word(p, Change(s)), after)
    requires WdKept(Target(p, s, w), w')
    ensures Agrees(w', after)
  {
    LastWdInSetting(p, s);
    var sent := Latched(before, Word(p, Change(s)));
    assert sent[STATUS_REG_ADDR] == before[STATUS_REG_ADDR] && sent[WDT_REG_ADDR] == before[WDT_REG_ADDR];
    if s.Timer? && s.timeout != 0 {
      IntervalShown(Unsigned(s.timeout));
    }
    hide Word, LastWd, Latched, Cap, StepOf, IntervalOf, Pow2;
  }

  lemma IntervalShown(timeout: u32)
    ensures ShiftMs(StepOf(timeout)) == Ms(IntervalOf(timeout))
  {
    hide StepOf, Pow2;
  }

  /**
   Set, let the PIC act on the commands, and ask: the PIC's answer is the interval the driver
   recorded and returned.
   */
  method SetThenGet(d: Device, timeout: int, acted: seq<byte>) returns (ret: int, got: Ms)
    requires d.Ok() && !d.wdtBusy && d.Reachable() && Accepted(PartOf(d), Timer(timeout))
    requires |d.board.pic.regs| == 16
    requires var word := Word(PartOf(d), Change(Timer(timeout)));
             Obeyed(Latched(d.board.pic.regs, word), word, acted)
    modifies d
    ensures d.Ok() && !d.wdtBusy
    ensures timeout != 0 ==> ret == d.interval == IntervalOf(Unsigned(timeout)) && got == Ms(ret)
    ensures timeout != 0 ==> Serves(Unsigned(timeout), ret)
    ensures timeout == 0 ==> got == Ms(0) && ret == BP_OK
  {
    LastWdInSetting(PartOf(d), Timer(timeout));
    IntervalShown(Unsigned(timeout));
    RoundingCovers(Unsigned(timeout));
    hide Word, LastWd, Conveyed, Serves, Mclk, Traced, TimerKept, Cap, StepOf, IntervalOf, Pow2;
    ret := SetFn(d, Timer(timeout));
    d.board := d.board.(pic := d.board.pic.(regs := acted));
    var r;
    r, got := WdtProgrammed(d);
  }
}
