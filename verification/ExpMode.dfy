/** What the card does when the watchdog expires: bypass, tap or disconnect, kept in one bit of two PIC registers. */
module ExpMode {
  import opened Bits
  import opened Codes
  import opened Pins
  import opened Device
  import Watchdog
  import opened Bus

  const BYPASS_MODE := 0
  const TAP_MODE := 1
  const DISC_MODE := 2

  /** `value & 1`, and `value | 1` or `value & ~1`, of what read_reg returned, cut to a byte when it is written. */
  predicate Flag(value: int) {
    value % 2 == 1
  }

  function WithFlag(value: int, flag: bool): byte {
    (if flag then value - value % 2 + 1 else value - value % 2) % 256
  }

  /** The same byte but for bit 0. */
  predicate SameButFlag(a: byte, b: byte) {
    a / 2 == b / 2
  }

  lemma WithFlagSets(value: byte, flag: bool)
    ensures Flag(WithFlag(value, flag)) == flag && SameButFlag(WithFlag(value, flag), value)
  {
  }

  predicate ModeCap(d: Device) {
    (Cap(d.caps, TAP_STATUS_CAP) || Cap(d.caps, DISC_CAP)) && Cap(d.caps, BP_CAP)
  }

  /** What an accepted call leaves in the two registers. */
  function Moded(regs: seq<byte>, ver: nat, mode: int, caps: bv32): (after: seq<byte>)
    requires |regs| == 16
    ensures |after| == 16
  {
    var tap, disc := regs[STATUS_TAP_REG_ADDR], regs[STATUS_DISC_REG_ADDR];
    if mode == DISC_MODE && ver >= BP_FW_EXT_VER8 && Cap(caps, DISC_CAP) then
      regs[STATUS_DISC_REG_ADDR := WithFlag(disc, true)]
    else if mode == BYPASS_MODE then
      var r := if ver >= BP_FW_EXT_VER8 then regs[STATUS_DISC_REG_ADDR := WithFlag(disc, false)] else regs;
      r[STATUS_TAP_REG_ADDR := WithFlag(tap, false)]
    else if mode == TAP_MODE && Cap(caps, TAP_CAP) then
      regs[STATUS_TAP_REG_ADDR := WithFlag(tap, true)]
    else regs
  }

  predicate ModeKnown(d: Device, mode: int) {
    || (mode == DISC_MODE && d.extVer >= BP_FW_EXT_VER8 && Cap(d.caps, DISC_CAP))
    || mode == BYPASS_MODE
    || (mode == TAP_MODE && Cap(d.caps, TAP_CAP))
  }

  /** The read-modify-write at the heart of wdt_exp_mode: write only if the flag differs. */
  method SetFlag(d: Device, value: int, flag: bool, addr: byte)
    requires d.Ok() && !d.wdtBusy && addr < 16
    requires d.Reachable() ==> value == d.board.pic.regs[addr]
    modifies d`board, d`onTime, d`timerExpires, d`jiffies, d`history, d`timing, d`wdtBusy, d`wdtStatus
    ensures d.Ok() && !d.wdtBusy
    ensures d.Reachable() ==> d.board.pic.regs == old(d.board.pic.regs)[addr := WithFlag(value, flag)]
    ensures !d.Reachable() ==> d.board == old(d.board)
    ensures WdKept(old(d.Wd()), d.Wd())
    ensures SameButPins(d.variant, old(d.board.regs), d.board.regs)
  {
    SameReflexive(d.variant, d.board.regs);
    hide SameButPins, Mclk, Traced, Watchdog.TimerKept;
    assert addr % 16 == addr;
    if Flag(value) != flag {
      WriteReg(d, WithFlag(value, flag), addr);
    }
  }

  /** wdt_exp_mode. The status of both registers is read before either is written. */
  method WdtExpMode(d: Device, mode: int) returns (ret: int)
    requires d.Ok() && !d.wdtBusy
    modifies d`board, d`onTime, d`timerExpires, d`jiffies, d`history, d`timing, d`wdtBusy, d`wdtStatus
    ensures d.Ok() && !d.wdtBusy
    ensures ret == if ModeCap(d) && ModeKnown(d, mode) then BP_OK else BP_NOT_CAP
    ensures d.Reachable() && ret == BP_OK ==> d.board.pic.regs == Moded(old(d.board.pic.regs), d.extVer, mode, d.caps)
    ensures ret == BP_NOT_CAP ==> d.board.pic.regs == old(d.board.pic.regs)
    ensures !d.Reachable() ==> d.board == old(d.board)
    ensures WdKept(old(d.Wd()), d.Wd())
  {
    hide SameButPins, Mclk, Traced, Watchdog.TimerKept, Cap;
    if (Cap(d.caps, TAP_STATUS_CAP) || Cap(d.caps, DISC_CAP)) && Cap(d.caps, BP_CAP) {
      if d.extVer >= PXE2TBPI_VER {
        if d.extVer >= BP_FW_EXT_VER8 && mode == 2 && Cap(d.caps, DISC_CAP) {
          var disc := ReadReg(d, STATUS_DISC_REG_ADDR);
          SetFlag(d, disc, true, STATUS_DISC_REG_ADDR);
          return BP_OK;
        }
      }
      var tap := ReadReg(d, STATUS_TAP_REG_ADDR);
      if mode == 0 && Cap(d.caps, BP_CAP) {
        if d.extVer >= BP_FW_EXT_VER8 {
          var disc := ReadReg(d, STATUS_DISC_REG_ADDR);
          SetFlag(d, disc, false, STATUS_DISC_REG_ADDR);
        }
        SetFlag(d, tap, false, STATUS_TAP_REG_ADDR);
        return BP_OK;
      } else if mode == 1 && Cap(d.caps, TAP_CAP) {
        SetFlag(d, tap, true, STATUS_TAP_REG_ADDR);
        return BP_OK;
      }
    }
    return BP_NOT_CAP;
  }

  /** What wdt_exp_mode_status makes of the registers. */
  function ModeOf(regs: seq<byte>, ver: nat): int
    requires |regs| == 16
  {
    if ver == PXG2BPI_VER then BYPASS_MODE
    else if ver == PXG2TBPI_VER then TAP_MODE
    else if ver >= BP_FW_EXT_VER8 && Flag(regs[STATUS_DISC_REG_ADDR]) then DISC_MODE
    else if Flag(regs[STATUS_TAP_REG_ADDR]) then TAP_MODE else BYPASS_MODE
  }

  /** wdt_exp_mode_status. Unreachable registers read as -1, with every flag set. */
  method WdtExpModeStatus(d: Device) returns (ret: int)
    requires d.Ok() && !d.wdtBusy
    modifies d`board, d`onTime, d`timerExpires, d`jiffies, d`history, d`timing, d`wdtBusy
    ensures d.Ok() && !d.wdtBusy
    ensures d.board.pic.regs == old(d.board.pic.regs)
    ensures ret == if !Cap(d.caps, WD_CTL_CAP) then BP_NOT_CAP
                   else if d.Reachable() then ModeOf(old(d.board.pic.regs), d.extVer)
                   else ModeOf(seq(16, i => 255), d.extVer)
  {
    hide SameButPins, Mclk, Traced, Watchdog.TimerKept, Cap;
    if Cap(d.caps, WD_CTL_CAP) {
      if d.extVer <= PXG2BPI_VER {
        return 0;
      } else if d.extVer == PXG2TBPI_VER {
        return 1;
      } else if d.extVer >= PXE2TBPI_VER {
        if d.extVer >= BP_FW_EXT_VER8 {
          var disc := ReadReg(d, STATUS_DISC_REG_ADDR);
          if Flag(disc) {
            return 2;
          }
        }
        var tap := ReadReg(d, STATUS_TAP_REG_ADDR);
        return if Flag(tap) then 1 else 0;
      }
    }
    return BP_NOT_CAP;
  }

  /** Setting a mode touches bit 0 of the two status registers and nothing else. */
  lemma ModedConfined(regs: seq<byte>, ver: nat, mode: int, caps: bv32)
    requires |regs| == 16
    ensures var after := Moded(regs, ver, mode, caps);
            forall a | 0 <= a < 16 ::
              if a == STATUS_TAP_REG_ADDR || a == STATUS_DISC_REG_ADDR then SameButFlag(after[a], regs[a])
              else after[a] == regs[a]
  {
    hide Cap;
    WithFlagSets(regs[STATUS_TAP_REG_ADDR], true);
    WithFlagSets(regs[STATUS_TAP_REG_ADDR], false);
    WithFlagSets(regs[STATUS_DISC_REG_ADDR], true);
    WithFlagSets(regs[STATUS_DISC_REG_ADDR], false);
  }

  /**
   What the flags say: bit 0 of register 13 stands for disconnect, and bit 0 of register 6 for tap
   against bypass. Tap and disconnect each leave the other's register alone; bypass clears both flags.
   */
  lemma FlagsShowMode(d: Device, regs: seq<byte>, mode: int)
    requires |regs| == 16 && ModeKnown(d, mode)
    ensures var after := Moded(regs, d.extVer, mode, d.caps);
            && (mode == 2 ==> after[13] % 2 == 1 && after[6] == regs[6])
            && (mode == 1 ==> after[6] % 2 == 1 && after[13] == regs[13])
            && (mode == 0 ==> after[6] % 2 == 0 && if d.extVer >= 8 then after[13] % 2 == 0 else after[13] == regs[13])
  {
    hide Cap;
    WithFlagSets(regs[STATUS_TAP_REG_ADDR], true);
    WithFlagSets(regs[STATUS_TAP_REG_ADDR], false);
    WithFlagSets(regs[STATUS_DISC_REG_ADDR], true);
    WithFlagSets(regs[STATUS_DISC_REG_ADDR], false);
  }

  /**
   Reading back an accepted mode gives that mode, whatever the registers held, with one exception:
   tap mode does not show while the disconnect flag is set.
   */
  lemma ModeReadBack(d: Device, regs: seq<byte>, mode: int)
    requires |regs| == 16 && ModeKnown(d, mode) && d.extVer >= BP_FW_EXT_VER8
    ensures ModeOf(Moded(regs, d.extVer, mode, d.caps), d.extVer) == mode
       <==> !(mode == TAP_MODE && Flag(regs[STATUS_DISC_REG_ADDR]))
  {
    hide Cap;
    WithFlagSets(regs[STATUS_TAP_REG_ADDR], true);
    WithFlagSets(regs[STATUS_TAP_REG_ADDR], false);
    WithFlagSets(regs[STATUS_DISC_REG_ADDR], true);
    WithFlagSets(regs[STATUS_DISC_REG_ADDR], false);
  }

  /** Older parts fix the answer, or keep one flag: the mode reads back exactly when it is the one they can show. */
  lemma ModeReadBackOld(d: Device, regs: seq<byte>, mode: int)
    requires |regs| == 16 && ModeKnown(d, mode) && d.extVer < BP_FW_EXT_VER8
    ensures ModeOf(Moded(regs, d.extVer, mode, d.caps), d.extVer) == mode
       <==> d.extVer >= PXE2TBPI_VER || mode == d.extVer
  {
    hide Cap;
    WithFlagSets(regs[STATUS_TAP_REG_ADDR], true);
    WithFlagSets(regs[STATUS_TAP_REG_ADDR], false);
  }

  /** The round trip over the bus: set a mode and ask for it. */
  method SetThenAsk(d: Device, mode: int) returns (ret: int, got: int)
    requires d.Ok() && !d.wdtBusy && Cap(d.caps, WD_CTL_CAP) && ModeCap(d) && d.extVer >= BP_FW_EXT_VER8
    requires ModeKnown(d, mode)
    modifies d
    ensures d.Ok() && !d.wdtBusy && ret == BP_OK
    ensures d.Reachable() ==>
              (got == mode <==> !(mode == TAP_MODE && Flag(old(d.board.pic.regs)[STATUS_DISC_REG_ADDR])))
    ensures !d.Reachable() ==> got == DISC_MODE
    ensures d.Reachable() ==> forall a | 0 <= a < 16 && a != STATUS_TAP_REG_ADDR && a != STATUS_DISC_REG_ADDR ::
                                d.board.pic.regs[a] == old(d.board.pic.regs)[a]
  {
    ModeReadBack(d, d.board.pic.regs, mode);
    ModedConfined(d.board.pic.regs, d.extVer, mode, d.caps);
    hide SameButPins, Mclk, Traced, Watchdog.TimerKept, Cap, Moded, SameButFlag;
    ret := WdtExpMode(d, mode);
    got := WdtExpModeStatus(d);
  }
}
