/** The seven register encodings all produce the same wire signals, and touch nothing but their pins. */
module Wires {
  import opened Pic
  import opened Pins

  // ----- other bits -----

  /** A register write is confined to the pins of its variant, in a register the variant uses. */
  ghost predicate Confined(v: Variant, w: RegWrite) {
    && (w.ones | w.zeros) & !PinMask(v, w.reg) == 0
    && (w.reg == MdioReg(v) || w.reg == MclkReg(v))
  }

  ghost predicate AllConfined(v: Variant, writes: seq<RegWrite>) {
    forall i | 0 <= i < |writes| :: Confined(v, writes[i])
  }

  /** Data, direction, set and clear masks never leave the variant's own pin bits. */
  lemma DriveConfined(v: Variant, mdio: bool, mclk: bool)
    ensures AllConfined(v, Drive(v, mdio, mclk))
  {
  }

  lemma TurnAroundConfined(v: Variant)
    ensures AllConfined(v, TurnAround(v))
  {
  }

  lemma ReadClockConfined(v: Variant, mclk: bool)
    ensures AllConfined(v, ReadClock(v, mclk))
  {
  }

  lemma MergeAgrees(base: bv32, ones: bv32, zeros: bv32, mask: bv32)
    requires (ones | zeros) & !mask == 0
    ensures Agree((base | ones) & !zeros, base, mask)
  {
  }

  lemma MaskedAgrees(w: RegWrite, base: bv32, mask: bv32)
    requires (w.ones | w.zeros) & !mask == 0
    ensures Agree(Merge(w, base), base, mask)
  {
    MergeAgrees(base, w.ones, w.zeros, mask);
    hide Agree;
  }

  lemma ConfinedAgrees(v: Variant, w: RegWrite, base: bv32)
    requires Confined(v, w)
    ensures Agree(Merge(w, base), base, PinMask(v, w.reg))
  {
    MergeAgrees(base, w.ones, w.zeros, PinMask(v, w.reg));
    hide Agree, PinMask;
  }

  lemma AgreeTransitive(a: bv32, b: bv32, c: bv32, mask: bv32)
    requires Agree(a, b, mask) && Agree(b, c, mask)
    ensures Agree(a, c, mask) && Agree(c, a, mask)
  {
  }

  lemma SameTransitive(v: Variant, r: Regs, s: Regs, t: Regs)
    requires SameButPins(v, r, s) && SameButPins(v, s, t)
    ensures SameButPins(v, r, t)
  {
    hide Agree, PinMask;
    forall reg: Reg ensures Agree(r.Get(reg), t.Get(reg), PinMask(v, reg)) {
      AgreeTransitive(r.Get(reg), s.Get(reg), t.Get(reg), PinMask(v, reg));
    }
  }

  lemma PutGet(r: Regs, q: Reg, value: bv32)
    ensures forall reg: Reg :: r.Put(q, value).Get(reg) == if reg == q then value else r.Get(reg)
  {
  }

  lemma PutKeepsOtherBits(v: Variant, r: Regs, reg: Reg, value: bv32)
    requires Agree(r.Get(reg), value, PinMask(v, reg))
    ensures SameButPins(v, r, r.Put(reg, value))
  {
    hide Agree, PinMask, Regs.Get, Regs.Put;
    var r' := r.Put(reg, value);
    PutGet(r, reg, value);
    forall q: Reg ensures Agree(r.Get(q), r'.Get(q), PinMask(v, q)) {
      AgreeReflexive(r.Get(q), PinMask(v, q));
    }
  }

  lemma BaseFits(v: Variant, r: Regs, ctrlExt: bv32, ctrl: bv32, reg: Reg)
    requires BasesFit(v, r, ctrlExt, ctrl) && (reg == MdioReg(v) || reg == MclkReg(v))
    ensures Agree(Base(v, reg, ctrlExt, ctrl), r.Get(reg), PinMask(v, reg))
  {
    hide Agree, PinMask, Regs.Get;
  }

  lemma ConfinedRegister(v: Variant, w: RegWrite)
    requires Confined(v, w)
    ensures w.reg == MdioReg(v) || w.reg == MclkReg(v)
  {
    hide PinMask;
  }

  lemma ValueKeepsOtherBits(v: Variant, r: Regs, ctrlExt: bv32, ctrl: bv32, reg: Reg, value: bv32)
    requires BasesFit(v, r, ctrlExt, ctrl) && (reg == MdioReg(v) || reg == MclkReg(v))
    requires Agree(value, Base(v, reg, ctrlExt, ctrl), PinMask(v, reg))
    ensures SameButPins(v, r, r.Put(reg, value)) && BasesFit(v, r.Put(reg, value), ctrlExt, ctrl)
  {
    hide Agree, PinMask, Base, Regs.Get, Regs.Put;
    BaseFits(v, r, ctrlExt, ctrl, reg);
    AgreeTransitive(value, Base(v, reg, ctrlExt, ctrl), r.Get(reg), PinMask(v, reg));
    PutKeepsOtherBits(v, r, reg, value);
    PutGet(r, reg, value);
    if reg == MdioReg(v) {
      AgreeTransitive(ctrlExt, r.Get(reg), value, PinMask(v, reg));
    }
    if UsesCtrl(v) && reg == MclkReg(v) {
      AgreeTransitive(ctrl, r.Get(reg), value, PinMask(v, reg));
    }
  }

  /** A masked write over a fitting base leaves every bit outside the pins as it was, and the bases still fit. */
  lemma WriteKeepsOtherBits(v: Variant, r: Regs, ctrlExt: bv32, ctrl: bv32, w: RegWrite)
    requires Confined(v, w) && BasesFit(v, r, ctrlExt, ctrl)
    ensures var r' := r.Put(w.reg, Merge(w, Base(v, w.reg, ctrlExt, ctrl)));
            SameButPins(v, r, r') && BasesFit(v, r', ctrlExt, ctrl)
  {
    ConfinedAgrees(v, w, Base(v, w.reg, ctrlExt, ctrl));
    ConfinedRegister(v, w);
    hide Agree, PinMask, Merge, Base, Confined, BasesFit, SameButPins, Regs.Put;
    ValueKeepsOtherBits(v, r, ctrlExt, ctrl, w.reg, Merge(w, Base(v, w.reg, ctrlExt, ctrl)));
  }

  lemma AgreeReflexive(a: bv32, mask: bv32)
    ensures Agree(a, a, mask)
  {
  }

  /** The whole list of writes of one step leaves every other bit of every register alone. */
  lemma {:induction false} ActKeepsOtherBits(v: Variant, b: Board, ctrlExt: bv32, ctrl: bv32, writes: seq<RegWrite>)
    requires WellFormed(b.pic) && AllConfined(v, writes) && BasesFit(v, b.regs, ctrlExt, ctrl)
    ensures var b' := Act(v, b, ctrlExt, ctrl, writes);
            SameButPins(v, b.regs, b'.regs) && BasesFit(v, b'.regs, ctrlExt, ctrl)
    decreases |writes|
  {
    hide Rise, Agree, PinMask, Merge, Base;
    if writes == [] {
      forall reg: Reg ensures Agree(b.regs.Get(reg), b.regs.Get(reg), PinMask(v, reg)) {
        AgreeReflexive(b.regs.Get(reg), PinMask(v, reg));
      }
    } else {
      var w := writes[0];
      WriteKeepsOtherBits(v, b.regs, ctrlExt, ctrl, w);
      var b1 := Poke(v, b, w.reg, Merge(w, Base(v, w.reg, ctrlExt, ctrl)));
      ActKeepsOtherBits(v, b1, ctrlExt, ctrl, writes[1..]);
      SameTransitive(v, b.regs, b1.regs, Act(v, b, ctrlExt, ctrl, writes).regs);
    }
  }

  lemma OverlayAgrees(value: bv32, bit: bv32, level: bool, mask: bv32)
    requires bit & !mask == 0
    ensures Agree(Overlay(value, bit, level), value, mask)
  {
    var shown := Overlay(value, bit, level);
    if level {
      assert shown == value | bit;
    } else {
      assert shown == value & !bit;
    }
  }

  lemma InputConfined(v: Variant)
    ensures MdioInput(v) & !PinMask(v, MdioReg(v)) == 0
  {
  }

  /** What the driver reads back is again a fitting base for its next writes. */
  lemma PeekFits(v: Variant, b: Board, reg: Reg)
    ensures Agree(Peek(v, b, reg), b.regs.Get(reg), PinMask(v, reg))
  {
    hide Regs.Get, Mdio, Agree, PinMask, MdioInput, Overlay;
    if reg == MdioReg(v) {
      InputConfined(v);
      OverlayAgrees(b.regs.Get(reg), MdioInput(v), Mdio(v, b.regs, b.pic.line), PinMask(v, reg));
    } else {
      AgreeReflexive(b.regs.Get(reg), PinMask(v, reg));
    }
  }

  // ----- the wires -----

  /** A bit that a write sets, or clears, shows in the register afterwards whatever the base was. */
  lemma WriteSets(w: RegWrite, base: bv32, bit: bv32)
    requires bit != 0 && w.ones & bit == bit && w.zeros & bit == 0
    ensures Has(Merge(w, base), bit)
  {
    var ones, zeros := w.ones, w.zeros;
    assert ((base | ones) & !zeros) & bit == bit;
  }

  lemma WriteClears(w: RegWrite, base: bv32, bit: bv32)
    requires w.zeros & bit == bit
    ensures !Has(Merge(w, base), bit)
  {
    var ones, zeros := w.ones, w.zeros;
    assert ((base | ones) & !zeros) & bit == 0;
  }

  lemma WriteSetsOrClears(w: RegWrite, base: bv32, bit: bv32, level: bool)
    requires bit != 0
    requires if level then w.ones & bit == bit && w.zeros & bit == 0 else w.zeros & bit == bit
    ensures Has(Merge(w, base), bit) == level
  {
    if level {
      WriteSets(w, base, bit);
    } else {
      WriteClears(w, base, bit);
    }
  }

  /** The registers after the writes of one step. */
  function After(v: Variant, r: Regs, ctrlExt: bv32, ctrl: bv32, writes: seq<RegWrite>): Regs
    decreases |writes|
  {
    if writes == [] then r
    else
      var w := writes[0];
      After(v, r.Put(w.reg, Merge(w, Base(v, w.reg, ctrlExt, ctrl))), ctrlExt, ctrl, writes[1..])
  }

  /** The register a step leaves behind in a one-register variant, and in a two-register one. */
  lemma AfterOne(v: Variant, r: Regs, e: bv32, c: bv32, w: RegWrite)
    ensures After(v, r, e, c, [w]) == r.Put(w.reg, Merge(w, Base(v, w.reg, e, c)))
  {
    hide Merge, Base, Regs.Put;
    assert [w][1..] == [];
  }

  lemma AfterTwo(v: Variant, r: Regs, e: bv32, c: bv32, w: RegWrite, x: RegWrite)
    ensures After(v, r, e, c, [w, x])
         == r.Put(w.reg, Merge(w, Base(v, w.reg, e, c))).Put(x.reg, Merge(x, Base(v, x.reg, e, c)))
  {
    hide Merge, Base, Regs.Put;
    assert [w, x][1..] == [x];
    AfterOne(v, r.Put(w.reg, Merge(w, Base(v, w.reg, e, c))), e, c, x);
  }

  /** The wires after "DATA d, CLK c", whatever the registers and the bases held. */
  lemma DriveLevels(v: Variant, r: Regs, e: bv32, c: bv32, mdio: bool, mclk: bool)
    ensures var r' := After(v, r, e, c, Drive(v, mdio, mclk));
            && Mclk(v, r') == mclk
            && Mdio(v, r', true) == mdio
            && (!mdio ==> !Mdio(v, r', false))
  {
    if v.TenGig9? || v.I80? {
      DriveLevelsTwo(v, r, e, c, mdio, mclk);
    } else {
      DriveLevelsOne(v, r, e, c, mdio, mclk);
    }
  }

  lemma DriveLevelsTwo(v: Variant, r: Regs, e: bv32, c: bv32, mdio: bool, mclk: bool)
    requires v.TenGig9? || v.I80?
    ensures var r' := After(v, r, e, c, Drive(v, mdio, mclk));
            && Mclk(v, r') == mclk
            && Mdio(v, r', true) == mdio
            && (!mdio ==> !Mdio(v, r', false))
  {
    hide Has, Merge, After;
    var ws := Drive(v, mdio, mclk);
    assert ws == [ws[0], ws[1]];
    AfterTwo(v, r, e, c, ws[0], ws[1]);
    match v
    case TenGig9 =>
      WriteSetsOrClears(ws[0], e, I2C_DATA_OUT, mdio);
      WriteSetsOrClears(ws[1], c, SDP4_DIR, true);
      WriteSetsOrClears(ws[1], c, SDP4_DATA, mclk);
    case I80 =>
      WriteSetsOrClears(ws[0], e, SWDPIO0, true);
      WriteSetsOrClears(ws[0], e, SWDPIN0, mdio);
      WriteSetsOrClears(ws[1], c, SDP6_DIR, true);
      WriteSetsOrClears(ws[1], c, SDP6_DATA, mclk);
  }

  lemma DriveLevelsOne(v: Variant, r: Regs, e: bv32, c: bv32, mdio: bool, mclk: bool)
    requires !v.TenGig9? && !v.I80?
    ensures var r' := After(v, r, e, c, Drive(v, mdio, mclk));
            && Mclk(v, r') == mclk
            && Mdio(v, r', true) == mdio
            && (!mdio ==> !Mdio(v, r', false))
  {
    hide Has, Merge, After;
    var w := Drive(v, mdio, mclk)[0];
    assert Drive(v, mdio, mclk) == [w];
    AfterOne(v, r, e, c, w);
    DriveBits(v, w, if v.X540? then c else e, mdio, mclk);
  }

  lemma DriveBits(v: Variant, w: RegWrite, base: bv32, mdio: bool, mclk: bool)
    requires !v.TenGig9? && !v.I80? && w == Drive(v, mdio, mclk)[0]
    ensures v.Fiber5? ==> Has(Merge(w, base), SDP1_DIR) && Has(Merge(w, base), SWDPIO0)
                          && Has(Merge(w, base), SWDPIN0) == mdio && Has(Merge(w, base), SWDPIN1) == mclk
    ensures v.X540? ==> Has(Merge(w, base), X540_MDIO_DIR) && Has(Merge(w, base), X540_MCLK_DIR)
                        && Has(Merge(w, base), X540_MDIO_DATA) == mdio && Has(Merge(w, base), X540_MCLK_DATA) == mclk
    ensures v.Broadcom? ==> !Has(Merge(w, base), MDIO_FLOAT) && !Has(Merge(w, base), MCLK_FLOAT)
                            && Has(Merge(w, base), MDIO_SET) == mdio && Has(Merge(w, base), MCLK_SET) == mclk
    ensures v.OneGig? ==> Has(Merge(w, base), SDP6_DIR) && Has(Merge(w, base), SDP7_DIR)
                          && Has(Merge(w, base), SDP6_DATA) == mdio && Has(Merge(w, base), SDP7_DATA) == mclk
    ensures v.TenGig? ==> Has(Merge(w, base), OD6_OUT) == mdio && Has(Merge(w, base), OD7_OUT) == mclk
  {
    hide Has, Merge;
    match v
    case Fiber5 =>
      WriteSetsOrClears(w, base, SDP1_DIR, true);
      WriteSetsOrClears(w, base, SWDPIO0, true);
      WriteSetsOrClears(w, base, SWDPIN0, mdio);
      WriteSetsOrClears(w, base, SWDPIN1, mclk);
    case X540 =>
      WriteSetsOrClears(w, base, X540_MDIO_DIR, true);
      WriteSetsOrClears(w, base, X540_MCLK_DIR, true);
      WriteSetsOrClears(w, base, X540_MDIO_DATA, mdio);
      WriteSetsOrClears(w, base, X540_MCLK_DATA, mclk);
    case Broadcom =>
      WriteSetsOrClears(w, base, MDIO_FLOAT, false);
      WriteSetsOrClears(w, base, MCLK_FLOAT, false);
      WriteSetsOrClears(w, base, MDIO_SET, mdio);
      WriteSetsOrClears(w, base, MCLK_SET, mclk);
    case OneGig =>
      WriteSetsOrClears(w, base, SDP6_DIR, true);
      WriteSetsOrClears(w, base, SDP7_DIR, true);
      WriteSetsOrClears(w, base, SDP6_DATA, mdio);
      WriteSetsOrClears(w, base, SDP7_DATA, mclk);
    case TenGig =>
      WriteSetsOrClears(w, base, OD6_OUT, mdio);
      WriteSetsOrClears(w, base, OD7_OUT, mclk);
  }

  /** The PIC, and nothing else, decides the level of MDIO. */
  predicate Released(v: Variant, r: Regs) {
    Mdio(v, r, true) && !Mdio(v, r, false)
  }

  /** The turnaround raises MCLK; every variant but the 540 has let go of MDIO by then. */
  lemma TurnAroundLevels(v: Variant, r: Regs, e: bv32, c: bv32)
    ensures var r' := After(v, r, e, c, TurnAround(v)); Mclk(v, r') && (v.X540? || Released(v, r'))
  {
    hide Mclk, Released, After;
    if v.TenGig9? || v.I80? {
      TurnAroundTwo(v, r, e, c);
    } else if v.X540? || v.Broadcom? || v.TenGig? {
      TurnAroundOne(v, r, e, c);
    } else {
      TurnAroundCtrl(v, r, e, c);
    }
  }

  lemma TurnAroundTwo(v: Variant, r: Regs, e: bv32, c: bv32)
    requires v.TenGig9? || v.I80?
    ensures var r' := After(v, r, e, c, TurnAround(v)); Mclk(v, r') && Released(v, r')
  {
    hide Has, Merge, After;
    var ws := TurnAround(v);
    assert ws == [ws[0], ws[1]];
    AfterTwo(v, r, e, c, ws[0], ws[1]);
    match v
    case TenGig9 =>
      WriteSets(ws[0], e, I2C_DATA_OUT);
      WriteSets(ws[1], c, SDP4_DIR);
      WriteSets(ws[1], c, SDP4_DATA);
    case I80 =>
      WriteClears(ws[0], e, SWDPIO0);
      WriteSets(ws[1], c, SDP6_DIR);
      WriteSets(ws[1], c, SDP6_DATA);
  }

  lemma TurnAroundCtrl(v: Variant, r: Regs, e: bv32, c: bv32)
    requires v.Fiber5? || v.OneGig?
    ensures var r' := After(v, r, e, c, TurnAround(v)); Mclk(v, r') && Released(v, r')
  {
    hide Has, Merge, After;
    var w := TurnAround(v)[0];
    assert TurnAround(v) == [w];
    AfterOne(v, r, e, c, w);
    match v
    case Fiber5 =>
      WriteClears(w, e, SWDPIO0);
      WriteSets(w, e, SDP1_DIR);
      WriteSets(w, e, SWDPIN1);
    case OneGig =>
      WriteClears(w, e, SDP6_DIR);
      WriteSets(w, e, SDP7_DIR);
      WriteSets(w, e, SDP7_DATA);
  }

  lemma TurnAroundOne(v: Variant, r: Regs, e: bv32, c: bv32)
    requires v.X540? || v.Broadcom? || v.TenGig?
    ensures var r' := After(v, r, e, c, TurnAround(v)); Mclk(v, r') && (v.X540? || Released(v, r'))
  {
    hide Has, Merge, After;
    var w := TurnAround(v)[0];
    assert TurnAround(v) == [w];
    AfterOne(v, r, e, c, w);
    match v
    case X540 =>
      WriteSets(w, c, X540_MCLK_DIR);
      WriteSets(w, c, X540_MCLK_DATA);
    case Broadcom =>
      WriteSets(w, e, MDIO_FLOAT);
      WriteClears(w, e, MCLK_FLOAT);
      WriteSets(w, e, MCLK_SET);
    case TenGig =>
      WriteSets(w, e, OD6_OUT);
      WriteSets(w, e, OD7_OUT);
  }

  /**
   During the data clocks the driver owns MCLK and the PIC owns MDIO. (The 10G9 keeps the I2C pin as
   the turnaround left it.)
   */
  lemma ReadClockLevels(v: Variant, r: Regs, e: bv32, c: bv32, mclk: bool)
    requires v.TenGig9? ==> Released(v, r)
    ensures var r' := After(v, r, e, c, ReadClock(v, mclk)); Mclk(v, r') == mclk && Released(v, r')
  {
    hide Mclk, Released, After;
    if v.I80? {
      ReadClockI80(r, e, c, mclk);
    } else if v.Fiber5? || v.OneGig? {
      ReadClockCtrl(v, r, e, c, mclk);
    } else {
      ReadClockOne(v, r, e, c, mclk);
    }
  }

  lemma ReadClockI80(r: Regs, e: bv32, c: bv32, mclk: bool)
    ensures var r' := After(I80, r, e, c, ReadClock(I80, mclk)); Mclk(I80, r') == mclk && Released(I80, r')
  {
    hide Has, Merge, After;
    var ws := ReadClock(I80, mclk);
    AfterTwo(I80, r, e, c, ws[0], ws[1]);
    WriteClears(ws[0], e, SWDPIO0);
    WriteSets(ws[1], c, SDP6_DIR);
    WriteSetsOrClears(ws[1], c, SDP6_DATA, mclk);
  }

  lemma ReadClockCtrl(v: Variant, r: Regs, e: bv32, c: bv32, mclk: bool)
    requires v.Fiber5? || v.OneGig?
    ensures var r' := After(v, r, e, c, ReadClock(v, mclk)); Mclk(v, r') == mclk && Released(v, r')
  {
    hide Has, Merge, After;
    var w := ReadClock(v, mclk)[0];
    assert ReadClock(v, mclk) == [w];
    AfterOne(v, r, e, c, w);
    match v
    case Fiber5 =>
      WriteClears(w, e, SWDPIO0);
      WriteSets(w, e, SDP1_DIR);
      WriteSetsOrClears(w, e, SWDPIN1, mclk);
    case OneGig =>
      WriteClears(w, e, SDP6_DIR);
      WriteSets(w, e, SDP7_DIR);
      WriteSetsOrClears(w, e, SDP7_DATA, mclk);
  }

  lemma ReadClockOne(v: Variant, r: Regs, e: bv32, c: bv32, mclk: bool)
    requires v.X540? || v.Broadcom? || v.TenGig? || (v.TenGig9? && Released(v, r))
    ensures var r' := After(v, r, e, c, ReadClock(v, mclk)); Mclk(v, r') == mclk && Released(v, r')
  {
    hide Has, Merge, After;
    var w := ReadClock(v, mclk)[0];
    assert ReadClock(v, mclk) == [w];
    AfterOne(v, r, e, c, w);
    match v
    case TenGig9 =>
      WriteSets(w, c, SDP4_DIR);
      WriteSetsOrClears(w, c, SDP4_DATA, mclk);
    case X540 =>
      WriteClears(w, c, X540_MDIO_DIR);
      WriteSets(w, c, X540_MCLK_DIR);
      WriteSetsOrClears(w, c, X540_MCLK_DATA, mclk);
    case Broadcom =>
      WriteSets(w, e, MDIO_FLOAT);
      WriteClears(w, e, MCLK_FLOAT);
      WriteSetsOrClears(w, e, MCLK_SET, mclk);
    case TenGig =>
      WriteSets(w, e, OD6_OUT);
      WriteSetsOrClears(w, e, OD7_OUT, mclk);
  }

  // ----- what the PIC sees -----

  lemma PutElsewhere(v: Variant, r: Regs, reg: Reg, value: bv32)
    requires reg != MclkReg(v)
    ensures Mclk(v, r.Put(reg, value)) == Mclk(v, r)
  {
    hide Has;
  }

  /** Data before clock: of one or two writes only the last can move MCLK. */
  ghost predicate ClockLast(v: Variant, writes: seq<RegWrite>) {
    |writes| == 1 || (|writes| == 2 && writes[0].reg != MclkReg(v))
  }

  lemma ActOne(v: Variant, b: Board, e: bv32, c: bv32, w: RegWrite)
    requires WellFormed(b.pic)
    ensures Act(v, b, e, c, [w]) == Poke(v, b, w.reg, Merge(w, Base(v, w.reg, e, c)))
  {
    hide Rise, Merge, Base;
    assert [w][1..] == [];
  }

  /** A step is seen by the PIC as a single change of the wires, from the levels before to the levels after. */
  lemma StepIsOneEdge(v: Variant, b: Board, e: bv32, c: bv32, writes: seq<RegWrite>)
    requires WellFormed(b.pic) && ClockLast(v, writes)
    ensures var r' := After(v, b.regs, e, c, writes);
            Act(v, b, e, c, writes) == Board(r', Edge(b.pic, Mclk(v, b.regs), Mclk(v, r'), Mdio(v, r', b.pic.line)))
  {
    hide Rise, Mclk, Mdio, Merge, Base;
    var w := writes[0];
    var value := Merge(w, Base(v, w.reg, e, c));
    if |writes| == 1 {
      assert writes == [w] && writes[1..] == [];
      AfterOne(v, b.regs, e, c, w);
    } else {
      assert writes == [w, writes[1]] && writes[1..] == [writes[1]];
      AfterTwo(v, b.regs, e, c, w, writes[1]);
      PutElsewhere(v, b.regs, w.reg, value);
      ActOne(v, Poke(v, b, w.reg, value), e, c, writes[1]);
    }
  }

  /** "DATA d, CLK c" as the PIC sees it, the same for all seven variants. */
  lemma DriveSeen(v: Variant, b: Board, e: bv32, c: bv32, mdio: bool, mclk: bool)
    requires Settled(v, b)
    ensures var b' := Act(v, b, e, c, Drive(v, mdio, mclk));
            && Mclk(v, b'.regs) == mclk
            && b'.pic == Edge(b.pic, Mclk(v, b.regs), mclk, mdio)
            && Settled(v, b')
  {
    hide Mclk, Mdio, After, Rise;
    assert ClockLast(v, Drive(v, mdio, mclk));
    StepIsOneEdge(v, b, e, c, Drive(v, mdio, mclk));
    DriveLevels(v, b.regs, e, c, mdio, mclk);
  }

  /** A sequence of driven levels, sent through one variant's registers. */
  function DriveAll(v: Variant, b: Board, e: bv32, c: bv32, levels: seq<(bool, bool)>): (b': Board)
    requires WellFormed(b.pic)
    ensures WellFormed(b'.pic)
    decreases |levels|
  {
    if levels == [] then b
    else DriveAll(v, Act(v, b, e, c, Drive(v, levels[0].0, levels[0].1)), e, c, levels[1..])
  }

  /**
   Variant refinement: whatever two variants' registers and base values hold, the same levels
   driven through either leave the PIC in the same state.
   */
  lemma {:induction false} VariantsAgree(
    v: Variant, b: Board, e: bv32, c: bv32, v': Variant, b': Board, e': bv32, c': bv32, levels: seq<(bool, bool)>)
    requires Settled(v, b) && Settled(v', b') && b.pic == b'.pic && Mclk(v, b.regs) == Mclk(v', b'.regs)
    ensures DriveAll(v, b, e, c, levels).pic == DriveAll(v', b', e', c', levels).pic
    decreases |levels|
  {
    hide Act, Mclk, Edge;
    if levels != [] {
      var (mdio, mclk) := levels[0];
      DriveSeen(v, b, e, c, mdio, mclk);
      DriveSeen(v', b', e', c', mdio, mclk);
      VariantsAgree(v, Act(v, b, e, c, Drive(v, mdio, mclk)), e, c,
                    v', Act(v', b', e', c', Drive(v', mdio, mclk)), e', c', levels[1..]);
    }
  }
}
