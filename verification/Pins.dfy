/**
 The two bus wires as the driver sees them: bits of controller registers. Seven hardware
 variants put MCLK and MDIO in different registers, with data, direction, set and clear bits
 of their own. Each is a table of register writes here; the masks are those of bp_mod.h.
 */
module Pins {
  import opened Pic

  datatype Variant =
    | TenGig9     // bp_10g9: MDIO in I2CCTL, MCLK in ESDP of the partner port
    | Fiber5      // bp_fiber5: both in CTRL
    | I80         // bp_i80: MDIO in CTRL, MCLK in CTRL_EXT
    | X540        // bp_540: both in ESDP
    | Broadcom    // bp_10gb: both in MISC_REG_SPIO, with set, clear and float commands
    | OneGig      // none of the flags: both in CTRL_EXT
    | TenGig      // bp_10g: both in EODSDP

  /** I2CCTL and EODSDP are the same address, here `Od`. `PeerEsdp` belongs to the partner port. */
  datatype Reg = Ctrl | CtrlExt | Esdp | Od | Spio | PeerEsdp

  datatype Regs = Regs(ctrl: bv32, ctrlExt: bv32, esdp: bv32, od: bv32, spio: bv32, peerEsdp: bv32)
  {
    function Get(r: Reg): bv32 {
      match r
      case Ctrl => ctrl
      case CtrlExt => ctrlExt
      case Esdp => esdp
      case Od => od
      case Spio => spio
      case PeerEsdp => peerEsdp
    }

    function Put(r: Reg, v: bv32): Regs {
      match r
      case Ctrl => this.(ctrl := v)
      case CtrlExt => this.(ctrlExt := v)
      case Esdp => this.(esdp := v)
      case Od => this.(od := v)
      case Spio => this.(spio := v)
      case PeerEsdp => this.(peerEsdp := v)
    }
  }

  // CTRL_EXT software pins 6 and 7
  const SDP6_DATA: bv32 := 0x40
  const SDP7_DATA: bv32 := 0x80
  const SDP6_DIR: bv32 := 0x400
  const SDP7_DIR: bv32 := 0x800
  // CTRL software pins 0 and 1
  const SWDPIN0: bv32 := 0x40000
  const SWDPIN1: bv32 := 0x80000
  const SWDPIO0: bv32 := 0x400000
  const SDP1_DIR: bv32 := 0x800000
  // ESDP of the 540 family
  const X540_MDIO_DATA: bv32 := 0x1
  const X540_MDIO_DIR: bv32 := 0x100
  const X540_MCLK_DATA: bv32 := 0x4
  const X540_MCLK_DIR: bv32 := 0x400
  // SPIO pins 4 (MDIO) and 5 (MCLK)
  const MDIO_VALUE: bv32 := 0x10
  const MDIO_SET: bv32 := 0x1000
  const MCLK_SET: bv32 := 0x2000
  const MDIO_CLR: bv32 := 0x100000
  const MCLK_CLR: bv32 := 0x200000
  const MDIO_FLOAT: bv32 := 0x10000000
  const MCLK_FLOAT: bv32 := 0x20000000
  // open-drain pins 6 and 7 of the 10G family
  const OD6_IN: bv32 := 0x1
  const OD6_OUT: bv32 := 0x2
  const OD7_OUT: bv32 := 0x8
  // 10G9: MDIO on the I2C data pin, MCLK on ESDP pin 4 of the partner
  const I2C_DATA_IN: bv32 := 0x4
  const I2C_DATA_OUT: bv32 := 0x8
  const SDP4_DATA: bv32 := 0x10
  const SDP4_DIR: bv32 := 0x1000

  /** A write of `(base | ones) & ~zeros`. */
  datatype RegWrite = RegWrite(reg: Reg, ones: bv32, zeros: bv32)

  function If(c: bool, mask: bv32): bv32 {
    if c then mask else 0
  }

  /** Drive MDIO to `mdio` and MCLK to `mclk`: the blocks "DATA d, CLK c" of the pulse functions. */
  function Drive(v: Variant, mdio: bool, mclk: bool): seq<RegWrite> {
    match v
    case TenGig9 =>
      [RegWrite(Od, If(mdio, I2C_DATA_OUT), If(!mdio, I2C_DATA_OUT)),
       RegWrite(PeerEsdp, SDP4_DIR | If(mclk, SDP4_DATA), If(!mclk, SDP4_DATA))]
    case Fiber5 =>
      [RegWrite(Ctrl, SDP1_DIR | SWDPIO0 | If(mdio, SWDPIN0) | If(mclk, SWDPIN1),
                If(!mdio, SWDPIN0) | If(!mclk, SWDPIN1))]
    case I80 =>
      [RegWrite(Ctrl, SWDPIO0 | If(mdio, SWDPIN0), If(!mdio, SWDPIN0)),
       RegWrite(CtrlExt, SDP6_DIR | If(mclk, SDP6_DATA), If(!mclk, SDP6_DATA))]
    case X540 =>
      [RegWrite(Esdp, X540_MDIO_DIR | X540_MCLK_DIR | If(mdio, X540_MDIO_DATA) | If(mclk, X540_MCLK_DATA),
                If(!mdio, X540_MDIO_DATA) | If(!mclk, X540_MCLK_DATA))]
    case Broadcom =>
      [RegWrite(Spio, (if mdio then MDIO_SET else MDIO_CLR) | (if mclk then MCLK_SET else MCLK_CLR),
                MCLK_FLOAT | MDIO_FLOAT
                | (if mdio then MDIO_CLR else MDIO_SET) | (if mclk then MCLK_CLR else MCLK_SET))]
    case OneGig =>
      [RegWrite(CtrlExt, SDP7_DIR | SDP6_DIR | If(mdio, SDP6_DATA) | If(mclk, SDP7_DATA),
                If(!mdio, SDP6_DATA) | If(!mclk, SDP7_DATA))]
    case TenGig =>
      [RegWrite(Od, If(mdio, OD6_OUT) | If(mclk, OD7_OUT), If(!mdio, OD6_OUT) | If(!mclk, OD7_OUT))]
  }

  /** The turnaround clock of read_reg: raise MCLK, and give MDIO up (the 540 still drives it low). */
  function TurnAround(v: Variant): seq<RegWrite> {
    match v
    case TenGig9 =>
      [RegWrite(Od, I2C_DATA_OUT, 0), RegWrite(PeerEsdp, SDP4_DATA | SDP4_DIR, 0)]
    case Fiber5 =>
      [RegWrite(Ctrl, SDP1_DIR | SWDPIN1, SWDPIO0 | SWDPIN0)]
    case I80 =>
      [RegWrite(Ctrl, 0, SWDPIN0 | SWDPIO0), RegWrite(CtrlExt, SDP6_DIR | SDP6_DATA, 0)]
    case X540 =>
      [RegWrite(Esdp, X540_MDIO_DIR | X540_MCLK_DIR | X540_MCLK_DATA, X540_MDIO_DATA)]
    case Broadcom =>
      [RegWrite(Spio, MDIO_FLOAT | MCLK_SET, MCLK_FLOAT | MDIO_SET | MDIO_CLR | MCLK_CLR)]
    case OneGig =>
      [RegWrite(CtrlExt, SDP7_DIR | SDP7_DATA, SDP6_DIR | SDP6_DATA)]
    case TenGig =>
      [RegWrite(Od, OD7_OUT | OD6_OUT, 0)]
  }

  /** A clock level during the read: MCLK driven, MDIO left to the PIC. */
  function ReadClock(v: Variant, mclk: bool): seq<RegWrite> {
    match v
    case TenGig9 =>
      [RegWrite(PeerEsdp, SDP4_DIR | If(mclk, SDP4_DATA), If(!mclk, SDP4_DATA))]
    case Fiber5 =>
      [RegWrite(Ctrl, SDP1_DIR | If(mclk, SWDPIN1), SWDPIO0 | If(!mclk, SWDPIN1))]
    case I80 =>
      [RegWrite(Ctrl, 0, SWDPIO0),
       RegWrite(CtrlExt, SDP6_DIR | If(mclk, SDP6_DATA), If(!mclk, SDP6_DATA))]
    case X540 =>
      [RegWrite(Esdp, X540_MCLK_DIR | If(mclk, X540_MCLK_DATA), X540_MDIO_DIR | If(!mclk, X540_MCLK_DATA))]
    case Broadcom =>
      [RegWrite(Spio, MDIO_FLOAT | (if mclk then MCLK_SET else MCLK_CLR),
                MCLK_FLOAT | MDIO_CLR | MDIO_SET | (if mclk then MCLK_CLR else MCLK_SET))]
    case OneGig =>
      [RegWrite(CtrlExt, SDP7_DIR | If(mclk, SDP7_DATA), SDP6_DIR | If(!mclk, SDP7_DATA))]
    case TenGig =>
      [RegWrite(Od, OD6_OUT | If(mclk, OD7_OUT), If(!mclk, OD7_OUT))]
  }

  // ----- what the registers mean on the wires -----

  /** The register holding MDIO, read into `ctrl_ext`; the one holding MCLK, read into `ctrl` where it differs. */
  function MdioReg(v: Variant): Reg {
    match v
    case TenGig9 => Od
    case Fiber5 => Ctrl
    case I80 => Ctrl
    case X540 => Esdp
    case Broadcom => Spio
    case OneGig => CtrlExt
    case TenGig => Od
  }

  function MclkReg(v: Variant): Reg {
    match v
    case TenGig9 => PeerEsdp
    case I80 => CtrlExt
    case _ => MdioReg(v)
  }

  predicate Has(value: bv32, mask: bv32) {
    value & mask != 0
  }

  /** MCLK is high exactly when its data bit is out as a 1 (a set command on the Broadcom part). */
  predicate Mclk(v: Variant, r: Regs) {
    match v
    case TenGig9 => Has(r.peerEsdp, SDP4_DIR) && Has(r.peerEsdp, SDP4_DATA)
    case Fiber5 => Has(r.ctrl, SDP1_DIR) && Has(r.ctrl, SWDPIN1)
    case I80 => Has(r.ctrlExt, SDP6_DIR) && Has(r.ctrlExt, SDP6_DATA)
    case X540 => Has(r.esdp, X540_MCLK_DIR) && Has(r.esdp, X540_MCLK_DATA)
    case Broadcom => !Has(r.spio, MCLK_FLOAT) && Has(r.spio, MCLK_SET)
    case OneGig => Has(r.ctrlExt, SDP7_DIR) && Has(r.ctrlExt, SDP7_DATA)
    case TenGig => Has(r.od, OD7_OUT)
  }

  /**
   The level of MDIO when the PIC leaves it at `line`: push-pull where the part has a direction bit,
   else open drain.
   */
  predicate Mdio(v: Variant, r: Regs, line: bool) {
    match v
    case TenGig9 => Has(r.od, I2C_DATA_OUT) && line
    case Fiber5 => if Has(r.ctrl, SWDPIO0) then Has(r.ctrl, SWDPIN0) else line
    case I80 => if Has(r.ctrl, SWDPIO0) then Has(r.ctrl, SWDPIN0) else line
    case X540 => if Has(r.esdp, X540_MDIO_DIR) then Has(r.esdp, X540_MDIO_DATA) else line
    case Broadcom => if !Has(r.spio, MDIO_FLOAT) then Has(r.spio, MDIO_SET) else line
    case OneGig => if Has(r.ctrlExt, SDP6_DIR) then Has(r.ctrlExt, SDP6_DATA) else line
    case TenGig => Has(r.od, OD6_OUT) && line
  }

  /** The bit through which the driver reads MDIO. */
  function MdioInput(v: Variant): bv32 {
    match v
    case TenGig9 => I2C_DATA_IN
    case Fiber5 => SWDPIN0
    case I80 => SWDPIN0
    case X540 => X540_MDIO_DATA
    case Broadcom => MDIO_VALUE
    case OneGig => SDP6_DATA
    case TenGig => OD6_IN
  }

  /** The bits of a register that the bus code of a variant may change. */
  function PinMask(v: Variant, r: Reg): bv32 {
    match (v, r)
    case (TenGig9, Od) => I2C_DATA_OUT | I2C_DATA_IN
    case (TenGig9, PeerEsdp) => SDP4_DATA | SDP4_DIR
    case (Fiber5, Ctrl) => SDP1_DIR | SWDPIO0 | SWDPIN0 | SWDPIN1
    case (I80, Ctrl) => SWDPIO0 | SWDPIN0
    case (I80, CtrlExt) => SDP6_DIR | SDP6_DATA
    case (X540, Esdp) => X540_MDIO_DIR | X540_MDIO_DATA | X540_MCLK_DIR | X540_MCLK_DATA
    case (Broadcom, Spio) => MDIO_SET | MDIO_CLR | MDIO_FLOAT | MDIO_VALUE | MCLK_SET | MCLK_CLR | MCLK_FLOAT
    case (OneGig, CtrlExt) => SDP6_DIR | SDP6_DATA | SDP7_DIR | SDP7_DATA
    case (TenGig, Od) => OD6_OUT | OD7_OUT | OD6_IN
    case _ => 0
  }

  /** `a` and `b` agree on every bit outside `mask`. */
  predicate Agree(a: bv32, b: bv32, mask: bv32) {
    a & !mask == b & !mask
  }

  /** Two register files that differ at most in the bus pins of the variant. */
  ghost predicate SameButPins(v: Variant, r: Regs, r': Regs) {
    forall reg: Reg :: Agree(r.Get(reg), r'.Get(reg), PinMask(v, reg))
  }

  // ----- the board: registers and PIC -----

  datatype Board = Board(regs: Regs, pic: Pic)

  /** What the PIC sees when the wires go from one register state to another. */
  function Edge(p: Pic, before: bool, after: bool, level: bool): (q: Pic)
    requires WellFormed(p)
    ensures WellFormed(q)
  {
    if !before && after then Rise(p, level) else if before && !after then Fall(p) else p
  }

  /** writel: the register takes the value and the PIC sees the new wire levels. */
  function Poke(v: Variant, b: Board, reg: Reg, value: bv32): (b': Board)
    requires WellFormed(b.pic)
    ensures WellFormed(b'.pic)
  {
    var regs := b.regs.Put(reg, value);
    Board(regs, Edge(b.pic, Mclk(v, b.regs), Mclk(v, regs), Mdio(v, regs, b.pic.line)))
  }

  function Overlay(value: bv32, bit: bv32, level: bool): bv32 {
    if level then value | bit else value & !bit
  }

  /** readl: the stored value, with the MDIO input bit showing the wire. */
  function Peek(v: Variant, b: Board, reg: Reg): bv32 {
    var value := b.regs.Get(reg);
    if reg == MdioReg(v) then Overlay(value, MdioInput(v), Mdio(v, b.regs, b.pic.line)) else value
  }

  /**
   The base value a write starts from: `ctrl` for the MCLK register of a two-register variant (and
   the 540), else `ctrl_ext`.
   */
  function Base(v: Variant, reg: Reg, ctrlExt: bv32, ctrl: bv32): bv32 {
    if v == X540 || reg != MdioReg(v) then ctrl else ctrlExt
  }

  function Merge(w: RegWrite, base: bv32): bv32 {
    (base | w.ones) & !w.zeros
  }

  function Act(v: Variant, b: Board, ctrlExt: bv32, ctrl: bv32, writes: seq<RegWrite>): (b': Board)
    requires WellFormed(b.pic)
    ensures WellFormed(b'.pic)
    decreases |writes|
  {
    if writes == [] then b
    else
      var w := writes[0];
      Act(v, Poke(v, b, w.reg, Merge(w, Base(v, w.reg, ctrlExt, ctrl))), ctrlExt, ctrl, writes[1..])
  }

  /** With MCLK low the PIC has let go of MDIO; between calls it is also idle. */
  ghost predicate Settled(v: Variant, b: Board) {
    WellFormed(b.pic) && (!Mclk(v, b.regs) ==> b.pic.line)
  }

  /** The variants that keep a second base value, read from the MCLK register. */
  predicate UsesCtrl(v: Variant) {
    v.TenGig9? || v.I80? || v.X540?
  }

  /** The bases were read from this board or from one that differed from it only in the pins. */
  ghost predicate BasesFit(v: Variant, r: Regs, ctrlExt: bv32, ctrl: bv32) {
    && Agree(ctrlExt, r.Get(MdioReg(v)), PinMask(v, MdioReg(v)))
    && (UsesCtrl(v) ==> Agree(ctrl, r.Get(MclkReg(v)), PinMask(v, MclkReg(v))))
  }
}
