/** The capability words bypass_caps_init gives a device that starts out with none. */
module Caps {
  import opened Bits
  import opened Codes
  import opened Commands
  import opened Brackets

  /** What bypass_caps_init finds out about the device. The registers are read over the bus, so they are bytes. */
  datatype Probe = Probe(
    bypassFn: bool,        // is_bypass_fn
    fiber: bool,           // media_type is bp_fiber
    tplSeries: bool,
    b40: bool,             // (subdevice & 0xfe0) == 0xb40
    tenGig9: bool,
    intel: bool,
    oldSeries: bool,
    fwVer: byte,
    signed: bool,          // bypass_sign_check() == 1
    prodCaps: bv32,
    normalSupport: bool,
    txSlave: bool,         // a slave port of a family with transmitter control
    txPart: bool,          // any port of such a family
    broadcom: bool,
    masterVer: int,        // bp_ext_ver of the master port, or less than 9 without one
    masterProdCaps: bv32)

  function Set(caps: bv32, mask: bv32): bv32 {
    caps | mask
  }

  function Clear(caps: bv32, mask: bv32): bv32 {
    caps & !mask
  }

  function Plus(c: bool, caps: bv32, mask: bv32): bv32 {
    if c then Set(caps, mask) else caps
  }

  function Less(c: bool, caps: bv32, mask: bv32): bv32 {
    if c then Clear(caps, mask) else caps
  }

  function Either(c: bool, caps: bv32, yes: bv32, no: bv32): bv32 {
    if c then Set(caps, yes) else Set(caps, no)
  }

  const TX: bv32 := TX_CTL_CAP | TX_STATUS_CAP
  const BP_ALL: bv32 := BP_CAP | BP_STATUS_CAP | BP_STATUS_CHANGE_CAP | BP_DIS_CAP | BP_DIS_STATUS_CAP
                        | BP_PWUP_ON_CAP | BP_PWUP_OFF_CAP | BP_PWUP_CTL_CAP
  const TAP_ALL: bv32 := TAP_CAP | TAP_STATUS_CAP | TAP_STATUS_CHANGE_CAP | TAP_DIS_CAP | TAP_DIS_STATUS_CAP
                         | TAP_PWUP_ON_CAP | TAP_PWUP_OFF_CAP | TAP_PWUP_CTL_CAP
  const DISC_ALL: bv32 := DISC_CAP | DISC_DIS_CAP | DISC_PWUP_CTL_CAP
  const PWOFF_ALL: bv32 := BP_PWOFF_ON_CAP | BP_PWOFF_OFF_CAP | BP_PWOFF_CTL_CAP
  const WD_ALL: bv32 := SW_CTL_CAP | WD_CTL_CAP | WD_STATUS_CAP | WD_TIMEOUT_CAP

  const INTEL_ALL: bv32 := BP_CAP | BP_STATUS_CAP | BP_PWUP_ON_CAP | BP_PWUP_OFF_CAP | BP_PWOFF_OFF_CAP
                           | STD_NIC_CAP | WD_ALL
  const OLD_ALL: bv32 := BP_CAP | BP_STATUS_CAP | BP_STATUS_CHANGE_CAP | BP_PWUP_ON_CAP | WD_ALL

  const BYPASS_SUPPORT_MASK: bv32 := 0x1
  const TAP_SUPPORT_MASK: bv32 := 0x2
  const NORMAL_UNSUPPORT_MASK: bv32 := 0x4
  const DISC_SUPPORT_MASK: bv32 := 0x8
  const TPL2_SUPPORT_MASK: bv32 := 0x10
  const DISC_PORT_SUPPORT_MASK: bv32 := 0x20

  datatype Found = Found(caps: bv32, capsEx: bv32, ver: int)

  /** The bits a bypass port has before its firmware is looked at. */
  function Media(q: Probe): bv32 {
    var fiber := Plus(q.fiber, BP_PWOFF_ON_CAP, TX | TPL_CAP);
    Less(q.tenGig9, Less(q.b40, Plus(q.tplSeries, fiber, TPL_CAP), TPL_CAP), TPL_CAP)
  }

  /** The capabilities of the normal, bypass and tap modes, as the product capability register gives them. */
  function Modes(q: Probe, ver: int, caps: bv32): bv32 {
    var product := q.prodCaps;
    var c1 := Set(caps, WD_ALL);
    var c2 := Either(Cap(product, NORMAL_UNSUPPORT_MASK), c1, NIC_CAP_NEG, STD_NIC_CAP);
    var c3 := Either(q.normalSupport, c2, STD_NIC_CAP, NIC_CAP_NEG);
    var c4 := Plus(Cap(product, BYPASS_SUPPORT_MASK), c3, BP_ALL);
    var c5 := Plus(Cap(product, BYPASS_SUPPORT_MASK) && ver >= BP_FW_EXT_VER7, c4, PWOFF_ALL);
    Plus(Cap(product, TAP_SUPPORT_MASK), c5, TAP_ALL)
  }

  /** Firmware of version 1 and later describes itself in the product capability register. */
  function Described(q: Probe, ver: int, caps: bv32): Found {
    var disc := ver >= BP_FW_EXT_VER8 && Cap(q.prodCaps, DISC_SUPPORT_MASK);
    var tpl2 := ver >= BP_FW_EXT_VER8 && Cap(q.prodCaps, TPL2_SUPPORT_MASK);
    var port := ver >= BP_FW_EXT_VER9 && Cap(q.prodCaps, DISC_PORT_SUPPORT_MASK);
    Found(Plus(port, Plus(tpl2, Plus(disc, Modes(q, ver, caps), DISC_ALL), TPL_CAP), TX),
          Plus(port, Plus(tpl2, 0, TPL2_CAP_EX), DISC_PORT_CAP_EX), ver)
  }

  /** What every device goes through at the end. */
  function Finished(q: Probe, f: Found): Found {
    var tx := Less(q.broadcom, Plus(q.txPart, f.caps, TX), TX);
    var port := q.masterVer >= BP_FW_EXT_VER9;
    Found(Plus(port && Cap(q.masterProdCaps, DISC_PORT_SUPPORT_MASK), tx, TX),
          Plus(port, f.capsEx, DISC_PORT_CAP_EX), f.ver)
  }

  function CapsInit(q: Probe): Found {
    if !q.bypassFn then Finished(q, Found(Plus(q.txSlave, 0, TX), 0, 0))
    else
      var media := Media(q);
      if q.intel then
        Found(Set(media, INTEL_ALL), 0, -1)
      else if q.fwVer == 0xff && q.oldSeries then
        Found(Set(media, OLD_ALL), 0, -1)
      else if q.fwVer != 0xa0 && q.fwVer != 0xa1 && !q.signed then Found(0, 0, 0)
      else
        var ver := q.fwVer % 16;
        var c := Less(ver >= BP_FW_EXT_VER9, media, TPL_CAP);
        Finished(q, if ver == PXG2BPI_VER then Found(Set(c, BP_ALL | STD_NIC_CAP | WD_ALL), 0, ver)
                    else Described(q, ver, c))
  }

  // ----- what the words have in common -----

  /** Nothing but transmitter bits. */
  predicate Basic(caps: bv32) {
    caps & !TX == 0
  }

  lemma SetKeeps(caps: bv32, mask: bv32, bit: bv32)
    requires Cap(caps, bit)
    ensures Cap(Set(caps, mask), bit)
  {
  }

  lemma SetAdds(caps: bv32, mask: bv32, bit: bv32)
    requires Cap(mask, bit)
    ensures Cap(Set(caps, mask), bit)
  {
  }

  lemma ClearKeeps(caps: bv32, mask: bv32, bit: bv32)
    requires Cap(caps, bit) && mask & bit == 0
    ensures Cap(Clear(caps, mask), bit)
  {
    assert (caps & !mask) & bit == caps & bit;
  }

  lemma SetWithin(caps: bv32)
    requires Basic(caps)
    ensures Basic(Set(caps, TX))
  {
  }

  lemma ClearWithin(caps: bv32)
    requires Basic(caps)
    ensures Basic(Clear(caps, TX))
  {
  }

  /** Setting bits keeps software control; clearing transmitter bits does too. */
  lemma PlusKeeps(c: bool, caps: bv32, mask: bv32, bit: bv32)
    requires Cap(caps, bit)
    ensures Cap(Plus(c, caps, mask), bit)
  {
    hide Cap, Set;
    if c {
      SetKeeps(caps, mask, bit);
    }
  }

  lemma EitherKeeps(c: bool, caps: bv32, yes: bv32, no: bv32, bit: bv32)
    requires Cap(caps, bit)
    ensures Cap(Either(c, caps, yes, no), bit)
  {
    hide Cap, Set;
    if c {
      SetKeeps(caps, yes, bit);
    } else {
      SetKeeps(caps, no, bit);
    }
  }

  lemma LessKeeps(c: bool, caps: bv32)
    requires Cap(caps, SW_CTL_CAP)
    ensures Cap(Less(c, caps, TX), SW_CTL_CAP)
  {
    assert TX & SW_CTL_CAP == 0;
    hide Cap, Clear;
    if c {
      ClearKeeps(caps, TX, SW_CTL_CAP);
    }
  }

  lemma PlusBasic(c: bool, caps: bv32)
    requires Basic(caps)
    ensures Basic(Plus(c, caps, TX))
  {
    hide Basic, Set;
    if c {
      SetWithin(caps);
    }
  }

  lemma LessBasic(c: bool, caps: bv32)
    requires Basic(caps)
    ensures Basic(Less(c, caps, TX))
  {
    hide Basic, Clear;
    if c {
      ClearWithin(caps);
    }
  }

  /**
   Software control is there, or nothing that would need it; and hardware two-port link comes only
   with recent firmware.
   */
  ghost predicate Sane(f: Found) {
    && (Cap(f.caps, SW_CTL_CAP) || Basic(f.caps))
    && (Cap(f.capsEx, TPL2_CAP_EX) ==> Cap(f.caps, SW_CTL_CAP) && f.ver >= BP_FW_EXT_VER8)
  }

  lemma ThreeKeep(a: bool, b: bool, c: bool, caps: bv32, x: bv32, y: bv32, z: bv32, bit: bv32)
    requires Cap(caps, bit)
    ensures Cap(Plus(c, Plus(b, Plus(a, caps, x), y), z), bit)
  {
    hide Cap, Plus;
    PlusKeeps(a, caps, x, bit);
    PlusKeeps(b, Plus(a, caps, x), y, bit);
    PlusKeeps(c, Plus(b, Plus(a, caps, x), y), z, bit);
  }

  lemma ModesControl(q: Probe, ver: int, caps: bv32)
    ensures Cap(Modes(q, ver, caps), SW_CTL_CAP)
  {
    assert Cap(WD_ALL, SW_CTL_CAP);
    hide Cap, Set, Plus, Either;
    var product := q.prodCaps;
    var c1 := Set(caps, WD_ALL);
    SetAdds(caps, WD_ALL, SW_CTL_CAP);
    EitherKeeps(Cap(product, NORMAL_UNSUPPORT_MASK), c1, NIC_CAP_NEG, STD_NIC_CAP, SW_CTL_CAP);
    var c2 := Either(Cap(product, NORMAL_UNSUPPORT_MASK), c1, NIC_CAP_NEG, STD_NIC_CAP);
    EitherKeeps(q.normalSupport, c2, STD_NIC_CAP, NIC_CAP_NEG, SW_CTL_CAP);
    ThreeKeep(Cap(product, BYPASS_SUPPORT_MASK), Cap(product, BYPASS_SUPPORT_MASK) && ver >= BP_FW_EXT_VER7,
              Cap(product, TAP_SUPPORT_MASK), Either(q.normalSupport, c2, STD_NIC_CAP, NIC_CAP_NEG),
              BP_ALL, PWOFF_ALL, TAP_ALL, SW_CTL_CAP);
  }

  lemma DescribedControls(q: Probe, ver: int, caps: bv32)
    ensures Cap(Described(q, ver, caps).caps, SW_CTL_CAP)
  {
    hide Cap, Plus, Modes;
    ModesControl(q, ver, caps);
    ThreeKeep(ver >= BP_FW_EXT_VER8 && Cap(q.prodCaps, DISC_SUPPORT_MASK),
              ver >= BP_FW_EXT_VER8 && Cap(q.prodCaps, TPL2_SUPPORT_MASK),
              ver >= BP_FW_EXT_VER9 && Cap(q.prodCaps, DISC_PORT_SUPPORT_MASK), Modes(q, ver, caps),
              DISC_ALL, TPL_CAP, TX, SW_CTL_CAP);
  }

  lemma DescribedTpl2(q: Probe, ver: int, caps: bv32)
    ensures Cap(Described(q, ver, caps).capsEx, TPL2_CAP_EX) ==> ver >= BP_FW_EXT_VER8
  {
    var tpl2 := ver >= BP_FW_EXT_VER8 && Cap(q.prodCaps, TPL2_SUPPORT_MASK);
    var port := ver >= BP_FW_EXT_VER9 && Cap(q.prodCaps, DISC_PORT_SUPPORT_MASK);
    assert Described(q, ver, caps).capsEx == Plus(port, Plus(tpl2, 0, TPL2_CAP_EX), DISC_PORT_CAP_EX) by {
      hide Cap, Plus, Modes;
    }
    assert !Cap(0, TPL2_CAP_EX);
    DiscPortIsNotTpl2(port, Plus(tpl2, 0, TPL2_CAP_EX));
    hide Cap, Described;
  }

  lemma DiscPortIsNotTpl2(c: bool, capsEx: bv32)
    ensures Cap(Plus(c, capsEx, DISC_PORT_CAP_EX), TPL2_CAP_EX) <==> Cap(capsEx, TPL2_CAP_EX)
  {
    assert (capsEx | DISC_PORT_CAP_EX) & TPL2_CAP_EX == capsEx & TPL2_CAP_EX;
  }

  lemma FinishedIsSane(q: Probe, f: Found)
    requires Sane(f)
    ensures Sane(Finished(q, f))
  {
    DiscPortIsNotTpl2(q.masterVer >= BP_FW_EXT_VER9, f.capsEx);
    hide Cap, Basic, Plus, Less;
    var tx := Plus(q.txPart, f.caps, TX);
    var port := q.masterVer >= BP_FW_EXT_VER9 && Cap(q.masterProdCaps, DISC_PORT_SUPPORT_MASK);
    if Cap(f.caps, SW_CTL_CAP) {
      PlusKeeps(q.txPart, f.caps, TX, SW_CTL_CAP);
      LessKeeps(q.broadcom, tx);
      PlusKeeps(port, Less(q.broadcom, tx, TX), TX, SW_CTL_CAP);
    } else {
      PlusBasic(q.txPart, f.caps);
      LessBasic(q.broadcom, tx);
      PlusBasic(port, Less(q.broadcom, tx, TX));
    }
  }

  /** The invariant of bypass_caps_init, for every device it can meet. */
  lemma CapsInitIsSane(q: Probe)
    ensures Sane(CapsInit(q))
  {
    assert Basic(0);
    assert Cap(INTEL_ALL, SW_CTL_CAP) && Cap(OLD_ALL, SW_CTL_CAP) && Cap(BP_ALL | STD_NIC_CAP | WD_ALL, SW_CTL_CAP);
    assert !Cap(0, TPL2_CAP_EX);
    hide Cap, Basic, Plus, Less, Set, Media, Finished, Described;
    var media, ver := Media(q), q.fwVer % 16;
    var c := Less(ver >= BP_FW_EXT_VER9, media, TPL_CAP);
    PlusBasic(q.txSlave, 0);
    SetAdds(media, INTEL_ALL, SW_CTL_CAP);
    SetAdds(media, OLD_ALL, SW_CTL_CAP);
    SetAdds(c, BP_ALL | STD_NIC_CAP | WD_ALL, SW_CTL_CAP);
    DescribedControls(q, ver, c);
    DescribedTpl2(q, ver, c);
    assert Described(q, ver, c).ver == ver by {
      DescribedVer(q, ver, c);
    }
    FinishedIsSane(q, if !q.bypassFn then Found(Plus(q.txSlave, 0, TX), 0, 0)
                      else if ver == PXG2BPI_VER then Found(Set(c, BP_ALL | STD_NIC_CAP | WD_ALL), 0, ver)
                      else Described(q, ver, c));
  }

  lemma DescribedVer(q: Probe, ver: int, c: bv32)
    ensures Described(q, ver, c).ver == ver
  {
    hide Cap, Plus, Modes;
  }

  lemma BasicExcludes(caps: bv32, bit: bv32)
    requires Basic(caps) && bit & TX == 0
    ensures !Cap(caps, bit)
  {
  }

  lemma GatesAreNotBasic(s: Setting)
    ensures Gate(s) & TX == 0
  {
  }

  /**
   On a device set up by bypass_caps_init the capability a setting asks for implies software
   control: the setting is rejected before anything is sent, or goes out whole.
   */
  lemma GateImpliesControl(q: Probe, p: Part, s: Setting)
    requires p.caps == CapsInit(q).caps
    ensures Accepted(p, s) <==> Cap(p.caps, Gate(s))
  {
    CapsInitIsSane(q);
    GatesAreNotBasic(s);
    hide CapsInit, Cap, Gate, Basic;
    if !Cap(p.caps, SW_CTL_CAP) {
      BasicExcludes(p.caps, Gate(s));
    }
  }

  /**
   On such a device every run of settings and hardware link commands reads as closed brackets, one
   for each accepted call.
   */
  lemma InitialisedRunReads(q: Probe, p: Part, calls: seq<Call>)
    requires p.caps == CapsInit(q).caps && p.capsEx == CapsInit(q).capsEx
    requires forall i | 0 <= i < |calls| :: calls[i].Change? || calls[i].TplHw?
    ensures Read([], Closed, Words(p, calls)) == Reading.Brackets(Sessions(p, calls))
  {
    CapsInitIsSane(q);
    hide CapsInit, Cap;
    RunReads(p, calls, []);
  }

  /** Without that invariant it fails: a part with TPL2 but no software control sends a bare command. */
  lemma Tpl2NeedsControl(on: bool)
    ensures Read([], Closed, Word(Part(0, TPL2_CAP_EX, 8, true), TplHw(on))) == Broken
  {
    assert !Cap(0, SW_CTL_CAP) && Cap(TPL2_CAP_EX, TPL2_CAP_EX);
    hide Cap;
  }

  /** Two-port link is only announced together with software control. */
  lemma TplImpliesControl(q: Probe)
    requires Cap(CapsInit(q).caps, TPL_CAP)
    ensures Cap(CapsInit(q).caps, SW_CTL_CAP)
  {
    CapsInitIsSane(q);
    assert TPL_CAP & TX == 0;
    hide CapsInit, Cap, Basic;
    if !Cap(CapsInit(q).caps, SW_CTL_CAP) {
      BasicExcludes(CapsInit(q).caps, TPL_CAP);
    }
  }

  // ----- which capability a device gets -----

  lemma SetNot(caps: bv32, mask: bv32, bit: bv32)
    requires !Cap(caps, bit) && !Cap(mask, bit)
    ensures !Cap(Set(caps, mask), bit)
  {
    assert (caps | mask) & bit == (caps & bit) | (mask & bit);
  }

  lemma SetHas(caps: bv32, mask: bv32, bit: bv32)
    ensures Cap(Set(caps, mask), bit) <==> Cap(caps, bit) || Cap(mask, bit)
  {
    hide Cap, Set;
    if Cap(caps, bit) {
      SetKeeps(caps, mask, bit);
    } else if Cap(mask, bit) {
      SetAdds(caps, mask, bit);
    } else {
      SetNot(caps, mask, bit);
    }
  }

  lemma ClearNot(caps: bv32, mask: bv32, bit: bv32)
    requires !Cap(caps, bit)
    ensures !Cap(Clear(caps, mask), bit)
  {
    assert (caps & !mask) & bit == (caps & bit) & !mask;
  }

  lemma ClearGone(caps: bv32, mask: bv32)
    ensures !Cap(Clear(caps, mask), mask)
  {
  }

  lemma PlusHas(c: bool, caps: bv32, mask: bv32, bit: bv32)
    ensures Cap(Plus(c, caps, mask), bit) <==> Cap(caps, bit) || (c && Cap(mask, bit))
  {
    hide Cap, Set;
    SetHas(caps, mask, bit);
  }

  lemma EitherHas(c: bool, caps: bv32, yes: bv32, no: bv32, bit: bv32)
    ensures Cap(Either(c, caps, yes, no), bit) <==> Cap(caps, bit) || (if c then Cap(yes, bit) else Cap(no, bit))
  {
    hide Cap, Set;
    SetHas(caps, yes, bit);
    SetHas(caps, no, bit);
  }

  /** Clearing other bits. */
  lemma LessOther(c: bool, caps: bv32, mask: bv32, bit: bv32)
    requires mask & bit == 0
    ensures Cap(Less(c, caps, mask), bit) <==> Cap(caps, bit)
  {
    hide Clear;
    if c && Cap(caps, bit) {
      ClearKeeps(caps, mask, bit);
    } else if c {
      ClearNot(caps, mask, bit);
    }
    hide Cap;
  }

  lemma LessOwn(c: bool, caps: bv32, mask: bv32)
    ensures Cap(Less(c, caps, mask), mask) <==> Cap(caps, mask) && !c
  {
    hide Cap, Clear;
    if c {
      ClearGone(caps, mask);
    }
  }

  /** Neither a transmitter bit nor that of two-port link. */
  ghost predicate Apart(bit: bv32) {
    TX & bit == 0 && TPL_CAP & bit == 0 && !Cap(TX | TPL_CAP, bit)
  }

  lemma GatesAreApart(s: Setting)
    ensures Apart(Gate(s))
  {
  }

  lemma ApartHasNot(bit: bv32)
    requires Apart(bit)
    ensures !Cap(TX, bit) && !Cap(TPL_CAP, bit) && !Cap(TX | TPL_CAP, bit)
  {
  }

  lemma LessApart(c: bool, caps: bv32, bit: bv32)
    requires Apart(bit)
    ensures Cap(Less(c, caps, TX), bit) <==> Cap(caps, bit)
    ensures Cap(Less(c, caps, TPL_CAP), bit) <==> Cap(caps, bit)
  {
    assert TX & bit == 0 && TPL_CAP & bit == 0;
    hide Less, Cap, Apart;
    LessOther(c, caps, TX, bit);
    LessOther(c, caps, TPL_CAP, bit);
  }

  lemma MediaHas(q: Probe, bit: bv32)
    requires Apart(bit)
    ensures Cap(Media(q), bit) <==> Cap(BP_PWOFF_ON_CAP, bit)
  {
    ApartHasNot(bit);
    hide Cap, Plus, Less, Apart;
    var fiber := Plus(q.fiber, BP_PWOFF_ON_CAP, TX | TPL_CAP);
    PlusHas(q.fiber, BP_PWOFF_ON_CAP, TX | TPL_CAP, bit);
    PlusHas(q.tplSeries, fiber, TPL_CAP, bit);
    var linked := Plus(q.tplSeries, fiber, TPL_CAP);
    LessApart(q.b40, linked, bit);
    LessApart(q.tenGig9, Less(q.b40, linked, TPL_CAP), bit);
  }

  lemma ModesHave(q: Probe, ver: int, caps: bv32, bit: bv32)
    ensures Cap(Modes(q, ver, caps), bit)
       <==> Cap(caps, bit) || Cap(WD_ALL, bit)
            || ((!Cap(q.prodCaps, NORMAL_UNSUPPORT_MASK) || q.normalSupport) && Cap(STD_NIC_CAP, bit))
            || ((Cap(q.prodCaps, NORMAL_UNSUPPORT_MASK) || !q.normalSupport) && Cap(NIC_CAP_NEG, bit))
            || (Cap(q.prodCaps, BYPASS_SUPPORT_MASK)
                && (Cap(BP_ALL, bit) || (ver >= BP_FW_EXT_VER7 && Cap(PWOFF_ALL, bit))))
            || (Cap(q.prodCaps, TAP_SUPPORT_MASK) && Cap(TAP_ALL, bit))
  {
    hide Cap, Set, Plus, Either;
    var product := q.prodCaps;
    var c1 := Set(caps, WD_ALL);
    SetHas(caps, WD_ALL, bit);
    EitherHas(Cap(product, NORMAL_UNSUPPORT_MASK), c1, NIC_CAP_NEG, STD_NIC_CAP, bit);
    var c2 := Either(Cap(product, NORMAL_UNSUPPORT_MASK), c1, NIC_CAP_NEG, STD_NIC_CAP);
    EitherHas(q.normalSupport, c2, STD_NIC_CAP, NIC_CAP_NEG, bit);
    var c3 := Either(q.normalSupport, c2, STD_NIC_CAP, NIC_CAP_NEG);
    PlusHas(Cap(product, BYPASS_SUPPORT_MASK), c3, BP_ALL, bit);
    var c4 := Plus(Cap(product, BYPASS_SUPPORT_MASK), c3, BP_ALL);
    PlusHas(Cap(product, BYPASS_SUPPORT_MASK) && ver >= BP_FW_EXT_VER7, c4, PWOFF_ALL, bit);
    var c5 := Plus(Cap(product, BYPASS_SUPPORT_MASK) && ver >= BP_FW_EXT_VER7, c4, PWOFF_ALL);
    PlusHas(Cap(product, TAP_SUPPORT_MASK), c5, TAP_ALL, bit);
  }

  lemma ExtrasHave(disc: bool, tpl2: bool, port: bool, caps: bv32, bit: bv32)
    requires Apart(bit)
    ensures Cap(Plus(port, Plus(tpl2, Plus(disc, caps, DISC_ALL), TPL_CAP), TX), bit)
       <==> Cap(caps, bit) || (disc && Cap(DISC_ALL, bit))
  {
    ApartHasNot(bit);
    hide Cap, Plus, Apart;
    PlusHas(disc, caps, DISC_ALL, bit);
    PlusHas(tpl2, Plus(disc, caps, DISC_ALL), TPL_CAP, bit);
    PlusHas(port, Plus(tpl2, Plus(disc, caps, DISC_ALL), TPL_CAP), TX, bit);
  }

  lemma DescribedHas(q: Probe, ver: int, caps: bv32, bit: bv32)
    requires Apart(bit)
    ensures Cap(Described(q, ver, caps).caps, bit)
       <==> Cap(Modes(q, ver, caps), bit)
            || (ver >= BP_FW_EXT_VER8 && Cap(q.prodCaps, DISC_SUPPORT_MASK) && Cap(DISC_ALL, bit))
  {
    hide Cap, Plus, Modes, Apart;
    ExtrasHave(ver >= BP_FW_EXT_VER8 && Cap(q.prodCaps, DISC_SUPPORT_MASK),
               ver >= BP_FW_EXT_VER8 && Cap(q.prodCaps, TPL2_SUPPORT_MASK),
               ver >= BP_FW_EXT_VER9 && Cap(q.prodCaps, DISC_PORT_SUPPORT_MASK), Modes(q, ver, caps), bit);
  }

  lemma TransmittersHave(part: bool, broadcom: bool, port: bool, caps: bv32, bit: bv32)
    requires Apart(bit)
    ensures Cap(Plus(port, Less(broadcom, Plus(part, caps, TX), TX), TX), bit) <==> Cap(caps, bit)
  {
    ApartHasNot(bit);
    hide Cap, Plus, Less, Apart;
    PlusHas(part, caps, TX, bit);
    LessApart(broadcom, Plus(part, caps, TX), bit);
    PlusHas(port, Less(broadcom, Plus(part, caps, TX), TX), TX, bit);
  }

  lemma FinishedHas(q: Probe, f: Found, bit: bv32)
    requires Apart(bit)
    ensures Cap(Finished(q, f).caps, bit) <==> Cap(f.caps, bit)
  {
    hide Cap, Plus, Less, Apart;
    TransmittersHave(q.txPart, q.broadcom,
                     q.masterVer >= BP_FW_EXT_VER9 && Cap(q.masterProdCaps, DISC_PORT_SUPPORT_MASK), f.caps, bit);
  }

  /** The groups of capabilities that bypass_caps_init hands out, and the settings that ask for one of each. */
  lemma GateGroups(s: Setting)
    ensures !Cap(BP_PWOFF_ON_CAP, Gate(s)) && !Cap(NIC_CAP_NEG, Gate(s)) && !Cap(0, Gate(s))
    ensures Cap(WD_ALL, Gate(s)) <==> s.Timer? || s.WaitAtPwup? || s.HwReset?
    ensures Cap(STD_NIC_CAP, Gate(s)) <==> s.StdNic?
    ensures Cap(BP_ALL, Gate(s)) <==> s.Bypass? || s.DisBypass? || s.Pwup?
    ensures Cap(PWOFF_ALL, Gate(s)) <==> s.Pwoff?
    ensures Cap(TAP_ALL, Gate(s)) <==> s.Tap? || s.TapPwup? || s.DisTap?
    ensures Cap(DISC_ALL, Gate(s)) <==> s.Disc? || s.DiscPwup? || s.DisDisc?
  {
  }

  lemma OtherGroups(s: Setting)
    ensures Cap(INTEL_ALL, Gate(s)) <==> s.Bypass? || s.Timer? || s.StdNic? || s.WaitAtPwup? || s.HwReset?
    ensures Cap(OLD_ALL, Gate(s)) <==> s.Bypass? || s.Timer? || s.WaitAtPwup? || s.HwReset?
    ensures Cap(BP_ALL | STD_NIC_CAP | WD_ALL, Gate(s))
       <==> s.Bypass? || s.DisBypass? || s.Pwup? || s.StdNic? || s.Timer? || s.WaitAtPwup? || s.HwReset?
  {
  }

  /** What a setting needs of firmware from version 1 on: bits of the product register, and a version. */
  predicate Announced(q: Probe, s: Setting) {
    var ver := q.fwVer % 16;
    match s
    case Bypass(_) | DisBypass(_) | Pwup(_) => Cap(q.prodCaps, 0x1)
    case Pwoff(_) => Cap(q.prodCaps, 0x1) && ver >= 6
    case Tap(_) | TapPwup(_) | DisTap(_) => Cap(q.prodCaps, 0x2)
    case Disc(_) | DiscPwup(_) | DisDisc(_) => Cap(q.prodCaps, 0x8) && ver >= 8
    case StdNic(_) => !Cap(q.prodCaps, 0x4) || q.normalSupport
    case Timer(_) | WaitAtPwup(_) | HwReset(_) => true
  }

  /** The settings a device offers, by what it is. */
  predicate Offered(q: Probe, s: Setting) {
    q.bypassFn
    && if q.intel then s.Bypass? || s.Timer? || s.StdNic? || s.WaitAtPwup? || s.HwReset?
       else if q.fwVer == 0xff && q.oldSeries then s.Bypass? || s.Timer? || s.WaitAtPwup? || s.HwReset?
       else (q.fwVer == 0xa0 || q.fwVer == 0xa1 || q.signed)
            && if q.fwVer % 16 == 0
               then s.Bypass? || s.DisBypass? || s.Pwup? || s.StdNic? || s.Timer? || s.WaitAtPwup? || s.HwReset?
               else Announced(q, s)
  }

  lemma DescribedGate(q: Probe, caps: bv32, s: Setting)
    requires !Cap(caps, Gate(s))
    ensures Cap(Described(q, q.fwVer % 16, caps).caps, Gate(s)) <==> Announced(q, s)
  {
    GateGroups(s);
    GatesAreApart(s);
    hide Cap, Gate, Apart, Modes, Described;
    ModesHave(q, q.fwVer % 16, caps, Gate(s));
    DescribedHas(q, q.fwVer % 16, caps, Gate(s));
  }

  lemma MediaGate(q: Probe, s: Setting)
    ensures !Cap(Media(q), Gate(s)) && !Cap(Less(q.fwVer % 16 >= BP_FW_EXT_VER9, Media(q), TPL_CAP), Gate(s))
  {
    GateGroups(s);
    GatesAreApart(s);
    hide Cap, Gate, Apart, Media, Less;
    MediaHas(q, Gate(s));
    LessApart(q.fwVer % 16 >= BP_FW_EXT_VER9, Media(q), Gate(s));
  }

  lemma FixedGate(caps: bv32, s: Setting)
    requires !Cap(caps, Gate(s))
    ensures Cap(Set(caps, INTEL_ALL), Gate(s)) <==> s.Bypass? || s.Timer? || s.StdNic? || s.WaitAtPwup? || s.HwReset?
    ensures Cap(Set(caps, OLD_ALL), Gate(s)) <==> s.Bypass? || s.Timer? || s.WaitAtPwup? || s.HwReset?
    ensures Cap(Set(caps, BP_ALL | STD_NIC_CAP | WD_ALL), Gate(s))
       <==> s.Bypass? || s.DisBypass? || s.Pwup? || s.StdNic? || s.Timer? || s.WaitAtPwup? || s.HwReset?
  {
    OtherGroups(s);
    hide Cap, Gate, Set;
    SetHas(caps, INTEL_ALL, Gate(s));
    SetHas(caps, OLD_ALL, Gate(s));
    SetHas(caps, BP_ALL | STD_NIC_CAP | WD_ALL, Gate(s));
  }

  lemma SlaveGate(q: Probe, s: Setting)
    ensures !Cap(Plus(q.txSlave, 0, TX), Gate(s)) && !Cap(0, Gate(s))
  {
    GateGroups(s);
    GatesAreApart(s);
    ApartHasNot(Gate(s));
    hide Cap, Gate, Plus, Apart;
    PlusHas(q.txSlave, 0, TX, Gate(s));
  }

  lemma GateFound(q: Probe, s: Setting)
    ensures Cap(CapsInit(q).caps, Gate(s)) <==> Offered(q, s)
  {
    GatesAreApart(s);
    MediaGate(q, s);
    SlaveGate(q, s);
    hide Cap, Plus, Less, Set, Gate, Apart, Media, Modes, Finished, Described, Announced;
    var media, ver := Media(q), q.fwVer % 16;
    var c := Less(ver >= BP_FW_EXT_VER9, media, TPL_CAP);
    FixedGate(media, s);
    FixedGate(c, s);
    DescribedGate(q, c, s);
    FinishedHas(q, if !q.bypassFn then Found(Plus(q.txSlave, 0, TX), 0, 0)
                   else if ver == PXG2BPI_VER then Found(Set(c, BP_ALL | STD_NIC_CAP | WD_ALL), 0, ver)
                   else Described(q, ver, c), Gate(s));
  }

  /** A device set up by bypass_caps_init accepts exactly the settings it offers. */
  lemma AcceptedExactly(q: Probe, p: Part, s: Setting)
    requires p.caps == CapsInit(q).caps
    ensures Accepted(p, s) <==> Offered(q, s)
  {
    hide CapsInit, Cap, Gate, Offered, Accepted;
    GateImpliesControl(q, p, s);
    GateFound(q, s);
  }

  // ----- two-port link -----

  lemma LinkBit()
    ensures Cap(TPL_CAP, TPL_CAP) && Cap(TX | TPL_CAP, TPL_CAP) && !Cap(0, TPL_CAP) && TX & TPL_CAP == 0
    ensures !Cap(TX, TPL_CAP) && !Cap(BP_PWOFF_ON_CAP, TPL_CAP) && !Cap(INTEL_ALL, TPL_CAP) && !Cap(OLD_ALL, TPL_CAP)
    ensures !Cap(BP_ALL | STD_NIC_CAP | WD_ALL, TPL_CAP) && !Cap(WD_ALL, TPL_CAP) && !Cap(STD_NIC_CAP, TPL_CAP)
    ensures !Cap(NIC_CAP_NEG, TPL_CAP) && !Cap(BP_ALL, TPL_CAP) && !Cap(PWOFF_ALL, TPL_CAP)
    ensures !Cap(TAP_ALL, TPL_CAP) && !Cap(DISC_ALL, TPL_CAP)
  {
  }

  /** A part whose link can be mirrored in software. */
  predicate SoftLink(q: Probe) {
    (q.fiber || q.tplSeries) && !q.b40 && !q.tenGig9
  }

  lemma MediaLink(q: Probe)
    ensures Cap(Media(q), TPL_CAP) <==> SoftLink(q)
    ensures Cap(Less(q.fwVer % 16 >= BP_FW_EXT_VER9, Media(q), TPL_CAP), TPL_CAP) <==> SoftLink(q) && q.fwVer % 16 < 9
  {
    LinkBit();
    hide Cap, Plus, Less;
    var fiber := Plus(q.fiber, BP_PWOFF_ON_CAP, TX | TPL_CAP);
    PlusHas(q.fiber, BP_PWOFF_ON_CAP, TX | TPL_CAP, TPL_CAP);
    PlusHas(q.tplSeries, fiber, TPL_CAP, TPL_CAP);
    var linked := Plus(q.tplSeries, fiber, TPL_CAP);
    LessOwn(q.b40, linked, TPL_CAP);
    LessOwn(q.tenGig9, Less(q.b40, linked, TPL_CAP), TPL_CAP);
    LessOwn(q.fwVer % 16 >= BP_FW_EXT_VER9, Media(q), TPL_CAP);
  }

  lemma ExtrasLink(disc: bool, tpl2: bool, port: bool, caps: bv32)
    ensures Cap(Plus(port, Plus(tpl2, Plus(disc, caps, DISC_ALL), TPL_CAP), TX), TPL_CAP)
       <==> Cap(caps, TPL_CAP) || tpl2
  {
    LinkBit();
    hide Cap, Plus;
    PlusHas(disc, caps, DISC_ALL, TPL_CAP);
    PlusHas(tpl2, Plus(disc, caps, DISC_ALL), TPL_CAP, TPL_CAP);
    PlusHas(port, Plus(tpl2, Plus(disc, caps, DISC_ALL), TPL_CAP), TX, TPL_CAP);
  }

  lemma DescribedLink(q: Probe, caps: bv32)
    ensures Cap(Described(q, q.fwVer % 16, caps).caps, TPL_CAP)
       <==> Cap(caps, TPL_CAP) || (q.fwVer % 16 >= 8 && Cap(q.prodCaps, 0x10))
  {
    LinkBit();
    var ver := q.fwVer % 16;
    hide Cap, Plus, Modes;
    ModesHave(q, ver, caps, TPL_CAP);
    ExtrasLink(ver >= BP_FW_EXT_VER8 && Cap(q.prodCaps, DISC_SUPPORT_MASK),
               ver >= BP_FW_EXT_VER8 && Cap(q.prodCaps, TPL2_SUPPORT_MASK),
               ver >= BP_FW_EXT_VER9 && Cap(q.prodCaps, DISC_PORT_SUPPORT_MASK), Modes(q, ver, caps));
  }

  lemma FinishedLink(q: Probe, f: Found)
    ensures Cap(Finished(q, f).caps, TPL_CAP) <==> Cap(f.caps, TPL_CAP)
  {
    LinkBit();
    hide Cap, Plus, Less;
    var tx := Plus(q.txPart, f.caps, TX);
    PlusHas(q.txPart, f.caps, TX, TPL_CAP);
    LessLink(q.broadcom, tx);
    LinkLast(q.masterVer >= BP_FW_EXT_VER9 && Cap(q.masterProdCaps, DISC_PORT_SUPPORT_MASK), Less(q.broadcom, tx, TX));
  }

  lemma LessLink(c: bool, caps: bv32)
    ensures Cap(Less(c, caps, TX), TPL_CAP) <==> Cap(caps, TPL_CAP)
  {
    LinkBit();
    hide Less, Cap;
    LessOther(c, caps, TX, TPL_CAP);
  }

  lemma LinkLast(c: bool, caps: bv32)
    ensures Cap(Plus(c, caps, TX), TPL_CAP) <==> Cap(caps, TPL_CAP)
  {
    LinkBit();
    hide Plus, Cap;
    PlusHas(c, caps, TX, TPL_CAP);
  }

  /** Two-port link comes in software up to version 8, and in hardware with the product register from there on. */
  predicate Linkable(q: Probe) {
    q.bypassFn
    && if q.intel || (q.fwVer == 0xff && q.oldSeries) then SoftLink(q)
       else (q.fwVer == 0xa0 || q.fwVer == 0xa1 || q.signed)
            && ((SoftLink(q) && q.fwVer % 16 < 9) || (q.fwVer % 16 >= 8 && Cap(q.prodCaps, 0x10)))
  }

  lemma LinkFound(q: Probe)
    ensures Cap(CapsInit(q).caps, TPL_CAP) <==> Linkable(q)
  {
    hide Cap, Plus, Less, Set, Media, Modes, Finished, Described, SoftLink;
    MediaLink(q);
    LinkBit();
    var media, ver := Media(q), q.fwVer % 16;
    var c := Less(ver >= BP_FW_EXT_VER9, media, TPL_CAP);
    SetHas(media, INTEL_ALL, TPL_CAP);
    SetHas(media, OLD_ALL, TPL_CAP);
    SetHas(c, BP_ALL | STD_NIC_CAP | WD_ALL, TPL_CAP);
    LinkLast(q.txSlave, 0);
    DescribedLink(q, c);
    FinishedLink(q, if !q.bypassFn then Found(Plus(q.txSlave, 0, TX), 0, 0)
                    else if ver == PXG2BPI_VER then Found(Set(c, BP_ALL | STD_NIC_CAP | WD_ALL), 0, ver)
                    else Described(q, ver, c));
  }

  /** A slave port never announces it. */
  lemma SlaveHasNoTpl(q: Probe)
    requires !q.bypassFn
    ensures !Cap(CapsInit(q).caps, TPL_CAP)
  {
    hide CapsInit, Cap;
    LinkFound(q);
  }

  lemma ExBits()
    ensures Cap(TPL2_CAP_EX, TPL2_CAP_EX) && !Cap(TPL2_CAP_EX, DISC_PORT_CAP_EX)
    ensures Cap(DISC_PORT_CAP_EX, DISC_PORT_CAP_EX) && !Cap(DISC_PORT_CAP_EX, TPL2_CAP_EX)
    ensures !Cap(0, TPL2_CAP_EX) && !Cap(0, DISC_PORT_CAP_EX)
  {
  }

  lemma ExHas(tpl2: bool, port: bool)
    ensures var capsEx := Plus(port, Plus(tpl2, 0, TPL2_CAP_EX), DISC_PORT_CAP_EX);
            (Cap(capsEx, TPL2_CAP_EX) <==> tpl2) && (Cap(capsEx, DISC_PORT_CAP_EX) <==> port)
  {
    ExBits();
    hide Cap, Plus;
    PlusHas(tpl2, 0, TPL2_CAP_EX, TPL2_CAP_EX);
    PlusHas(tpl2, 0, TPL2_CAP_EX, DISC_PORT_CAP_EX);
    PlusHas(port, Plus(tpl2, 0, TPL2_CAP_EX), DISC_PORT_CAP_EX, TPL2_CAP_EX);
    PlusHas(port, Plus(tpl2, 0, TPL2_CAP_EX), DISC_PORT_CAP_EX, DISC_PORT_CAP_EX);
  }

  lemma DescribedEx(q: Probe, ver: int, caps: bv32)
    ensures Cap(Described(q, ver, caps).capsEx, TPL2_CAP_EX) <==> ver >= 8 && Cap(q.prodCaps, 0x10)
    ensures Cap(Described(q, ver, caps).capsEx, DISC_PORT_CAP_EX) <==> ver >= 9 && Cap(q.prodCaps, 0x20)
  {
    hide Cap, Plus, Modes;
    ExHas(ver >= BP_FW_EXT_VER8 && Cap(q.prodCaps, TPL2_SUPPORT_MASK),
          ver >= BP_FW_EXT_VER9 && Cap(q.prodCaps, DISC_PORT_SUPPORT_MASK));
  }

  lemma FinishedEx(q: Probe, f: Found)
    ensures Cap(Finished(q, f).capsEx, TPL2_CAP_EX) <==> Cap(f.capsEx, TPL2_CAP_EX)
    ensures Cap(Finished(q, f).capsEx, DISC_PORT_CAP_EX) <==> Cap(f.capsEx, DISC_PORT_CAP_EX) || q.masterVer >= 9
  {
    ExBits();
    hide Cap, Plus, Less;
    PlusHas(q.masterVer >= BP_FW_EXT_VER9, f.capsEx, DISC_PORT_CAP_EX, TPL2_CAP_EX);
    PlusHas(q.masterVer >= BP_FW_EXT_VER9, f.capsEx, DISC_PORT_CAP_EX, DISC_PORT_CAP_EX);
  }

  /** A device whose product register is read and followed. */
  predicate Describes(q: Probe) {
    q.bypassFn && !q.intel && !(q.fwVer == 0xff && q.oldSeries)
    && (q.fwVer == 0xa0 || q.fwVer == 0xa1 || q.signed) && q.fwVer % 16 > 0
  }

  /** A device on which bypass_caps_init gets to its end. */
  predicate Recognised(q: Probe) {
    !q.bypassFn
    || (!q.intel && !(q.fwVer == 0xff && q.oldSeries) && (q.fwVer == 0xa0 || q.fwVer == 0xa1 || q.signed))
  }

  /** Hardware two-port link, and the control of single ports, which a port also gets from its master. */
  lemma ExFound(q: Probe)
    ensures Cap(CapsInit(q).capsEx, TPL2_CAP_EX) <==> Describes(q) && q.fwVer % 16 >= 8 && Cap(q.prodCaps, 0x10)
    ensures Cap(CapsInit(q).capsEx, DISC_PORT_CAP_EX)
       <==> (Describes(q) && q.fwVer % 16 >= 9 && Cap(q.prodCaps, 0x20)) || (Recognised(q) && q.masterVer >= 9)
  {
    ExBits();
    hide Cap, Plus, Less, Set, Media, Finished, Described;
    var ver := q.fwVer % 16;
    var c := Less(ver >= BP_FW_EXT_VER9, Media(q), TPL_CAP);
    DescribedEx(q, ver, c);
    FinishedEx(q, if !q.bypassFn then Found(Plus(q.txSlave, 0, TX), 0, 0)
                  else if ver == PXG2BPI_VER then Found(Set(c, BP_ALL | STD_NIC_CAP | WD_ALL), 0, ver)
                  else Described(q, ver, c));
  }
}
