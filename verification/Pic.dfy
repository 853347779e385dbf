/**
 The microcontroller ("PIC") at the far end of the management bus, as a decoder of the two
 wires: it looks at MDIO on each rising edge of MCLK and lets go of MDIO on each falling edge.
 A frame is the sync pattern 10, an operation (10 write, 01 read), a four-bit address and,
 for a write, eight data bits; for a read, one turnaround clock and eight clocks during which
 the PIC drives MDIO. A 0 seen outside a frame is a watchdog kick and starts nothing.
 */
module Pic {
  import opened Bits

  const SYNC_CMD_VAL := 2
  const SYNC_CMD_LEN := 2
  const WR_CMD_VAL := 2
  const WR_CMD_LEN := 2
  const RD_CMD_VAL := 1
  const RD_CMD_LEN := 2
  const ADDR_CMD_LEN := 4
  const WR_DATA_LEN := 8
  const RD_DATA_LEN := 8

  /** What the PIC understood. */
  datatype Event =
    | Wrote(addr: nat, value: byte)
    | Fetched(addr: nat, value: byte)
    | Kicked

  datatype Phase =
    | Idle
    | Frame(bits: seq<bool>)
    | Turn(addr: nat)
    | Shift(addr: nat, value: byte, sent: nat)

  /** `line` is the level the PIC leaves on MDIO; true is released (pulled up). */
  datatype Pic = Pic(phase: Phase, line: bool, regs: seq<byte>, log: seq<Event>)

  predicate IsWrite(bits: seq<bool>) {
    |bits| >= 4 && bits[2] && !bits[3]
  }

  predicate IsRead(bits: seq<bool>) {
    |bits| >= 4 && !bits[2] && bits[3]
  }

  ghost predicate WellFormed(p: Pic) {
    && |p.regs| == 16
    && match p.phase
       case Idle => true
       case Frame(bits) => 1 <= |bits| < 16 && (|bits| >= 4 ==> IsWrite(bits) || (IsRead(bits) && |bits| < 8))
       case Turn(addr) => addr < 16
       case Shift(addr, _, sent) => addr < 16 && sent < 8
  }

  function Nibble(bits: seq<bool>): (n: nat)
    requires |bits| == 4
    ensures n < 16
  {
    SmallPowers();
    Number(bits)
  }

  function Octet(bits: seq<bool>): byte
    requires |bits| == 8
  {
    SmallPowers();
    Number(bits)
  }

  /** A rising MCLK edge with MDIO at level `bit`. */
  function Rise(p: Pic, bit: bool): (q: Pic)
    requires WellFormed(p)
    ensures WellFormed(q)
  {
    match p.phase
    case Idle =>
      if bit then p.(phase := Frame([true])) else p.(log := p.log + [Kicked])
    case Frame(bits) =>
      var b := bits + [bit];
      if |b| == 2 && b[1] then p.(phase := Idle)
      else if |b| == 4 && !IsWrite(b) && !IsRead(b) then p.(phase := Idle)
      else if |b| == 8 && IsRead(b) then p.(phase := Turn(Nibble(b[4..])))
      else if |b| == 16 then
        var addr, value := Nibble(b[4..8]), Octet(b[8..]);
        p.(phase := Idle, regs := p.regs[addr := value], log := p.log + [Wrote(addr, value)])
      else p.(phase := Frame(b))
    case Turn(addr) =>
      p.(phase := Shift(addr, p.regs[addr], 0))
    case Shift(addr, value, sent) =>
      var q := p.(line := BitAt(value, 7 - sent));
      if sent == 7 then q.(phase := Idle, log := p.log + [Fetched(addr, value)])
      else q.(phase := Shift(addr, value, sent + 1))
  }

  /** A falling MCLK edge. */
  function Fall(p: Pic): Pic {
    p.(line := true)
  }

  /** One full clock. */
  function Clock(p: Pic, bit: bool): (q: Pic)
    requires WellFormed(p)
    ensures WellFormed(q)
  {
    Fall(Rise(p, bit))
  }

  function Clocks(p: Pic, bits: seq<bool>): (q: Pic)
    requires WellFormed(p)
    ensures WellFormed(q)
    decreases |bits|
  {
    if bits == [] then p else Clocks(Clock(p, bits[0]), bits[1..])
  }

  ghost predicate Ready(p: Pic) {
    WellFormed(p) && p.phase.Idle? && p.line
  }

  lemma {:induction false} ClocksAppend(p: Pic, a: seq<bool>, b: seq<bool>)
    requires WellFormed(p)
    ensures Clocks(p, a + b) == Clocks(Clocks(p, a), b)
    decreases |a|
  {
    if a == [] {
      assert a + b == b;
    } else {
      assert (a + b)[1..] == a[1..] + b;
      ClocksAppend(Clock(p, a[0]), a[1..], b);
    }
  }

  // ----- the bit strings the driver sends -----

  function WriteBits(addr: nat, value: byte): (bits: seq<bool>)
    ensures |bits| == 16
  {
    MsbFirst(SYNC_CMD_VAL, SYNC_CMD_LEN) + MsbFirst(WR_CMD_VAL, WR_CMD_LEN)
    + MsbFirst(addr, ADDR_CMD_LEN) + MsbFirst(value, WR_DATA_LEN)
  }

  function ReadBits(addr: nat): (bits: seq<bool>)
    ensures |bits| == 8
  {
    MsbFirst(SYNC_CMD_VAL, SYNC_CMD_LEN) + MsbFirst(RD_CMD_VAL, RD_CMD_LEN) + MsbFirst(addr, ADDR_CMD_LEN)
  }

  lemma HeaderBits()
    ensures MsbFirst(2, 2) == [true, false]
    ensures MsbFirst(1, 2) == [false, true]
  {
    assert MsbFirst(2, 1) == [false];
    assert MsbFirst(1, 1) == [true];
  }

  /** While a frame is neither complete nor refused, the PIC only collects bits. */
  lemma {:induction false} Collects(p: Pic, head: seq<bool>, more: seq<bool>)
    requires WellFormed(p) && p.line && p.phase == Frame(head)
    requires |head| >= 4 && (if IsWrite(head) then |head| + |more| < 16 else |head| + |more| < 8)
    ensures Clocks(p, more) == p.(phase := Frame(head + more))
    decreases |more|
  {
    if more == [] {
      assert head + more == head;
    } else {
      var q := Clock(p, more[0]);
      assert q == p.(phase := Frame(head + [more[0]]));
      Collects(q, head + [more[0]], more[1..]);
      assert head + [more[0]] + more[1..] == head + more;
    }
  }

  lemma FourClocks(p: Pic, a: bool, b: bool, c: bool, e: bool)
    requires WellFormed(p)
    ensures Clocks(p, [a, b, c, e]) == Clock(Clock(Clock(Clock(p, a), b), c), e)
  {
    hide Clock;
    assert [a, b, c, e][1..] == [b, c, e];
    assert [b, c, e][1..] == [c, e];
    assert [c, e][1..] == [e];
    var q := Clock(Clock(p, a), b);
    assert Clocks(q, [c, e]) == Clocks(Clock(q, c), [e]) == Clock(Clock(q, c), e) by {
      assert [e][1..] == [];
    }
  }

  lemma OpensFrame(p: Pic, op: seq<bool>)
    requires Ready(p) && (op == [true, false] || op == [false, true])
    ensures Clocks(p, [true, false] + op) == p.(phase := Frame([true, false] + op))
  {
    hide Clocks;
    FourClocks(p, true, false, op[0], op[1]);
    assert [true, false] + op == [true, false, op[0], op[1]];
    assert Clock(p, true) == p.(phase := Frame([true]));
    assert [true] + [false] == [true, false];
    assert Clock(p.(phase := Frame([true])), false) == p.(phase := Frame([true, false]));
    assert [true, false] + [op[0]] == [true, false, op[0]];
    assert [true, false, op[0]] + [op[1]] == [true, false, op[0], op[1]];
  }

  /** The frame `head`, followed by the bits `more` of which only the last one completes something. */
  lemma FrameEnds(p: Pic, head: seq<bool>, more: seq<bool>)
    requires Ready(p) && |more| >= 1
    requires (head == [true, false, true, false] && |more| == 12) || (head == [true, false, false, true] && |more| == 4)
    ensures var q := p.(phase := Frame(head + more[..|more| - 1]));
            WellFormed(q) && Clocks(p, head + more) == Clock(q, more[|more| - 1])
  {
    var n := |more| - 1;
    var init, last := more[..n], more[n];
    assert head == [true, false] + head[2..];
    assert more == init + [last];
    OpensFrame(p, head[2..]);
    Collects(p.(phase := Frame(head)), head, init);
    ClocksAppend(p, head, init);
    ClocksAppend(p, head + init, [last]);
    assert head + more == head + init + [last];
    assert [last][1..] == [];
  }

  lemma WriteCompletes(p: Pic, a: seq<bool>, v: seq<bool>)
    requires Ready(p) && |a| == 4 && |v| == 8
    ensures Clocks(p, [true, false, true, false] + a + v)
         == p.(regs := p.regs[Nibble(a) := Octet(v)], log := p.log + [Wrote(Nibble(a), Octet(v))])
  {
    hide Clocks, Clock, Nibble, Octet;
    var head := [true, false, true, false];
    assert head + a + v == head + (a + v);
    FrameEnds(p, head, a + v);
    var h, last := head + (a + v)[..11], (a + v)[11];
    assert h + [last] == head + a + v;
    assert (head + a + v)[4..8] == a && (head + a + v)[8..] == v;
    LastDataBit(p.(phase := Frame(h)), h, last);
  }

  lemma LastDataBit(q: Pic, h: seq<bool>, last: bool)
    requires WellFormed(q) && q.line && q.phase == Frame(h) && |h| == 15 && IsWrite(h)
    ensures var b := h + [last]; var addr, value := Nibble(b[4..8]), Octet(b[8..]);
            Clock(q, last) == q.(phase := Idle, regs := q.regs[addr := value], log := q.log + [Wrote(addr, value)])
  {
  }

  lemma ReadTurns(p: Pic, a: seq<bool>)
    requires Ready(p) && |a| == 4
    ensures Clocks(p, [true, false, false, true] + a) == p.(phase := Turn(Nibble(a)))
  {
    hide Clocks;
    var head := [true, false, false, true];
    FrameEnds(p, head, a);
    var b := head + a[..3] + [a[3]];
    assert b[4..] == a;
  }

  lemma FieldValues(addr: nat, value: byte)
    ensures Nibble(MsbFirst(addr, ADDR_CMD_LEN)) == addr % 16
    ensures Octet(MsbFirst(value, WR_DATA_LEN)) == value
  {
    ShiftRoundTrip(addr, ADDR_CMD_LEN);
    ShiftRoundTrip(value, WR_DATA_LEN);
    SmallPowers();
  }

  /** A write frame, clocked into an idle PIC, stores the byte and is logged once. */
  lemma WriteFrame(p: Pic, addr: nat, value: byte)
    requires Ready(p)
    ensures Clocks(p, WriteBits(addr, value))
         == p.(regs := p.regs[addr % 16 := value], log := p.log + [Wrote(addr % 16, value)])
  {
    HeaderBits();
    FieldValues(addr, value);
    assert [true, false] + [true, false] == [true, false, true, false];
    WriteCompletes(p, MsbFirst(addr, ADDR_CMD_LEN), MsbFirst(value, WR_DATA_LEN));
  }

  /** The eight host-driven bits of a read frame leave the PIC waiting for the turnaround clock. */
  lemma ReadHeader(p: Pic, addr: nat)
    requires Ready(p)
    ensures Clocks(p, ReadBits(addr)) == p.(phase := Turn(addr % 16))
  {
    HeaderBits();
    FieldValues(addr, 0);
    assert [true, false] + [false, true] == [true, false, false, true];
    ReadTurns(p, MsbFirst(addr, ADDR_CMD_LEN));
  }

  /** Whatever MDIO shows during the last clocks of a read, the PIC finishes and logs the byte it held. */
  lemma {:induction false} ShiftsOut(p: Pic, levels: seq<bool>)
    requires WellFormed(p) && p.line && p.phase.Shift? && |levels| == 8 - p.phase.sent
    ensures Clocks(p, levels) == p.(phase := Idle, log := p.log + [Fetched(p.phase.addr, p.phase.value)])
    decreases |levels|
  {
    var q := Clock(p, levels[0]);
    if p.phase.sent == 7 {
      assert levels[1..] == [];
    } else {
      ShiftsOut(q, levels[1..]);
    }
  }

  // ----- kicks may fall between frames; the frames are what is left without them -----

  function Frames(log: seq<Event>): (frames: seq<Event>)
    ensures |frames| <= |log|
  {
    if log == [] then []
    else
      var n := |log| - 1;
      if log[n].Kicked? then Frames(log[..n]) else Frames(log[..n]) + [log[n]]
  }

  function Kicks(log: seq<Event>): nat {
    |log| - |Frames(log)|
  }

  lemma FramesStep(log: seq<Event>, e: Event)
    ensures Frames(log + [e]) == if e.Kicked? then Frames(log) else Frames(log) + [e]
    ensures Kicks(log + [e]) == if e.Kicked? then Kicks(log) + 1 else Kicks(log)
  {
    assert (log + [e])[..|log|] == log;
  }

  /** `log` is `report` with any number of kicks put in, anywhere. */
  ghost predicate WithKicks(report: seq<Event>, log: seq<Event>) {
    if log == [] then report == []
    else
      var n, m := |log| - 1, |report| - 1;
      || (m >= 0 && log[n] == report[m] && WithKicks(report[..m], log[..n]))
      || (log[n] == Kicked && WithKicks(report, log[..n]))
  }

  /** After `before` the PIC has seen `report`, in order, and no more than `spare` kicks besides. */
  ghost predicate Added(before: seq<Event>, after: seq<Event>, report: seq<Event>, spare: int) {
    && before <= after
    && WithKicks(report, after[|before|..])
    && |after| <= |before| + |report| + spare
  }

  lemma {:induction false} WithKicksAppend(r1: seq<Event>, l1: seq<Event>, r2: seq<Event>, l2: seq<Event>)
    requires WithKicks(r1, l1) && WithKicks(r2, l2)
    ensures WithKicks(r1 + r2, l1 + l2)
    decreases |l2|
  {
    if l2 == [] {
      assert r1 + r2 == r1 && l1 + l2 == l1;
    } else {
      var n, m := |l2| - 1, |r2| - 1;
      assert (l1 + l2)[..|l1 + l2| - 1] == l1 + l2[..n];
      if m >= 0 && l2[n] == r2[m] && WithKicks(r2[..m], l2[..n]) {
        WithKicksAppend(r1, l1, r2[..m], l2[..n]);
        assert (r1 + r2)[..|r1 + r2| - 1] == r1 + r2[..m];
      } else {
        WithKicksAppend(r1, l1, r2, l2[..n]);
      }
    }
  }

  lemma AddedAppend(a: seq<Event>, b: seq<Event>, c: seq<Event>, r1: seq<Event>, n1: int, r2: seq<Event>, n2: int)
    requires Added(a, b, r1, n1) && Added(b, c, r2, n2)
    ensures Added(a, c, r1 + r2, n1 + n2)
  {
    hide WithKicks;
    WithKicksAppend(r1, b[|a|..], r2, c[|b|..]);
    assert c[|a|..] == b[|a|..] + c[|b|..];
  }

  lemma AddedNothing(log: seq<Event>)
    ensures Added(log, log, [], 0)
  {
    assert log[|log|..] == [];
  }

  /** One event, as part of the report or as a kick besides. */
  lemma AddedOne(log: seq<Event>, e: Event)
    ensures Added(log, log + [e], [e], 0)
    ensures e == Kicked ==> Added(log, log + [e], [], 1)
  {
    assert (log + [e])[|log|..] == [e];
    assert [e][..0] == [];
  }

  /**
   Kicks besides hide nothing: without them the report is the log, and its frames are those of the
   log in any case.
   */
  lemma {:induction false} WithKicksKeeps(report: seq<Event>, log: seq<Event>)
    requires WithKicks(report, log)
    ensures Frames(log) == Frames(report) && Kicks(log) >= Kicks(report)
    ensures |report| <= |log| && (|report| == |log| ==> report == log)
    decreases |log|
  {
    if log != [] {
      var n, m := |log| - 1, |report| - 1;
      if m >= 0 && log[n] == report[m] && WithKicks(report[..m], log[..n]) {
        WithKicksKeeps(report[..m], log[..n]);
        assert report == report[..m] + [report[m]] && log == log[..n] + [log[n]];
      } else {
        WithKicksKeeps(report, log[..n]);
      }
    }
  }

  /** Between `p` and `q` the PIC saw nothing but kicks, no more than `spare`. */
  ghost predicate OnlyKicks(p: Pic, q: Pic, spare: int) {
    q.phase == p.phase && q.regs == p.regs && Added(p.log, q.log, [], spare)
  }
}
