/** Whole runs of the management bus: any sequence of write_reg, read_reg and wdt_pulse calls. */
module Runs {
  import opened Bits
  import opened Pic

  /**
   One call. The host does not drive MDIO during the last nine clocks of a read, so those
   levels are arbitrary as far as the host is concerned: they are the `tail`.
   */
  datatype Op =
    | WriteReg(addr: nat, value: byte)
    | ReadReg(addr: nat, tail: seq<bool>)
    | WdtPulse

  ghost predicate Sound(op: Op) {
    match op
    case WriteReg(addr, _) => addr < 16
    case ReadReg(addr, tail) => addr < 16 && |tail| == 9
    case WdtPulse => true
  }

  ghost predicate AllSound(ops: seq<Op>) {
    forall i | 0 <= i < |ops| :: Sound(ops[i])
  }

  /** The MDIO level at each rising edge the call produces. */
  function Edges(op: Op): seq<bool> {
    match op
    case WriteReg(addr, value) => WriteBits(addr, value)
    case ReadReg(addr, tail) => ReadBits(addr) + tail
    case WdtPulse => [false]
  }

  function Train(ops: seq<Op>): seq<bool> {
    if ops == [] then [] else Edges(ops[0]) + Train(ops[1..])
  }

  /** The meaning of a call, given without the decoder: what it stores and what is reported. */
  function Effect(regs: seq<byte>, op: Op): (after: seq<byte>)
    requires |regs| == 16 && Sound(op)
    ensures |after| == 16
  {
    if op.WriteReg? then regs[op.addr := op.value] else regs
  }

  function Entry(regs: seq<byte>, op: Op): Event
    requires |regs| == 16 && Sound(op)
  {
    match op
    case WriteReg(addr, value) => Wrote(addr, value)
    case ReadReg(addr, _) => Fetched(addr, regs[addr])
    case WdtPulse => Kicked
  }

  function Store(regs: seq<byte>, ops: seq<Op>): (after: seq<byte>)
    requires |regs| == 16 && AllSound(ops)
    ensures |after| == 16
    decreases |ops|
  {
    if ops == [] then regs else Store(Effect(regs, ops[0]), ops[1..])
  }

  function Report(regs: seq<byte>, ops: seq<Op>): seq<Event>
    requires |regs| == 16 && AllSound(ops)
    decreases |ops|
  {
    if ops == [] then [] else [Entry(regs, ops[0])] + Report(Effect(regs, ops[0]), ops[1..])
  }

  lemma ReadTail(p: Pic, addr: nat, tail: seq<bool>)
    requires Ready(p) && addr < 16 && |tail| == 9
    ensures Clocks(p.(phase := Turn(addr)), tail) == p.(log := p.log + [Fetched(addr, p.regs[addr])])
  {
    var turned := p.(phase := Turn(addr));
    var q := Clock(turned, tail[0]);
    assert q == p.(phase := Shift(addr, p.regs[addr], 0));
    ShiftsOut(q, tail[1..]);
  }

  lemma HeadThenTail(p: Pic, head: seq<bool>, addr: nat, tail: seq<bool>)
    requires Ready(p) && addr < 16 && |tail| == 9
    requires Clocks(p, head) == p.(phase := Turn(addr))
    ensures Clocks(p, head + tail) == p.(log := p.log + [Fetched(addr, p.regs[addr])])
  {
    ClocksAppend(p, head, tail);
    ReadTail(p, addr, tail);
  }

  lemma OneRead(p: Pic, addr: nat, tail: seq<bool>)
    requires Ready(p) && addr < 16 && |tail| == 9
    ensures Clocks(p, ReadBits(addr) + tail) == p.(log := p.log + [Fetched(addr, p.regs[addr])])
  {
    hide Rise, Clocks, ReadBits;
    ReadHeader(p, addr);
    HeadThenTail(p, ReadBits(addr), addr, tail);
  }

  lemma OneKick(p: Pic)
    requires Ready(p)
    ensures Clocks(p, [false]) == p.(log := p.log + [Kicked])
  {
    assert Clocks(p, [false]) == Clock(p, false);
  }

  lemma OneCall(p: Pic, op: Op)
    requires Ready(p) && Sound(op)
    ensures Clocks(p, Edges(op)) == p.(regs := Effect(p.regs, op), log := p.log + [Entry(p.regs, op)])
  {
    hide Rise, Clocks;
    match op
    case WriteReg(addr, value) =>
      assert addr % 16 == addr;
      WriteFrame(p, addr, value);
    case ReadReg(addr, tail) =>
      OneRead(p, addr, tail);
    case WdtPulse =>
      OneKick(p);
  }

  lemma Chain(p: Pic, a: seq<bool>, q: Pic, b: seq<bool>, r: Pic)
    requires WellFormed(p) && Clocks(p, a) == q && Clocks(q, b) == r
    ensures Clocks(p, a + b) == r
  {
    ClocksAppend(p, a, b);
  }

  lemma Assoc(a: seq<Event>, b: seq<Event>, c: seq<Event>)
    ensures (a + b) + c == a + (b + c)
  {
  }

  lemma Single(regs: seq<byte>, op: Op)
    requires |regs| == 16 && Sound(op)
    ensures Store(regs, [op]) == Effect(regs, op) && Report(regs, [op]) == [Entry(regs, op)]
  {
    assert [op][1..] == [];
  }

  /** The decoder recovers every run: registers and log are exactly what the calls mean. */
  lemma {:induction false} RunDecodes(p: Pic, ops: seq<Op>)
    requires Ready(p) && AllSound(ops)
    ensures Clocks(p, Train(ops)) == p.(regs := Store(p.regs, ops), log := p.log + Report(p.regs, ops))
    decreases |ops|
  {
    hide Rise, Clocks, Edges, Effect, Entry;
    if ops == [] {
      assert p.log + [] == p.log;
      assert Train(ops) == [];
      NoClocks(p);
    } else {
      OneCall(p, ops[0]);
      var q := p.(regs := Effect(p.regs, ops[0]), log := p.log + [Entry(p.regs, ops[0])]);
      RunDecodes(q, ops[1..]);
      var r := q.(regs := Store(q.regs, ops[1..]), log := q.log + Report(q.regs, ops[1..]));
      Chain(p, Edges(ops[0]), q, Train(ops[1..]), r);
      Assoc(p.log, [Entry(p.regs, ops[0])], Report(q.regs, ops[1..]));
    }
  }

  lemma NoClocks(p: Pic)
    requires WellFormed(p)
    ensures Clocks(p, []) == p
  {
  }

  /** A call with the levels the host did not choose removed. */
  function Plain(op: Op): Op {
    if op.ReadReg? then op.(tail := []) else op
  }

  function PlainAll(ops: seq<Op>): (r: seq<Op>)
    ensures |r| == |ops| && forall i | 0 <= i < |ops| :: r[i] == Plain(ops[i])
  {
    if ops == [] then [] else [Plain(ops[0])] + PlainAll(ops[1..])
  }

  /** The call a log entry stands for. */
  function CallOf(e: Event): Op {
    match e
    case Wrote(addr, value) => WriteReg(addr, value)
    case Fetched(addr, _) => ReadReg(addr, [])
    case Kicked => WdtPulse
  }

  function CallsOf(log: seq<Event>): seq<Op> {
    if log == [] then [] else [CallOf(log[0])] + CallsOf(log[1..])
  }

  lemma {:induction false} ReportNamesCalls(regs: seq<byte>, ops: seq<Op>)
    requires |regs| == 16 && AllSound(ops)
    ensures CallsOf(Report(regs, ops)) == PlainAll(ops)
    decreases |ops|
  {
    if ops != [] {
      var after := Effect(regs, ops[0]);
      ReportNamesCalls(after, ops[1..]);
      assert Report(regs, ops)[1..] == Report(after, ops[1..]);
    }
  }

  /**
   Unique decodability: two runs that look the same on the wires are the same calls, although
   nothing separates one frame from the next and a kick is a single bit.
   */
  lemma UniqueDecoding(ops: seq<Op>, ops': seq<Op>)
    requires AllSound(ops) && AllSound(ops')
    requires Train(ops) == Train(ops')
    ensures PlainAll(ops) == PlainAll(ops')
  {
    var p := Pic(Idle, true, seq(16, i => 0), []);
    RunDecodes(p, ops);
    RunDecodes(p, ops');
    assert p.log + Report(p.regs, ops) == Report(p.regs, ops);
    assert p.log + Report(p.regs, ops') == Report(p.regs, ops');
    ReportNamesCalls(p.regs, ops);
    ReportNamesCalls(p.regs, ops');
  }

  /** A write takes sixteen rising edges, a read seventeen and a kick one. */
  lemma EdgeCounts(op: Op)
    requires Sound(op)
    ensures |Edges(op)| == if op.WriteReg? then 16 else if op.ReadReg? then 17 else 1
  {
  }

  /** The last byte written to `addr`, or `initial` if the run never wrote it. */
  function LastWritten(ops: seq<Op>, addr: nat, initial: byte): byte {
    if ops == [] then initial
    else
      var last := ops[|ops| - 1];
      if last.WriteReg? && last.addr == addr then last.value
      else LastWritten(ops[..|ops| - 1], addr, initial)
  }

  lemma {:induction false} StoreSplits(regs: seq<byte>, a: seq<Op>, b: seq<Op>)
    requires |regs| == 16 && AllSound(a) && AllSound(b)
    ensures AllSound(a + b)
    ensures Store(regs, a + b) == Store(Store(regs, a), b)
    ensures Report(regs, a + b) == Report(regs, a) + Report(Store(regs, a), b)
    decreases |a|
  {
    if a == [] {
      assert a + b == b;
    } else {
      assert (a + b)[0] == a[0] && (a + b)[1..] == a[1..] + b;
      StoreSplits(Effect(regs, a[0]), a[1..], b);
    }
  }

  lemma {:induction false} StoreKeepsLast(regs: seq<byte>, ops: seq<Op>, addr: nat)
    requires |regs| == 16 && AllSound(ops) && addr < 16
    ensures Store(regs, ops)[addr] == LastWritten(ops, addr, regs[addr])
    decreases |ops|
  {
    if ops != [] {
      var n := |ops| - 1;
      StoreKeepsLast(regs, ops[..n], addr);
      StoreSplits(regs, ops[..n], [ops[n]]);
      assert ops == ops[..n] + [ops[n]];
      assert [ops[n]][1..] == [];
    }
  }

  /** A read at any point of any run reports the last byte the run wrote to that address before it. */
  lemma ReadSeesLastWrite(p: Pic, before: seq<Op>, addr: nat, tail: seq<bool>, rest: seq<Op>)
    requires Ready(p) && AllSound(before) && AllSound(rest) && addr < 16 && |tail| == 9
    ensures var ops := before + [ReadReg(addr, tail)] + rest;
            AllSound(ops)
            && Clocks(p, Train(ops)).log
               == p.log + Report(p.regs, before) + [Fetched(addr, LastWritten(before, addr, p.regs[addr]))]
                  + Report(Store(p.regs, before), rest)
  {
    hide Rise, Clocks, Edges, Train, Store, Report;
    var read := [ReadReg(addr, tail)];
    var after := Store(p.regs, before);
    StoreSplits(p.regs, before, read);
    StoreSplits(p.regs, before + read, rest);
    StoreKeepsLast(p.regs, before, addr);
    Single(after, read[0]);
    RunDecodes(p, before + read + rest);
    Assoc(p.log, Report(p.regs, before) + [Fetched(addr, after[addr])], Report(after, rest));
    Assoc(p.log, Report(p.regs, before), [Fetched(addr, after[addr])]);
  }
}
