/**
 The Intel-chipset boards: a four-bit command is put on two software pins of each port of the
 pair, and the watchdog has eight fixed timeouts.
 */
module Intel {
  import opened Bits
  import opened Pins
  import opened Wires
  import opened Watchdog

  const CMND_OFF_INT := 0xf
  const PWROFF_BYPASS_ON_INT := 0x5
  const BYPASS_ON_INT := 0x6
  const DIS_BYPASS_CAP_INT := 0x4
  const RESET_WDT_INT := 0x1

  /** The pins used: SDP0 in CTRL and SDP6 in CTRL_EXT. */
  const SDP0: bv32 := SWDPIO0 | SWDPIN0
  const SDP6: bv32 := SDP6_DIR | SDP6_DATA

  datatype Port = Port(ctrl: bv32, ctrlExt: bv32)

  /** The level a pin is driven to. */
  predicate Pin(r: bv32, dir: bv32, data: bv32) {
    Has(r, dir) && Has(r, data)
  }

  ghost predicate Driven(p: Port) {
    Has(p.ctrl, SWDPIO0) && Has(p.ctrlExt, SDP6_DIR)
  }

  function Digit(b: bool): nat {
    if b then 1 else 0
  }

  /** The command the four pins of a pair show. */
  function Shown(a: Port, b: Port): (n: nat)
    ensures n < 16
  {
    Digit(Pin(a.ctrl, SWDPIO0, SWDPIN0)) + 2 * Digit(Pin(a.ctrlExt, SDP6_DIR, SDP6_DATA))
    + 4 * Digit(Pin(b.ctrl, SWDPIO0, SWDPIN0)) + 8 * Digit(Pin(b.ctrlExt, SDP6_DIR, SDP6_DATA))
  }

  ghost predicate SameOtherwise(p: Port, q: Port) {
    Agree(p.ctrl, q.ctrl, SDP0) && Agree(p.ctrlExt, q.ctrlExt, SDP6)
  }

  /** What three assignments leave in a register amounts to one masked write. */
  lemma HighMerges(r: bv32, dir: bv32, data: bv32)
    ensures ((r | dir) & !data) | data == (r | (dir | data)) & !0
  {
  }

  /** A pin after it has been made an output and its data bit written. */
  ghost predicate Written(r: bv32, r': bv32, dir: bv32, data: bv32, level: bool, pin: bv32) {
    Has(r', dir) && Has(r', data) == level && Agree(r', r, pin)
  }

  lemma MergeWrites(w: RegWrite, r: bv32, dir: bv32, data: bv32, level: bool, pin: bv32)
    requires dir != 0 && data != 0 && w.ones & dir == dir && w.zeros & dir == 0
    requires if level then w.ones & data == data && w.zeros & data == 0 else w.zeros & data == data
    requires (w.ones | w.zeros) & !pin == 0
    ensures Written(r, Merge(w, r), dir, data, level, pin)
  {
    hide Has, Agree, Merge;
    MaskedAgrees(w, r, pin);
    WriteSetsOrClears(w, r, dir, true);
    WriteSetsOrClears(w, r, data, level);
  }

  lemma Sdp0High(r: bv32)
    ensures Written(r, ((r | SWDPIO0) & !SWDPIN0) | SWDPIN0, SWDPIO0, SWDPIN0, true, SDP0)
  {
    HighMerges(r, SWDPIO0, SWDPIN0);
    var w := RegWrite(Ctrl, SWDPIO0 | SWDPIN0, 0);
    assert ((r | SWDPIO0) & !SWDPIN0) | SWDPIN0 == Merge(w, r);
    hide Written, Merge;
    MergeWrites(w, r, SWDPIO0, SWDPIN0, true, SDP0);
  }

  lemma Sdp0Low(r: bv32)
    ensures Written(r, (r | SWDPIO0) & !SWDPIN0, SWDPIO0, SWDPIN0, false, SDP0)
  {
    var w := RegWrite(Ctrl, SWDPIO0, SWDPIN0);
    assert (r | SWDPIO0) & !SWDPIN0 == Merge(w, r);
    hide Written, Merge;
    MergeWrites(w, r, SWDPIO0, SWDPIN0, false, SDP0);
  }

  lemma Sdp6High(r: bv32)
    ensures Written(r, ((r | SDP6_DIR) & !SDP6_DATA) | SDP6_DATA, SDP6_DIR, SDP6_DATA, true, SDP6)
  {
    HighMerges(r, SDP6_DIR, SDP6_DATA);
    var w := RegWrite(CtrlExt, SDP6_DIR | SDP6_DATA, 0);
    assert ((r | SDP6_DIR) & !SDP6_DATA) | SDP6_DATA == Merge(w, r);
    hide Written, Merge;
    MergeWrites(w, r, SDP6_DIR, SDP6_DATA, true, SDP6);
  }

  lemma Sdp6Low(r: bv32)
    ensures Written(r, (r | SDP6_DIR) & !SDP6_DATA, SDP6_DIR, SDP6_DATA, false, SDP6)
  {
    var w := RegWrite(CtrlExt, SDP6_DIR, SDP6_DATA);
    assert (r | SDP6_DIR) & !SDP6_DATA == Merge(w, r);
    hide Written, Merge;
    MergeWrites(w, r, SDP6_DIR, SDP6_DATA, false, SDP6);
  }

  /** The listed timeouts; the 0 ends the table. */
  const WDT_VALUES: seq<nat> := [1000, 1500, 2000, 3000, 4000, 8000, 16000, 32000, 0]

  predicate Listed(t: nat) {
    t != 0 && t in WDT_VALUES
  }

  /** What the far end sees of `n` kicks: a kick is RESET_WDT followed by CMND_OFF. */
  function KickPairs(n: nat): seq<nat> {
    if n == 0 then [] else KickPairs(n - 1) + [RESET_WDT_INT, CMND_OFF_INT]
  }

  /** A pair of ports, and the commands that have been on their pins. */
  class Pair {
    const hasPeer: bool
    var a: Port
    var b: Port
    var received: seq<nat>
    var wdtBusy: bool
    var wdtStatus: int
    var interval: u32
    var onTime: u64          // bypass_wdt_on_time
    var jiffies: u64
    var times: seq<u64>      // when each of the received commands was complete

    ghost predicate Ok()
      reads this
    {
      |times| == |received|
    }

    constructor (hasPeer: bool, a: Port, b: Port, jiffies: u64)
      ensures Ok() && this.hasPeer == hasPeer && this.a == a && this.b == b && received == [] && !wdtBusy
      ensures this.jiffies == jiffies && wdtStatus == WDT_STATUS_UNKNOWN
    {
      this.hasPeer, this.a, this.b, this.received, this.wdtBusy := hasPeer, a, b, [], false;
      this.wdtStatus, this.interval, this.onTime, this.jiffies, this.times := WDT_STATUS_UNKNOWN, 0, 0, jiffies, [];
    }

    /** Any number of ticks go by. */
    method Pass()
      modifies this`jiffies
    {
      var ticks: nat := *;
      jiffies := (jiffies + ticks) % U64;
    }

    /** The writes to CTRL: make the pin an output, clear its bit, add the value's. */
    method WriteSdp0(ctrl: bv32, level: bool) returns (value: bv32)
      ensures Written(ctrl, value, SWDPIO0, SWDPIN0, level, SDP0)
    {
      hide Written;
      if level {
        Sdp0High(ctrl);
        value := ((ctrl | SWDPIO0) & !SWDPIN0) | SWDPIN0;
      } else {
        Sdp0Low(ctrl);
        value := (ctrl | SWDPIO0) & !SWDPIN0;
      }
    }

    method WriteSdp6(ctrlExt: bv32, level: bool) returns (value: bv32)
      ensures Written(ctrlExt, value, SDP6_DIR, SDP6_DATA, level, SDP6)
    {
      hide Written;
      if level {
        Sdp6High(ctrlExt);
        value := ((ctrlExt | SDP6_DIR) & !SDP6_DATA) | SDP6_DATA;
      } else {
        Sdp6Low(ctrlExt);
        value := (ctrlExt | SDP6_DIR) & !SDP6_DATA;
      }
    }

    /** write_data_port_int. */
    method WriteDataPort(p: Port, value: byte) returns (q: Port)
      ensures Driven(q) && SameOtherwise(q, p)
      ensures Has(q.ctrl, SWDPIN0) == BitAt(value, 0) && Has(q.ctrlExt, SDP6_DATA) == BitAt(value, 1)
    {
      var low := WriteSdp0(p.ctrl, BitAt(value, 0));
      var high := WriteSdp6(p.ctrlExt, BitAt(value, 1));
      hide Has, Agree, BitAt;
      q := Port(low, high);
    }

    /** write_data_int: the low half of the nibble on this port, the high half on its partner. */
    method WriteData(value: byte) returns (ret: int)
      requires Ok()
      modifies this`a, this`b, this`received, this`times, this`wdtBusy
      ensures Ok()
      ensures times == old(times) + if hasPeer then [jiffies] else []
      ensures ret == if hasPeer then 0 else -1
      ensures !hasPeer ==> a == old(a) && b == old(b) && received == old(received) && wdtBusy == old(wdtBusy)
      ensures hasPeer ==> Shown(a, b) == value % 16 && received == old(received) + [value % 16] && !wdtBusy
      ensures hasPeer ==> Driven(a) && Driven(b) && SameOtherwise(a, old(a)) && SameOtherwise(b, old(b))
    {
      hide Has, SameOtherwise;
      assert times + [] == times;
      if !hasPeer {
        return -1;
      }
      wdtBusy := true;
      a := WriteDataPort(a, value % 4);
      b := WriteDataPort(b, value / 4 % 4);
      wdtBusy := false;
      Recombine(value);
      received := received + [Shown(a, b)];
      times := times + [jiffies];
      ret := 0;
    }

    /** wdt_pulse_int: a kick is RESET_WDT followed by CMND_OFF; an enabled watchdog counts anew from its end. */
    method WdtPulse() returns (ret: int)
      requires Ok()
      modifies this`a, this`b, this`received, this`times, this`wdtBusy, this`jiffies, this`onTime
      ensures Ok()
      ensures ret == if old(wdtBusy) || !hasPeer then -1 else 0
      ensures received == old(received) + if ret == 0 then [RESET_WDT_INT, CMND_OFF_INT] else []
      ensures onTime == if ret == 0 && wdtStatus == WDT_STATUS_EN then jiffies else old(onTime)
      ensures wdtBusy == old(wdtBusy) && old(times) <= times
    {
      hide Has, SameOtherwise, Shown;
      assert received + [] == received;
      if wdtBusy {
        return -1;
      }
      var r := WriteData(RESET_WDT_INT);
      if r < 0 {
        return -1;
      }
      Pass();
      r := WriteData(CMND_OFF_INT);
      if r < 0 {
        return -1;
      }
      Pass();
      if wdtStatus == WDT_STATUS_EN {
        onTime := jiffies;
      }
      return 0;
    }

    /** The timer kicks through the partner port, and only a watchdog that is neither off nor unknown. */
    predicate TimerKicks()
      reads this
    {
      hasPeer && wdtStatus != WDT_STATUS_DIS && wdtStatus != WDT_STATUS_UNKNOWN
    }

    /**
     The milliseconds a command is given. The busy flag is down meanwhile, so the timer may run and
     kick, over and over.
     */
    method Delay() returns (ghost kicks: nat)
      requires Ok() && !wdtBusy
      modifies this`a, this`b, this`received, this`times, this`wdtBusy, this`jiffies, this`onTime
      ensures Ok() && !wdtBusy && received == old(received) + KickPairs(kicks) && old(times) <= times
      ensures kicks == 0 ==> onTime == old(onTime)
      ensures !TimerKicks() ==> kicks == 0 && received == old(received) && times == old(times)
    {
      kicks := 0;
      Pass();
      var fires: nat := *;
      while fires > 0
        invariant Ok() && !wdtBusy && received == old(received) + KickPairs(kicks) && old(times) <= times
        invariant kicks == 0 ==> onTime == old(onTime)
        invariant !TimerKicks() ==> kicks == 0 && received == old(received) && times == old(times)
      {
        if wdtStatus != WDT_STATUS_DIS && wdtStatus != WDT_STATUS_UNKNOWN {
          var ret := WdtPulse();
          if ret == 0 {
            kicks := kicks + 1;
          }
        }
        Pass();
        fires := fires - 1;
      }
    }

    /** The table search of wdt_on. */
    method Search(timeout: u32) returns (code: byte, chosen: nat)
      ensures Chosen(timeout, chosen) && CodeOf(chosen) == code
      ensures 7 <= code <= 14 && WDT_VALUES[code - 7] == chosen
    {
      var i := 0;
      while WDT_VALUES[i] != 0
        invariant 0 <= i <= 8
        invariant forall j | 0 <= j < i :: WDT_VALUES[j] < timeout
        decreases 8 - i
      {
        if timeout <= WDT_VALUES[i] {
          break;
        }
        i := i + 1;
      }
      assert i == 8 <==> WDT_VALUES[i] == 0;
      if WDT_VALUES[i] == 0 {
        i := i - 1;
      }
      chosen := WDT_VALUES[i];
      code := i + 7;
      assert Listed(chosen);
      forall v | Listed(v) && timeout <= v ensures chosen <= v {
        var j :| 0 <= j < 9 && WDT_VALUES[j] == v;
      }
    }

    /** The two commands of wdt_on, sent while the watchdog is taken to be off. */
    method SendTimeout(code: byte)
      requires Ok() && !wdtBusy && !TimerKicks() && code < 16
      modifies this`a, this`b, this`received, this`times, this`wdtBusy, this`jiffies, this`onTime
      ensures Ok() && !wdtBusy
      ensures received == old(received) + if hasPeer then [DIS_BYPASS_CAP_INT, code] else []
      ensures hasPeer ==> onTime == times[|times| - 1]
    {
      hide Has, Driven, SameOtherwise, Shown, KickPairs;
      assert received + [] == received;
      var r := WriteData(DIS_BYPASS_CAP_INT);
      ghost var k := Delay();
      r := WriteData(code);
      onTime := jiffies;
      k := Delay();
    }

    /**
     wdt_on: the watchdog counts from the moment its command is on the pins, and the timer does not
     come between, the watchdog being off until the end. The partner missing, nothing is sent, and yet
     the driver records it as set.
     */
    method WdtOn(timeout: u32)
      requires Ok() && !wdtBusy
      modifies this
      ensures Ok() && !wdtBusy
      ensures Chosen(timeout, interval) && wdtStatus == WDT_STATUS_EN
      ensures received == old(received) + if hasPeer then [DIS_BYPASS_CAP_INT, CodeOf(interval)] else []
      ensures hasPeer ==> onTime == times[|times| - 1]
    {
      hide Chosen, CodeOf, KickPairs;
      wdtStatus := WDT_STATUS_DIS;
      var code, chosen := Search(timeout);
      ChosenFits(timeout, chosen);
      SendTimeout(code);
      interval := chosen;
      wdtStatus := WDT_STATUS_EN;
    }

    /**
     wdt_off: bypass mode is left, which takes two commands. The watchdog is on until the end, so the
     timer may kick `k` times after the first command and `l` times after the second.
     */
    method WdtOff() returns (ghost k: nat, ghost l: nat)
      requires Ok() && !wdtBusy
      modifies this
      ensures Ok() && !wdtBusy && wdtStatus == WDT_STATUS_DIS && interval == old(interval)
      ensures received == old(received)
           + if hasPeer then [DIS_BYPASS_CAP_INT] + KickPairs(k) + [PWROFF_BYPASS_ON_INT] + KickPairs(l) else []
      ensures !old(TimerKicks()) ==> k == 0 && l == 0
      ensures k == 0 && l == 0 ==> onTime == old(onTime)
    {
      hide Has, Driven, SameOtherwise, Shown, KickPairs;
      assert received + [] == received;
      var r := WriteData(DIS_BYPASS_CAP_INT);
      k := Delay();
      r := WriteData(PWROFF_BYPASS_ON_INT);
      l := Delay();
      wdtStatus := WDT_STATUS_DIS;
    }

    /** cmnd_off, with the kicks that may come before and after it. */
    method CmndOff() returns (ghost k: nat, ghost l: nat)
      requires Ok() && !wdtBusy
      modifies this`a, this`b, this`received, this`times, this`wdtBusy, this`jiffies, this`onTime
      ensures Ok() && !wdtBusy && old(times) <= times
      ensures received == old(received) + if hasPeer then KickPairs(k) + [CMND_OFF_INT] + KickPairs(l) else []
      ensures !TimerKicks() ==> k == 0 && l == 0
      ensures k == 0 && l == 0 ==> onTime == old(onTime)
    {
      hide Has, Driven, SameOtherwise, Shown, KickPairs;
      assert received + [] == received;
      k := Delay();
      var r := WriteData(CMND_OFF_INT);
      l := Delay();
    }

    /**
     set_bypass_wd_fn; the interval is returned whether or not anything could be sent. After a wdt_on
     the timer may kick before and after the closing command, inside a wdt_off between its commands.
     */
    method SetBypassWd(timeout: u32) returns (ret: int, ghost k: nat, ghost l: nat)
      requires Ok() && !wdtBusy
      modifies this
      ensures Ok() && !wdtBusy
      ensures timeout == 0 ==> ret == 0 && wdtStatus == WDT_STATUS_DIS && interval == old(interval)
      ensures timeout != 0 ==> ret == interval && Chosen(timeout, interval) && wdtStatus == WDT_STATUS_EN
      ensures received == old(received)
           + if !hasPeer then []
             else if timeout == 0
             then [DIS_BYPASS_CAP_INT] + KickPairs(k) + [PWROFF_BYPASS_ON_INT] + KickPairs(l) + [CMND_OFF_INT]
             else [DIS_BYPASS_CAP_INT, CodeOf(interval)] + KickPairs(k) + [CMND_OFF_INT] + KickPairs(l)
      ensures timeout != 0 && hasPeer && k == 0 && l == 0 ==> onTime == times[|old(times)| + 1]
    {
      assert KickPairs(0) == [] && received + [] == received;
      hide Chosen, CodeOf, KickPairs;
      if timeout == 0 {
        k, l := WdtOff();
        ret := 0;
        ghost var none, nor := CmndOff();
      } else {
        WdtOn(timeout);
        ret := interval;
        k, l := CmndOff();
      }
    }
  }

  lemma Recombine(value: byte)
    ensures Digit(BitAt(value % 4, 0)) + 2 * Digit(BitAt(value % 4, 1))
            + 4 * Digit(BitAt(value / 4 % 4, 0)) + 8 * Digit(BitAt(value / 4 % 4, 1)) == value % 16
  {
    SmallPowers();
    TwoDigits(value % 4);
    TwoDigits(value / 4 % 4);
  }

  lemma TwoDigits(v: nat)
    requires v < 4
    ensures Digit(BitAt(v, 0)) + 2 * Digit(BitAt(v, 1)) == v
  {
    SmallPowers();
    assert v in {0, 1, 2, 3};
  }

  /** The least listed timeout that covers the request, or the longest there is. */
  ghost predicate Chosen(timeout: u32, chosen: nat) {
    && Listed(chosen)
    && (if timeout <= 32000 then timeout <= chosen else chosen == 32000)
    && (forall v | Listed(v) && timeout <= v :: chosen <= v)
  }

  lemma ChosenFits(timeout: u32, chosen: nat)
    requires Chosen(timeout, chosen)
    ensures chosen <= 32000
  {
  }

  /** The command that stands for a listed timeout: its place in the table, from 7. */
  function CodeOf(t: nat): byte {
    if t <= 1000 then 7 else if t <= 1500 then 8 else if t <= 2000 then 9 else if t <= 3000 then 10
    else if t <= 4000 then 11 else if t <= 8000 then 12 else if t <= 16000 then 13 else 14
  }

  /** The code of a listed timeout is its place in the table, counted from 7. */
  lemma CodeIsPlace(t: nat, code: byte)
    requires Listed(t)
    ensures CodeOf(t) == code <==> 7 <= code <= 14 && WDT_VALUES[code - 7] == t
  {
    assert t in {1000, 1500, 2000, 3000, 4000, 8000, 16000, 32000};
    if 7 <= code <= 14 {
      assert code - 7 in {0, 1, 2, 3, 4, 5, 6, 7};
    }
  }

  /** Timeout codes are nibbles, differ from each other, and cannot be taken for another Intel command. */
  lemma CodesDisjoint(t: nat, t': nat)
    requires Listed(t) && Listed(t')
    ensures CodeOf(t) < 16
    ensures CodeOf(t) !in {CMND_OFF_INT, PWROFF_BYPASS_ON_INT, BYPASS_ON_INT, DIS_BYPASS_CAP_INT, RESET_WDT_INT}
    ensures CodeOf(t) == CodeOf(t') <==> t == t'
  {
    assert t in {1000, 1500, 2000, 3000, 4000, 8000, 16000, 32000};
    assert t' in {1000, 1500, 2000, 3000, 4000, 8000, 16000, 32000};
  }

  /** The choice is unique, monotone, and leaves listed timeouts alone. */
  lemma ChosenMonotone(a: u32, b: u32, ca: nat, cb: nat)
    requires a <= b && Chosen(a, ca) && Chosen(b, cb)
    ensures ca <= cb && (a == b ==> ca == cb) && (Listed(a) ==> ca == a)
  {
  }
}
