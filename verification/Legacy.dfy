/**
 The interface of the oldest parts: a command is a number of SDP7 pulses while SDP6 is high, and
 a watchdog kick is a pulse while SDP6 is low. The far end counts; the timer may try to kick
 before any register access of a command.
 */
module Legacy {
  import opened Bits
  import opened Pins
  import opened Watchdog
  import opened Wires

  datatype Event = Command(pulses: nat) | Kick

  /** The far end: the levels it last saw, and the pulses counted while SDP6 has been high. */
  datatype Counter = Counter(sdp6: bool, sdp7: bool, pulses: nat, log: seq<Event>)

  function Seen(c: Counter, sdp6: bool, sdp7: bool): Counter {
    var rise := !c.sdp7 && sdp7;
    if c.sdp6 && !sdp6 then Counter(false, sdp7, 0, c.log + [Command(c.pulses)] + if rise then [Kick] else [])
    else if sdp6 then Counter(true, sdp7, (if c.sdp6 then c.pulses else 0) + if rise then 1 else 0, c.log)
    else Counter(false, sdp7, 0, c.log + if rise then [Kick] else [])
  }

  /** The numbers received, kicks left out. */
  function Received(log: seq<Event>): seq<nat> {
    if log == [] then []
    else
      var n := |log| - 1;
      Received(log[..n]) + if log[n].Command? then [log[n].pulses] else []
  }

  lemma ReceivedStep(log: seq<Event>, e: Event)
    ensures Received(log + [e]) == Received(log) + if e.Command? then [e.pulses] else []
  {
    assert (log + [e])[..|log|] == log;
  }

  predicate Sdp6(r: bv32) {
    Has(r, SDP6_DIR) && Has(r, SDP6_DATA)
  }

  predicate Sdp7(r: bv32) {
    Has(r, SDP7_DIR) && Has(r, SDP7_DATA)
  }

  const LINES: bv32 := SDP6_DIR | SDP6_DATA | SDP7_DIR | SDP7_DATA

  /** Both lines driven: the same bits as a bus step of the parts that keep both bus wires in CTRL_EXT. */
  function Levels(sdp6: bool, sdp7: bool): RegWrite {
    Pins.Drive(OneGig, sdp6, sdp7)[0]
  }

  /** Only SDP7 driven. */
  function Pulse(sdp7: bool): RegWrite {
    if sdp7 then RegWrite(CtrlExt, SDP7_DIR | SDP7_DATA, 0) else RegWrite(CtrlExt, SDP7_DIR, SDP7_DATA)
  }

  lemma LevelsShow(base: bv32, sdp6: bool, sdp7: bool)
    ensures var r := Merge(Levels(sdp6, sdp7), base); Sdp6(r) == sdp6 && Sdp7(r) == sdp7 && Agree(r, base, LINES)
  {
    var w := Levels(sdp6, sdp7);
    DriveConfined(OneGig, sdp6, sdp7);
    assert Confined(OneGig, w) && PinMask(OneGig, w.reg) == LINES;
    hide Has, Merge, Agree, Confined, Pins.Drive, PinMask;
    DriveBits(OneGig, w, base, sdp6, sdp7);
    ConfinedAgrees(OneGig, w, base);
  }

  lemma SameBit(a: bv32, b: bv32, bit: bv32)
    requires a & bit == b & bit
    ensures Has(a, bit) == Has(b, bit)
  {
  }

  /** Only SDP7 is written, so SDP6 stays as it was. */
  lemma PulseKeepsSdp6(base: bv32, sdp7: bool)
    ensures Merge(Pulse(sdp7), base) & SDP6_DIR == base & SDP6_DIR
    ensures Merge(Pulse(sdp7), base) & SDP6_DATA == base & SDP6_DATA
  {
    if sdp7 {
      assert Merge(Pulse(true), base) == (base | 0x880) & !0;
    } else {
      assert Merge(Pulse(false), base) == (base | 0x800) & !0x80;
    }
  }

  lemma PulseMasks(sdp7: bool)
    ensures var w := Pulse(sdp7);
            && (w.ones | w.zeros) & !LINES == 0
            && w.ones & SDP7_DIR == SDP7_DIR && w.zeros & SDP7_DIR == 0
            && if sdp7 then w.ones & SDP7_DATA == SDP7_DATA && w.zeros & SDP7_DATA == 0
               else w.zeros & SDP7_DATA == SDP7_DATA
  {
    if sdp7 {
      assert Pulse(true).ones == 0x880;
    } else {
      assert Pulse(false).zeros == 0x80;
    }
  }

  lemma PulseShows(base: bv32, sdp7: bool)
    ensures var r := Merge(Pulse(sdp7), base); Sdp6(r) == Sdp6(base) && Sdp7(r) == sdp7 && Agree(r, base, LINES)
  {
    var w := Pulse(sdp7);
    PulseMasks(sdp7);
    PulseKeepsSdp6(base, sdp7);
    hide Has, Merge, Agree, Pulse;
    MaskedAgrees(w, base, LINES);
    SameBit(Merge(w, base), base, SDP6_DIR);
    SameBit(Merge(w, base), base, SDP6_DATA);
    WriteSetsOrClears(w, base, SDP7_DIR, true);
    WriteSetsOrClears(w, base, SDP7_DATA, sdp7);
  }

  class OldPort {
    const hz: nat
    var ctrlExt: bv32
    var far: Counter
    var busy: bool
    var w: Wd                // the watchdog as the driver records it
    var jiffies: u64

    ghost predicate Ok()
      reads this
    {
      hz > 0 && far.sdp6 == Sdp6(ctrlExt) && far.sdp7 == Sdp7(ctrlExt)
    }

    /** Outside a command SDP6 is low. */
    ghost predicate Quiet()
      reads this
    {
      Ok() && !Sdp6(ctrlExt)
    }

    constructor (hz: nat, ctrlExt: bv32, w: Wd, jiffies: u64)
      requires hz > 0
      ensures this.hz == hz && this.ctrlExt == ctrlExt && this.w == w && this.jiffies == jiffies && !busy && Ok()
    {
      this.hz, this.ctrlExt, this.busy, this.w, this.jiffies := hz, ctrlExt, false, w, jiffies;
      this.far := Counter(Sdp6(ctrlExt), Sdp7(ctrlExt), 0, []);
    }

    method Write(value: bv32)
      requires hz > 0
      modifies this`ctrlExt, this`far
      ensures ctrlExt == value && Ok()
      ensures far == Seen(old(far), Sdp6(value), Sdp7(value))
    {
      ctrlExt := value;
      far := Seen(far, Sdp6(value), Sdp7(value));
    }

    /**
     send_wdt_pulse: one kick, or nothing while a command is being sent. An enabled watchdog is first
     looked at, and restarted if it has not expired. The second write starts from the same base as
     the first.
     */
    method SendWdtPulse() returns (ret: int)
      requires !busy ==> Quiet()
      requires Ok()
      modifies this`ctrlExt, this`far, this`w
      ensures ret == if busy then -1 else 0
      ensures busy ==> ctrlExt == old(ctrlExt) && far == old(far) && w == old(w)
      ensures !busy ==> Quiet() && !Sdp7(ctrlExt)
      ensures !busy ==> w == Reloaded(TimeLeft(hz, old(w), jiffies).1, jiffies, true)
      ensures !busy && !old(far).sdp7 ==> far.log == old(far.log) + [Kick]
      ensures Received(far.log) == Received(old(far.log))
      ensures Agree(ctrlExt, old(ctrlExt), LINES)
    {
      hide Sdp6, Sdp7, Received, Merge, Agree, TimeLeft;
      AgreeReflexive(ctrlExt, LINES);
      if busy {
        return -1;
      }
      w := TimeLeft(hz, w, jiffies).1;
      var base := ctrlExt;
      PulseShows(base, true);
      PulseShows(base, false);
      ReceivedStep(far.log, Kick);
      assert far.log + [] == far.log;
      Write(Merge(Pulse(true), base));
      assert far.log + [] == far.log;
      Write(Merge(Pulse(false), base));
      w := Reloaded(w, jiffies, true);
      return 0;
    }

    /** Time passes, and the timer may kick, any number of times. */
    method Preempt()
      requires Ok() && (!busy ==> Quiet())
      modifies this`ctrlExt, this`far, this`w, this`jiffies
      ensures Ok() && (!busy ==> Quiet())
      ensures busy ==> ctrlExt == old(ctrlExt) && far == old(far) && w == old(w)
      ensures Expiring(old(w), w)
      ensures Received(far.log) == Received(old(far.log))
      ensures Agree(ctrlExt, old(ctrlExt), LINES)
    {
      hide Sdp6, Sdp7, Received, Agree, TimeLeft;
      AgreeReflexive(ctrlExt, LINES);
      var n: nat := *;
      while n > 0
        invariant Ok() && (!busy ==> Quiet())
        invariant busy ==> ctrlExt == old(ctrlExt) && far == old(far) && w == old(w)
        invariant Expiring(old(w), w)
        invariant Received(far.log) == Received(old(far.log))
        invariant Agree(ctrlExt, old(ctrlExt), LINES)
      {
        ghost var before := ctrlExt;
        var ticks: nat := *;
        jiffies := (jiffies + ticks) % U64;
        LookExpires(hz, w, jiffies);
        var ret := SendWdtPulse();
        AgreeTransitive(ctrlExt, before, old(ctrlExt), LINES);
        n := n - 1;
      }
      var ticks: nat := *;
      jiffies := (jiffies + ticks) % U64;
    }

    /** One register write of a command. */
    method Drive(base: bv32, sdp6: bool, sdp7: bool)
      requires Ok() && busy
      modifies this`ctrlExt, this`far, this`w, this`jiffies
      ensures Ok() && w == old(w) && Sdp6(ctrlExt) == sdp6 && Sdp7(ctrlExt) == sdp7
      ensures far == Seen(old(far), sdp6, sdp7)
      ensures Agree(ctrlExt, base, LINES)
    {
      hide Sdp6, Sdp7, Merge, Agree, Levels;
      Preempt();
      LevelsShow(base, sdp6, sdp7);
      Write(Merge(Levels(sdp6, sdp7), base));
    }

    /**
     data_pulse: whatever the timer tries, the far end receives exactly the number sent, both lines
     end low, and no other bit of CTRL_EXT has changed. An enabled watchdog is looked at before, and
     one that is still enabled is restarted at the end.
     */
    method DataPulse(value: byte)
      requires Quiet() && !busy
      modifies this
      ensures Quiet() && !busy && !Sdp7(ctrlExt)
      ensures Received(far.log) == Received(old(far.log)) + [value]
      ensures Agree(ctrlExt, old(ctrlExt), LINES)
      ensures Expiring(TimeLeft(hz, old(w), old(jiffies)).1, w)
      ensures w.status == WDT_STATUS_EN ==> w.onTime == jiffies
    {
      hide Sdp6, Sdp7, Received, Agree, TimeLeft;
      w := TimeLeft(hz, w, jiffies).1;
      Preempt();
      busy := true;
      Preempt();
      var base := ctrlExt;
      ghost var log, looked := far.log, w;
      assert log + [] == log;
      ReceivedStep(log, Command(value));
      Drive(base, false, false);
      Drive(base, true, false);
      var left: nat := value;
      while left > 0
        invariant left <= value
        invariant Ok() && busy && Agree(ctrlExt, base, LINES) && w == looked
        invariant far == Counter(true, false, value - left, log)
      {
        Drive(base, true, true);
        Drive(base, true, false);
        left := left - 1;
      }
      Drive(base, false, false);
      assert far.log == log + [Command(value)];
      AgreeTransitive(ctrlExt, base, old(ctrlExt), LINES);
      w := Reloaded(w, jiffies, true);
      busy := false;
    }

    /** Any sequence of commands comes out as sent. */
    method SendAll(values: seq<byte>)
      requires Quiet() && !busy
      modifies this
      ensures Quiet() && !busy
      ensures Received(far.log) == Received(old(far.log)) + values
      ensures Agree(ctrlExt, old(ctrlExt), LINES)
    {
      hide Sdp6, Sdp7, Received, Agree;
      AgreeReflexive(ctrlExt, LINES);
      var i := 0;
      while i < |values|
        invariant 0 <= i <= |values| && Quiet() && !busy
        invariant Received(far.log) == Received(old(far.log)) + values[..i]
        invariant Agree(ctrlExt, old(ctrlExt), LINES)
      {
        ghost var before := ctrlExt;
        DataPulse(values[i]);
        AgreeTransitive(ctrlExt, before, old(ctrlExt), LINES);
        assert values[..i + 1] == values[..i] + [values[i]];
        i := i + 1;
      }
      assert values[..|values|] == values;
    }
  }

  /** Nothing but a restart or an expiry, of a watchdog that was enabled. */
  ghost predicate Expiring(w: Wd, w': Wd) {
    && w'.interval == w.interval
    && (w.status != WDT_STATUS_EN ==> w' == w)
    && (w.status == WDT_STATUS_EN ==> w'.status == WDT_STATUS_EN || w'.status == WDT_STATUS_EXP)
  }

  lemma LookExpires(hz: nat, w: Wd, now: u64)
    requires hz > 0
    ensures Expiring(w, TimeLeft(hz, w, now).1) && Expiring(w, Reloaded(TimeLeft(hz, w, now).1, now, true))
  {
    hide JiffiesToMsecs, DeltaTime;
  }

  // ----- what the busy flag is for -----

  /** Kicks by a driver that did not look at the flag: SDP7 up and down, SDP6 as it is. */
  function Kicked(c: Counter, n: nat): Counter
    decreases n
  {
    if n == 0 then c else Kicked(Seen(Seen(c, c.sdp6, true), c.sdp6, false), n - 1)
  }

  /** Where such kicks fall within one pulse of a command: before SDP7 rises, and while it is high. */
  datatype Slot = Slot(low: nat, high: nat)

  /** The pulses of a command as the far end sees them, kicks and all. */
  function Unguarded(c: Counter, slots: seq<Slot>): Counter
    decreases |slots|
  {
    if slots == [] then c
    else
      var up := Kicked(Seen(Kicked(c, slots[0].low), true, true), slots[0].high);
      Unguarded(Seen(up, true, false), slots[1..])
  }

  /** The kicks that are counted: all but the first of those that find SDP7 high. */
  function Strays(slots: seq<Slot>): nat {
    if slots == [] then 0
    else slots[0].low + (if slots[0].high == 0 then 0 else slots[0].high - 1) + Strays(slots[1..])
  }

  lemma {:induction false} KickedLow(c: Counter, n: nat)
    requires c.sdp6 && !c.sdp7
    ensures Kicked(c, n) == c.(pulses := c.pulses + n)
    decreases n
  {
    if n > 0 {
      KickedLow(c.(pulses := c.pulses + 1), n - 1);
    }
  }

  lemma {:induction false} UnguardedCounts(c: Counter, slots: seq<Slot>)
    requires c.sdp6 && !c.sdp7
    ensures Unguarded(c, slots) == c.(pulses := c.pulses + |slots| + Strays(slots))
    decreases |slots|
  {
    if slots != [] {
      var s := slots[0];
      KickedLow(c, s.low);
      var up := Seen(Kicked(c, s.low), true, true);
      if s.high > 0 {
        KickedLow(Seen(up, true, false), s.high - 1);
      }
      UnguardedCounts(Seen(Kicked(up, s.high), true, false), slots[1..]);
    }
  }

  /**
   Without the busy flag a command may be received as another one: a window of `|slots|` pulses with
   kicks in it, and `last` kicks before it closes, is received as the number sent exactly if no kick
   found SDP7 low and no pulse was hit twice.
   */
  lemma UnguardedCommand(c: Counter, slots: seq<Slot>, last: nat)
    requires !c.sdp6 && !c.sdp7
    ensures var closed := Seen(Kicked(Unguarded(Seen(c, true, false), slots), last), false, false);
            && closed.log == c.log + [Command(|slots| + Strays(slots) + last)]
            && (closed.log == c.log + [Command(|slots|)] <==> Strays(slots) == 0 && last == 0)
  {
    var open := Seen(c, true, false);
    UnguardedCounts(open, slots);
    KickedLow(Unguarded(open, slots), last);
    var none: seq<Event> := [];
    var log := c.log + [Command(|slots| + Strays(slots) + last)];
    assert log + none == log;
    var closed := Seen(Kicked(Unguarded(open, slots), last), false, false);
    assert closed.log[|c.log|] == Command(|slots| + Strays(slots) + last);
  }
}
