/** The parts bypass_caps_init knows, and runs of calls over the bus: what the card has been told at the end. */
module CardRuns {
  import opened Options
  import opened Bits
  import opened Codes
  import opened Pic
  import opened Watchdog
  import opened Timeout
  import opened Device
  import opened Commands
  import opened Card
  import opened CardCalls
  import Brackets
  import Caps
  import Pins

  // ----- the parts there are -----

  /** Controlling ports with the serial interface, as bypass_caps_init leaves them. */
  ghost predicate Serial(q: Caps.Probe, p: Part) {
    && Caps.Recognised(q) && q.bypassFn && p.caps == Caps.CapsInit(q).caps && p.ver == q.fwVer % 16
  }

  lemma CapsOffered(q: Caps.Probe)
    ensures var caps := Caps.CapsInit(q).caps;
            && (Cap(caps, BP_CAP) <==> Caps.Offered(q, Setting.Bypass(true)))
            && (Cap(caps, BP_DIS_CAP) <==> Caps.Offered(q, Setting.DisBypass(true)))
            && (Cap(caps, BP_PWUP_CTL_CAP) <==> Caps.Offered(q, Setting.Pwup(true)))
            && (Cap(caps, WD_CTL_CAP) <==> Caps.Offered(q, Setting.Timer(0)))
            && (Cap(caps, TAP_CAP) <==> Caps.Offered(q, Setting.Tap(true)))
            && (Cap(caps, TAP_DIS_CAP) <==> Caps.Offered(q, Setting.DisTap(true)))
            && (Cap(caps, TAP_PWUP_CTL_CAP) <==> Caps.Offered(q, Setting.TapPwup(true)))
  {
    hide Cap, Caps.CapsInit, Caps.Offered;
    Caps.GateFound(q, Setting.Bypass(true));
    Caps.GateFound(q, Setting.DisBypass(true));
    Caps.GateFound(q, Setting.Pwup(true));
    Caps.GateFound(q, Setting.Timer(0));
    Caps.GateFound(q, Setting.Tap(true));
    Caps.GateFound(q, Setting.DisTap(true));
    Caps.GateFound(q, Setting.TapPwup(true));
  }

  /** What the settings of one mode have in common. */
  lemma OfferedTogether(q: Caps.Probe)
    requires Caps.Recognised(q) && q.bypassFn
    ensures Caps.Offered(q, Setting.Timer(0))
    ensures Caps.Offered(q, Setting.DisBypass(true)) == Caps.Offered(q, Setting.Pwup(true))
         == Caps.Offered(q, Setting.Bypass(true))
    ensures Caps.Offered(q, Setting.DisTap(true)) == Caps.Offered(q, Setting.TapPwup(true))
         == Caps.Offered(q, Setting.Tap(true))
  {
    hide Cap;
  }

  lemma OfferedVersions(q: Caps.Probe, s: Setting)
    requires Caps.Recognised(q) && q.bypassFn && Caps.Offered(q, s)
    ensures s.Tap? ==> q.fwVer % 16 >= 1
    ensures s.Disc? || s.DisDisc? || s.DiscPwup? ==> q.fwVer % 16 >= 8
  {
    hide Cap;
  }

  lemma SerialCaps(q: Caps.Probe, p: Part)
    requires Serial(q, p)
    ensures Cap(p.caps, WD_CTL_CAP)
    ensures Cap(p.caps, BP_DIS_CAP) == Cap(p.caps, BP_PWUP_CTL_CAP) == Cap(p.caps, BP_CAP)
    ensures Cap(p.caps, TAP_DIS_CAP) == Cap(p.caps, TAP_PWUP_CTL_CAP) == Cap(p.caps, TAP_CAP)
    ensures Cap(p.caps, TAP_CAP) ==> p.ver >= 1
  {
    hide Cap, Caps.CapsInit, Caps.Offered, Caps.Recognised;
    CapsOffered(q);
    OfferedTogether(q);
    if Caps.Offered(q, Setting.Tap(true)) {
      OfferedVersions(q, Setting.Tap(true));
    }
  }

  lemma SerialVersions(q: Caps.Probe, p: Part, s: Setting)
    requires Serial(q, p) && Accepted(p, s)
    ensures s.Tap? ==> p.ver >= 1
    ensures s.Disc? || s.DisDisc? || s.DiscPwup? ==> p.ver >= 8
  {
    hide Cap, Caps.CapsInit, Caps.Offered, Caps.Recognised, Accepted;
    Caps.AcceptedExactly(q, p, s);
    OfferedVersions(q, s);
  }

  /**
   On such a part every accepted setting reaches what it asks for, from any state, except the wait and reset
   settings before firmware 8, which the driver reports as done; switching a power-up state of disconnect off
   on a part that has neither bypass nor tap; and leaving standard NIC mode before firmware 8 on one of those.
   */
  lemma EffectiveOnSerial(q: Caps.Probe, p: Part, s: Setting)
    requires Serial(q, p) && Accepted(p, s)
    ensures var plain := !Cap(p.caps, BP_CAP) && !Cap(p.caps, TAP_CAP);
            Effective(p, Change(s))
            <==> !(((s.WaitAtPwup? || s.HwReset?) && p.ver < 8) || (s == Setting.DiscPwup(false) && plain)
                   || (s == Setting.StdNic(false) && p.ver < 8 && plain))
  {
    hide Cap, Serial, Accepted;
    SerialCaps(q, p);
    SerialVersions(q, p, s);
  }

  // ----- runs -----

  /** Settings of the ways the ports are connected, and of which are disabled. */
  predicate Connects(call: Call) {
    call.Change? && (call.s.Bypass? || call.s.Tap? || call.s.Disc? || call.s.DisBypass? || call.s.DisTap?
                     || call.s.DisDisc? || call.s.StdNic?)
  }

  lemma ConnectsStable(p: Part, call: Call, c: State, c': State)
    requires Connects(call) && Asked(p, call, c) && forall a | a in About(call) :: Same(a, c, c')
    ensures Asked(p, call, c')
  {
    hide Cap, Serves, Pow2;
    assert Now in About(call) ==> Same(Now, c, c');
    assert Disabled(Bypassed) in About(call) ==> Same(Disabled(Bypassed), c, c');
    assert Disabled(Tapped) in About(call) ==> Same(Disabled(Tapped), c, c');
    assert Disabled(Disconnected) in About(call) ==> Same(Disabled(Disconnected), c, c');
    assert call.s.StdNic? ==> Same(PowerUp, c, c') && Same(Watch, c, c') && Same(StandardFlag, c, c');
  }

  lemma AskedStable(p: Part, call: Call, c: State, c': State)
    requires Asked(p, call, c) && forall a | a in About(call) :: Same(a, c, c')
    ensures Asked(p, call, c')
  {
    if Connects(call) {
      hide Asked, About, Same;
      ConnectsStable(p, call, c, c');
    } else {
      hide Cap, Serves, Pow2, Standard;
      assert PowerUp in About(call) ==> Same(PowerUp, c, c');
      assert PowerOff in About(call) ==> Same(PowerOff, c, c');
      assert Watch in About(call) ==> Same(Watch, c, c');
      assert Waits in About(call) ==> Same(Waits, c, c');
      assert Resets in About(call) ==> Same(Resets, c, c');
      assert Linked in About(call) ==> Same(Linked, c, c');
      assert call.DiscPort? ==> Silent(call.first) in About(call) && Same(Silent(call.first), c, c');
    }
  }

  /** Later calls about other things, or rejected ones. */
  ghost predicate Unrelated(p: Part, call: Call, later: Call) {
    !later.ResetCont? && (Brackets.Rejected(p, later) || About(later) !! About(call))
  }

  lemma OneLater(p: Part, call: Call, c: State, later: Call)
    requires Asked(p, call, c) && Unrelated(p, call, later)
    ensures var r := Carry(c, Word(p, later)); r.Some? && Asked(p, call, r.value)
  {
    CallLeads(p, later, c);
    hide Asked, Carry, Word, About, Brackets.Rejected, Effective;
    var r := Carry(c, Word(p, later)).value;
    if !Brackets.Rejected(p, later) {
      forall a | a in About(call) ensures Same(a, c, r) {
        assert a !in About(later);
      }
      AskedStable(p, call, c, r);
    }
  }

  lemma {:induction false} StaysAsked(p: Part, call: Call, c: State, later: seq<Call>)
    requires Asked(p, call, c) && forall i | 0 <= i < |later| :: Unrelated(p, call, later[i])
    ensures var r := Carry(c, Brackets.Words(p, later)); r.Some? && Asked(p, call, r.value)
    decreases |later|
  {
    hide Asked, Word, Unrelated, Act;
    if later != [] {
      OneLater(p, call, c, later[0]);
      CarryAppend(c, Word(p, later[0]), Brackets.Words(p, later[1..]));
      StaysAsked(p, call, Carry(c, Word(p, later[0])).value, later[1..]);
    }
  }

  lemma {:induction false} RunCarries(p: Part, c: State, calls: seq<Call>)
    requires forall i | 0 <= i < |calls| :: !calls[i].ResetCont?
    ensures Carry(c, Brackets.Words(p, calls)).Some?
    decreases |calls|
  {
    hide Word, Act, Leads;
    if calls != [] {
      CallLeads(p, calls[0], c);
      CarryAppend(c, Word(p, calls[0]), Brackets.Words(p, calls[1..]));
      RunCarries(p, Carry(c, Word(p, calls[0])).value, calls[1..]);
    }
  }

  lemma {:induction false} WordsAppend(p: Part, a: seq<Call>, b: seq<Call>)
    ensures Brackets.Words(p, a + b) == Brackets.Words(p, a) + Brackets.Words(p, b)
    decreases |a|
  {
    hide Word;
    if a == [] {
      assert a + b == b;
    } else {
      assert (a + b)[1..] == a[1..] + b;
      WordsAppend(p, a[1..], b);
    }
  }

  /** The call at `i` was accepted and effective, and none after it was about the same. */
  ghost predicate LastOfItsKind(p: Part, calls: seq<Call>, i: int) {
    && 0 <= i < |calls| && !Brackets.Rejected(p, calls[i]) && Effective(p, calls[i])
    && forall j | i < j < |calls| :: Unrelated(p, calls[i], calls[j])
  }

  /**
   After any run of calls the card is as every last call of its kind asked, whatever else was called and
   in whatever state it began.
   */
  lemma LastCallsHold(p: Part, c: State, calls: seq<Call>, i: nat)
    requires (forall k | 0 <= k < |calls| :: !calls[k].ResetCont?) && LastOfItsKind(p, calls, i)
    ensures var r := Carry(c, Brackets.Words(p, calls)); r.Some? && Asked(p, calls[i], r.value)
  {
    var before, call, later := calls[..i], calls[i], calls[i + 1..];
    assert calls == before + ([call] + later) && ([call] + later)[1..] == later;
    WordsAppend(p, before, [call] + later);
    RunCarries(p, c, before);
    assert forall j | 0 <= j < |later| :: Unrelated(p, call, later[j]);
    hide Asked, Word, Unrelated, Act, Carry, Effective, Brackets.Rejected, OthersAlone, Spared;
    CarryAppend(c, Brackets.Words(p, before), Brackets.Words(p, [call] + later));
    var c1 := Carry(c, Brackets.Words(p, before)).value;
    CallLeads(p, call, c1);
    CarryAppend(c1, Word(p, call), Brackets.Words(p, later));
    StaysAsked(p, call, Carry(c1, Word(p, call)).value, later);
  }

  // ----- the calls themselves -----

  lemma {:induction false} KicksUnheard(c: State, report: seq<Event>, log: seq<Event>)
    requires WithKicks(report, log)
    ensures After(c, log) == After(c, report)
    decreases |log|
  {
    hide Act;
    if log != [] {
      var n, m := |log| - 1, |report| - 1;
      if m >= 0 && log[n] == report[m] && WithKicks(report[..m], log[..n]) {
        KicksUnheard(c, report[..m], log[..n]);
      } else {
        KicksUnheard(c, report, log[..n]);
      }
    }
  }

  lemma {:induction false} SentIsHeard(c: State, word: seq<byte>)
    ensures After(c, Sent(word)) == Carry(c, word)
    decreases |word|
  {
    hide Act;
    if word != [] {
      var n := |word| - 1;
      assert Sent(word)[..n] == Sent(word[..n]);
      SentIsHeard(c, word[..n]);
    }
  }

  lemma IssuedIsHeard(d: Device, m: Mark, word: seq<byte>, c: State)
    requires Issued(d, m, word) && d.Reachable()
    ensures m.board.pic.log <= d.board.pic.log
    ensures After(c, d.board.pic.log[|m.board.pic.log|..]) == Carry(c, word)
  {
    hide Pins.Settled, Traced, TimerKept, WithKicks, Act, After, Carry;
    KicksUnheard(c, Sent(word), d.board.pic.log[|m.board.pic.log|..]);
    SentIsHeard(c, word);
  }

  /** What the driver answers to a call, and what it means. */
  ghost predicate Answered(p: Part, call: Call, c': State, ret: int) {
    && (Brackets.Rejected(p, call) && !call.DiscPort? ==> ret == BP_NOT_CAP)
    && (!Brackets.Rejected(p, call) && Effective(p, call)
        ==> if call.Change? && call.s.Timer? && call.s.timeout != 0
            then c'.watch.Some? && ret == 100 * Pow2(c'.watch.value)
            else ret == BP_OK)
  }

  lemma AnswerMeans(p: Part, call: Call, c: State, c': State)
    requires !call.ResetCont? && Leads(p, call, c, c')
    ensures Answered(p, call, c', Answer(p, call))
  {
    if call.Change? && call.s.Timer? && call.s.timeout != 0 && Accepted(p, call.s) {
      TimerMeans(p, call.s.timeout, c');
    }
    hide Cap, Accepted, Serves, Pow2, StepOf, IntervalOf, OthersAlone, Spared, Standard;
  }

  lemma TimerMeans(p: Part, timeout: int, c': State)
    requires timeout != 0 && Asked(p, Change(Timer(timeout)), c')
    ensures c'.watch.Some? && IntervalOf(Unsigned(timeout)) == 100 * Pow2(c'.watch.value)
  {
    StepServes(Unsigned(timeout));
    ServesOnce(Unsigned(timeout), c'.watch.value, StepOf(Unsigned(timeout)));
    hide Serves, Pow2, StepOf;
  }

  /**
   One call on a device that reaches its PIC, interrupted by the timer at will: the card is then as it
   leads to, and what is answered is what the card was told.
   */
  method Tell(d: Device, call: Call, ghost c: State) returns (ret: int, ghost c': State)
    requires d.Ok() && !d.wdtBusy && d.Reachable() && !call.ResetCont?
    modifies d
    ensures d.Ok() && !d.wdtBusy && old(d.board.pic.log) <= d.board.pic.log
    ensures After(c, d.board.pic.log[|old(d.board.pic.log)|..]) == Some(c')
    ensures Leads(PartOf(d), call, c, c') && Answered(PartOf(d), call, c', ret)
  {
    hide Pins.Settled, Traced, TimerKept, After, Leads, Answered, Conveyed, Word, Answer, Carry;
    ghost var m := MarkOf(d);
    ret := Brackets.Perform(d, call);
    CallLeads(PartOf(d), call, c);
    IssuedIsHeard(d, m, Word(PartOf(d), call), c);
    c' := Carry(c, Word(PartOf(d), call)).value;
    AnswerMeans(PartOf(d), call, c, c');
  }

  /** Any run of calls, interrupted by the timer at will: the card is as every last call of its kind asked. */
  method TellAll(d: Device, calls: seq<Call>, ghost c: State) returns (rets: seq<int>, ghost c': State)
    requires d.Ok() && !d.wdtBusy && d.Reachable() && forall i | 0 <= i < |calls| :: !calls[i].ResetCont?
    modifies d
    ensures d.Ok() && !d.wdtBusy && old(d.board.pic.log) <= d.board.pic.log
    ensures After(c, d.board.pic.log[|old(d.board.pic.log)|..]) == Some(c')
    ensures forall i | LastOfItsKind(PartOf(d), calls, i) :: Asked(PartOf(d), calls[i], c')
  {
    hide Pins.Settled, Traced, TimerKept, After, Asked, Conveyed, Word, Answer, Carry, LastOfItsKind, Brackets.Words;
    ghost var m := MarkOf(d);
    rets := Brackets.PerformAll(d, calls);
    ghost var p := PartOf(d);
    RunCarries(p, c, calls);
    IssuedIsHeard(d, m, Brackets.Words(p, calls), c);
    c' := Carry(c, Brackets.Words(p, calls)).value;
    forall i | LastOfItsKind(p, calls, i) ensures 0 <= i < |calls| && Asked(p, calls[i], c') {
      KindInRange(p, calls, i);
      LastCallsHold(p, c, calls, i);
    }
  }

  lemma KindInRange(p: Part, calls: seq<Call>, i: int)
    requires LastOfItsKind(p, calls, i)
    ensures 0 <= i < |calls|
  {
    hide Effective, Unrelated, Brackets.Rejected;
  }
}
