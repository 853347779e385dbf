/** Runs of set_*_fn calls: what reaches the command register is a sequence of closed brackets. */
module Brackets {
  import opened Bits
  import opened Codes
  import opened Pic
  import opened Pins
  import opened Wires
  import opened Device
  import opened Commands
  import Watchdog

  // ----- reading a command stream -----

  /** The commands of one bracket. */
  type Session = seq<byte>

  datatype Reading = Brackets(sessions: seq<Session>) | Broken

  datatype Open = Closed | Inside(session: Session)

  /** A reader that knows nothing of the calls: it takes a stream apart into brackets, or refuses it. */
  function Read(done: seq<Session>, open: Open, stream: seq<byte>): Reading
    decreases |stream|
  {
    if stream == [] then (if open.Closed? then Brackets(done) else Broken)
    else
      var value, rest := stream[0], stream[1..];
      match open
      case Closed => if value == CMND_ON then Read(done, Inside([]), rest) else Broken
      case Inside(session) =>
        if value == CMND_ON then Broken
        else if value == CMND_OFF then Read(done + [session], Closed, rest)
        else Read(done, Inside(session + [value]), rest)
  }

  function Words(p: Part, calls: seq<Call>): seq<byte> {
    if calls == [] then [] else Word(p, calls[0]) + Words(p, calls[1..])
  }

  /** A call that sends something outside a bracket, or leaves one open. */
  predicate Rogue(p: Part, c: Call) {
    match c
    case Change(_) => false
    case TplHw(_) => p.peer && Cap(p.capsEx, TPL2_CAP_EX) && !Cap(p.caps, SW_CTL_CAP)
    case ResetCont => Cap(p.caps, SW_CTL_CAP)
    case DiscPort(_, _) => Cap(p.capsEx, DISC_PORT_CAP_EX)
  }

  predicate Rejected(p: Part, c: Call) {
    match c
    case Change(s) => !Accepted(p, s)
    case TplHw(_) => !(p.peer && Cap(p.capsEx, TPL2_CAP_EX))
    case ResetCont => !Cap(p.caps, SW_CTL_CAP)
    case DiscPort(_, _) => !Cap(p.capsEx, DISC_PORT_CAP_EX)
  }

  /** A call rejected for capability sends nothing at all, and only such a call does. */
  lemma RejectedIsSilent(p: Part, c: Call)
    ensures Word(p, c) == [] <==> Rejected(p, c)
  {
    hide Inner, Cap;
    if c.Change? && Accepted(p, c.s) {
      assert Word(p, c)[0] == CMND_ON;
    }
  }

  ghost predicate Plain(session: Session) {
    forall i | 0 <= i < |session| :: session[i] != CMND_ON && session[i] != CMND_OFF
  }

  function SessionOf(p: Part, c: Call): Session {
    match c
    case Change(s) => Inner(p, s)
    case TplHw(on) => [Pick(on, TPL2_ON, TPL2_OFF)]
    case _ => []
  }

  /** The sessions a run of well-behaved calls stands for. */
  function Sessions(p: Part, calls: seq<Call>): seq<Session> {
    if calls == [] then []
    else (if Rejected(p, calls[0]) then [] else [SessionOf(p, calls[0])]) + Sessions(p, calls[1..])
  }

  lemma PlainAppend(a: Session, b: Session)
    requires Plain(a) && Plain(b)
    ensures Plain(a + b)
  {
  }

  /** No command sent inside a bracket can be taken for the end of it, or for another beginning. */
  lemma SessionsArePlain(p: Part, c: Call)
    ensures Plain(SessionOf(p, c))
  {
    hide Cap, Timeout.StepOf, Timeout.IntervalOf;
    if c.Change? && c.s.StdNic? {
      StdNicIsPlain(p, c.s.on);
    }
  }

  lemma OptionalIsPlain(c: bool, value: byte)
    requires value != CMND_ON && value != CMND_OFF
    ensures Plain(When(c, [value]))
  {
  }

  lemma SixPlain(a: Session, b: Session, c: Session, e: Session, f: Session, g: Session)
    requires Plain(a) && Plain(b) && Plain(c) && Plain(e) && Plain(f) && Plain(g)
    ensures Plain(a + b + c + e + f + g)
  {
    hide Plain;
    PlainAppend(a, b);
    PlainAppend(a + b, c);
    PlainAppend(a + b + c, e);
    PlainAppend(a + b + c + e, f);
    PlainAppend(a + b + c + e + f, g);
  }

  lemma StdNicIsPlain(p: Part, on: bool)
    ensures Plain(StdNicWord(p, on))
  {
    if p.ver < BP_FW_EXT_VER8 {
      assert Plain([NORMAL_STATE_PWRON]) && Plain([]);
      hide Cap, When, Plain;
      if on {
        OptionalIsPlain(Cap(p.caps, WD_CTL_CAP), WDT_OFF);
        OptionalIsPlain(Cap(p.caps, BP_CAP), BYPASS_OFF);
        OptionalIsPlain(Cap(p.caps, TAP_CAP), TAP_OFF);
        OptionalIsPlain(Cap(p.caps, BP_DIS_CAP), DIS_BYPASS_CAP);
        OptionalIsPlain(Cap(p.caps, TAP_DIS_CAP), DIS_TAP_CAP);
        SixPlain(When(Cap(p.caps, WD_CTL_CAP), [WDT_OFF]), When(Cap(p.caps, BP_CAP), [BYPASS_OFF]),
                 When(Cap(p.caps, TAP_CAP), [TAP_OFF]), [NORMAL_STATE_PWRON],
                 When(Cap(p.caps, BP_DIS_CAP), [DIS_BYPASS_CAP]), When(Cap(p.caps, TAP_DIS_CAP), [DIS_TAP_CAP]));
      } else {
        OptionalIsPlain(Cap(p.caps, TAP_PWUP_CTL_CAP), TAP_STATE_PWRON);
        OptionalIsPlain(Cap(p.caps, BP_PWUP_CTL_CAP), BYPASS_STATE_PWRON);
        OptionalIsPlain(Cap(p.caps, TAP_DIS_CAP), EN_TAP_CAP);
        OptionalIsPlain(Cap(p.caps, DISC_DIS_CAP), EN_DISC_CAP);
        OptionalIsPlain(Cap(p.caps, BP_DIS_CAP), EN_BYPASS_CAP);
        SixPlain([], When(Cap(p.caps, TAP_PWUP_CTL_CAP), [TAP_STATE_PWRON]),
                 When(Cap(p.caps, BP_PWUP_CTL_CAP), [BYPASS_STATE_PWRON]), When(Cap(p.caps, TAP_DIS_CAP), [EN_TAP_CAP]),
                 When(Cap(p.caps, DISC_DIS_CAP), [EN_DISC_CAP]), When(Cap(p.caps, BP_DIS_CAP), [EN_BYPASS_CAP]));
        var first := When(Cap(p.caps, TAP_PWUP_CTL_CAP), [TAP_STATE_PWRON]);
        assert [] + first == first;
      }
    }
  }

  lemma {:induction false} ReadsSession(done: seq<Session>, begun: Session, session: Session, rest: seq<byte>)
    requires Plain(session)
    ensures Read(done, Inside(begun), session + [CMND_OFF] + rest) == Read(done + [begun + session], Closed, rest)
    decreases |session|
  {
    var stream := session + [CMND_OFF] + rest;
    if session == [] {
      assert stream[1..] == rest && begun + session == begun;
    } else {
      assert stream[1..] == session[1..] + [CMND_OFF] + rest;
      ReadsSession(done, begun + [session[0]], session[1..], rest);
      assert begun + [session[0]] + session[1..] == begun + session;
    }
  }

  /** One call that is neither rejected nor rogue is read as one session. */
  lemma ReadsCall(p: Part, c: Call, done: seq<Session>, rest: seq<byte>)
    requires !Rejected(p, c) && !Rogue(p, c)
    ensures Read(done, Closed, Word(p, c) + rest) == Read(done + [SessionOf(p, c)], Closed, rest)
  {
    var session := SessionOf(p, c);
    assert Word(p, c) == [CMND_ON] + session + [CMND_OFF];
    hide Word, SessionOf, Cap;
    var stream := Word(p, c) + rest;
    assert stream[1..] == session + [CMND_OFF] + rest;
    SessionsArePlain(p, c);
    ReadsSession(done, [], session, rest);
    assert [] + session == session;
  }

  /** After a bracket left open, no further call makes the stream readable. */
  lemma {:induction false} StaysBroken(p: Part, done: seq<Session>, begun: Session, calls: seq<Call>)
    requires Cap(p.caps, SW_CTL_CAP)
    ensures Read(done, Inside(begun), Words(p, calls)) == Broken
    decreases |calls|
  {
    hide Cap, Inner;
    if calls != [] {
      var c, rest := calls[0], Words(p, calls[1..]);
      if Rejected(p, c) {
        RejectedIsSilent(p, c);
        assert Word(p, c) + rest == rest;
        StaysBroken(p, done, begun, calls[1..]);
      } else if c.DiscPort? {
        assert Words(p, calls)[1..] == rest;
        StaysBroken(p, done, begun + Word(p, c), calls[1..]);
      } else {
        assert Words(p, calls)[0] == CMND_ON;
      }
    }
  }

  /**
   Bracketing: the stream of any run of calls reads as closed brackets exactly when no call in it is
   rogue, and the brackets are then those of the accepted calls, in order and complete.
   */
  lemma {:induction false} RunReads(p: Part, calls: seq<Call>, done: seq<Session>)
    ensures Read(done, Closed, Words(p, calls))
         == if exists i | 0 <= i < |calls| :: Rogue(p, calls[i]) then Broken else Brackets(done + Sessions(p, calls))
    decreases |calls|
  {
    hide Cap, Inner;
    if calls == [] {
      assert done + Sessions(p, calls) == done;
    } else {
      var c, rest := calls[0], calls[1..];
      assert forall i | 0 <= i < |rest| :: rest[i] == calls[i + 1];
      assert (exists i | 0 <= i < |calls| :: Rogue(p, calls[i]))
        <==> Rogue(p, c) || exists i | 0 <= i < |rest| :: Rogue(p, rest[i]);
      if Rejected(p, c) {
        RejectedIsSilent(p, c);
        assert Word(p, c) + Words(p, rest) == Words(p, rest);
        assert !Rogue(p, c);
        assert Sessions(p, calls) == Sessions(p, rest);
        RunReads(p, rest, done);
      } else if Rogue(p, c) {
        RogueBreaks(p, c, done, rest);
      } else {
        ReadsCall(p, c, done, Words(p, rest));
        RunReads(p, rest, done + [SessionOf(p, c)]);
        assert done + [SessionOf(p, c)] + Sessions(p, rest) == done + Sessions(p, calls);
      }
    }
  }

  lemma RogueBreaks(p: Part, c: Call, done: seq<Session>, rest: seq<Call>)
    requires Rogue(p, c) && !Rejected(p, c)
    ensures Read(done, Closed, Word(p, c) + Words(p, rest)) == Broken
  {
    hide Words, Cap;
    var stream := Word(p, c) + Words(p, rest);
    if c.ResetCont? {
      assert stream[1..][1..] == Words(p, rest);
      StaysBroken(p, done, [] + [RESET_CONT], rest);
    }
  }

  // ----- the calls themselves -----

  lemma SentAppend(a: seq<byte>, b: seq<byte>)
    ensures Sent(a + b) == Sent(a) + Sent(b)
  {
  }

  lemma LatchedAppend(regs: seq<byte>, a: seq<byte>, b: seq<byte>)
    requires |regs| == 16
    ensures |Latched(regs, a)| == 16 && Latched(Latched(regs, a), b) == Latched(regs, a + b)
  {
    assert a + [] == a;
  }

  lemma ConveyedTwice(v: Variant, reachable: bool, b: Board, b1: Board, b2: Board, w1: seq<byte>, w2: seq<byte>,
                      n1: int, n2: int)
    requires Conveyed(v, reachable, b, b1, w1, n1) && Conveyed(v, reachable, b1, b2, w2, n2)
    ensures Conveyed(v, reachable, b, b2, w1 + w2, n1 + n2)
  {
    hide SameButPins, Sent, Latched, Added;
    SameTransitive(v, b.regs, b1.regs, b2.regs);
    if reachable {
      SentAppend(w1, w2);
      LatchedAppend(b.pic.regs, w1, w2);
      AddedAppend(b.pic.log, b1.pic.log, b2.pic.log, Sent(w1), n1, Sent(w2), n2);
    }
  }

  lemma {:induction false} WordsSnoc(p: Part, calls: seq<Call>, c: Call)
    ensures Words(p, calls + [c]) == Words(p, calls) + Word(p, c)
    decreases |calls|
  {
    hide Word;
    if calls == [] {
      assert [c][1..] == [];
    } else {
      assert (calls + [c])[1..] == calls[1..] + [c];
      WordsSnoc(p, calls[1..], c);
    }
  }

  method Perform(d: Device, c: Call) returns (ret: int)
    requires d.Ok() && !d.wdtBusy
    modifies d
    ensures Issued(d, old(MarkOf(d)), Word(PartOf(d), c))
    ensures ret == Answer(PartOf(d), c)
  {
    hide Issued, Word, Answer;
    match c
    case Change(s) => ret := SetFn(d, s);
    case TplHw(on) => ret := TplHwFn(d, on);
    case ResetCont => ret := ResetContFn(d);
    case DiscPort(first, on) => ret := DiscPortFn(d, first, on);
  }

  /** A call's word, after those of a run. */
  lemma IssuedTwice(d: Device, m: Mark, m1: Mark, w1: seq<byte>, w2: seq<byte>)
    requires Issued(d, m1, w2) && m.fires <= m1.fires && m.history <= m1.history
    requires Conveyed(d.variant, d.Reachable(), m.board, m1.board, w1, m1.fires - m.fires)
    ensures Issued(d, m, w1 + w2)
  {
    hide Conveyed, Mclk, Traced, Watchdog.TimerKept;
    ConveyedTwice(d.variant, d.Reachable(), m.board, m1.board, d.board, w1, w2, m1.fires - m.fires,
                  d.timing.fires - m1.fires);
  }

  /** One more call of a run. */
  method PerformNext(d: Device, c: Call, ghost m: Mark, ghost word: seq<byte>) returns (ret: int)
    requires Issued(d, m, word)
    modifies d
    ensures Issued(d, m, word + Word(PartOf(d), c))
    ensures ret == Answer(PartOf(d), c)
  {
    hide Word, Answer, Conveyed, Mclk, Traced, Watchdog.TimerKept;
    ghost var m1 := MarkOf(d);
    ret := Perform(d, c);
    IssuedTwice(d, m, m1, word, Word(PartOf(d), c));
  }

  /**
   Any run of calls, interrupted by the timer at will: the PIC gets the words of the calls, one after
   the other, and nothing else.
   */
  method PerformAll(d: Device, calls: seq<Call>) returns (rets: seq<int>)
    requires d.Ok() && !d.wdtBusy
    modifies d
    ensures Issued(d, old(MarkOf(d)), Words(PartOf(d), calls))
    ensures |rets| == |calls| && forall i | 0 <= i < |calls| :: rets[i] == Answer(PartOf(d), calls[i])
  {
    hide Word, Words, Answer, Issued, Settled, Traced, Watchdog.TimerKept;
    NothingIssued(d);
    ghost var p, m := PartOf(d), MarkOf(d);
    ghost var word: seq<byte> := [];
    WordsOfPrefixes(p, calls);
    rets := [];
    while |rets| < |calls|
      invariant |rets| <= |calls|
      invariant Issued(d, m, word) && word == Words(p, calls[..|rets|])
      invariant forall i | 0 <= i < |rets| :: rets[i] == Answer(p, calls[i])
    {
      WordsNext(p, calls, |rets|);
      var ret := PerformNext(d, calls[|rets|], m, word);
      word := word + Word(p, calls[|rets|]);
      rets := rets + [ret];
    }
  }

  lemma WordsOfPrefixes(p: Part, calls: seq<Call>)
    ensures Words(p, calls[..0]) == [] && Words(p, calls[..|calls|]) == Words(p, calls)
  {
    assert calls[..|calls|] == calls;
  }

  lemma WordsNext(p: Part, calls: seq<Call>, n: nat)
    requires n < |calls|
    ensures Words(p, calls[..n + 1]) == Words(p, calls[..n]) + Word(p, calls[n])
  {
    hide Word, Words;
    WordsSnoc(p, calls[..n], calls[n]);
    assert calls[..n + 1] == calls[..n] + [calls[n]];
  }
}
