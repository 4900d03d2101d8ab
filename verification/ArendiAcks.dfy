/**
 The acknowledgement side of the link: every I-frame carries the number after the last one heard, a
 restart starts both counters and the acknowledgement queue over, and the fallback answer waits for
 exactly the acknowledgement of its own number.
 */
module ArendiAcks {
  import opened Bytes
  import opened Hdlc
  import opened SecureChannel
  import opened ArendiSession
  import opened ArendiTheorems
  import opened ArendiQueue
  import Server = ArendiServer

  /** The I-frames a step has built carry the acknowledgement number that was current. */
  ghost predicate CurrentAcks(s: Session, t: Session) {
    && Log(s) <= Log(t)
    && forall i :: |Log(s)| <= i < |Log(t)| && IsIFrame(Log(t)[i]) ==> ReceiveNumber(Log(t)[i].ctrl) == s.rxAck % 8
  }

  lemma RecordAcks(s: Session, e: Entry)
    requires IsIFrame(e) ==> ReceiveNumber(e.ctrl) == s.rxAck % 8
    ensures CurrentAcks(s, Record(s, e))
  {
    hide ReceiveNumber;
    RecordLog(s, e);
    hide Record;
  }

  /** Only the trace matters. */
  lemma SameTrace(s: Session, t: Session, u: Session)
    requires CurrentAcks(s, t) && t.phases == u.phases
    ensures CurrentAcks(s, u)
  {
    hide ReceiveNumber;
  }

  lemma BuildPlainAcks(s: Session, payload: seq<byte>)
    ensures CurrentAcks(s, BuildPlain(s, payload)) && |BuildPlain(s, payload).phases| == |s.phases|
  {
    hide ICtrl, SendNumber, ReceiveNumber;
    NumbersReadBack(s.rxAck, s.txSeq);
    var e := Plain(ICtrl(s.rxAck, s.txSeq), payload);
    RecordAcks(s, e);
    RecordLog(s, e);
    hide Record, CurrentAcks;
    SameTrace(s, Record(s, e), BuildPlain(s, payload));
  }

  lemma BuildEncAcks(s: Session, payload: seq<byte>)
    ensures CurrentAcks(s, BuildEnc(s, payload)) && |BuildEnc(s, payload).phases| == |s.phases|
  {
    hide ICtrl, SendNumber, ReceiveNumber, InnerEncode;
    NumbersReadBack(s.rxAck, s.txSeq);
    if s.keys.Some? {
      var e := Enc(ICtrl(s.rxAck, s.txSeq), s.keys.value.tx, s.txAt, payload);
      RecordAcks(s, e);
      RecordLog(s, e);
      hide Record, CurrentAcks;
      SameTrace(s, Record(s, e), BuildEnc(s, payload));
    }
  }

  lemma FromSame(s: Session, t: Session, u: Session)
    requires s.phases == t.phases && s.rxAck == t.rxAck && CurrentAcks(t, u)
    ensures CurrentAcks(s, u)
  {
    hide ReceiveNumber;
  }

  lemma AnswerAcks(s: Session, answers: seq<seq<byte>>, plaintext: seq<byte>)
    ensures CurrentAcks(s, Answer(s, answers, plaintext)) && |Answer(s, answers, plaintext).phases| == |s.phases|
  {
    if answers == [] {
      var t := s.(srrQueue := [], pc := Serving);
      RecordAcks(t, Disc);
      RecordLog(t, Disc);
      assert CurrentAcks(s, s);
      hide Record, CurrentAcks;
      SameTrace(s, s, t);
      FromSame(s, t, Record(t, Disc));
      SameTrace(s, Record(t, Disc), FinishRequest(s, plaintext).(phases := Record(t, Disc).phases));
      SameTrace(s, s, FinishRequest(s, plaintext).(phases := s.phases));
    } else {
      BuildEncAcks(s, answers[0]);
      hide BuildEnc, CurrentAcks;
      SameTrace(s, BuildEnc(s, answers[0]), Answer(s, answers, plaintext));
    }
  }

  lemma Chain(s: Session, t: Session, u: Session)
    requires CurrentAcks(s, t) && CurrentAcks(t, u) && s.rxAck == t.rxAck
    ensures CurrentAcks(s, u)
  {
    hide ReceiveNumber, Log;
    assert Log(s) <= Log(u);
    forall i | |Log(s)| <= i < |Log(u)| && IsIFrame(Log(u)[i])
      ensures ReceiveNumber(Log(u)[i].ctrl) == s.rxAck % 8
    {
      assert i < |Log(t)| ==> Log(u)[i] == Log(t)[i];
    }
  }

  lemma ReactAcks(s: Session, plaintext: seq<byte>, reaction: Reaction)
    ensures CurrentAcks(s, React(s, plaintext, reaction)) && |React(s, plaintext, reaction).phases| == |s.phases|
  {
    assert CurrentAcks(s, s);
    hide CurrentAcks, BuildEnc, Answer;
    match reaction
    case Answers(frames) => AnswerAcks(s, frames, plaintext);
    case NoHandler =>
      BuildEncAcks(s, FAKE_RESPONSE);
      SameTrace(s, BuildEnc(s, FAKE_RESPONSE), React(s, plaintext, reaction));
    case Raises => SameTrace(s, s, React(s, plaintext, reaction));
  }

  lemma ServeAcks(s: Session, item: Item, reaction: Reaction)
    requires item.Heard? && !IsSabm(item) && s.keys.Some?
    ensures CurrentAcks(s, ServeItem(s, item, reaction)) && |ServeItem(s, item, reaction).phases| == |s.phases|
  {
    hide Record, React, CurrentAcks, Opened;
    var plain := Opened(s, item.event);
    var e := Took(item.event, plain);
    ServedIs(s, item, reaction);
    RecordAcks(s, e);
    RecordLog(s, e);
    RecordFields(s, e);
    var t := AfterTook(s, item.event, plain);
    SameTrace(s, Record(s, e), t);
    hide ServeItem;
    if plain.Some? {
      ReactAcks(t, plain.value, reaction);
      Chain(s, t, React(t, plain.value, reaction));
    }
  }

  lemma KeyAcks(s: Session, t: Session, x: Exchange)
    requires s.phases == t.phases && s.rxAck == t.rxAck
    ensures var u := BuildPlain(SetKeys(t, x.keys), [KE_RESP] + x.reply).(pc := SendingKe);
            CurrentAcks(s, u) && |u.phases| == |s.phases|
  {
    var k := SetKeys(t, x.keys);
    assert CurrentAcks(s, k) && k.rxAck == s.rxAck && |k.phases| == |s.phases|;
    hide CurrentAcks, BuildPlain, SetKeys;
    BuildPlainAcks(k, [KE_RESP] + x.reply);
    var u := BuildPlain(k, [KE_RESP] + x.reply);
    Chain(s, k, u);
    SameTrace(s, u, u.(pc := SendingKe));
  }

  lemma HandshakeAcks(s: Session, l: Label)
    requires l.Take? && s.rxQueue != [] && !s.pc.Serving? && !s.pc.AwaitSabm?
    ensures CurrentAcks(s, TakeStep(s, l)) && |TakeStep(s, l).phases| == |s.phases|
  {
    var item := s.rxQueue[0];
    var t := s.(rxQueue := s.rxQueue[1..]);
    var u := TakeStep(s, l);
    assert CurrentAcks(s, s);
    hide CurrentAcks, BuildPlain, IsSecurity, SetKeys;
    SameTrace(s, s, t);
    SameTrace(s, s, t.(pc := Done));
    BuildPlainAcks(t, [VERSION_RESP, 0, 0, 0, 0, 0, 1]);
    BuildPlainAcks(t, [EP_RESP] + l.nonces + [1]);
    var v, w := BuildPlain(t, [VERSION_RESP, 0, 0, 0, 0, 0, 1]), BuildPlain(t, [EP_RESP] + l.nonces + [1]);
    FromSame(s, t, v);
    FromSame(s, t, w);
    SameTrace(s, v, v.(pc := AwaitEp));
    SameTrace(s, w, w.(pc := AwaitKe));
    if l.exchange.Some? {
      KeyAcks(s, t, l.exchange.value);
    }
  }

  /** Either no phase starts, or one starts with its UA. */
  ghost predicate AcksKept(s: Session, t: Session) {
    && |s.phases| <= |t.phases| <= |s.phases| + 1
    && if |t.phases| == |s.phases| then CurrentAcks(s, t) else Log(t) == [Ua]
  }

  lemma TakeAcks(s: Session, l: Label)
    requires Inv(s) && l.Take? && s.rxQueue != []
    ensures AcksKept(s, TakeStep(s, l))
  {
    var item := s.rxQueue[0];
    var t := s.(rxQueue := s.rxQueue[1..]);
    assert CurrentAcks(s, s);
    if s.pc.Serving? {
      AlignedKeys(s);
      hide Inv, CurrentAcks, IsSabm, ServeItem;
      SameTrace(s, s, t);
      if item == Disconnect || IsSabm(item) {
        ServedOther(t, item, l.reaction);
        StartLog(t.(txSeq := 0, rxAck := 0, srrQueue := [], handshakeDone := false));
        SameTrace(s, s, t.(pc := Done, disconnectedByPeer := true));
      } else {
        ServeAcks(t, item, l.reaction);
        FromSame(s, t, ServeItem(t, item, l.reaction));
      }
    } else if s.pc.AwaitSabm? {
      hide Inv, CurrentAcks, IsSabm;
      SameTrace(s, s, t);
      SameTrace(s, s, t.(pc := Done));
      StartLog(t);
    } else {
      hide Inv, TakeStep, CurrentAcks;
      HandshakeAcks(s, l);
    }
  }

  lemma NothingBuilt(s: Session, t: Session)
    requires s.phases == t.phases
    ensures CurrentAcks(s, t)
  {
    hide ReceiveNumber;
  }

  lemma OtherSteps(s: Session, l: Label)
    requires !l.Take? && !l.SendDone? && !l.Push?
    ensures Step(s, l).phases == s.phases
  {
    hide Events, Leftover, Queued, Acks, LastAck;
  }

  lemma SendDoneAcks(s: Session)
    ensures AcksKept(s, SendDoneStep(s))
  {
    NothingBuilt(s, s.(handshakeDone := true, pc := Serving));
    NothingBuilt(s, s.(discSent := true, pc := Serving));
    NothingBuilt(s, s);
    hide CurrentAcks, Answer;
    if s.pc.Responding? {
      AnswerAcks(s, s.pc.rest, s.pc.plaintext);
    }
  }

  /**
   Whatever a step does, the I-frames it builds carry N(R) = the acknowledgement number current
   before it; a step that starts a phase builds none.
   */
  lemma StepAcks(s: Session, l: Label)
    requires Inv(s)
    ensures AcksKept(s, Step(s, l))
  {
    match l
    case Take(_, _, _) =>
      hide Inv, CurrentAcks, TakeStep;
      if s.rxQueue != [] {
        TakeAcks(s, l);
      } else {
        NothingBuilt(s, s);
      }
    case SendDone => SendDoneAcks(s);
    case Push(payload) =>
      hide Inv, CurrentAcks, BuildEnc;
      BuildEncAcks(s, payload);
      NothingBuilt(s, s);
    case _ =>
      OtherSteps(s, l);
      hide Inv, Step, CurrentAcks;
      NothingBuilt(s, Step(s, l));
  }

  // ---- what the acknowledgement number is ----

  /** What has been heard since the last restart. */
  function HeardSince(s: Session, labels: seq<Label>, before: seq<Event>): seq<Event>
    decreases |labels|
  {
    if labels == [] then before
    else
      HeardSince(Step(s, labels[0]), labels[1..],
                 if labels[0].FeedBytes? then before + Events(s.rxBuf + labels[0].data)
                 else if Restarts(s, labels[0]) then []
                 else before)
  }

  /** The acknowledgement number is one past the last I-frame heard since the restart, or zero. */
  lemma {:induction false} AckIsLastHeard(s: Session, labels: seq<Label>, before: seq<Event>)
    requires s.rxAck == LastAck(0, before)
    ensures Run(s, labels).rxAck == LastAck(0, HeardSince(s, labels, before))
    decreases |labels|
  {
    hide Step, Events, LastAck, Restarts;
    if labels != [] {
      var l := labels[0];
      StepQueue(s, l);
      Server.OneEvent(0, S(1));
      if l.FeedBytes? {
        Server.LastAckSnoc(0, before, Events(s.rxBuf + l.data));
        AckIsLastHeard(Step(s, l), labels[1..], before + Events(s.rxBuf + l.data));
      } else {
        AckIsLastHeard(Step(s, l), labels[1..], if Restarts(s, l) then [] else before);
      }
    }
  }

  lemma {:induction false} NoMoreI(ack: nat, events: seq<Event>)
    requires forall j :: 0 <= j < |events| ==> !events[j].I?
    ensures LastAck(ack, events) == ack
    decreases |events|
  {
    if events != [] {
      NoMoreI(ack, events[1..]);
    }
  }

  /** The last I-frame of a run of events decides. */
  lemma {:induction false} LastAckMeans(ack: nat, events: seq<Event>, i: nat)
    requires i < |events| && events[i].I? && forall j :: i < j < |events| ==> !events[j].I?
    ensures LastAck(ack, events) == (SendNumber(events[i].ctrl) + 1) % 8
    decreases |events|
  {
    hide SendNumber;
    var next := if events[0].I? then (SendNumber(events[0].ctrl) + 1) % 8 else ack;
    if i > 0 {
      LastAckMeans(next, events[1..], i - 1);
    } else {
      NoMoreI(next, events[1..]);
    }
  }

  /**
   In every run each I-frame a step builds acknowledges the last I-frame heard since the restart of
   its phase: N(R) is that frame's N(S) plus one modulo 8, or zero if there was none.
   */
  lemma BuiltFramesAcknowledge(labels: seq<Label>, l: Label, i: nat)
    requires var s := Run(Fresh(), labels);
             var t := Step(s, l);
             && |t.phases| == |s.phases| && |Log(s)| <= i < |Log(t)| && IsIFrame(Log(t)[i])
    ensures var s := Run(Fresh(), labels);
            ReceiveNumber(Log(Step(s, l))[i].ctrl) == LastAck(0, HeardSince(Fresh(), labels, [])) % 8
  {
    hide Run, Step, HeardSince, LastAck, Inv;
    FreshKeeps();
    RunKeeps(Fresh(), labels);
    StepAcks(Run(Fresh(), labels), l);
    Server.OneEvent(0, S(1));
    AckIsLastHeard(Fresh(), labels, []);
  }

  /** Without an application, the fixed answer is sent and its own acknowledgement is waited for. */
  lemma FallbackAwaitsItsAck(s: Session, plaintext: seq<byte>)
    requires s.phases != [] && s.keys.Some?
    ensures var t := React(s, plaintext, NoHandler);
            && |Log(t)| == |Log(s)| + 1 && Log(t)[|Log(s)|].Enc? && Log(t)[|Log(s)|].payload == FAKE_RESPONSE
            && t.pc == AwaitingAck((SendNumber(Log(t)[|Log(s)|].ctrl) + 1) % 8)
  {
    hide ICtrl, SendNumber, ReceiveNumber, InnerEncode;
    NumbersReadBack(s.rxAck, s.txSeq);
    NextNumber(s.txSeq);
    RecordLog(s, Enc(ICtrl(s.rxAck, s.txSeq), s.keys.value.tx, s.txAt, FAKE_RESPONSE));
  }
}
