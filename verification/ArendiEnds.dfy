/**
 How requests, phases and runs of the link end: the DISC that closes the second phase, the one place
 where the caller is asked to disconnect, and the reasons for which `run` returns.
 */
module ArendiEnds {
  import opened Bytes
  import opened Hdlc
  import opened SecureChannel
  import opened ArendiSession
  import opened ArendiTheorems
  import Q = ArendiQueue
  import App = ArendiApplication
  import H = ArendiHandshake

  // ---- the end of the second phase ----

  predicate Begins(request: seq<byte>, command: byte) {
    request != [] && request[0] == command
  }

  /** A storage inventory among these requests, and a read after one. */
  datatype Closing = Closing(storage: bool, closed: bool)

  function Next(before: Closing, request: seq<byte>): Closing {
    Closing(before.storage || Begins(request, 0x50), before.closed || (before.storage && Begins(request, 0x10)))
  }

  function ClosingAfter(requests: seq<seq<byte>>): Closing {
    if requests == [] then Closing(false, false)
    else Next(ClosingAfter(requests[..|requests| - 1]), requests[|requests| - 1])
  }

  lemma ClosingSnoc(requests: seq<seq<byte>>, last: seq<byte>)
    ensures ClosingAfter(requests + [last]) == Next(ClosingAfter(requests), last)
  {
    assert (requests + [last])[..|requests|] == requests;
  }

  lemma {:induction false} ClosedMeans(requests: seq<seq<byte>>)
    ensures ClosingAfter(requests).storage <==> exists i :: 0 <= i < |requests| && Begins(requests[i], 0x50)
    ensures ClosingAfter(requests).closed
       <==> exists i, j :: 0 <= i < j < |requests| && Begins(requests[i], 0x50) && Begins(requests[j], 0x10)
  {
    hide Begins;
    if requests != [] {
      var n := |requests| - 1;
      ClosedMeans(requests[..n]);
      forall i | 0 <= i < n
        ensures requests[..n][i] == requests[i]
      {
      }
    }
  }

  /** The requests of the running phase whose last answer has been sent. */
  ghost function Finished(s: Session): seq<seq<byte>> {
    var got := Received(Log(s));
    if s.pc.Responding? && got != [] then got[..|got| - 1] else got
  }

  ghost predicate RequestIsLast(s: Session) {
    s.pc.Responding? ==> var got := Received(Log(s)); got != [] && got[|got| - 1] == s.pc.plaintext
  }

  ghost predicate ClosingOk(s: Session) {
    |s.phases| == 2 ==>
      var e := ClosingAfter(Finished(s));
      && s.sawStorage == e.storage
      && (s.discSent || s.pc.SendingDisc?) == e.closed
      && (Disc in Log(s)) == e.closed
  }

  /** While the run goes on. */
  ghost predicate Closes(s: Session) {
    !s.pc.Done? ==> RequestIsLast(s) && ClosingOk(s)
  }

  lemma SameCloses(s: Session, t: Session)
    requires Closes(s) && !s.pc.Done?
    requires Received(Log(t)) == Received(Log(s)) && (Disc in Log(t) <==> Disc in Log(s))
    requires |t.phases| == |s.phases| && t.sawStorage == s.sawStorage && t.discSent == s.discSent
    requires s.pc.Responding? ==> t.pc.Responding? && t.pc.plaintext == s.pc.plaintext
    requires t.pc.Responding? ==> s.pc.Responding?
    requires t.pc.SendingDisc? <==> s.pc.SendingDisc?
    ensures Closes(t)
  {
    hide Received, Log;
  }

  lemma BegunCloses(t: Session)
    requires Log(t) == [Ua] && !t.sawStorage && !t.discSent && t.pc == AwaitVersion
    ensures Closes(t)
  {
    assert [Ua][..0] == [];
    assert Received([Ua]) == Received([]) == [];
  }

  lemma DiscKeeps(u: Session)
    requires u.phases != []
    ensures var t := Record(u, Disc).(pc := SendingDisc);
            && Received(Log(t)) == Received(Log(u)) && Disc in Log(t) && |t.phases| == |u.phases|
            && t == u.(phases := t.phases, pc := SendingDisc)
  {
    RecordLog(u, Disc);
    App.PlainEntry(Log(u), Disc);
    RecordFields(u, Disc);
    SamePhases(Record(u, Disc), Record(u, Disc).(pc := SendingDisc));
    hide Received, Log, Record;
  }

  /** What the end of a request changes. */
  lemma FinishIs(u: Session, plaintext: seq<byte>)
    requires u.phases != []
    ensures var t, closing := FinishRequest(u, plaintext), |u.phases| == 2 && !u.discSent;
            && Received(Log(t)) == Received(Log(u)) && |t.phases| == |u.phases| && t.discSent == u.discSent
            && t.sawStorage == (u.sawStorage || (closing && Begins(plaintext, 0x50)))
            && t.pc == (if closing && u.sawStorage && Begins(plaintext, 0x10) then SendingDisc else Serving)
            && (Disc in Log(t) <==> Disc in Log(u) || t.pc.SendingDisc?)
  {
    hide Received, Log, Record;
    var t := u.(srrQueue := [], pc := Serving);
    if |u.phases| == 2 && !u.discSent && Command(plaintext) == EVENT_STORAGE_INVENTORY {
      assert FinishRequest(u, plaintext) == t.(sawStorage := true);
      SamePhases(u, t.(sawStorage := true));
    } else if |u.phases| == 2 && !u.discSent && u.sawStorage && Command(plaintext) == READ_CMD {
      assert FinishRequest(u, plaintext) == Record(t, Disc).(pc := SendingDisc);
      SamePhases(u, t);
      DiscKeeps(t);
    } else {
      assert FinishRequest(u, plaintext) == t;
      SamePhases(u, t);
    }
  }

  lemma {:induction false} ClosedNeedsStorage(requests: seq<seq<byte>>)
    ensures ClosingAfter(requests).closed ==> ClosingAfter(requests).storage
  {
    if requests != [] {
      ClosedNeedsStorage(requests[..|requests| - 1]);
    }
  }

  lemma FinishCloses(u: Session, got: seq<seq<byte>>, plaintext: seq<byte>)
    requires u.phases != [] && Received(Log(u)) == got + [plaintext]
    requires var e := ClosingAfter(got);
             |u.phases| == 2 ==> u.sawStorage == e.storage && u.discSent == e.closed == (Disc in Log(u))
    ensures Closes(FinishRequest(u, plaintext))
  {
    FinishIs(u, plaintext);
    ClosingSnoc(got, plaintext);
    ClosedNeedsStorage(got);
    hide Received, Log, FinishRequest, ClosingAfter, Begins;
  }

  lemma EncKeeps(s: Session, payload: seq<byte>)
    requires s.phases != [] && s.keys.Some?
    ensures var t := BuildEnc(s, payload);
            && Received(Log(t)) == Received(Log(s)) && (Disc in Log(t) <==> Disc in Log(s))
            && |t.phases| == |s.phases| && t.sawStorage == s.sawStorage && t.discSent == s.discSent && t.pc == s.pc
  {
    App.EncSaid(s, payload);
    BuildEncFields(s, payload);
    RecordLog(s, Enc(ICtrl(s.rxAck, s.txSeq), s.keys.value.tx, s.txAt, payload));
    hide Received, Record, ICtrl;
  }

  /** Before, a request's answers are owed; after, one less or none. */
  lemma SendDoneCloses(s: Session)
    requires Inv(s) && Closes(s)
    ensures Closes(SendDoneStep(s))
  {
    hide Received, Log, FinishRequest, ClosingAfter, Inv, BuildEnc;
    App.LateResponds(s);
    match s.pc
    case SendingKe =>
      SamePhases(s, SendDoneStep(s));
      SameCloses(s, SendDoneStep(s));
    case Responding(rest, plaintext) =>
      if rest == [] {
        var got := Received(Log(s));
        assert got == got[..|got| - 1] + [plaintext];
        FinishCloses(s, got[..|got| - 1], plaintext);
      } else {
        EncKeeps(s, rest[0]);
        SamePhases(BuildEnc(s, rest[0]), SendDoneStep(s));
        SameCloses(s, SendDoneStep(s));
      }
    case SendingDisc => SamePhases(s, SendDoneStep(s));
    case _ =>
  }

  /** A taken request: either all is answered at once, or the rest of its answers is owed. */
  lemma RequestCloses(s: Session, t: Session, plaintext: seq<byte>, frames: seq<seq<byte>>)
    requires Closes(s) && s.pc.Serving?
    requires t.phases != [] && t.keys.Some? && |t.phases| == |s.phases| && t.pc.Serving?
    requires Received(Log(t)) == Received(Log(s)) + [plaintext] && (Disc in Log(t) <==> Disc in Log(s))
    requires t.sawStorage == s.sawStorage && t.discSent == s.discSent
    ensures Closes(Answer(t, frames, plaintext))
  {
    hide Received, Log, FinishRequest, ClosingAfter, BuildEnc;
    var got := Received(Log(s));
    if frames == [] {
      FinishCloses(t, got, plaintext);
    } else {
      EncKeeps(t, frames[0]);
      SamePhases(BuildEnc(t, frames[0]), Answer(t, frames, plaintext));
      assert (got + [plaintext])[..|got|] == got;
    }
  }

  lemma TookIs(s: Session, event: Event, plain: Option<seq<byte>>)
    requires s.phases != []
    ensures var t := AfterTook(s, event, plain);
            && Received(Log(t)) == Received(Log(s)) + (if plain.Some? then [plain.value] else [])
            && (Disc in Log(t) <==> Disc in Log(s)) && |t.phases| == |s.phases| && t.keys == s.keys && t.pc == s.pc
            && t.sawStorage == s.sawStorage && t.discSent == s.discSent
  {
    var e := Took(event, plain);
    App.TookSaid(s, event, plain);
    RecordLog(s, e);
    RecordFields(s, e);
    SamePhases(Record(s, e), AfterTook(s, event, plain));
    hide Received, Log, Record;
  }

  lemma ServeCloses(s: Session, item: Item, reaction: Reaction)
    requires Inv(s) && Closes(s) && s.pc.Serving? && !reaction.NoHandler?
    ensures Closes(ServeItem(s, item, reaction))
  {
    hide Received, Log, ClosingAfter, Inv, BuildEnc, Answer, Record, ClosingOk, RequestIsLast, AfterTook, IsSabm;
    App.LateResponds(s);
    ServedOther(s, item, reaction);
    if IsSabm(item) {
      StartLog(s.(txSeq := 0, rxAck := 0, srrQueue := [], handshakeDone := false));
      BegunCloses(Restart(s));
    } else if item.Heard? {
      ServedIs(s, item, reaction);
      var plain := Opened(s, item.event);
      var t := AfterTook(s, item.event, plain);
      TookIs(s, item.event, plain);
      hide ServeItem, Opened;
      if plain == None {
        assert Received(Log(s)) + [] == Received(Log(s));
        SameCloses(s, t);
      } else if reaction.Answers? {
        RequestCloses(s, t, plain.value, reaction.frames);
      }
    }
  }

  lemma PlainKeeps(s: Session, payload: seq<byte>, pc: Pc)
    requires Closes(s) && !s.pc.Done? && !s.pc.Responding? && !s.pc.SendingDisc?
    requires !pc.Responding? && !pc.SendingDisc?
    ensures Closes(BuildPlain(s, payload).(pc := pc))
  {
    var e := Plain(ICtrl(s.rxAck, s.txSeq), payload);
    RecordLog(s, e);
    RecordFields(s, e);
    App.PlainEntry(Log(s), e);
    BuildPlainFields(s, payload);
    var t := BuildPlain(s, payload).(pc := pc);
    SamePhases(Record(s, e), t);
    hide Received, Log, Record, ClosingAfter, ICtrl, Closes;
    SameCloses(s, t);
  }

  lemma KeysKeep(s: Session, keys: Keys)
    ensures var t := SetKeys(s, keys);
            && Log(t) == Log(s) && |t.phases| == |s.phases| && t.pc == s.pc
            && t.sawStorage == s.sawStorage && t.discSent == s.discSent
  {
  }

  lemma KeCloses(s: Session, item: Item, exchange: Option<Exchange>)
    requires Closes(s) && s.pc.AwaitKe?
    ensures Closes(OnKe(s, item, exchange))
  {
    hide Received, Log, ClosingAfter, BuildPlain, SetKeys;
    if exchange.Some? {
      var keys := exchange.value.keys;
      KeysKeep(s, keys);
      SameCloses(s, SetKeys(s, keys));
      PlainKeeps(SetKeys(s, keys), [KE_RESP] + exchange.value.reply, SendingKe);
    }
  }

  lemma SameRest(s: Session, t: Session)
    requires t == s.(rxQueue := t.rxQueue)
    ensures Inv(s) ==> Inv(t)
    ensures Closes(s) ==> Closes(t)
  {
    SameRecord(s, t);
    SamePhases(s, t);
    hide Core, Aligned, Received, ClosingAfter, Log, StorageBefore;
  }

  lemma TakeCloses(s: Session, l: Label)
    requires Inv(s) && Closes(s) && l.Take? && s.rxQueue != [] && !l.reaction.NoHandler?
    ensures Closes(TakeStep(s, l))
  {
    var item, t := s.rxQueue[0], s.(rxQueue := s.rxQueue[1..]);
    SamePhases(s, t);
    SameRest(s, t);
    hide Received, Log, ClosingAfter, Inv, BuildPlain, ServeItem, OnKe, ClosingOk, RequestIsLast, IsSecurity;
    match s.pc
    case AwaitSabm =>
      StartLog(t);
      BegunCloses(StartPhase(t));
      hide StartPhase;
    case AwaitVersion => PlainKeeps(t, [VERSION_RESP, 0, 0, 0, 0, 0, 1], AwaitEp);
    case AwaitEp => PlainKeeps(t, [EP_RESP] + l.nonces + [1], AwaitKe);
    case AwaitKe => KeCloses(t, item, l.exchange);
    case Serving => ServeCloses(t, item, l.reaction);
    case _ =>
  }

  lemma PushCloses(s: Session, payload: seq<byte>)
    requires Inv(s) && Closes(s) && s.handshakeDone
    ensures Closes(BuildEnc(s, payload))
  {
    hide Received, Log, ClosingAfter, Inv, BuildEnc, ClosingOk, RequestIsLast;
    BuildEncFields(s, payload);
    if !s.pc.Done? {
      App.LateResponds(s);
      EncKeeps(s, payload);
      SameCloses(s, BuildEnc(s, payload));
    }
  }

  lemma StepCloses(s: Session, l: Label)
    requires Inv(s) && Closes(s) && (l.Take? ==> !l.reaction.NoHandler?)
    ensures Closes(Step(s, l))
  {
    hide Received, Log, ClosingAfter, Inv, BuildEnc, TakeStep, SendDoneStep, Events, Leftover, Queued, Acks, LastAck,
         ClosingOk, RequestIsLast;
    match l
    case Take(_, _, _) =>
      if s.rxQueue != [] {
        TakeCloses(s, l);
      }
    case SendDone => SendDoneCloses(s);
    case Fail =>
    case Push(payload) =>
      if s.handshakeDone {
        PushCloses(s, payload);
      }
    case _ =>
      var t := Step(s, l);
      SamePhases(s, t);
      if !t.pc.Done? {
        SameCloses(s, t);
      }
  }

  lemma {:induction false} RunCloses(s: Session, labels: seq<Label>)
    requires Inv(s) && Closes(s) && (forall l <- labels :: l.Take? ==> !l.reaction.NoHandler?)
    ensures Closes(Run(s, labels))
    decreases |labels|
  {
    hide Inv, Closes, Step;
    if labels != [] {
      assert labels[0] in labels;
      StepKeeps(s, labels[0]);
      StepCloses(s, labels[0]);
      RunCloses(Step(s, labels[0]), labels[1..]);
    }
  }

  lemma FreshCloses()
    ensures Closes(Fresh())
  {
  }

  /**
   While the second phase runs, in every run with an application behind it: the DISC has been built exactly
   if a storage inventory was answered in this phase and, after it, a read.
   */
  lemma DiscIff(labels: seq<Label>)
    requires forall l <- labels :: l.Take? ==> !l.reaction.NoHandler?
    requires var s := Run(Fresh(), labels); |s.phases| == 2 && !s.pc.Done?
    ensures var s := Run(Fresh(), labels);
            var requests := Finished(s);
            Disc in Log(s) <==>
              exists i, j :: 0 <= i < j < |requests| && Begins(requests[i], 0x50) && Begins(requests[j], 0x10)
  {
    FreshKeeps();
    FreshCloses();
    RunCloses(Fresh(), labels);
    hide Run, Log, Received, Begins, ClosingAfter;
    ClosedMeans(Finished(Run(Fresh(), labels)));
  }

  // ---- the end of a request ----

  lemma TakesFirst(s: Session, l: Label, n: nat)
    requires n > 0
    ensures Run(s, H.Takes(l, n)) == Run(Step(s, l), H.Takes(l, n - 1))
  {
    hide Step;
    assert H.Takes(l, n)[1..] == H.Takes(l, n - 1);
  }

  /** One more completed send, that of a DISC, and the frame loop waits again. */
  lemma FinishWaits(s: Session, plaintext: seq<byte>)
    ensures var t := Run(FinishRequest(s, plaintext), H.Takes(SendDone, 1));
            t.pc == Serving && Sent(Log(t)) == Sent(Log(s)) && Received(Log(t)) == Received(Log(s))
  {
    hide FinishRequest, Log, Sent, Received;
    var t := FinishRequest(s, plaintext);
    App.FinishSilent(s, plaintext);
    TakesFirst(t, SendDone, 1);
    SamePhases(t, Step(t, SendDone));
  }

  lemma NextAnswer(s: Session, answers: seq<seq<byte>>, plaintext: seq<byte>)
    requires answers != [] && s.phases != [] && s.keys.Some?
    ensures var t := Answer(s, answers, plaintext);
            && t.keys.Some? && t.phases != [] && Step(t, SendDone) == Answer(t, answers[1..], plaintext)
  {
    BuildEncFields(s, answers[0]);
    EncKeeps(s, answers[0]);
    hide BuildEnc, Log, Received;
  }

  lemma AnswerMoved(sent: seq<seq<byte>>, answers: seq<seq<byte>>)
    requires answers != []
    ensures sent + [answers[0]] + answers[1..] == sent + answers
  {
  }

  /** Each completed send builds the next answer. */
  lemma {:induction false} AnswersFinish(s: Session, answers: seq<seq<byte>>, plaintext: seq<byte>)
    requires s.phases != [] && s.keys.Some?
    ensures var t := Run(Answer(s, answers, plaintext), H.Takes(SendDone, |answers| + 1));
            && t.pc == Serving && Sent(Log(t)) == Sent(Log(s)) + answers && Received(Log(t)) == Received(Log(s))
    decreases |answers|
  {
    hide Run, H.Takes, Step, Sent, Received, Log, BuildEnc, FinishRequest;
    var t := Answer(s, answers, plaintext);
    if answers == [] {
      FinishWaits(s, plaintext);
      assert Sent(Log(s)) + [] == Sent(Log(s));
    } else {
      TakesFirst(t, SendDone, |answers| + 1);
      App.AnswerSaid(s, answers, plaintext);
      NextAnswer(s, answers, plaintext);
      hide Answer;
      AnswersFinish(t, answers[1..], plaintext);
      AnswerMoved(Sent(Log(s)), answers);
    }
  }

  /**
   A request at the head of the queue, wherever a run stands in its frame loop: it is taken, every answer of
   the application is sent, in order, and the frame loop waits for the next frame.
   */
  lemma RequestServed(s: Session, l: Label)
    requires Inv(s) && l.Take? && l.reaction.Answers? && App.Request(s).Some?
    ensures var t := Run(s, [l] + H.Takes(SendDone, |l.reaction.frames| + 1));
            && t.pc == Serving && Sent(Log(t)) == Sent(Log(s)) + l.reaction.frames
            && Received(Log(t)) == Received(Log(s)) + [App.Request(s).value]
  {
    var item, u := s.rxQueue[0], s.(rxQueue := s.rxQueue[1..]);
    var p := App.Request(s).value;
    App.LateResponds(s);
    App.TakeIs(s, l);
    assert TakeStep(s, l) == ServeItem(u, item, l.reaction);
    SamePhases(s, u);
    App.SameOpened(s, u, item.event);
    hide Inv, Step, TakeStep, Log, Sent, Received, ServeItem, AfterTook, Answer, IsSabm, Opened;
    ServedIs(u, item, l.reaction);
    var t := AfterTook(u, item.event, Some(p));
    App.TookSaid(u, item.event, Some(p));
    AnswersFinish(t, l.reaction.frames, p);
    H.RunConcat(s, [l], H.Takes(SendDone, |l.reaction.frames| + 1));
    H.RunOne(s, l);
  }

  lemma PushIs(s: Session, payload: seq<byte>)
    requires Inv(s) && s.handshakeDone
    ensures var t := Step(s, Push(payload));
            && Inv(t) && t.handshakeDone && t.keys == s.keys && t.keys.Some?
            && Sent(Log(t)) == Sent(Log(s)) + [payload]
  {
    App.LateResponds(s);
    App.EncSaid(s, payload);
    BuildEncFields(s, payload);
    StepKeeps(s, Push(payload));
    hide BuildEnc, Inv, Sent, Received, Log;
  }

  lemma KeysOfPhase(s: Session)
    requires Inv(s) && s.handshakeDone
    ensures s.keys.Some? && LastKeys(s) == s.keys && s.phases != []
  {
    hide Core;
  }

  /** A push after the handshake is what the client opens last. */
  lemma PushArrives(labels: seq<Label>, payload: seq<byte>, chunks: seq<seq<byte>>)
    requires Run(Fresh(), labels).handshakeDone
    requires Flatten(chunks) == Wire(Frames(Log(Run(Fresh(), labels + [Push(payload)]))))
    ensures var s := Run(Fresh(), labels);
            s.keys.Some? && Open(s.keys.value.tx, 0, Feed([], chunks)) == Sent(Log(s)) + [payload]
  {
    hide Log, Sent, Received, Wire, Frames, Feed, Open, Run, Step, Inv, LastKeys, PhaseAfter, Flatten;
    var s, more := Run(Fresh(), labels), labels + [Push(payload)];
    FreshKeeps();
    RunKeeps(Fresh(), labels);
    H.RunConcat(Fresh(), labels, [Push(payload)]);
    H.RunOne(s, Push(payload));
    PushIs(s, payload);
    var t := Step(s, Push(payload));
    KeysOfPhase(t);
    App.RunningIsLast(more, t);
    ClientReceivesSent(more, |t.phases|, chunks);
  }

  // ---- why a run ends ----

  /** What makes `run` return here. */
  ghost predicate Ends(s: Session, l: Label) {
    match l
    case Fail => true
    case Timeout => Q.Waits(s.pc) || s.pc.Responding?
    case Take(_, exchange, reaction) =>
      && s.rxQueue != []
      && var item := s.rxQueue[0];
      || (item == Disconnect && Q.Waits(s.pc))
      || (s.pc.AwaitKe? && H.Carries(item, 0x12) && (|item.event.payload| < 49 || exchange == None))
      || (App.Request(s).Some? && reaction.Raises?)
    case _ => false
  }

  /** The wait for the next frame times out, in the second phase or later. */
  predicate GoesSilent(s: Session, l: Label) {
    l.Timeout? && s.pc.Serving? && |s.phases| >= 2
  }

  /** The frame loop takes the notice that the peer is gone. */
  predicate HearsGone(s: Session, l: Label) {
    l.Take? && s.pc.Serving? && s.rxQueue != [] && s.rxQueue[0] == Disconnect
  }

  ghost predicate EndsAt(labels: seq<Label>, n: nat)
    requires n < |labels|
  {
    Ends(Run(Fresh(), labels[..n]), labels[n])
  }

  ghost predicate SilentAt(labels: seq<Label>, n: nat)
    requires n < |labels|
  {
    GoesSilent(Run(Fresh(), labels[..n]), labels[n])
  }

  ghost predicate GoneAt(labels: seq<Label>, n: nat)
    requires n < |labels|
  {
    HearsGone(Run(Fresh(), labels[..n]), labels[n])
  }

  lemma AnswerGoesOn(s: Session, answers: seq<seq<byte>>, plaintext: seq<byte>)
    ensures var t := Answer(s, answers, plaintext);
            && !t.pc.Done? && t.shouldDisconnectAfter == s.shouldDisconnectAfter
            && t.disconnectedByPeer == s.disconnectedByPeer
  {
    RecordFields(s.(srrQueue := [], pc := Serving), Disc);
    if answers != [] {
      BuildEncFields(s, answers[0]);
    }
    hide Record, BuildEnc;
  }

  lemma TookFields(s: Session, event: Event, plain: Option<seq<byte>>)
    ensures var t := AfterTook(s, event, plain);
            && t.pc == s.pc && t.shouldDisconnectAfter == s.shouldDisconnectAfter
            && t.disconnectedByPeer == s.disconnectedByPeer
  {
    RecordFields(s, Took(event, plain));
    hide Record;
  }

  lemma ServeEnds(s: Session, l: Label)
    requires l.Take? && s.rxQueue != [] && s.pc.Serving? && s.keys.Some?
    ensures var t := TakeStep(s, l);
            && (t.pc.Done? <==> Ends(s, l))
            && t.shouldDisconnectAfter == s.shouldDisconnectAfter
            && (t.disconnectedByPeer <==> s.disconnectedByPeer || HearsGone(s, l))
  {
    hide Record, BuildEnc, Answer, AfterTook, Opened, IsSabm;
    var item, u := s.rxQueue[0], s.(rxQueue := s.rxQueue[1..]);
    ServedOther(u, item, l.reaction);
    if item.Heard? && !IsSabm(item) {
      ServedIs(u, item, l.reaction);
      App.SameOpened(s, u, item.event);
      var plain := Opened(u, item.event);
      var t := AfterTook(u, item.event, plain);
      TookFields(u, item.event, plain);
      BuildEncFields(t, FAKE_RESPONSE);
      if plain.Some? && l.reaction.Answers? {
        AnswerGoesOn(t, l.reaction.frames, plain.value);
      }
      hide ServeItem;
    }
  }

  /** Neither of the two outcomes for the caller is touched. */
  ghost predicate SameOutcome(s: Session, t: Session) {
    t.shouldDisconnectAfter == s.shouldDisconnectAfter && t.disconnectedByPeer == s.disconnectedByPeer
  }

  lemma PlainEnds(s: Session, payload: seq<byte>)
    ensures SameOutcome(s, BuildPlain(s, payload)) && BuildPlain(s, payload).pc == s.pc
  {
    BuildPlainFields(s, payload);
    hide BuildPlain;
  }

  lemma KeysEnd(s: Session, keys: Keys)
    ensures SameOutcome(s, SetKeys(s, keys))
  {
  }

  lemma KeEnds(s: Session, item: Item, exchange: Option<Exchange>)
    requires s.pc.AwaitKe?
    ensures var t := OnKe(s, item, exchange);
            && SameOutcome(s, t)
            && (t.pc.Done? <==>
                item == Disconnect || (H.Carries(item, 0x12) && (|item.event.payload| < 49 || exchange == None)))
  {
    if exchange.Some? {
      KeysEnd(s, exchange.value.keys);
      PlainEnds(SetKeys(s, exchange.value.keys), [KE_RESP] + exchange.value.reply);
    }
    hide SetKeys, BuildPlain;
  }

  lemma HandshakeEnds(s: Session, l: Label)
    requires l.Take? && s.rxQueue != [] && !s.pc.Serving? && !s.pc.Done?
    ensures var t := TakeStep(s, l); (t.pc.Done? <==> Ends(s, l)) && SameOutcome(s, t)
  {
    var item, u := s.rxQueue[0], s.(rxQueue := s.rxQueue[1..]);
    PlainEnds(u, [VERSION_RESP, 0, 0, 0, 0, 0, 1]);
    PlainEnds(u, [EP_RESP] + l.nonces + [1]);
    hide BuildPlain, OnKe, IsSecurity, H.Carries, IsSabm;
    if s.pc.AwaitKe? {
      KeEnds(u, item, l.exchange);
    }
  }

  lemma DoneStays(s: Session, l: Label)
    requires l.Take? && s.rxQueue != [] && s.pc.Done?
    ensures TakeStep(s, l) == s
  {
  }

  /** The three outcomes change exactly where they should. */
  lemma StepEnds(s: Session, l: Label)
    requires Inv(s)
    ensures var t := Step(s, l);
            && (t.pc.Done? <==> s.pc.Done? || Ends(s, l))
            && (t.shouldDisconnectAfter <==> s.shouldDisconnectAfter || GoesSilent(s, l))
            && (t.disconnectedByPeer <==> s.disconnectedByPeer || HearsGone(s, l))
  {
    hide BuildEnc, Events, Leftover, Queued, Acks, LastAck, TakeStep, Answer, Opened, Log, Inv;
    match l
    case Take(_, _, _) =>
      if s.rxQueue != [] && s.pc.Serving? {
        App.LateResponds(s);
        ServeEnds(s, l);
      } else if s.rxQueue != [] && !s.pc.Done? {
        HandshakeEnds(s, l);
      } else if s.rxQueue != [] {
        DoneStays(s, l);
      }
    case SendDone =>
      if s.pc.Responding? {
        AnswerGoesOn(s, s.pc.rest, s.pc.plaintext);
      }
    case Push(payload) => BuildEncFields(s, payload);
    case _ =>
  }

  lemma RunSnoc(s: Session, labels: seq<Label>)
    requires labels != []
    ensures var n := |labels| - 1; Run(s, labels) == Step(Run(s, labels[..n]), labels[n])
  {
    var n := |labels| - 1;
    assert labels == labels[..n] + [labels[n]];
    H.RunConcat(s, labels[..n], [labels[n]]);
    H.RunOne(Run(s, labels[..n]), labels[n]);
    hide Run, Step;
  }

  lemma FreshEnds()
    ensures var s := Run(Fresh(), []); !s.pc.Done? && !s.shouldDisconnectAfter && !s.disconnectedByPeer
  {
  }

  /**
   Over every run: `run` has returned exactly if one of the reasons above came up; the caller is asked to
   disconnect exactly if the frame loop once timed out in the second phase or later; and the peer is said to
   have gone exactly if the frame loop took the notice of it.
   */
  lemma {:induction false} RunEnds(labels: seq<Label>)
    ensures var s := Run(Fresh(), labels);
            && (s.pc.Done? <==> exists n :: 0 <= n < |labels| && EndsAt(labels, n))
            && (s.shouldDisconnectAfter <==> exists n :: 0 <= n < |labels| && SilentAt(labels, n))
            && (s.disconnectedByPeer <==> exists n :: 0 <= n < |labels| && GoneAt(labels, n))
    decreases |labels|
  {
    hide Run, Step, Ends, GoesSilent, HearsGone, Inv;
    if labels == [] {
      FreshEnds();
    } else {
      var n := |labels| - 1;
      var front := labels[..n];
      RunEnds(front);
      RunSnoc(Fresh(), labels);
      FreshKeeps();
      RunKeeps(Fresh(), front);
      StepEnds(Run(Fresh(), front), labels[n]);
      assert EndsAt(labels, n) == Ends(Run(Fresh(), front), labels[n]);
      assert SilentAt(labels, n) == GoesSilent(Run(Fresh(), front), labels[n]);
      assert GoneAt(labels, n) == HearsGone(Run(Fresh(), front), labels[n]);
      forall i | 0 <= i < n
        ensures EndsAt(labels, i) == EndsAt(front, i)
        ensures SilentAt(labels, i) == SilentAt(front, i)
        ensures GoneAt(labels, i) == GoneAt(front, i)
      {
        assert front[..i] == labels[..i];
      }
      hide EndsAt, SilentAt, GoneAt;
    }
  }
}
