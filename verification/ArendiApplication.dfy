/**
 The link and the application behind it: what the device sends in a session, less what its pusher
 sends, is what the application answers to what the device has received, in order.
 */
module ArendiApplication {
  import opened Bytes
  import opened Hdlc
  import opened AesCtr
  import opened SecureChannel
  import opened ArendiSession
  import opened ArendiTheorems
  import B = Ble20
  import Sessions = Ble20Sessions
  import Q = ArendiQueue
  import Stream = ArendiStream
  import K = ArendiAcks

  // ---- the application ----

  ghost predicate WellStored(a: B.App) {
    B.UniqueDps(a.store.Keys)
  }

  ghost const NO_ROWS: B.App := B.App(map[], {}, map[])

  /** The state of the application behind the link. */
  type App = a: B.App | WellStored(a) ghost witness NO_ROWS

  lemma RowsStay(a: B.App, plaintext: seq<byte>)
    requires WellStored(a)
    ensures WellStored(B.Dispatch(a, plaintext).0)
  {
    hide B.Dispatch;
    Sessions.ApplyKeepsRows(a, Sessions.Ble(plaintext));
    assert Sessions.Apply(a, Sessions.Ble(plaintext)) == B.Dispatch(a, plaintext).0;
  }

  /** One request: the new state, and the answers unless the application raises. */
  ghost function Respond(a: App, plaintext: seq<byte>): (App, Option<B.Frames>) {
    RowsStay(a, plaintext);
    B.Dispatch(a, plaintext)
  }

  ghost function AppAfter(a: App, requests: seq<seq<byte>>): App {
    if requests == [] then a
    else Respond(AppAfter(a, requests[..|requests| - 1]), requests[|requests| - 1]).0
  }

  /** The answers to a row of requests. */
  ghost function AnswersTo(a: App, requests: seq<seq<byte>>): seq<seq<byte>> {
    if requests == [] then []
    else
      var before := requests[..|requests| - 1];
      AnswersTo(a, before)
      + match Respond(AppAfter(a, before), requests[|requests| - 1]).1 case Some(frames) => frames case None => []
  }

  lemma AnswersSnoc(a: App, requests: seq<seq<byte>>, request: seq<byte>)
    ensures AppAfter(a, requests + [request]) == Respond(AppAfter(a, requests), request).0
    ensures AnswersTo(a, requests + [request])
         == AnswersTo(a, requests)
            + match Respond(AppAfter(a, requests), request).1 case Some(frames) => frames case None => []
  {
    hide Respond;
    assert (requests + [request])[..|requests|] == requests;
  }

  // ---- the device: link and application ----

  /**
   The link and the application; as history, what each encrypted frame of the running phase was, a
   push or an answer, and the state of the application when the phase began.
   */
  datatype Device = Device(link: Session, app: App, pushed: seq<bool>, start: App)

  ghost function NewDevice(app: App): Device {
    Device(Fresh(), app, [], app)
  }

  /** The request the frame loop is about to take out of the queue, if it is one. */
  function Request(s: Session): Option<seq<byte>> {
    if s.pc.Serving? && s.rxQueue != [] && s.rxQueue[0].Heard? && !IsSabm(s.rxQueue[0]) && s.keys.Some? then
      Opened(s, s.rxQueue[0].event)
    else None
  }

  /** The same label, with the application's own answers as the reaction. */
  ghost function Actual(d: Device, l: Label): Label {
    if l.Take? && Request(d.link).Some? then
      match Respond(d.app, Request(d.link).value).1
      case Some(frames) => l.(reaction := Answers(frames))
      case None => l.(reaction := Raises)
    else l
  }

  ghost function DeviceStep(d: Device, l: Label): Device {
    var t := Step(d.link, Actual(d, l));
    var app := if l.Take? && Request(d.link).Some? then Respond(d.app, Request(d.link).value).0 else d.app;
    if |t.phases| != |d.link.phases| then Device(t, app, [], app)
    else
      Device(t, app,
             if |Sent(Log(t))| > |Sent(Log(d.link))| then d.pushed + [l.Push?] else d.pushed, d.start)
  }

  ghost function DeviceRun(d: Device, labels: seq<Label>): Device
    decreases |labels|
  {
    if labels == [] then d else DeviceRun(DeviceStep(d, labels[0]), labels[1..])
  }

  /** The labels of the link in such a run. */
  ghost function ActualLabels(d: Device, labels: seq<Label>): seq<Label>
    decreases |labels|
  {
    if labels == [] then [] else [Actual(d, labels[0])] + ActualLabels(DeviceStep(d, labels[0]), labels[1..])
  }

  /** A run of the device is a run of the link. */
  lemma {:induction false} RunIsLinkRun(d: Device, labels: seq<Label>)
    ensures DeviceRun(d, labels).link == Run(d.link, ActualLabels(d, labels))
    decreases |labels|
  {
    hide Step, Actual, Respond;
    if labels != [] {
      RunIsLinkRun(DeviceStep(d, labels[0]), labels[1..]);
      var all := ActualLabels(d, labels);
      assert all[0] == Actual(d, labels[0]) && all[1..] == ActualLabels(DeviceStep(d, labels[0]), labels[1..]);
    }
  }

  // ---- what every step keeps ----

  /** The payloads that were no pushes. */
  function Unpushed(sent: seq<seq<byte>>, pushed: seq<bool>): seq<seq<byte>>
    requires |pushed| == |sent|
  {
    if sent == [] then []
    else
      var n := |sent| - 1;
      Unpushed(sent[..n], pushed[..n]) + if pushed[n] then [] else [sent[n]]
  }

  lemma UnpushedSnoc(sent: seq<seq<byte>>, pushed: seq<bool>, payload: seq<byte>, push: bool)
    requires |pushed| == |sent|
    ensures Unpushed(sent + [payload], pushed + [push]) == Unpushed(sent, pushed) + if push then [] else [payload]
  {
    assert (sent + [payload])[..|sent|] == sent && (pushed + [push])[..|pushed|] == pushed;
  }

  /** The answers of the current request that are not built yet. */
  function Pending(s: Session): seq<seq<byte>> {
    if s.pc.Responding? then s.pc.rest else []
  }

  /** What was sent but not pushed, and what is still to be sent, are the answers; an ended run may owe some. */
  ghost predicate Balanced(said: seq<seq<byte>>, pushed: seq<bool>, pending: seq<seq<byte>>, done: bool,
                           answers: seq<seq<byte>>) {
    && |pushed| == |said|
    && if done then Unpushed(said, pushed) <= answers else Unpushed(said, pushed) + pending == answers
  }

  ghost predicate AppInv(d: Device) {
    var log := Log(d.link);
    && Inv(d.link)
    && d.app == AppAfter(d.start, Received(log))
    && Balanced(Sent(log), d.pushed, Pending(d.link), d.link.pc.Done?, AnswersTo(d.start, Received(log)))
  }

  /** The step adds nothing to what was said and heard in the running phase. */
  ghost predicate Silent(s: Session, t: Session) {
    Sent(Log(t)) == Sent(Log(s)) && Received(Log(t)) == Received(Log(s)) && |t.phases| == |s.phases|
  }

  lemma PlainEntry(log: seq<Entry>, e: Entry)
    requires !e.Enc? && !(e.Took? && e.plain.Some?)
    ensures Sent(log + [e]) == Sent(log) && Received(log + [e]) == Received(log)
  {
    hide Sent, Received, Used, CountI, Taken;
    Snoc(log, e);
    SentSnoc(log, e);
  }

  lemma RecordSilent(s: Session, e: Entry)
    requires !e.Enc? && !(e.Took? && e.plain.Some?)
    ensures Silent(s, Record(s, e))
  {
    RecordLog(s, e);
    PlainEntry(Log(s), e);
    hide Sent, Received, Record;
  }

  lemma SameSilent(s: Session, t: Session)
    requires s.phases == t.phases
    ensures Silent(s, t)
  {
    SamePhases(s, t);
  }

  lemma FinishSilent(s: Session, plaintext: seq<byte>)
    ensures var t := FinishRequest(s, plaintext);
            Silent(s, t) && (t.pc.Serving? || t.pc.SendingDisc?)
  {
    hide Sent, Received;
    var t := s.(srrQueue := [], pc := Serving);
    SameSilent(s, t);
    RecordSilent(t, Disc);
    hide Record;
    SameSilent(Record(t, Disc), Record(t, Disc).(pc := SendingDisc));
  }

  lemma EncSaid(s: Session, payload: seq<byte>)
    requires s.phases != [] && s.keys.Some?
    ensures var t := BuildEnc(s, payload);
            && Sent(Log(t)) == Sent(Log(s)) + [payload] && Received(Log(t)) == Received(Log(s))
            && |t.phases| == |s.phases| && t.pc == s.pc
  {
    hide Sent, Received, InnerEncode, ICtrl, Used, CountI, Taken;
    var e := Enc(ICtrl(s.rxAck, s.txSeq), s.keys.value.tx, s.txAt, payload);
    RecordLog(s, e);
    Snoc(Log(s), e);
    SentSnoc(Log(s), e);
    RecordFields(s, e);
    hide Record;
    SamePhases(Record(s, e), BuildEnc(s, payload));
  }

  lemma AnswerSaid(s: Session, answers: seq<seq<byte>>, plaintext: seq<byte>)
    requires s.phases != [] && s.keys.Some?
    ensures var t := Answer(s, answers, plaintext);
            && Received(Log(t)) == Received(Log(s)) && |t.phases| == |s.phases|
            && Sent(Log(t)) == Sent(Log(s)) + (if answers == [] then [] else [answers[0]])
            && Pending(t) == (if answers == [] then [] else answers[1..]) && !t.pc.Done?
  {
    hide Sent, Received, BuildEnc, FinishRequest;
    if answers == [] {
      FinishSilent(s, plaintext);
      assert Sent(Log(s)) + [] == Sent(Log(s));
    } else {
      EncSaid(s, answers[0]);
      SamePhases(BuildEnc(s, answers[0]), Answer(s, answers, plaintext));
    }
  }

  lemma TookSaid(s: Session, event: Event, plain: Option<seq<byte>>)
    requires s.phases != []
    ensures var t := AfterTook(s, event, plain);
            && Sent(Log(t)) == Sent(Log(s)) && |t.phases| == |s.phases| && t.keys == s.keys && t.pc == s.pc
            && Received(Log(t)) == Received(Log(s)) + if plain.Some? then [plain.value] else []
  {
    hide Sent, Received, Used, CountI, Taken;
    var e := Took(event, plain);
    RecordLog(s, e);
    Snoc(Log(s), e);
    SentSnoc(Log(s), e);
    RecordFields(s, e);
    hide Record;
    SamePhases(Record(s, e), AfterTook(s, event, plain));
    assert Received(Log(s)) + [] == Received(Log(s));
  }

  lemma NotEncYet(k: nat, keys: Option<Keys>, before: seq<Entry>, e: Entry)
    requires Fits(k, keys, before, e) && |before| < 4
    ensures !e.Enc?
  {
  }

  lemma {:induction false} ShortSent(k: nat, p: Phase)
    requires Ordered(k, p) && |p.log| <= 4
    ensures Sent(p.log) == []
    decreases |p.log|
  {
    if p.log != [] {
      var n := |p.log| - 1;
      var q := p.(log := p.log[..n]);
      hide Fits;
      forall i | 0 <= i < n
        ensures Fits(k, q.keys, q.log[..i], q.log[i])
      {
        assert q.log[..i] == p.log[..i];
        assert Fits(k, p.keys, p.log[..i], p.log[i]);
      }
      ShortSent(k, q);
      assert Fits(k, p.keys, p.log[..n], p.log[n]);
      NotEncYet(k, p.keys, p.log[..n], p.log[n]);
    }
  }

  /** Nothing said, nothing owed: before the key exchange. */
  lemma EarlyLog(s: Session)
    requires Inv(s) && |Log(s)| <= 4
    ensures Received(Log(s)) == [] && Sent(Log(s)) == []
  {
    hide PcOk, DiscOk, Ordered;
    if s.phases == [] {
      assert Log(s) == [];
    } else {
      var p := s.phases[|s.phases| - 1];
      assert PhaseOk(|s.phases|, p);
      ShortLog(|s.phases|, p);
      ShortSent(|s.phases|, p);
    }
  }

  // ---- what the balance survives ----

  lemma EndedOwes(said: seq<seq<byte>>, pushed: seq<bool>, pending: seq<seq<byte>>, done: bool, answers: seq<seq<byte>>)
    requires Balanced(said, pushed, pending, done, answers)
    ensures Balanced(said, pushed, [], true, answers)
  {
  }

  lemma OneAnswered(said: seq<seq<byte>>, pushed: seq<bool>, pending: seq<seq<byte>>, answers: seq<seq<byte>>)
    requires Balanced(said, pushed, pending, false, answers) && pending != []
    ensures Balanced(said + [pending[0]], pushed + [false], pending[1..], false, answers)
  {
    UnpushedSnoc(said, pushed, pending[0], false);
    hide Unpushed;
    assert Unpushed(said, pushed) + [pending[0]] + pending[1..] == Unpushed(said, pushed) + pending;
  }

  lemma OnePushed(said: seq<seq<byte>>, pushed: seq<bool>, payload: seq<byte>, pending: seq<seq<byte>>, done: bool,
                  answers: seq<seq<byte>>)
    requires Balanced(said, pushed, pending, done, answers)
    ensures Balanced(said + [payload], pushed + [true], pending, done, answers)
  {
    UnpushedSnoc(said, pushed, payload, true);
    hide Unpushed;
    assert Unpushed(said, pushed) + [] == Unpushed(said, pushed);
  }

  lemma MoreAsked(said: seq<seq<byte>>, pushed: seq<bool>, answers: seq<seq<byte>>, more: seq<seq<byte>>)
    requires Balanced(said, pushed, [], false, answers)
    ensures Balanced(said, pushed, more, false, answers + more)
  {
    hide Unpushed;
    assert Unpushed(said, pushed) + [] == Unpushed(said, pushed);
  }

  // ---- every step ----

  lemma NothingOwed(app: App)
    ensures app == AppAfter(app, []) && Balanced([], [], [], false, AnswersTo(app, []))
    ensures Balanced([], [], [], true, AnswersTo(app, []))
  {
  }

  lemma InvOf(d: Device)
    requires AppInv(d)
    ensures Inv(d.link)
  {
    hide Inv, Balanced, AnswersTo, AppAfter;
  }

  lemma InvIs(d: Device)
    requires Inv(d.link) && d.app == AppAfter(d.start, Received(Log(d.link)))
    requires Balanced(Sent(Log(d.link)), d.pushed, Pending(d.link), d.link.pc.Done?,
                      AnswersTo(d.start, Received(Log(d.link))))
    ensures AppInv(d)
  {
    hide Inv, Balanced, AnswersTo, AppAfter;
  }

  lemma BegunLog(s: Session, t: Session)
    requires K.AcksKept(s, t) && |t.phases| != |s.phases|
    ensures |Log(t)| == 1
  {
  }

  lemma LateResponds(s: Session)
    requires Inv(s)
    ensures s.pc.Responding? ==> |Log(s)| >= 4 && s.phases != [] && s.keys.Some?
    ensures s.handshakeDone ==> |Log(s)| >= 4 && s.phases != [] && s.keys.Some?
    ensures s.pc.Serving? ==> s.handshakeDone
  {
    hide Core, DiscOk;
  }

  /** A phase has just begun. */
  lemma BegunKeeps(d: Device, l: Label)
    requires AppInv(d) && |Step(d.link, Actual(d, l)).phases| != |d.link.phases|
    ensures AppInv(DeviceStep(d, l))
  {
    var t := Step(d.link, Actual(d, l));
    hide AppInv, Respond, Step, Inv;
    assert Inv(d.link) by { InvOf(d); }
    StepKeeps(d.link, Actual(d, l));
    K.StepAcks(d.link, Actual(d, l));
    BegunLog(d.link, t);
    EarlyLog(t);
    LateResponds(t);
    var e := DeviceStep(d, l);
    NothingOwed(e.app);
    InvIs(e);
  }

  lemma StepKeepsLink(d: Device, l: Label)
    requires AppInv(d)
    ensures Inv(Step(d.link, Actual(d, l)))
  {
    InvOf(d);
    hide AppInv, Inv, Step, Actual;
    StepKeeps(d.link, Actual(d, l));
  }

  /** A step that says and hears nothing. */
  lemma SilentKeeps(d: Device, l: Label)
    requires AppInv(d) && Silent(d.link, Step(d.link, Actual(d, l)))
    requires l.Take? ==> Request(d.link) == None
    requires var t := Step(d.link, Actual(d, l));
             t.pc.Done? || (!d.link.pc.Done? && Pending(t) == Pending(d.link))
    ensures AppInv(DeviceStep(d, l))
  {
    var t := Step(d.link, Actual(d, l));
    var log := Log(d.link);
    StepKeepsLink(d, l);
    hide Inv, Step, Respond, AnswersTo, AppAfter, Balanced, Actual, Log, Sent, Received;
    if t.pc.Done? {
      EndedOwes(Sent(log), d.pushed, Pending(d.link), d.link.pc.Done?, AnswersTo(d.start, Received(log)));
      assert Pending(t) == [];
    }
    hide AppInv;
    InvIs(DeviceStep(d, l));
  }

  /** A step that leaves trace and place alone. */
  lemma SilentSame(d: Device, l: Label)
    requires AppInv(d) && Silent(d.link, Step(d.link, Actual(d, l))) && Step(d.link, Actual(d, l)).pc == d.link.pc
    requires l.Take? ==> Request(d.link) == None
    ensures AppInv(DeviceStep(d, l))
  {
    hide Step, Inv, Respond, AnswersTo, AppAfter, Actual;
    SilentKeeps(d, l);
  }

  lemma AppIs(d: Device)
    requires AppInv(d)
    ensures d.app == AppAfter(d.start, Received(Log(d.link)))
    ensures Balanced(Sent(Log(d.link)), d.pushed, Pending(d.link), d.link.pc.Done?,
                     AnswersTo(d.start, Received(Log(d.link))))
  {
    hide Inv, Balanced, AnswersTo, AppAfter, Respond;
  }

  /** A step that sends one payload. */
  lemma SaidKeeps(d: Device, l: Label, payload: seq<byte>)
    requires AppInv(d) && (l.Take? ==> Request(d.link) == None)
    requires var t := Step(d.link, Actual(d, l));
             && Sent(Log(t)) == Sent(Log(d.link)) + [payload] && Received(Log(t)) == Received(Log(d.link))
             && |t.phases| == |d.link.phases|
             && Balanced(Sent(Log(t)), d.pushed + [l.Push?], Pending(t), t.pc.Done?,
                         AnswersTo(d.start, Received(Log(d.link))))
    ensures AppInv(DeviceStep(d, l))
  {
    StepKeepsLink(d, l);
    AppIs(d);
    hide Inv, Step, Respond, AnswersTo, AppAfter, Balanced, Actual, Log, Sent, Received, AppInv;
    InvIs(DeviceStep(d, l));
  }

  lemma ActualPush(d: Device, payload: seq<byte>)
    ensures Actual(d, Push(payload)) == Push(payload)
    ensures Step(d.link, Push(payload)) == if d.link.handshakeDone then BuildEnc(d.link, payload) else d.link
  {
    hide BuildEnc, Respond;
  }

  /** A step of the pusher. */
  lemma PushBalances(d: Device, payload: seq<byte>)
    requires AppInv(d)
    ensures AppInv(DeviceStep(d, Push(payload)))
  {
    var s := d.link;
    InvOf(d);
    AppIs(d);
    LateResponds(s);
    ActualPush(d, payload);
    hide Inv, Respond, AnswersTo, AppAfter, Balanced, Log, Sent, Received, BuildEnc, AppInv, Step, Actual, DeviceStep;
    if s.handshakeDone {
      EncSaid(s, payload);
      OnePushed(Sent(Log(s)), d.pushed, payload, Pending(s), s.pc.Done?, AnswersTo(d.start, Received(Log(s))));
      SaidKeeps(d, Push(payload), payload);
    } else {
      SameSilent(s, s);
      SilentSame(d, Push(payload));
    }
  }

  lemma ActualDone(d: Device)
    ensures Actual(d, Label.SendDone) == Label.SendDone && Step(d.link, Label.SendDone) == SendDoneStep(d.link)
  {
    hide SendDoneStep, Respond;
  }

  /** A send has completed: the next answer, or the end of the request. */
  lemma SendDoneBalances(d: Device)
    requires AppInv(d)
    ensures AppInv(DeviceStep(d, Label.SendDone))
  {
    var s := d.link;
    InvOf(d);
    AppIs(d);
    LateResponds(s);
    ActualDone(d);
    hide Inv, Respond, AnswersTo, AppAfter, Balanced, Log, Sent, Received, Answer, AppInv, Step, Actual, DeviceStep;
    var t := SendDoneStep(s);
    if s.pc.Responding? {
      AnswerSaid(s, s.pc.rest, s.pc.plaintext);
      if s.pc.rest == [] {
        assert Sent(Log(s)) + [] == Sent(Log(s));
        SilentKeeps(d, Label.SendDone);
      } else {
        OneAnswered(Sent(Log(s)), d.pushed, s.pc.rest, AnswersTo(d.start, Received(Log(s))));
        SaidKeeps(d, Label.SendDone, s.pc.rest[0]);
      }
    } else {
      SameSilent(s, t);
      if s.pc.Done? {
        SilentSame(d, Label.SendDone);
      } else {
        SilentKeeps(d, Label.SendDone);
      }
    }
  }

  lemma ActualQuiet(d: Device, l: Label)
    requires Request(d.link) == None || !l.Take?
    ensures Actual(d, l) == l
  {
    hide Respond, Opened;
  }

  lemma SabmQuiet(s: Session, item: Item)
    requires s.pc.AwaitSabm? && s.phases == []
    ensures var t := OnSabm(s, item);
            |t.phases| != |s.phases| || (|Log(s)| <= 4 && |Log(t)| <= 4 && !t.pc.Responding?)
  {
    hide IsSabm;
  }

  lemma EarlyPcs(s: Session, item: Item, nonces: seq<byte>)
    requires !s.pc.Responding?
    ensures !OnVersion(s, item).pc.Responding? && !OnEp(s, item, nonces).pc.Responding?
  {
    hide BuildPlain, IsSecurity;
  }

  lemma KeQuiet(s: Session, item: Item, exchange: Option<Exchange>)
    requires Inv(s) && s.pc.AwaitKe?
    ensures var t := OnKe(s, item, exchange); |Log(s)| <= 4 && |Log(t)| <= 4 && !t.pc.Responding?
  {
    hide Inv, Core, BuildPlain, SetKeys, Taken;
    var t := OnKe(s, item, exchange);
    Stream.KeLog(s);
    if item != Disconnect && IsSecurity(item, KE_REQ) && |item.event.payload| >= 49 && exchange.Some? {
      var u := SetKeys(s, exchange.value.keys);
      SetKeysKeeps(s, exchange.value.keys);
      Stream.PlainLog(u, [KE_RESP] + exchange.value.reply);
      SamePhases(BuildPlain(u, [KE_RESP] + exchange.value.reply), t);
    } else {
      SamePhases(s, t);
    }
  }

  /** While `run` is not in its frame loop nothing is said or heard. */
  lemma HandshakeQuiet(s: Session, l: Label)
    requires Inv(s) && l.Take? && s.rxQueue != [] && !s.pc.Serving?
    ensures var t := TakeStep(s, l);
            || t == s || |t.phases| != |s.phases|
            || (|Log(s)| <= 4 && |Log(t)| <= 4 && !t.pc.Responding? && !s.pc.Responding? && !s.pc.Done?)
  {
    hide Inv, OnSabm, OnVersion, OnEp, OnKe, ServeItem, Log;
    var item := s.rxQueue[0];
    var t := s.(rxQueue := s.rxQueue[1..]);
    SamePhases(s, t);
    IdleKeeps(s, t);
    Stream.PcLog(s);
    match s.pc
    case AwaitSabm => SabmQuiet(t, item);
    case AwaitVersion => Stream.EarlyTake(t, item, l.nonces); EarlyPcs(t, item, l.nonces);
    case AwaitEp => Stream.EarlyTake(t, item, l.nonces); EarlyPcs(t, item, l.nonces);
    case AwaitKe => KeQuiet(t, item, l.exchange);
    case _ =>
  }

  lemma TakeIs(s: Session, l: Label)
    requires l.Take?
    ensures Step(s, l) == if s.rxQueue == [] then s else TakeStep(s, l)
  {
    hide TakeStep;
  }

  lemma HandshakeBalances(d: Device, l: Label)
    requires AppInv(d) && l.Take? && d.link.rxQueue != [] && !d.link.pc.Serving?
    ensures AppInv(DeviceStep(d, l))
  {
    var s := d.link;
    assert Request(s) == None;
    ActualQuiet(d, l);
    InvOf(d);
    HandshakeQuiet(s, l);
    TakeIs(s, l);
    StepKeepsLink(d, l);
    var t := Step(s, l);
    hide Inv, AppInv, Step, TakeStep, Actual, DeviceStep, Log, Sent, Received, Request;
    if t == s {
      SameSilent(s, s);
      SilentSame(d, l);
    } else if |t.phases| != |s.phases| {
      BegunKeeps(d, l);
    } else {
      EarlyLog(s);
      EarlyLog(t);
      SilentKeeps(d, l);
    }
  }

  lemma RestartPhases(s: Session)
    ensures |Restart(s).phases| == |s.phases| + 1
  {
  }

  lemma SameOpened(s: Session, u: Session, event: Event)
    requires s.keys.Some? && u == s.(rxQueue := u.rxQueue)
    ensures Opened(s, event) == Opened(u, event)
  {
    hide Apply, InnerDecode;
  }

  /** A frame without a request in it, a disconnect notice or a SABM. */
  lemma ServedBalances(d: Device, l: Label)
    requires AppInv(d) && l.Take? && d.link.rxQueue != [] && d.link.pc.Serving? && Request(d.link) == None
    ensures AppInv(DeviceStep(d, l))
  {
    var s, item := d.link, d.link.rxQueue[0];
    var u := s.(rxQueue := s.rxQueue[1..]);
    ActualQuiet(d, l);
    InvOf(d);
    LateResponds(s);
    TakeIs(s, l);
    assert TakeStep(s, l) == ServeItem(u, item, l.reaction);
    SameSilent(s, u);
    hide Inv, AppInv, Step, TakeStep, Actual, DeviceStep, Log, Sent, Received, ServeItem, AfterTook, React, IsSabm;
    if item == Disconnect {
      ServedOther(u, item, l.reaction);
      SameSilent(s, u.(pc := Done, disconnectedByPeer := true));
      SilentKeeps(d, l);
    } else if IsSabm(item) {
      ServedOther(u, item, l.reaction);
      RestartPhases(u);
      BegunKeeps(d, l);
    } else {
      SameOpened(s, u, item.event);
      hide Opened;
      ServedIs(u, item, l.reaction);
      TookSaid(u, item.event, None);
      assert Received(Log(u)) + [] == Received(Log(u));
      SilentKeeps(d, l);
    }
  }

  /** What a request leaves behind, given the application's reaction to it. */
  lemma ReactSaid(s: Session, plaintext: seq<byte>, response: Option<B.Frames>)
    requires s.phases != [] && s.keys.Some? && s.pc.Serving?
    ensures var frames := match response case Some(f) => f case None => [];
            var t := React(s, plaintext, match response case Some(f) => Answers(f) case None => Raises);
            && Received(Log(t)) == Received(Log(s)) && |t.phases| == |s.phases|
            && Sent(Log(t)) == Sent(Log(s)) + (if frames == [] then [] else [frames[0]])
            && Pending(t) == (if frames == [] then [] else frames[1..])
            && (t.pc.Done? <==> response == None)
  {
    hide Sent, Received, Answer;
    match response
    case Some(f) => AnswerSaid(s, f, plaintext);
    case None =>
      SamePhases(s, s.(pc := Done));
      assert Sent(Log(s)) + [] == Sent(Log(s));
  }

  /** The step that takes a request, seen as one of the link. */
  lemma RequestStep(d: Device, l: Label)
    requires Inv(d.link) && l.Take? && Request(d.link).Some?
    ensures var s := d.link;
            var p := Request(s).value;
            var response := Respond(d.app, p).1;
            var frames := match response case Some(f) => f case None => [];
            var t := Step(s, Actual(d, l));
            && Received(Log(t)) == Received(Log(s)) + [p] && |t.phases| == |s.phases|
            && Sent(Log(t)) == Sent(Log(s)) + (if frames == [] then [] else [frames[0]])
            && Pending(t) == (if frames == [] then [] else frames[1..])
            && (t.pc.Done? <==> response == None)
  {
    var s, item := d.link, d.link.rxQueue[0];
    var u := s.(rxQueue := s.rxQueue[1..]);
    var p := Request(s).value;
    var response := Respond(d.app, p).1;
    var reaction := match response case Some(f) => Answers(f) case None => Raises;
    hide Respond;
    LateResponds(s);
    assert Actual(d, l) == l.(reaction := reaction);
    TakeIs(s, Actual(d, l));
    assert TakeStep(s, Actual(d, l)) == ServeItem(u, item, reaction);
    SamePhases(s, u);
    SameOpened(s, u, item.event);
    hide Inv, Step, TakeStep, Actual, Log, Sent, Received, ServeItem, AfterTook, React, IsSabm, Opened;
    ServedIs(u, item, reaction);
    TookSaid(u, item.event, Some(p));
    ReactSaid(AfterTook(u, item.event, Some(p)), p, response);
  }

  /** The answers to a request are owed, and the first of them is sent at once. */
  lemma RequestOwed(said: seq<seq<byte>>, pushed: seq<bool>, answers: seq<seq<byte>>, frames: seq<seq<byte>>)
    requires Balanced(said, pushed, [], false, answers)
    ensures frames != [] ==> Balanced(said + [frames[0]], pushed + [false], frames[1..], false, answers + frames)
    ensures frames == [] ==> Balanced(said, pushed, [], false, answers + [])
    ensures Balanced(said, pushed, [], true, answers + [])
  {
    MoreAsked(said, pushed, answers, frames);
    if frames != [] {
      OneAnswered(said, pushed, frames, answers + frames);
    }
    MoreAsked(said, pushed, answers, []);
    EndedOwes(said, pushed, [], false, answers + []);
  }

  lemma RequestBalances(d: Device, l: Label)
    requires AppInv(d) && l.Take? && Request(d.link).Some?
    ensures AppInv(DeviceStep(d, l))
  {
    var s := d.link;
    var p := Request(s).value;
    var t := Step(s, Actual(d, l));
    InvOf(d);
    AppIs(d);
    RequestStep(d, l);
    StepKeepsLink(d, l);
    var response := Respond(d.app, p).1;
    var frames := match response case Some(f) => f case None => [];
    var heard := Received(Log(s));
    AnswersSnoc(d.start, heard, p);
    assert !s.pc.Done? && Pending(s) == [];
    hide Inv, AppInv, Step, Actual, Log, Sent, Received, Respond, Request, AnswersTo, AppAfter, Balanced;
    RequestOwed(Sent(Log(s)), d.pushed, AnswersTo(d.start, heard), frames);
    var e := DeviceStep(d, l);
    assert e.link == t && e.start == d.start && e.app == Respond(d.app, p).0;
    if frames == [] {
      assert Sent(Log(s)) + [] == Sent(Log(s));
    }
    assert e.pushed == if frames == [] then d.pushed else d.pushed + [false];
    hide DeviceStep;
    InvIs(e);
  }

  lemma TimeoutPlace(s: Session)
    ensures var t := TimeoutStep(s);
            t.phases == s.phases && (t.pc.Done? || (!s.pc.Done? && Pending(t) == Pending(s)))
  {
  }

  lemma TakeAckPlace(s: Session)
    ensures var t := TakeAckStep(s); t.phases == s.phases && Pending(t) == Pending(s) && (t.pc.Done? <==> s.pc.Done?)
  {
  }

  lemma OtherSteps(s: Session, l: Label)
    requires !l.Take? && !l.SendDone? && !l.Push?
    ensures var t := Step(s, l);
            Silent(s, t) && (t.pc.Done? || (!s.pc.Done? && Pending(t) == Pending(s)))
  {
    hide Events, Leftover, Queued, ArendiSession.Acks, LastAck, Silent, TimeoutStep, TakeAckStep;
    TimeoutPlace(s);
    TakeAckPlace(s);
    SameSilent(s, Step(s, l));
  }

  lemma OtherBalances(d: Device, l: Label)
    requires AppInv(d) && !l.Take? && !l.SendDone? && !l.Push?
    ensures AppInv(DeviceStep(d, l))
  {
    var s := d.link;
    ActualQuiet(d, l);
    OtherSteps(s, l);
    hide Inv, AppInv, Step, Actual, DeviceStep, Request, Silent;
    SilentKeeps(d, l);
  }

  /** Every step of the device keeps the balance of requests and answers. */
  lemma DeviceStepKeeps(d: Device, l: Label)
    requires AppInv(d)
    ensures AppInv(DeviceStep(d, l))
  {
    hide AppInv, DeviceStep;
    match l
    case Push(payload) => PushBalances(d, payload);
    case SendDone => SendDoneBalances(d);
    case Take(_, _, _) =>
      if Request(d.link).Some? {
        RequestBalances(d, l);
      } else if d.link.rxQueue == [] {
        ActualQuiet(d, l);
        TakeIs(d.link, l);
        SameSilent(d.link, d.link);
        hide Step, Actual, Request;
        SilentSame(d, l);
      } else if d.link.pc.Serving? {
        ServedBalances(d, l);
      } else {
        HandshakeBalances(d, l);
      }
    case _ => OtherBalances(d, l);
  }

  lemma {:induction false} DeviceRunKeeps(d: Device, labels: seq<Label>)
    requires AppInv(d)
    ensures AppInv(DeviceRun(d, labels))
    decreases |labels|
  {
    hide AppInv, DeviceStep;
    if labels != [] {
      DeviceStepKeeps(d, labels[0]);
      DeviceRunKeeps(DeviceStep(d, labels[0]), labels[1..]);
    }
  }

  lemma NewDeviceKeeps(app: App)
    ensures AppInv(NewDevice(app))
  {
    FreshKeeps();
    hide Inv, Respond;
    NothingOwed(app);
    assert Log(Fresh()) == [];
  }

  // ---- what every run guarantees ----

  /**
   In every run, whatever is fed, pushed, timed out or failed in between: what the running phase has
   sent, less the pushes, is the beginning of the application's answers to what it has received, in
   order; and as long as the run has not ended only the rest of the current request's is missing.
   */
  lemma AnswersInOrder(app: App, labels: seq<Label>)
    ensures var d := DeviceRun(NewDevice(app), labels);
            var answers := AnswersTo(d.start, Received(Log(d.link)));
            && |d.pushed| == |Sent(Log(d.link))|
            && Unpushed(Sent(Log(d.link)), d.pushed) <= answers
            && (!d.link.pc.Done? ==> Unpushed(Sent(Log(d.link)), d.pushed) + Pending(d.link) == answers)
  {
    hide DeviceRun, AppInv;
    NewDeviceKeeps(app);
    DeviceRunKeeps(NewDevice(app), labels);
    var d := DeviceRun(NewDevice(app), labels);
    AppIs(d);
    hide AnswersTo, Unpushed, Log, Sent, Received;
  }

  lemma ActualFeeds(d: Device, l: Label)
    ensures Actual(d, l).FeedBytes? <==> l.FeedBytes?
    ensures l.FeedBytes? ==> Actual(d, l) == l
  {
    hide Respond, Request;
  }

  lemma {:induction false} SameHeard(d: Device, labels: seq<Label>)
    ensures Q.Heard(ActualLabels(d, labels)) == Q.Heard(labels)
    decreases |labels|
  {
    hide Actual, DeviceStep;
    if labels != [] {
      ActualFeeds(d, labels[0]);
      SameHeard(DeviceStep(d, labels[0]), labels[1..]);
      var all := ActualLabels(d, labels);
      assert all[0] == Actual(d, labels[0]) && all[1..] == ActualLabels(DeviceStep(d, labels[0]), labels[1..]);
    }
  }

  lemma RunningIsLast(labels: seq<Label>, s: Session)
    requires s == Run(Fresh(), labels) && s.phases != []
    ensures PhaseAfter(labels, |s.phases|).log == Log(s) && PhaseAfter(labels, |s.phases|).keys == LastKeys(s)
  {
    hide Run;
  }

  lemma SomePhase(s: Session)
    ensures Log(s) != [] ==> s.phases != []
  {
  }

  lemma NewLink(app: App)
    ensures NewDevice(app).link == Fresh()
  {
  }

  /**
   End to end: a client seals its requests, its bytes are cut and fed anyhow among everything else that
   happens, and the device's bytes are cut anyhow on their way back.  Once the device has taken all
   requests and waits for more, what the client opens in that session, less the pushes, is exactly
   what the application answers to the requests, in order.
   */
  lemma EndToEnd(app: App, labels: seq<Label>, before: seq<Frame>, handshake: seq<Frame>, keys: Keys, sent: nat,
                 acks: seq<nat>, requests: seq<seq<byte>>, chunks: seq<seq<byte>>)
    requires |acks| == |requests| && Stream.ClientHandshake(handshake)
    requires Q.Heard(labels) == Wire(before + handshake + Seal(keys.rx, 0, sent, acks, requests))
    requires var s := DeviceRun(NewDevice(app), labels).link;
             && |Log(s)| >= 4 && LastKeys(s) == Some(keys) && s.pc.Serving? && Stream.EventsOf(s.rxQueue) == []
             && Flatten(chunks) == Wire(Frames(Log(s)))
    ensures var d := DeviceRun(NewDevice(app), labels);
            var heard := Open(keys.tx, 0, Feed([], chunks));
            |d.pushed| == |heard| && Unpushed(heard, d.pushed) == AnswersTo(d.start, requests)
  {
    hide DeviceRun, ActualLabels, Run, Open, Feed, Wire, Frames, Seal, Q.Heard, Sent, Received, AnswersTo, Unpushed,
         Log, LastKeys, PhaseAfter, Stream.EventsOf, Stream.ClientHandshake, NewDevice;
    var d := DeviceRun(NewDevice(app), labels);
    var actual := ActualLabels(NewDevice(app), labels);
    NewLink(app);
    RunIsLinkRun(NewDevice(app), labels);
    SameHeard(NewDevice(app), labels);
    SomePhase(d.link);
    Stream.DeviceReceivesSealed(actual, before, handshake, keys, sent, acks, requests);
    RunningIsLast(actual, d.link);
    ClientReceivesSent(actual, |d.link.phases|, chunks);
    AnswersInOrder(app, labels);
    assert Unpushed(Sent(Log(d.link)), d.pushed) + [] == Unpushed(Sent(Log(d.link)), d.pushed);
  }
}
