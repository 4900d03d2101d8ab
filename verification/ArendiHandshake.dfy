/**
 A handshake that is offered is completed: from the client's bytes, cut anywhere and taken at any time
 among the feeding, to the three answers, the keys and the frame loop.
 */
module ArendiHandshake {
  import opened Bytes
  import opened Hdlc
  import opened SecureChannel
  import opened ArendiSession
  import opened ArendiTheorems
  import Q = ArendiQueue
  import Server = ArendiServer

  // ---- what the handshake waits for ----

  predicate Carries(item: Item, kind: byte) {
    item.Heard? && item.event.I? && item.event.payload != [] && item.event.payload[0] == kind
  }

  /** What is awaited: a SABM, then a VERSION_REQ, an EP_REQ and a KE_REQ. */
  predicate Awaited(stage: nat, item: Item) {
    if stage == 0 then item.Heard? && item.event.U? && item.event.ctrl == 0x2F
    else if stage == 1 then Carries(item, 0x00)
    else if stage == 2 then Carries(item, 0x10)
    else stage == 3 && Carries(item, 0x12)
  }

  /** How far these frames bring a handshake; frames that are not awaited are passed over. */
  function StageAfter(items: seq<Item>): (stage: nat)
    ensures stage <= 4
  {
    if items == [] then 0
    else
      var n := |items| - 1;
      var stage := StageAfter(items[..n]);
      if Awaited(stage, items[n]) then stage + 1 else stage
  }

  lemma StageSnoc(items: seq<Item>, item: Item)
    ensures StageAfter(items + [item])
         == StageAfter(items) + if Awaited(StageAfter(items), item) then 1 else 0
  {
    assert (items + [item])[..|items|] == items;
  }

  lemma {:induction false} StageGrows(items: seq<Item>, n: nat)
    requires n <= |items|
    ensures StageAfter(items[..n]) <= StageAfter(items)
  {
    hide Awaited;
    if n == |items| {
      assert items[..n] == items;
    } else {
      StageGrows(items[..|items| - 1], n);
      assert items[..|items| - 1][..n] == items[..n];
    }
  }

  // ---- where the session stands ----

  /** The handshake of this phase: its random numbers, the outcome of its key exchange, and whether anything is pushed. */
  datatype Offer = Offer(phase: nat, nonces: seq<byte>, exchange: Option<Exchange>, pushes: bool)

  /** An unencrypted answer with this number. */
  predicate Answered(e: Entry, number: nat, payload: seq<byte>) {
    e.Plain? && e.payload == payload && e.ctrl % 2 == 0 && SendNumber(e.ctrl) == number
  }

  /** The first answers of the phase, one for each stage. */
  predicate LogAt(stage: nat, log: seq<Entry>, offer: Offer) {
    && stage <= |log|
    && (stage > 0 ==> log[0] == Ua)
    && (stage > 1 ==> Answered(log[1], 0, [0x01, 0, 0, 0, 0, 0, 1]))
    && (stage > 2 ==> Answered(log[2], 1, [0x11] + offer.nonces + [1]))
    && (stage > 3 ==> offer.exchange.Some? && Answered(log[3], 2, [0x13] + offer.exchange.value.reply))
  }

  /** Nothing else has been built in the phase, its pushes aside. */
  predicate OnlyPushed(log: seq<Entry>, offer: Offer) {
    forall i :: 4 <= i < |log| ==> offer.pushes && log[i].Enc?
  }

  /** Waiting for a request after exactly this many answers. */
  ghost predicate WaitsAt(stage: nat, s: Session, offer: Offer) {
    && !s.handshakeDone && (offer.phase == 1 ==> s.keys == None)
    && match stage
       case 0 => s.pc == AwaitSabm && s.phases == [] && offer.phase == 1 && s.txSeq == 0
       case _ =>
         && |s.phases| == offer.phase > 0
         && var phase := s.phases[offer.phase - 1];
         && phase.keys == None && |phase.log| == stage && LogAt(stage, phase.log, offer)
         && s.txSeq == stage - 1
         && s.pc == if stage == 1 then AwaitVersion else if stage == 2 then AwaitEp else AwaitKe
  }

  /** The KE_REQ was too short or its check was refused: no answer to it and no keys. */
  ghost predicate Refused(s: Session, offer: Offer) {
    && s.pc == Done && !s.handshakeDone && (offer.phase == 1 ==> s.keys == None)
    && |s.phases| == offer.phase > 0
    && var phase := s.phases[offer.phase - 1];
    && phase.keys == None && |phase.log| == 3 && LogAt(3, phase.log, offer)
  }

  /**
   The KE_RESP is on its way or the frame loop is entered: the keys are those of the exchange, and after
   the four answers there is nothing but what was pushed.
   */
  ghost predicate Completed(s: Session, offer: Offer) {
    && offer.exchange.Some?
    && var keys := offer.exchange.value.keys;
    && s.keys == Some(keys) && s.rxAt == 0
    && |s.phases| == offer.phase > 0
    && var phase := s.phases[offer.phase - 1];
    && phase.keys == Some(keys) && LogAt(4, phase.log, offer)
    && OnlyPushed(phase.log, offer)
    && if s.handshakeDone then s.pc == Serving else s.pc == SendingKe && |phase.log| == 4
  }

  /** The KE_REQ is long enough and its check is accepted. */
  predicate Accepted(item: Item, offer: Offer) {
    item.Heard? && item.event.I? && |item.event.payload| >= 49 && offer.exchange.Some?
  }

  ghost predicate StandsAt(stage: nat, accepted: bool, s: Session, offer: Offer) {
    if stage < 4 then WaitsAt(stage, s, offer)
    else if accepted then Completed(s, offer)
    else Refused(s, offer)
  }

  // ---- one step ----

  lemma PlainAnswer(s: Session, payload: seq<byte>)
    requires s.phases != []
    ensures var t, n := BuildPlain(s, payload), |s.phases| - 1;
            var log := s.phases[n].log;
            && |t.phases| == n + 1 && t.phases[n].keys == s.phases[n].keys && t.txSeq == (s.txSeq + 1) % 8
            && |t.phases[n].log| == |log| + 1 && t.phases[n].log[..|log|] == log
            && Answered(t.phases[n].log[|log|], s.txSeq % 8, payload)
            && t == s.(phases := t.phases, txSeq := t.txSeq)
  {
    NumbersReadBack(s.rxAck, s.txSeq);
  }

  lemma AtSabm(s: Session, item: Item, offer: Offer)
    requires WaitsAt(0, s, offer) && item != Disconnect
    ensures WaitsAt(if Awaited(0, item) then 1 else 0, OnSabm(s, item), offer)
  {
    TypesAsSent();
  }

  lemma AtVersion(s: Session, item: Item, offer: Offer)
    requires WaitsAt(1, s, offer) && item != Disconnect
    ensures WaitsAt(if Awaited(1, item) then 2 else 1, OnVersion(s, item), offer)
  {
    PlainAnswer(s, [VERSION_RESP, 0, 0, 0, 0, 0, 1]);
    hide BuildPlain;
  }

  lemma AtEp(s: Session, item: Item, offer: Offer)
    requires WaitsAt(2, s, offer) && item != Disconnect
    ensures WaitsAt(if Awaited(2, item) then 3 else 2, OnEp(s, item, offer.nonces), offer)
  {
    PlainAnswer(s, [EP_RESP] + offer.nonces + [1]);
    hide BuildPlain;
  }

  lemma AtKe(s: Session, item: Item, offer: Offer)
    requires WaitsAt(3, s, offer) && item != Disconnect
    ensures StandsAt(if Awaited(3, item) then 4 else 3, Accepted(item, offer), OnKe(s, item, offer.exchange), offer)
  {
    if Awaited(3, item) && Accepted(item, offer) {
      PlainAnswer(SetKeys(s, offer.exchange.value.keys), [KE_RESP] + offer.exchange.value.reply);
      hide BuildPlain;
    }
  }

  /** Taking a frame answers it if it is awaited and passes it over if not. */
  lemma TakeMoves(stage: nat, accepted: bool, s: Session, l: Label, offer: Offer)
    requires stage < 4 && StandsAt(stage, accepted, s, offer)
    requires l.Take? && l.nonces == offer.nonces && l.exchange == offer.exchange
    requires s.rxQueue != [] && s.rxQueue[0] != Disconnect
    requires stage == 3 && Awaited(3, s.rxQueue[0]) ==> accepted == Accepted(s.rxQueue[0], offer)
    ensures StandsAt(if Awaited(stage, s.rxQueue[0]) then stage + 1 else stage, accepted, Step(s, l), offer)
  {
    var item, t := s.rxQueue[0], s.(rxQueue := s.rxQueue[1..]);
    hide OnSabm, OnVersion, OnEp, OnKe, Awaited, Accepted, ServeItem, LogAt;
    match stage
    case 0 => AtSabm(t, item, offer);
    case 1 => AtVersion(t, item, offer);
    case 2 => AtEp(t, item, offer);
    case _ => AtKe(t, item, offer);
  }

  /** The steps of a link that stays up. */
  ghost predicate Ordinary(l: Label, offer: Offer) {
    match l
    case Take(nonces, exchange, _) => nonces == offer.nonces && exchange == offer.exchange
    case PeerGone => false
    case Timeout => false
    case Fail => false
    case Push(_) => offer.pushes
    case _ => true
  }

  /** Where the handshake stands is read from these fields alone. */
  lemma SameStands(stage: nat, accepted: bool, s: Session, t: Session, offer: Offer)
    requires StandsAt(stage, accepted, s, offer)
    requires t.pc == s.pc && t.phases == s.phases && t.keys == s.keys && t.rxAt == s.rxAt && t.txSeq == s.txSeq
    requires t.handshakeDone == s.handshakeDone
    ensures StandsAt(stage, accepted, t, offer)
  {
    hide LogAt, OnlyPushed;
  }

  lemma LogStays(log: seq<Entry>, e: Entry, offer: Offer)
    requires LogAt(4, log, offer)
    ensures LogAt(4, log + [e], offer)
  {
    hide Answered;
  }

  lemma PushStands(s: Session, payload: seq<byte>, offer: Offer)
    requires Completed(s, offer) && offer.pushes && s.handshakeDone
    ensures Completed(BuildEnc(s, payload), offer)
  {
    hide InnerEncode, ICtrl, LogAt;
    var e, n := Enc(ICtrl(s.rxAck, s.txSeq), s.keys.value.tx, s.txAt, payload), offer.phase - 1;
    assert Record(s, e).phases[n].log == s.phases[n].log + [e];
    LogStays(s.phases[n].log, e, offer);
  }

  /** Every other step leaves the handshake where it stands. */
  lemma OthersStand(stage: nat, accepted: bool, s: Session, l: Label, offer: Offer)
    requires StandsAt(stage, accepted, s, offer) && Ordinary(l, offer)
    requires l.Take? ==> s.rxQueue == []
    ensures StandsAt(stage, accepted, Step(s, l), offer)
  {
    hide LogAt, BuildEnc, TakeStep, Answer, Events, Leftover, Queued, Acks, LastAck;
    match l
    case Push(payload) =>
      if s.handshakeDone {
        PushStands(s, payload, offer);
      }
    case FeedBytes(_) => SameStands(stage, accepted, s, Step(s, l), offer);
    case _ =>
  }

  // ---- runs ----

  lemma Moved(taken: seq<Item>, queue: seq<Item>, n: nat, more: seq<Item>, later: seq<Item>)
    requires n <= |queue|
    ensures taken + queue + (more + later) == taken + queue[..n] + (queue[n..] + more) + later
  {
    assert queue == queue[..n] + queue[n..];
  }

  lemma StepStands(taken: seq<Item>, s: Session, l: Label, items: seq<Item>, accepted: bool, offer: Offer)
    requires StandsAt(StageAfter(taken), accepted, s, offer) && Ordinary(l, offer)
    requires taken + s.rxQueue <= items
    requires forall item <- items :: item != Disconnect
    requires items != [] && StageAfter(items[..|items| - 1]) < 4 && accepted == Accepted(items[|items| - 1], offer)
    ensures StandsAt(StageAfter(taken + Q.Gone(s, l)), accepted, Step(s, l), offer)
  {
    if l.Take? && s.rxQueue != [] {
      var item, n := s.rxQueue[0], |taken|;
      assert items[n] == item && items[..n] == taken && item in items;
      var front := items[..|items| - 1];
      StageGrows(front, n);
      assert front[..n] == taken;
      if StageAfter(taken) == 3 && Awaited(3, item) && n < |front| {
        StageGrows(front, n + 1);
        assert front[..n + 1] == taken + [item];
        StageSnoc(taken, item);
        assert false;
      }
      assert Q.Waits(s.pc) by { hide LogAt; }
      StageSnoc(taken, item);
      TakeMoves(StageAfter(taken), accepted, s, l, offer);
    } else {
      assert taken + Q.Gone(s, l) == taken;
      OthersStand(StageAfter(taken), accepted, s, l, offer);
    }
  }

  /** The frames the run has taken decide where the handshake stands. */
  lemma {:induction false} StandsFrom(
      taken: seq<Item>, s: Session, labels: seq<Label>, items: seq<Item>, accepted: bool, offer: Offer)
    requires StandsAt(StageAfter(taken), accepted, s, offer)
    requires forall l <- labels :: Ordinary(l, offer)
    requires taken + s.rxQueue + Q.AllItems(s, labels) == items
    requires forall item <- items :: item != Disconnect
    requires items != [] && StageAfter(items[..|items| - 1]) < 4 && accepted == Accepted(items[|items| - 1], offer)
    ensures var t := Run(s, labels);
            && |t.rxQueue| <= |items|
            && StandsAt(StageAfter(items[..|items| - |t.rxQueue|]), accepted, t, offer)
    decreases |labels|
  {
    hide StandsAt, Awaited, Accepted, Ordinary, Step, StageAfter;
    if labels == [] {
      assert items[..|taken|] == taken;
      assert |items| - |s.rxQueue| == |taken|;
    } else {
      var l, t := labels[0], Step(s, labels[0]);
      assert l in labels;
      var gone, later := Q.Gone(s, l), Q.AllItems(t, labels[1..]);
      assert Q.AllItems(s, labels) == Q.Enqueued(s, l) + later;
      hide Q.Gone, Q.Enqueued, Q.AllItems;
      StepStands(taken, s, l, items, accepted, offer);
      Q.StepQueue(s, l);
      Q.GoneFirst(s, l);
      Moved(taken, s.rxQueue, |gone|, Q.Enqueued(s, l), later);
      StandsFrom(taken + gone, t, labels[1..], items, accepted, offer);
    }
  }

  lemma {:induction false} QueuedHeard(events: seq<Event>)
    ensures forall item <- Queued(events) :: item != Disconnect
  {
    if events != [] {
      QueuedHeard(events[1..]);
    }
  }

  lemma {:induction false} NoDisconnect(s: Session, labels: seq<Label>)
    requires forall l <- labels :: !l.PeerGone?
    ensures Q.FramesOf(Q.AllItems(s, labels)) == Q.AllItems(s, labels)
    ensures forall item <- Q.AllItems(s, labels) :: item != Disconnect
    decreases |labels|
  {
    hide Step, Events, Queued;
    if labels != [] {
      var l, t := labels[0], Step(s, labels[0]);
      NoDisconnect(t, labels[1..]);
      Q.FramesConcat(Q.Enqueued(s, l), Q.AllItems(t, labels[1..]));
      if l.FeedBytes? {
        Q.QueuedFrames(Events(s.rxBuf + l.data));
        QueuedHeard(Events(s.rxBuf + l.data));
      } else {
        Q.NoFrames();
        assert Q.Enqueued(s, l) == [] by { assert l in labels; }
      }
    }
  }

  lemma FreshStands(accepted: bool, offer: Offer)
    requires offer.phase == 1
    ensures StandsAt(StageAfter([]), accepted, Fresh(), offer)
  {
  }

  /**
   From the start, whatever bytes come and however they are cut: the frames that have been taken, which are
   those of the stream without the ones that still wait, decide where the handshake stands.
   */
  lemma HandshakeProgress(labels: seq<Label>, items: seq<Item>, offer: Offer)
    requires offer.phase == 1 && forall l <- labels :: Ordinary(l, offer)
    requires items == Queued(Events(Q.Heard(labels)))
    requires items != [] && StageAfter(items[..|items| - 1]) < 4
    ensures var s := Run(Fresh(), labels);
            && |s.rxQueue| <= |items|
            && StandsAt(StageAfter(items[..|items| - |s.rxQueue|]), Accepted(items[|items| - 1], offer), s, offer)
  {
    hide Run, Events, Accepted, Q.AllItems, Awaited, StandsAt, StageAfter;
    forall l <- labels ensures !l.PeerGone? { assert Ordinary(l, offer); }
    NoDisconnect(Fresh(), labels);
    Q.RunHears(labels);
    assert [] + Fresh().rxQueue + items == items;
    FreshStands(Accepted(items[|items| - 1], offer), offer);
    StandsFrom([], Fresh(), labels, items, Accepted(items[|items| - 1], offer), offer);
  }

  lemma Restarted(s: Session, l: Label, accepted: bool, offer: Offer)
    requires s.pc == Serving && s.phases != [] && offer.phase == |s.phases| + 1
    requires l.Take? && s.rxQueue != [] && Awaited(0, s.rxQueue[0])
    ensures StandsAt(1, accepted, Step(s, l), offer) && Step(s, l).rxQueue == s.rxQueue[1..]
  {
    TypesAsSent();
    assert IsSabm(s.rxQueue[0]);
    assert Step(s, l) == Restart(s.(rxQueue := s.rxQueue[1..]));
  }

  lemma FirstStage(item: Item)
    requires Awaited(0, item)
    ensures StageAfter([item]) == 1
  {
    StageSnoc([], item);
    assert [] + [item] == [item];
  }

  /**
   A SABM in the frame loop of any later phase starts the handshake over: what is taken after it decides
   where the new one stands, its answers numbered from zero again.
   */
  lemma HandshakeRestarts(s: Session, l: Label, labels: seq<Label>, items: seq<Item>, offer: Offer)
    requires s.pc == Serving && s.phases != [] && offer.phase == |s.phases| + 1
    requires l.Take? && s.rxQueue != [] && Awaited(0, s.rxQueue[0])
    requires forall l <- labels :: Ordinary(l, offer)
    requires items == s.rxQueue + Q.AllItems(Step(s, l), labels)
    requires forall item <- items :: item != Disconnect
    requires StageAfter(items[..|items| - 1]) < 4
    ensures var t := Run(Step(s, l), labels);
            && |t.rxQueue| <= |items|
            && StandsAt(StageAfter(items[..|items| - |t.rxQueue|]), Accepted(items[|items| - 1], offer), t, offer)
  {
    hide Step, Run, StandsAt, Accepted, Awaited, StageAfter, Q.AllItems, Ordinary;
    var sabm, t := s.rxQueue[0], Step(s, l);
    var accepted := Accepted(items[|items| - 1], offer);
    Restarted(s, l, accepted, offer);
    FirstStage(sabm);
    assert [sabm] + t.rxQueue == s.rxQueue;
    StandsFrom([sabm], t, labels, items, accepted, offer);
  }

  // ---- the client's four requests ----

  function ItemOf(f: Frame): Item {
    Item.Heard(Route(f.ctrl, f.payload))
  }

  /** The frame that is awaited, by its control byte and the first byte of its payload. */
  predicate Asks(stage: nat, f: Frame) {
    if stage == 0 then f.ctrl == 0x2F
    else
      && f.ctrl % 2 == 0 && f.payload != []
      && f.payload[0] == if stage == 1 then 0x00 else if stage == 2 then 0x10 else 0x12
  }

  lemma AsksIsAwaited(stage: nat, f: Frame)
    requires stage < 4
    ensures Asks(stage, f) <==> Awaited(stage, ItemOf(f))
    ensures Asks(stage, f) ==> !Route(f.ctrl, f.payload).S?
  {
  }

  /** None of these frames is what the stage waits for. */
  predicate PassedOver(stage: nat, frames: seq<Frame>) {
    forall f <- frames :: !Asks(stage, f)
  }

  /** Frames that are passed over, and then one that is awaited. */
  predicate Reaches(stage: nat, frames: seq<Frame>) {
    && frames != []
    && PassedOver(stage, frames[..|frames| - 1])
    && Asks(stage, frames[|frames| - 1])
  }

  function Items(frames: seq<Frame>): seq<Item> {
    Queued(Routed(frames))
  }

  lemma ItemsConcat(a: seq<Frame>, b: seq<Frame>)
    ensures Items(a + b) == Items(a) + Items(b)
  {
    RoutedConcat(a, b);
    Server.QueuedSnoc(Routed(a), Routed(b));
  }

  lemma ItemsOne(f: Frame)
    ensures Items([f]) == if Route(f.ctrl, f.payload).S? then [] else [ItemOf(f)]
  {
    var e := Route(f.ctrl, f.payload);
    hide Route;
    assert Routed([f]) == [e] + Routed([]) == [e];
    assert Queued([e]) == (if e.S? then [] else [Item.Heard(e)]) + Queued([]);
  }

  lemma {:induction false} PassedStays(items: seq<Item>, frames: seq<Frame>)
    requires StageAfter(items) < 4 && PassedOver(StageAfter(items), frames)
    ensures StageAfter(items + Items(frames)) == StageAfter(items)
    decreases |frames|
  {
    if frames == [] {
      assert Items(frames) == [];
      hide Items;
      assert items + [] == items;
    } else {
      hide Items, Route, Asks;
      var n := |frames| - 1;
      var f := frames[n];
      AsksIsAwaited(StageAfter(items), f);
      PassedStays(items, frames[..n]);
      assert frames == frames[..n] + [f];
      ItemsConcat(frames[..n], [f]);
      ItemsOne(f);
      var now := items + Items(frames[..n]);
      assert items + (Items(frames[..n]) + Items([f])) == now + Items([f]);
      if Route(f.ctrl, f.payload).S? {
        assert now + [] == now;
      } else {
        StageSnoc(now, ItemOf(f));
      }
    }
  }

  lemma ReachesNext(items: seq<Item>, frames: seq<Frame>)
    requires StageAfter(items) < 4 && Reaches(StageAfter(items), frames)
    ensures var front := items + Items(frames[..|frames| - 1]);
            var f := frames[|frames| - 1];
            && items + Items(frames) == front + [ItemOf(f)] && StageAfter(front) == StageAfter(items)
            && StageAfter(items + Items(frames)) == StageAfter(items) + 1
  {
    hide Items, Asks, Awaited;
    var n := |frames| - 1;
    var f := frames[n];
    AsksIsAwaited(StageAfter(items), f);
    PassedStays(items, frames[..n]);
    assert frames == frames[..n] + [f];
    ItemsConcat(frames[..n], [f]);
    ItemsOne(f);
    var front := items + Items(frames[..n]);
    assert items + (Items(frames[..n]) + Items([f])) == front + Items([f]);
    StageSnoc(front, ItemOf(f));
  }

  /** The stretches of the client's stream, each up to one of its four requests. */
  predicate Offered(stretches: seq<seq<Frame>>) {
    && |stretches| == 4
    && Reaches(0, stretches[0]) && Reaches(1, stretches[1]) && Reaches(2, stretches[2]) && Reaches(3, stretches[3])
  }

  function Stream(stretches: seq<seq<Frame>>): seq<Frame>
    requires |stretches| == 4
  {
    stretches[0] + stretches[1] + stretches[2] + stretches[3]
  }

  lemma LastReached(items: seq<Item>, frames: seq<Frame>)
    requires StageAfter(items) < 4 && Reaches(StageAfter(items), frames)
    ensures var all := items + Items(frames);
            && all != [] && StageAfter(all[..|all| - 1]) == StageAfter(items)
            && all[|all| - 1] == ItemOf(frames[|frames| - 1])
  {
    hide Items, Asks, StageAfter;
    ReachesNext(items, frames);
    var front := items + Items(frames[..|frames| - 1]);
    assert (front + [ItemOf(frames[|frames| - 1])])[..|front|] == front;
  }

  lemma OfferedStage(stretches: seq<seq<Frame>>)
    requires Offered(stretches)
    ensures var items := Items(Stream(stretches));
            && items != [] && StageAfter(items) == 4 && StageAfter(items[..|items| - 1]) == 3
            && items[|items| - 1] == ItemOf(stretches[3][|stretches[3]| - 1])
  {
    hide Items, Reaches, Awaited;
    var r := stretches;
    var i1 := Items(r[0]);
    var i2 := i1 + Items(r[1]);
    var i3 := i2 + Items(r[2]);
    assert StageAfter([]) == 0;
    hide StageAfter;
    assert [] + i1 == i1;
    ReachesNext([], r[0]);
    ReachesNext(i1, r[1]);
    ReachesNext(i2, r[2]);
    ReachesNext(i3, r[3]);
    ItemsConcat(r[0], r[1]);
    ItemsConcat(r[0] + r[1], r[2]);
    ItemsConcat(r[0] + r[1] + r[2], r[3]);
    LastReached(i3, r[3]);
  }

  lemma OfferedShape(stretches: seq<seq<Frame>>)
    requires Offered(stretches)
    ensures |stretches| == 4 && stretches[3] != []
    ensures var ke := stretches[3][|stretches[3]| - 1]; Route(ke.ctrl, ke.payload) == I(ke.ctrl, ke.payload)
  {
    hide PassedOver;
  }

  /** How the KE_REQ ends the handshake. */
  ghost predicate Outcome(s: Session, ke: Frame, offer: Offer) {
    if |ke.payload| >= 49 && offer.exchange.Some? then Completed(s, offer) else Refused(s, offer)
  }

  /**
   A SABM, a VERSION_REQ, an EP_REQ and a KE_REQ, with any numbers and with any frames between them that are
   not waited for, their bytes cut anywhere and taken at any time: once all are taken the handshake is
   complete if the KE_REQ has at least 49 bytes and its check is accepted, and given up if not.
   */
  lemma HandshakeCompletes(stretches: seq<seq<Frame>>, labels: seq<Label>, offer: Offer)
    requires Offered(stretches)
    requires Q.Heard(labels) == Wire(Stream(stretches))
    requires offer.phase == 1 && forall l <- labels :: Ordinary(l, offer)
    requires Run(Fresh(), labels).rxQueue == []
    ensures Outcome(Run(Fresh(), labels), stretches[3][|stretches[3]| - 1], offer)
  {
    hide Run, Offered, Ordinary, Completed, Refused, Events, StageAfter, Stream, Wire, Q.Heard, Leftover;
    OfferedShape(stretches);
    OfferedStage(stretches);
    WireDelivers(Stream(stretches));
    var items := Items(Stream(stretches));
    HandshakeProgress(labels, items, offer);
    assert items[..|items|] == items;
  }

  lemma WaitingStill(stage: nat, accepted: bool, s: Session, offer: Offer)
    requires stage < 4 && StandsAt(stage, accepted, s, offer)
    ensures Q.Waits(s.pc)
  {
    hide LogAt;
  }

  /** While a frame waits the handshake is not over, so that the next take removes it. */
  lemma TakeShortens(stretches: seq<seq<Frame>>, labels: seq<Label>, l: Label, offer: Offer)
    requires Offered(stretches)
    requires Q.Heard(labels) == Wire(Stream(stretches))
    requires offer.phase == 1 && forall l <- labels :: Ordinary(l, offer)
    requires l.Take?
    ensures var s := Run(Fresh(), labels);
            |Step(s, l).rxQueue| == |s.rxQueue| - (if s.rxQueue == [] then 0 else 1)
  {
    hide Run, Offered, Ordinary, Events, StageAfter, Step, Stream, Wire, Q.Heard, Leftover, Accepted, StandsAt;
    OfferedShape(stretches);
    OfferedStage(stretches);
    WireDelivers(Stream(stretches));
    var s, items := Run(Fresh(), labels), Items(Stream(stretches));
    HandshakeProgress(labels, items, offer);
    Q.StepQueue(s, l);
    if s.rxQueue != [] {
      var n := |items| - |s.rxQueue|;
      StageGrows(items[..|items| - 1], n);
      assert items[..|items| - 1][..n] == items[..n];
      WaitingStill(StageAfter(items[..n]), Accepted(items[|items| - 1], offer), s, offer);
    }
  }

  lemma {:induction false} RunConcat(s: Session, first: seq<Label>, more: seq<Label>)
    ensures Run(s, first + more) == Run(Run(s, first), more)
    decreases |first|
  {
    hide Step;
    if first == [] {
      assert first + more == more;
    } else {
      assert (first + more)[1..] == first[1..] + more;
      RunConcat(Step(s, first[0]), first[1..], more);
    }
  }

  lemma {:induction false} HeardConcat(first: seq<Label>, more: seq<Label>)
    ensures Q.Heard(first + more) == Q.Heard(first) + Q.Heard(more)
  {
    if first == [] {
      assert first + more == more;
    } else {
      assert (first + more)[1..] == first[1..] + more;
      HeardConcat(first[1..], more);
    }
  }

  /** So many takes in a row. */
  function Takes(l: Label, n: nat): seq<Label> {
    if n == 0 then [] else [l] + Takes(l, n - 1)
  }

  lemma RunOne(s: Session, l: Label)
    ensures Run(s, [l]) == Step(s, l)
  {
    hide Step;
    assert Run(s, [l]) == Run(Step(s, l), [l][1..]);
  }

  /** Taking often enough empties the queue. */
  lemma {:induction false} TakesEmpty(stretches: seq<seq<Frame>>, labels: seq<Label>, l: Label, n: nat, offer: Offer)
    requires Offered(stretches)
    requires Q.Heard(labels) == Wire(Stream(stretches))
    requires offer.phase == 1 && forall l <- labels :: Ordinary(l, offer)
    requires l.Take? && Ordinary(l, offer)
    requires |Run(Fresh(), labels).rxQueue| <= n
    ensures var more := labels + Takes(l, n);
            && Q.Heard(more) == Q.Heard(labels) && (forall l <- more :: Ordinary(l, offer))
            && Run(Fresh(), more).rxQueue == []
    decreases n
  {
    hide Offered, Ordinary, Step, Stream, Wire;
    if n == 0 {
      assert labels + [] == labels;
    } else {
      var next := labels + [l];
      TakeShortens(stretches, labels, l, offer);
      RunConcat(Fresh(), labels, [l]);
      RunOne(Run(Fresh(), labels), l);
      HeardConcat(labels, [l]);
      assert Q.Heard([l]) == [];
      hide Q.Heard, Run;
      assert Q.Heard(labels) + [] == Q.Heard(labels);
      TakesEmpty(stretches, next, l, n - 1, offer);
      assert labels + ([l] + Takes(l, n - 1)) == next + Takes(l, n - 1);
    }
  }

  /**
   Wherever the run stands when the last of these bytes has arrived: as many takes as frames are waiting and
   one completed send bring it to the frame loop, with the keys of the exchange and exactly the four answers.
   */
  lemma HandshakeFinishes(stretches: seq<seq<Frame>>, labels: seq<Label>, take: Label, n: nat, offer: Offer)
    requires Offered(stretches)
    requires Q.Heard(labels) == Wire(Stream(stretches))
    requires offer.phase == 1 && forall l <- labels :: Ordinary(l, offer)
    requires take.Take? && Ordinary(take, offer)
    requires |Run(Fresh(), labels).rxQueue| <= n
    ensures var s := Run(Fresh(), labels + Takes(take, n) + [SendDone]);
            var ke := stretches[3][|stretches[3]| - 1];
            && Outcome(s, ke, offer)
            && (|ke.payload| >= 49 && offer.exchange.Some? ==> s.handshakeDone && s.pc == Serving)
  {
    hide Offered, Ordinary, Stream, Wire, Run, LogAt, Takes, Q.Heard;
    OfferedShape(stretches);
    var more := labels + Takes(take, n);
    TakesEmpty(stretches, labels, take, n, offer);
    HandshakeCompletes(stretches, more, offer);
    RunConcat(Fresh(), more, [SendDone]);
    RunOne(Run(Fresh(), more), SendDone);
  }
}
