/**
 The client's frames from the bytes fed to the device up to the plaintexts it hands to the application.
 */
module ArendiStream {
  import opened Bytes
  import opened Hdlc
  import opened AesCtr
  import opened SecureChannel
  import opened ArendiSession
  import opened ArendiTheorems
  import Q = ArendiQueue

  // ---- what the phase's log says about the queue ----

  /** The frames among the items. */
  function EventsOf(items: seq<Item>): seq<Event> {
    if items == [] then []
    else (match items[0] case Heard(e) => [e] case Disconnect => []) + EventsOf(items[1..])
  }

  lemma {:induction false} EventsOfConcat(a: seq<Item>, b: seq<Item>)
    ensures EventsOf(a + b) == EventsOf(a) + EventsOf(b)
  {
    if a == [] {
      assert a + b == b;
    } else {
      assert (a + b)[1..] == a[1..] + b && (a + b)[0] == a[0];
      EventsOfConcat(a[1..], b);
      var head := match a[0] case Heard(e) => [e] case Disconnect => [];
      assert head + (EventsOf(a[1..]) + EventsOf(b)) == head + EventsOf(a[1..]) + EventsOf(b);
    }
  }

  lemma EventsOfOne(item: Item)
    ensures EventsOf([item]) == match item case Heard(e) => [e] case Disconnect => []
  {
    assert [item][1..] == [];
  }

  predicate SabmEvent(e: Event) {
    IsSabm(Item.Heard(e))
  }

  predicate KeEvent(e: Event) {
    IsSecurity(Item.Heard(e), KE_REQ)
  }

  predicate NoSabm(events: seq<Event>) {
    forall i :: 0 <= i < |events| ==> !SabmEvent(events[i])
  }

  /** An entry that is not a frame taken leaves the frames taken as they are. */
  lemma OtherEntry(log: seq<Entry>, e: Entry)
    requires !e.Took?
    ensures Taken(log + [e]) == Taken(log)
  {
    Snoc(log, e);
  }

  lemma EncTaken(s: Session, payload: seq<byte>)
    ensures var t := BuildEnc(s, payload); Taken(Log(t)) == Taken(Log(s)) && |Log(t)| >= |Log(s)|
  {
    hide InnerEncode, ICtrl, Taken;
    if s.keys.Some? {
      var e := Enc(ICtrl(s.rxAck, s.txSeq), s.keys.value.tx, s.txAt, payload);
      RecordLog(s, e);
      OtherEntry(Log(s), e);
      hide Record;
      SamePhases(Record(s, e), BuildEnc(s, payload));
    }
  }

  lemma FinishTaken(s: Session, plaintext: seq<byte>)
    ensures var t := FinishRequest(s, plaintext); Taken(Log(t)) == Taken(Log(s)) && |Log(t)| >= |Log(s)|
  {
    hide Taken;
    var t := s.(srrQueue := [], pc := Serving);
    RecordLog(t, Disc);
    OtherEntry(Log(t), Disc);
    hide Record;
    SamePhases(Record(t, Disc), Record(t, Disc).(pc := SendingDisc));
  }

  lemma AnswerTaken(s: Session, answers: seq<seq<byte>>, plaintext: seq<byte>)
    ensures var t := Answer(s, answers, plaintext); Taken(Log(t)) == Taken(Log(s)) && |Log(t)| >= |Log(s)|
  {
    hide Taken, BuildEnc, FinishRequest;
    if answers == [] {
      FinishTaken(s, plaintext);
    } else {
      EncTaken(s, answers[0]);
      SamePhases(BuildEnc(s, answers[0]), Answer(s, answers, plaintext));
    }
  }

  lemma ReactTaken(s: Session, plaintext: seq<byte>, reaction: Reaction)
    ensures var t := React(s, plaintext, reaction); Taken(Log(t)) == Taken(Log(s)) && |Log(t)| >= |Log(s)|
  {
    hide Taken, BuildEnc, Answer;
    match reaction
    case Answers(frames) => AnswerTaken(s, frames, plaintext);
    case NoHandler =>
      EncTaken(s, FAKE_RESPONSE);
      SamePhases(BuildEnc(s, FAKE_RESPONSE), React(s, plaintext, reaction));
    case Raises => SamePhases(s, React(s, plaintext, reaction));
  }

  lemma TookTaken(s: Session, event: Event, plain: Option<seq<byte>>)
    requires s.phases != []
    ensures var t := AfterTook(s, event, plain); Taken(Log(t)) == Taken(Log(s)) + [event] && |Log(t)| > |Log(s)|
  {
    hide Taken;
    var e := Took(event, plain);
    RecordLog(s, e);
    Snoc(Log(s), e);
    hide Record;
    SamePhases(Record(s, e), AfterTook(s, event, plain));
  }

  lemma ServeTaken(s: Session, item: Item, reaction: Reaction)
    requires s.phases != [] && s.keys.Some? && !IsSabm(item)
    ensures var t := ServeItem(s, item, reaction);
            Taken(Log(t)) == Taken(Log(s)) + EventsOf([item]) && |Log(t)| >= |Log(s)|
  {
    hide Taken, Opened, AfterTook, React, EventsOf;
    EventsOfOne(item);
    if item == Disconnect {
      SamePhases(s, ServeItem(s, item, reaction));
      assert Taken(Log(s)) + [] == Taken(Log(s));
    } else {
      ServedIs(s, item, reaction);
      hide ServeItem;
      var plain := Opened(s, item.event);
      TookTaken(s, item.event, plain);
      if plain.Some? {
        ReactTaken(AfterTook(s, item.event, plain), plain.value, reaction);
      }
    }
  }

  /** What a step does to the frames taken in the running phase, given what it takes from the queue. */
  ghost predicate TakenBy(s: Session, t: Session, gone: seq<Item>) {
    |Log(t)| >= 4 ==>
      if |Log(s)| >= 4 then Taken(Log(t)) == Taken(Log(s)) + EventsOf(gone) && NoSabm(EventsOf(gone))
      else Taken(Log(t)) == [] && |gone| == 1 && IsSecurity(gone[0], KE_REQ)
  }

  lemma NothingTaken(s: Session, t: Session)
    requires Taken(Log(t)) == Taken(Log(s)) && |Log(t)| >= |Log(s)| && (|Log(t)| >= 4 ==> |Log(s)| >= 4)
    ensures TakenBy(s, t, [])
  {
    hide Taken, Log;
    assert EventsOf([]) == [] && Taken(Log(s)) + [] == Taken(Log(s));
  }

  lemma SameLog(s: Session, t: Session)
    requires s.phases == t.phases
    ensures TakenBy(s, t, [])
  {
    SamePhases(s, t);
    hide Taken, Log;
    NothingTaken(s, t);
  }

  lemma PlainLog(s: Session, payload: seq<byte>)
    ensures var t := BuildPlain(s, payload);
            && |Log(t)| <= |Log(s)| + 1
            && Taken(Log(t)) == Taken(Log(s))
  {
    hide ICtrl, Taken;
    var e := Plain(ICtrl(s.rxAck, s.txSeq), payload);
    RecordLog(s, e);
    OtherEntry(Log(s), e);
    hide Record;
    SamePhases(Record(s, e), BuildPlain(s, payload));
  }

  lemma VersionLog(s: Session)
    ensures |Log(BuildPlain(s, [VERSION_RESP, 0, 0, 0, 0, 0, 1]).(pc := AwaitEp))| <= |Log(s)| + 1
  {
    var p := [VERSION_RESP, 0, 0, 0, 0, 0, 1];
    PlainLog(s, p);
    hide BuildPlain;
    SamePhases(BuildPlain(s, p), BuildPlain(s, p).(pc := AwaitEp));
  }

  lemma EpLog(s: Session, nonces: seq<byte>)
    ensures |Log(BuildPlain(s, [EP_RESP] + nonces + [1]).(pc := AwaitKe))| <= |Log(s)| + 1
  {
    var p := [EP_RESP] + nonces + [1];
    PlainLog(s, p);
    hide BuildPlain;
    SamePhases(BuildPlain(s, p), BuildPlain(s, p).(pc := AwaitKe));
  }

  /** While the handshake waits for its first three requests no phase is past its third answer. */
  lemma EarlyTake(s: Session, item: Item, nonces: seq<byte>)
    ensures |Log(OnSabm(s, item))| <= if s.pc.AwaitSabm? && s.phases == [] then 1 else |Log(s)| + 1
    ensures |Log(OnVersion(s, item))| <= |Log(s)| + 1
    ensures |Log(OnEp(s, item, nonces))| <= |Log(s)| + 1
  {
    hide IsSabm, IsSecurity, BuildPlain, StartPhase;
    StartLog(s);
    SamePhases(s, s.(pc := Done));
    VersionLog(s);
    EpLog(s, nonces);
  }

  lemma KeLog(s: Session)
    requires Inv(s) && s.pc == AwaitKe
    ensures Core(s) && |Log(s)| == 3 && Taken(Log(s)) == []
  {
    hide Taken, DiscOk, Ordered;
    assert PhaseOk(|s.phases|, s.phases[|s.phases| - 1]);
    ShortLog(|s.phases|, s.phases[|s.phases| - 1]);
  }

  /** The accepted key exchange: nothing has been taken by the frame loop yet. */
  lemma KeTaken(s: Session, item: Item, exchange: Option<Exchange>)
    requires Inv(s) && s.pc == AwaitKe
    ensures TakenBy(s, OnKe(s, item, exchange), [item])
  {
    hide Inv, Core, BuildPlain, SetKeys, EventsOf, Taken;
    var t := OnKe(s, item, exchange);
    KeLog(s);
    if item != Disconnect && IsSecurity(item, KE_REQ) && |item.event.payload| >= 49 && exchange.Some? {
      hide IsSecurity;
      var u := SetKeys(s, exchange.value.keys);
      assert Core(s) && |Log(s)| == 3;
      SetKeysKeeps(s, exchange.value.keys);
      PlainLog(u, [KE_RESP] + exchange.value.reply);
      SamePhases(BuildPlain(u, [KE_RESP] + exchange.value.reply), t);
    } else {
      SamePhases(s, t);
    }
  }

  lemma PcLog(s: Session)
    requires Inv(s)
    ensures s.pc.AwaitSabm? ==> s.phases == [] && Log(s) == []
    ensures s.pc.AwaitVersion? ==> |Log(s)| == 1
    ensures s.pc.AwaitEp? ==> |Log(s)| == 2
    ensures s.pc.Serving? ==> s.phases != [] && s.keys.Some? && |Log(s)| >= 4
    ensures s.handshakeDone ==> |Log(s)| >= 4
  {
    hide Core, DiscOk;
  }

  lemma RestartLog(s: Session, reaction: Reaction, item: Item)
    requires IsSabm(item)
    ensures |Log(ServeItem(s, item, reaction))| == 1
  {
    StartLog(s.(txSeq := 0, rxAck := 0, srrQueue := [], handshakeDone := false));
  }

  lemma TakeTaken(s: Session, l: Label)
    requires Inv(s) && l.Take? && s.rxQueue != []
    ensures TakenBy(s, TakeStep(s, l), Q.Gone(s, l))
  {
    hide Inv, Taken, OnSabm, OnVersion, OnEp, OnKe, ServeItem, EventsOf, Log;
    var item := s.rxQueue[0];
    var t := s.(rxQueue := s.rxQueue[1..]);
    IdleKeeps(s, t);
    PcLog(s);
    SamePhases(s, t);
    match s.pc
    case AwaitSabm => EarlyTake(t, item, l.nonces);
    case AwaitVersion => EarlyTake(t, item, l.nonces);
    case AwaitEp => EarlyTake(t, item, l.nonces);
    case AwaitKe => KeTaken(t, item, l.exchange);
    case Serving =>
      if IsSabm(item) {
        RestartLog(t, l.reaction, item);
      } else {
        ServeTaken(t, item, l.reaction);
        EventsOfOne(item);
      }
    case _ => SameLog(s, TakeStep(s, l));
  }

  lemma RespondingLog(s: Session)
    requires Inv(s) && s.pc.Responding?
    ensures |Log(s)| >= 4
  {
    hide Core, DiscOk;
  }

  lemma StepTaken(s: Session, l: Label)
    requires Inv(s)
    ensures TakenBy(s, Step(s, l), Q.Gone(s, l))
  {
    hide Inv, Taken, EventsOf, Log, TakeStep, BuildEnc, Answer, Events, Leftover, Queued, Acks, LastAck, TakenBy;
    match l
    case Take(_, _, _) =>
      if s.rxQueue != [] {
        TakeTaken(s, l);
      } else {
        SameLog(s, s);
      }
    case SendDone =>
      PcLog(s);
      if s.pc.Responding? {
        AnswerTaken(s, s.pc.rest, s.pc.plaintext);
        RespondingLog(s);
        NothingTaken(s, Step(s, l));
      } else {
        SameLog(s, Step(s, l));
      }
    case Push(payload) =>
      if s.handshakeDone {
        PcLog(s);
        EncTaken(s, payload);
        NothingTaken(s, Step(s, l));
      } else {
        SameLog(s, s);
      }
    case _ => SameLog(s, Step(s, l));
  }

  /** All frames taken so far: those up to the accepted KE_REQ, and then those the frame loop took. */
  ghost predicate TakenSince(gone: seq<Event>, before: nat, log: seq<Entry>) {
    && 0 < before <= |gone| && KeEvent(gone[before - 1])
    && gone[before..] == Taken(log) && NoSabm(Taken(log))
  }

  lemma TakenMore(gone: seq<Event>, before: nat, log: seq<Entry>, more: seq<Event>, now: seq<Entry>)
    requires TakenSince(gone, before, log) && Taken(now) == Taken(log) + more && NoSabm(more)
    ensures TakenSince(gone + more, before, now)
  {
    hide Taken, KeEvent, SabmEvent;
    assert (gone + more)[before..] == gone[before..] + more;
  }

  lemma TakenFirst(gone: seq<Event>, item: Item, now: seq<Entry>)
    requires IsSecurity(item, KE_REQ) && Taken(now) == []
    ensures TakenSince(gone + EventsOf([item]), |gone| + 1, now)
  {
    hide Taken;
    EventsOfOne(item);
    var all := gone + EventsOf([item]);
    assert all[|gone| + 1..] == [];
  }

  lemma NoEvents()
    ensures EventsOf([]) == []
  {
  }

  /** In every run: whenever a phase has its keys, the queue has given the handshake and what the log took. */
  lemma {:induction false} RunTaken(s: Session, gone: seq<Event>, labels: seq<Label>, before: nat)
    returns (b: nat)
    requires Inv(s) && (|Log(s)| >= 4 ==> TakenSince(gone, before, Log(s)))
    ensures var t := Run(s, labels);
            |Log(t)| >= 4 ==> TakenSince(gone + EventsOf(Q.AllGone(s, labels)), b, Log(t))
    decreases |labels|
  {
    hide Inv, Step, TakenSince, Taken, Log, Q.Gone, EventsOf, NoSabm;
    if labels == [] {
      b := before;
      NoEvents();
      assert gone + [] == gone;
    } else {
      var l, t := labels[0], Step(s, labels[0]);
      var first, more := EventsOf(Q.Gone(s, l)), Q.AllGone(t, labels[1..]);
      StepKeeps(s, l);
      StepTaken(s, l);
      EventsOfConcat(Q.Gone(s, l), more);
      var now := before;
      if |Log(t)| >= 4 {
        if |Log(s)| >= 4 {
          TakenMore(gone, before, Log(s), first, Log(t));
        } else {
          assert Q.Gone(s, l) == [Q.Gone(s, l)[0]];
          TakenFirst(gone, Q.Gone(s, l)[0], Log(t));
          now := |gone| + 1;
        }
      }
      b := RunTaken(t, gone + first, labels[1..], now);
      assert gone + (first + EventsOf(more)) == gone + first + EventsOf(more);
    }
  }

  // ---- from the bytes ----

  /** Supervisory frames never enter the queue. */
  function NotS(events: seq<Event>): seq<Event> {
    if events == [] then [] else (if events[0].S? then [] else [events[0]]) + NotS(events[1..])
  }

  lemma {:induction false} NotSConcat(a: seq<Event>, b: seq<Event>)
    ensures NotS(a + b) == NotS(a) + NotS(b)
  {
    if a == [] {
      assert a + b == b;
    } else {
      assert (a + b)[1..] == a[1..] + b && (a + b)[0] == a[0];
      NotSConcat(a[1..], b);
      var head := if a[0].S? then [] else [a[0]];
      assert head + (NotS(a[1..]) + NotS(b)) == head + NotS(a[1..]) + NotS(b);
    }
  }

  lemma {:induction false} QueuedEvents(events: seq<Event>)
    ensures EventsOf(Queued(events)) == NotS(events)
  {
    if events != [] {
      QueuedEvents(events[1..]);
      var head: seq<Item> := if events[0].S? then [] else [Item.Heard(events[0])];
      EventsOfConcat(head, Queued(events[1..]));
      if !events[0].S? {
        EventsOfOne(Item.Heard(events[0]));
      }
    }
  }

  lemma {:induction false} FramesEvents(items: seq<Item>)
    ensures EventsOf(Q.FramesOf(items)) == EventsOf(items)
  {
    if items != [] {
      FramesEvents(items[1..]);
      var head := if items[0] == Disconnect then [] else [items[0]];
      EventsOfConcat(head, Q.FramesOf(items[1..]));
      if items[0] != Disconnect {
        EventsOfOne(items[0]);
      }
    }
  }

  /** What the queue has given and what waits in it are the frames of all bytes heard, in order. */
  lemma GoneAndWaiting(labels: seq<Label>)
    ensures EventsOf(Q.AllGone(Fresh(), labels)) + EventsOf(Run(Fresh(), labels).rxQueue)
         == NotS(Events(Q.Heard(labels)))
    ensures Run(Fresh(), labels).rxBuf == Leftover(Q.Heard(labels))
  {
    hide Run, Events, Leftover, Q.AllGone, Q.AllItems, EventsOf, Q.FramesOf, Queued;
    Q.QueueInOrder(Fresh(), labels);
    Q.RunHears(labels);
    assert [] + Q.AllItems(Fresh(), labels) == Q.AllItems(Fresh(), labels);
    EventsOfConcat(Q.AllGone(Fresh(), labels), Run(Fresh(), labels).rxQueue);
    FramesEvents(Q.AllItems(Fresh(), labels));
    QueuedEvents(Events(Q.Heard(labels)));
  }

  lemma {:induction false} OpenNotS(c: Cipher, at: nat, events: seq<Event>)
    ensures Open(c, at, NotS(events)) == Open(c, at, events)
    decreases |events|
  {
    hide InnerDecode, Apply;
    if events != [] {
      var e, rest := events[0], events[1..];
      OpenNotS(c, if IsEncrypted(e) then at + |e.payload[1..]| else at, rest);
      if e.S? {
        assert NotS(events) == [] + NotS(rest) == NotS(rest);
      } else {
        assert ([e] + NotS(rest))[1..] == NotS(rest);
      }
    }
  }

  lemma {:induction false} OpenPlain(c: Cipher, at: nat, plain: seq<Event>, rest: seq<Event>)
    requires NoneEncrypted(plain)
    ensures Open(c, at, plain + rest) == Open(c, at, rest)
    decreases |plain|
  {
    hide InnerDecode, Apply, IsEncrypted;
    if plain == [] {
      assert plain + rest == rest;
    } else {
      assert (plain + rest)[1..] == plain[1..] + rest && !IsEncrypted(plain[0]);
      OpenPlain(c, at, plain[1..], rest);
    }
  }

  lemma {:induction false} NotSEach(events: seq<Event>, i: nat)
    requires i < |NotS(events)|
    ensures NotS(events)[i] in events
  {
    var head := if events[0].S? then [] else [events[0]];
    if i >= |head| {
      NotSEach(events[1..], i - |head|);
    }
  }

  /** Where the accepted KE_REQ stands, seen from the client: inside the handshake frames. */
  lemma Aligns(gone: seq<Event>, b: nat, log: seq<Entry>, waiting: seq<Event>,
               before: seq<Event>, handshake: seq<Event>, data: seq<Event>) returns (m: nat)
    requires TakenSince(gone, b, log) && gone + waiting == before + handshake + data
    requires handshake != [] && SabmEvent(handshake[0]) && forall i :: 0 <= i < |data| ==> !KeEvent(data[i])
    requires before == [] || |waiting| < |handshake| + |data|
    ensures m <= |handshake| && handshake[m..] + data == Taken(log) + waiting
  {
    hide SabmEvent, KeEvent, Taken;
    var all := before + handshake + data;
    if before != [] {
      var n := |before|;
      assert all[n] == handshake[0] && all[n] == gone[n];
      assert forall i :: b <= i < |gone| ==> gone[i] == Taken(log)[i - b];
      assert n < b;
    }
    assert all[b - 1] == gone[b - 1];
    assert forall i :: |before| + |handshake| <= i < |all| ==> all[i] == data[i - |before| - |handshake|];
    assert b <= |before| + |handshake|;
    m := b - |before|;
    assert all[b..] == handshake[m..] + data;
    assert (gone + waiting)[b..] == gone[b..] + waiting;
  }

  /** Frames the device has not yet taken: waiting in its queue, in its buffer, or not yet fed to it. */
  function Pending(s: Session, unheard: seq<byte>): seq<Event> {
    EventsOf(s.rxQueue) + NotS(Events(s.rxBuf + unheard))
  }

  /** The frames a client's session begins with: a SABM and others, all in plaintext. */
  predicate ClientHandshake(handshake: seq<Frame>) {
    && NoneEncrypted(Routed(handshake))
    && NotS(Routed(handshake)) != [] && SabmEvent(NotS(Routed(handshake))[0])
  }

  /** What follows its KE_REQ: the encrypted frames, among any others. */
  predicate NoKeyRequest(data: seq<Frame>) {
    forall i :: 0 <= i < |Routed(data)| ==> !KeEvent(Routed(data)[i])
  }

  lemma StreamSplits(labels: seq<Label>, unheard: seq<byte>, before: seq<Frame>, handshake: seq<Frame>, data: seq<Frame>)
    requires Q.Heard(labels) + unheard == Wire(before + handshake + data)
    ensures EventsOf(Q.AllGone(Fresh(), labels)) + Pending(Run(Fresh(), labels), unheard)
         == NotS(Routed(before)) + NotS(Routed(handshake)) + NotS(Routed(data))
  {
    hide Run, Events, Leftover, Q.AllGone, EventsOf, NotS, Routed, Wire, Q.Heard;
    var heard := Q.Heard(labels);
    GoneAndWaiting(labels);
    Resume(heard, unheard);
    WireDelivers(before + handshake + data);
    RoutedConcat(before + handshake, data);
    RoutedConcat(before, handshake);
    NotSConcat(Events(heard), Events(Leftover(heard) + unheard));
    NotSConcat(Routed(before) + Routed(handshake), Routed(data));
    NotSConcat(Routed(before), Routed(handshake));
    var gone, queue := EventsOf(Q.AllGone(Fresh(), labels)), EventsOf(Run(Fresh(), labels).rxQueue);
    var late := NotS(Events(Leftover(heard) + unheard));
    assert gone + (queue + late) == gone + queue + late;
  }

  lemma RunningPhase(labels: seq<Label>)
    ensures var s := Run(Fresh(), labels);
            |Log(s)| >= 4 ==> LastKeys(s).Some? && Received(Log(s)) == Open(LastKeys(s).value.rx, 0, Taken(Log(s)))
  {
    hide Run, Ordered, Taken, Received, Open, DiscOk, PcOk, Aligned;
    FreshKeeps();
    RunKeeps(Fresh(), labels);
    var s := Run(Fresh(), labels);
    if s.phases != [] {
      assert PhaseOk(|s.phases|, s.phases[|s.phases| - 1]);
    }
  }

  lemma NothingBefore()
    ensures NotS(Routed([])) == []
  {
  }

  lemma FreshLog()
    ensures |Log(Fresh())| == 0
  {
  }

  lemma NoKe(events: seq<Event>)
    requires forall i :: 0 <= i < |events| ==> !KeEvent(events[i])
    ensures forall i :: 0 <= i < |NotS(events)| ==> !KeEvent(NotS(events)[i])
  {
    hide KeEvent;
    forall i | 0 <= i < |NotS(events)|
      ensures !KeEvent(NotS(events)[i])
    {
      NotSEach(events, i);
    }
  }

  lemma PlainTail(events: seq<Event>, m: nat)
    requires NoneEncrypted(events) && m <= |NotS(events)|
    ensures NoneEncrypted(NotS(events)[m..])
  {
    hide IsEncrypted;
    forall i | m <= i < |NotS(events)|
      ensures !IsEncrypted(NotS(events)[i])
    {
      NotSEach(events, i);
    }
  }

  /**
   From the bytes to the application: whatever the client has sent before, let it start a session and
   send encrypted frames that a mirrored receiver opens to certain payloads.  However its bytes are
   cut, however far they have been fed, and whatever the device's own tasks do in between, what the
   running phase has received and what the pending frames still open to are together those payloads.
   */
  lemma DeviceReceivesStream(labels: seq<Label>, unheard: seq<byte>, before: seq<Frame>, handshake: seq<Frame>,
                             data: seq<Frame>)
    requires |Log(Run(Fresh(), labels))| >= 4
    requires Q.Heard(labels) + unheard == Wire(before + handshake + data)
    requires ClientHandshake(handshake) && NoKeyRequest(data)
    requires before == []
             || |Pending(Run(Fresh(), labels), unheard)| < |NotS(Routed(handshake))| + |NotS(Routed(data))|
    ensures var s := Run(Fresh(), labels);
            && LastKeys(s).Some?
            && var rx := LastKeys(s).value.rx;
               Open(rx, 0, Routed(data))
               == Received(Log(s)) + Open(rx, Consumed(0, Taken(Log(s))), Pending(s, unheard))
  {
    var s := Run(Fresh(), labels);
    hide Run, Events, Q.AllGone, EventsOf, Routed, Wire, Q.Heard, Taken, Received, Open, Consumed, Pending, KeEvent,
         SabmEvent, IsEncrypted, Log, LastKeys, TakenSince;
    var h, d := NotS(Routed(handshake)), NotS(Routed(data));
    StreamSplits(labels, unheard, before, handshake, data);
    FreshLog();
    FreshKeeps();
    var b := RunTaken(Fresh(), [], labels, 0);
    var gone := EventsOf(Q.AllGone(Fresh(), labels));
    assert [] + gone == gone;
    NoKe(Routed(data));
    NothingBefore();
    var m := Aligns(gone, b, Log(s), Pending(s, unheard), NotS(Routed(before)), h, d);
    RunningPhase(labels);
    var rx := LastKeys(s).value.rx;
    PlainTail(Routed(handshake), m);
    OpenPlain(rx, 0, h[m..], d);
    OpenNotS(rx, 0, Routed(data));
    OpenConcat(rx, 0, Taken(Log(s)), Pending(s, unheard));
  }

  lemma {:induction false} SealedEncrypted(c: Cipher, at: nat, sent: nat, acks: seq<nat>, payloads: seq<seq<byte>>, i: nat)
    requires |acks| == |payloads| && i < |Routed(Seal(c, at, sent, acks, payloads))|
    ensures IsEncrypted(Routed(Seal(c, at, sent, acks, payloads))[i])
    decreases |payloads|
  {
    hide Apply, InnerEncode, InnerDecode, ICtrl, IsEncrypted;
    if payloads != [] {
      var f := EncryptedFrame(c, at, ICtrl(acks[0], sent), payloads[0]);
      NumbersReadBack(acks[0], sent);
      OpenOne(c, at, ICtrl(acks[0], sent), payloads[0]);
      hide EncryptedFrame, Route;
      var rest := Seal(c, at + |InnerEncode(payloads[0])|, sent + 1, acks[1..], payloads[1..]);
      assert ([f] + rest)[1..] == rest;
      if i > 0 {
        SealedEncrypted(c, at + |InnerEncode(payloads[0])|, sent + 1, acks[1..], payloads[1..], i - 1);
      }
    }
  }

  lemma EncryptedNoKe(e: Event)
    ensures IsEncrypted(e) ==> !KeEvent(e)
  {
  }

  lemma SealedNoKe(c: Cipher, sent: nat, acks: seq<nat>, payloads: seq<seq<byte>>)
    requires |acks| == |payloads|
    ensures NoKeyRequest(Seal(c, 0, sent, acks, payloads))
  {
    hide Seal, Routed, IsEncrypted, KeEvent;
    var events := Routed(Seal(c, 0, sent, acks, payloads));
    forall i | 0 <= i < |events|
      ensures !KeEvent(events[i])
    {
      SealedEncrypted(c, 0, sent, acks, payloads, i);
      EncryptedNoKe(events[i]);
    }
  }

  lemma OpenNothing(c: Cipher, at: nat)
    ensures Open(c, at, []) == []
  {
  }

  /** An unfinished frame gives no event. */
  lemma LeftoverQuiet(s: seq<byte>)
    ensures NotS(Events(Leftover(s))) == []
  {
    Resume(s, []);
    assert s + [] == s && Leftover(s) + [] == Leftover(s);
    assert |Events(s)| == |Events(s)| + |Events(Leftover(s))|;
  }

  /** A client that seals with the phase's key is read back exactly, once all its frames have been taken. */
  lemma DeviceReceivesSealed(labels: seq<Label>, before: seq<Frame>, handshake: seq<Frame>, keys: Keys, sent: nat,
                             acks: seq<nat>, payloads: seq<seq<byte>>)
    requires |acks| == |payloads|
    requires |Log(Run(Fresh(), labels))| >= 4 && LastKeys(Run(Fresh(), labels)) == Some(keys)
    requires Q.Heard(labels) == Wire(before + handshake + Seal(keys.rx, 0, sent, acks, payloads))
    requires ClientHandshake(handshake)
    requires EventsOf(Run(Fresh(), labels).rxQueue) == []
    ensures Received(Log(Run(Fresh(), labels))) == payloads
  {
    var s := Run(Fresh(), labels);
    hide Run, Routed, Wire, Q.Heard, Taken, Received, Open, Consumed, Seal, Log, LastKeys, EventsOf, SabmEvent, KeEvent;
    var data := Seal(keys.rx, 0, sent, acks, payloads);
    GoneAndWaiting(labels);
    assert Q.Heard(labels) + [] == Q.Heard(labels) && s.rxBuf + [] == s.rxBuf;
    LeftoverQuiet(Q.Heard(labels));
    assert Pending(s, []) == [] + [];
    hide Pending;
    SealedNoKe(keys.rx, sent, acks, payloads);
    DeviceReceivesStream(labels, [], before, handshake, data);
    OpenSealed(keys.rx, 0, sent, acks, payloads);
    NothingOpens(keys.rx);
    OpenNothing(keys.rx, Consumed(0, Taken(Log(s))));
  }
}
