/**
 What a run of the link keeps of what it hears: the buffer is the leftover of the whole stream, and
 the queue hands out every frame of the stream once, in order, however the stream was cut and
 whatever the other tasks did in between.
 */
module ArendiQueue {
  import opened Bytes
  import opened Hdlc
  import opened SecureChannel
  import opened ArendiSession
  import opened ArendiTheorems
  import Cobs
  import Server = ArendiServer

  /** Every byte written to the device in a run. */
  function Heard(labels: seq<Label>): seq<byte> {
    if labels == [] then []
    else (if labels[0].FeedBytes? then labels[0].data else []) + Heard(labels[1..])
  }

  /** What a step puts into the queue. */
  function Enqueued(s: Session, l: Label): seq<Item> {
    match l
    case FeedBytes(data) => Queued(Events(s.rxBuf + data))
    case PeerGone => [Disconnect]
    case _ => []
  }

  function AllItems(s: Session, labels: seq<Label>): seq<Item>
    decreases |labels|
  {
    if labels == [] then [] else Enqueued(s, labels[0]) + AllItems(Step(s, labels[0]), labels[1..])
  }

  /** The frames among the items. */
  function FramesOf(items: seq<Item>): seq<Item> {
    if items == [] then []
    else (if items[0] == Disconnect then [] else [items[0]]) + FramesOf(items[1..])
  }

  /** `run` is waiting for an item of the queue. */
  predicate Waits(pc: Pc) {
    pc.AwaitSabm? || pc.AwaitVersion? || pc.AwaitEp? || pc.AwaitKe? || pc.Serving?
  }

  /** What a step takes out of the queue. */
  function Gone(s: Session, l: Label): (gone: seq<Item>)
    ensures |gone| <= |s.rxQueue|
  {
    if l.Take? && s.rxQueue != [] && Waits(s.pc) then [s.rxQueue[0]] else []
  }

  function AllGone(s: Session, labels: seq<Label>): seq<Item>
    decreases |labels|
  {
    if labels == [] then [] else Gone(s, labels[0]) + AllGone(Step(s, labels[0]), labels[1..])
  }

  /** The step takes a SABM in the frame loop. */
  predicate Restarts(s: Session, l: Label) {
    l.Take? && s.pc.Serving? && s.rxQueue != [] && IsSabm(s.rxQueue[0])
  }

  lemma AnswerQueue(s: Session, answers: seq<seq<byte>>, plaintext: seq<byte>)
    ensures var t := Answer(s, answers, plaintext); t.rxQueue == s.rxQueue && t.rxBuf == s.rxBuf && t.rxAck == s.rxAck
  {
    if answers == [] {
      RecordFields(s.(srrQueue := [], pc := Serving), Disc);
      hide Record;
    } else {
      BuildEncFields(s, answers[0]);
      hide BuildEnc;
    }
  }

  lemma ServeQueue(s: Session, item: Item, reaction: Reaction)
    ensures var t := ServeItem(s, item, reaction);
            t.rxQueue == s.rxQueue && t.rxBuf == s.rxBuf && t.rxAck == if IsSabm(item) then 0 else s.rxAck
  {
    hide Answer, BuildEnc, Record;
    if item.Heard? && !IsSabm(item) {
      var event := item.event;
      RecordFields(s, Took(event, None));
      if IsEncrypted(event) && s.keys.Some? {
        ServedIs(s, item, reaction);
        var plain := Opened(s, event);
        RecordFields(s, Took(event, plain));
        var t := AfterTook(s, event, plain);
        hide ServeItem, Opened;
        if plain.Some? {
          BuildEncFields(t, FAKE_RESPONSE);
          if reaction.Answers? {
            AnswerQueue(t, reaction.frames, plain.value);
          }
        }
      }
    }
  }

  lemma SabmQueue(s: Session, item: Item)
    ensures var t := OnSabm(s, item); t.rxQueue == s.rxQueue && t.rxBuf == s.rxBuf && t.rxAck == s.rxAck
  {
    hide IsSabm;
  }

  lemma VersionQueue(s: Session, item: Item)
    ensures var t := OnVersion(s, item); t.rxQueue == s.rxQueue && t.rxBuf == s.rxBuf && t.rxAck == s.rxAck
  {
    BuildPlainFields(s, [VERSION_RESP, 0, 0, 0, 0, 0, 1]);
    hide BuildPlain, IsSecurity;
  }

  lemma EpQueue(s: Session, item: Item, nonces: seq<byte>)
    ensures var t := OnEp(s, item, nonces); t.rxQueue == s.rxQueue && t.rxBuf == s.rxBuf && t.rxAck == s.rxAck
  {
    BuildPlainFields(s, [EP_RESP] + nonces + [1]);
    hide BuildPlain, IsSecurity;
  }

  lemma SetKeysQueue(s: Session, keys: Keys)
    ensures var t := SetKeys(s, keys); t.rxQueue == s.rxQueue && t.rxBuf == s.rxBuf && t.rxAck == s.rxAck
  {
  }

  lemma KeQueue(s: Session, item: Item, exchange: Option<Exchange>)
    ensures var t := OnKe(s, item, exchange); t.rxQueue == s.rxQueue && t.rxBuf == s.rxBuf && t.rxAck == s.rxAck
  {
    hide BuildPlain, SetKeys;
    if exchange.Some? {
      SetKeysQueue(s, exchange.value.keys);
      BuildPlainFields(SetKeys(s, exchange.value.keys), [KE_RESP] + exchange.value.reply);
    }
  }

  lemma TakeQueue(s: Session, l: Label)
    requires l.Take? && s.rxQueue != []
    ensures var t := TakeStep(s, l);
            && t.rxBuf == s.rxBuf && t.rxQueue == (if Waits(s.pc) then s.rxQueue[1..] else s.rxQueue)
            && t.rxAck == if Restarts(s, l) then 0 else s.rxAck
  {
    hide OnSabm, OnVersion, OnEp, OnKe, ServeItem;
    var item := s.rxQueue[0];
    var t := s.(rxQueue := s.rxQueue[1..]);
    match s.pc
    case AwaitSabm => SabmQueue(t, item);
    case AwaitVersion => VersionQueue(t, item);
    case AwaitEp => EpQueue(t, item, l.nonces);
    case AwaitKe => KeQueue(t, item, l.exchange);
    case Serving => ServeQueue(t, item, l.reaction);
    case _ =>
  }

  lemma TimeoutQueue(s: Session)
    ensures var t := TimeoutStep(s); t.rxQueue == s.rxQueue && t.rxBuf == s.rxBuf && t.rxAck == s.rxAck
  {
  }

  lemma TakeAckQueue(s: Session)
    ensures var t := TakeAckStep(s); t.rxQueue == s.rxQueue && t.rxBuf == s.rxBuf && t.rxAck == s.rxAck
  {
  }

  /** A step adds its items at the end of the queue and takes at most one, the first, when `run` waits for it. */
  lemma StepQueue(s: Session, l: Label)
    ensures var t := Step(s, l);
            && t.rxQueue == s.rxQueue[|Gone(s, l)|..] + Enqueued(s, l)
            && t.rxBuf == (if l.FeedBytes? then Leftover(s.rxBuf + l.data) else s.rxBuf)
            && t.rxAck == if l.FeedBytes? then LastAck(s.rxAck, Events(s.rxBuf + l.data))
                          else if Restarts(s, l) then 0 else s.rxAck
  {
    hide Events, Leftover, Queued, Acks, LastAck, Answer, BuildEnc, TakeStep, TimeoutStep, TakeAckStep;
    assert s.rxQueue[0..] == s.rxQueue;
    match l
    case Take(_, _, _) =>
      if s.rxQueue != [] {
        TakeQueue(s, l);
      }
    case SendDone =>
      if s.pc.Responding? {
        AnswerQueue(s, s.pc.rest, s.pc.plaintext);
      }
    case Push(payload) => BuildEncFields(s, payload);
    case Timeout => TimeoutQueue(s);
    case TakeAck => TakeAckQueue(s);
    case _ =>
  }

  lemma GoneFirst(s: Session, l: Label)
    ensures |Gone(s, l)| <= |s.rxQueue| && Gone(s, l) == s.rxQueue[..|Gone(s, l)|]
  {
  }

  /** What a run has taken out of the queue, followed by what still waits there, is what went in, in order. */
  lemma {:induction false} QueueInOrder(s: Session, labels: seq<Label>)
    ensures AllGone(s, labels) + Run(s, labels).rxQueue == s.rxQueue + AllItems(s, labels)
    decreases |labels|
  {
    hide Step, Enqueued, Gone;
    if labels == [] {
      assert s.rxQueue + [] == s.rxQueue && [] + s.rxQueue == s.rxQueue;
    } else {
      var l, t := labels[0], Step(s, labels[0]);
      StepQueue(s, l);
      QueueInOrder(t, labels[1..]);
      assert Gone(s, l) + s.rxQueue[|Gone(s, l)|..] == s.rxQueue by { GoneFirst(s, l); }
      var now, later := AllGone(t, labels[1..]), AllItems(t, labels[1..]);
      assert Gone(s, l) + (t.rxQueue + later) == Gone(s, l) + t.rxQueue + later;
      assert s.rxQueue + (Enqueued(s, l) + later) == s.rxQueue + Enqueued(s, l) + later;
      assert Gone(s, l) + (now + Run(t, labels[1..]).rxQueue) == Gone(s, l) + now + Run(t, labels[1..]).rxQueue;
    }
  }

  lemma {:induction false} FramesConcat(a: seq<Item>, b: seq<Item>)
    ensures FramesOf(a + b) == FramesOf(a) + FramesOf(b)
  {
    if a == [] {
      assert a + b == b;
    } else {
      assert (a + b)[1..] == a[1..] + b && (a + b)[0] == a[0];
      FramesConcat(a[1..], b);
      var head := if a[0] == Disconnect then [] else [a[0]];
      assert head + (FramesOf(a[1..]) + FramesOf(b)) == head + FramesOf(a[1..]) + FramesOf(b);
    }
  }

  lemma {:induction false} QueuedFrames(events: seq<Event>)
    ensures FramesOf(Queued(events)) == Queued(events)
  {
    if events != [] {
      QueuedFrames(events[1..]);
      FramesConcat(if events[0].S? then [] else [ArendiSession.Heard(events[0])], Queued(events[1..]));
    }
  }

  lemma NoFrames()
    ensures FramesOf([]) == [] && FramesOf([Disconnect]) == []
  {
    assert [Disconnect][1..] == [];
  }

  /** From any point of a stream on. */
  lemma {:induction false} RunHearsFrom(s: Session, heard: seq<byte>, labels: seq<Label>)
    requires s.rxBuf == Leftover(heard)
    ensures Run(s, labels).rxBuf == Leftover(heard + Heard(labels))
    ensures Queued(Events(heard)) + FramesOf(AllItems(s, labels)) == Queued(Events(heard + Heard(labels)))
    decreases |labels|
  {
    hide Step, Events, Leftover, Queued, FramesOf;
    NoFrames();
    if labels == [] {
      assert heard + [] == heard;
    } else {
      var l, t := labels[0], Step(s, labels[0]);
      StepQueue(s, l);
      var more := if l.FeedBytes? then l.data else [];
      assert heard + (more + Heard(labels[1..])) == heard + more + Heard(labels[1..]);
      FramesConcat(Enqueued(s, l), AllItems(t, labels[1..]));
      if l.FeedBytes? {
        Resume(heard, l.data);
        Server.QueuedSnoc(Events(heard), Events(s.rxBuf + l.data));
        QueuedFrames(Events(s.rxBuf + l.data));
      } else {
        assert heard + more == heard;
      }
      RunHearsFrom(t, heard + more, labels[1..]);
    }
  }

  /** Two writes to the device are one write of both: only the bytes matter, not how they are cut. */
  lemma FeedTwice(s: Session, a: seq<byte>, b: seq<byte>)
    ensures FeedStep(FeedStep(s, a), b) == FeedStep(s, a + b)
  {
    hide Events, Leftover, Queued, Acks, LastAck;
    var stream := s.rxBuf + a;
    assert s.rxBuf + (a + b) == stream + b;
    Resume(stream, b);
    var first, second := Events(stream), Events(Leftover(stream) + b);
    Server.QueuedSnoc(first, second);
    Server.AcksSnoc(first, second);
    Server.LastAckSnoc(s.rxAck, first, second);
    assert s.rxQueue + (Queued(first) + Queued(second)) == s.rxQueue + Queued(first) + Queued(second);
    assert s.srrQueue + (Acks(first) + Acks(second)) == s.srrQueue + Acks(first) + Acks(second);
  }

  /**
   Over any run from the start: the buffer holds no more than the unfinished last frame, and the
   frames that entered the queue are those of the whole byte stream, each once and in order.
   */
  lemma RunHears(labels: seq<Label>)
    ensures var s := Run(Fresh(), labels);
            && s.rxBuf == Leftover(Heard(labels))
            && (s.rxBuf == [] || (s.rxBuf[0] == 0 && Cobs.ZeroFree(s.rxBuf[1..])))
    ensures FramesOf(AllItems(Fresh(), labels)) == Queued(Events(Heard(labels)))
  {
    hide Run, Events, Leftover, AllItems;
    NothingHeard();
    RunHearsFrom(Fresh(), [], labels);
    assert [] + Heard(labels) == Heard(labels);
    LeftoverShape(Heard(labels));
  }
}
