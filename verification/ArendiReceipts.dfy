/**
 The acknowledgements a device without an application waits for: which one ends the wait, and that none
 from before a restart or from before the end of a request can.
 */
module ArendiReceipts {
  import opened Bytes
  import opened Hdlc
  import opened SecureChannel
  import opened ArendiSession
  import opened ArendiTheorems
  import opened ArendiEnds
  import Q = ArendiQueue
  import H = ArendiHandshake

  // ---- the end of a wait for an acknowledgement ----

  /** The control bytes of the S-frames among these. */
  function Receipts(frames: seq<Frame>): seq<byte> {
    if frames == [] then []
    else (if frames[0].ctrl % 4 == 1 then [frames[0].ctrl] else []) + Receipts(frames[1..])
  }

  lemma {:induction false} ReceiptsQueued(frames: seq<Frame>)
    ensures Acks(Routed(frames)) == Receipts(frames)
  {
    if frames != [] {
      ReceiptsQueued(frames[1..]);
      assert Routed(frames)[1..] == Routed(frames[1..]);
    }
  }

  /** One of these carries the awaited number in its three high bits. */
  predicate Acknowledged(acks: seq<byte>, expected: nat) {
    exists i :: 0 <= i < |acks| && acks[i] / 32 == expected
  }

  lemma {:induction false} NoMoreWaiting(s: Session, n: nat)
    requires s.pc == Serving
    ensures Run(s, H.Takes(TakeAck, n)) == s
    decreases n
  {
    if n > 0 {
      TakesFirst(s, TakeAck, n);
      NoMoreWaiting(s, n - 1);
    }
  }

  lemma AcknowledgedFirst(acks: seq<byte>, expected: nat)
    requires acks != []
    ensures Acknowledged(acks, expected) <==> acks[0] / 32 == expected || Acknowledged(acks[1..], expected)
  {
    if acks[0] / 32 != expected && Acknowledged(acks, expected) {
      var i :| 0 <= i < |acks| && acks[i] / 32 == expected;
      assert acks[1..][i - 1] == acks[i];
    }
    if Acknowledged(acks[1..], expected) {
      var i :| 0 <= i < |acks| - 1 && acks[1..][i] / 32 == expected;
      assert acks[i + 1] == acks[1..][i];
    }
  }

  lemma NothingTaken(s: Session, expected: nat)
    ensures Run(s, H.Takes(TakeAck, 0)) == s && !Acknowledged([], expected)
  {
  }

  /** Taking all that wait, one after another: stale ones are dropped, the awaited one ends the wait. */
  lemma {:induction false} AllTaken(s: Session, expected: nat)
    requires s.pc == AwaitingAck(expected)
    ensures Run(s, H.Takes(TakeAck, |s.srrQueue|)).pc
         == if Acknowledged(s.srrQueue, expected) then Serving else AwaitingAck(expected)
    decreases |s.srrQueue|
  {
    hide Acknowledged, Run;
    if s.srrQueue == [] {
      NothingTaken(s, expected);
    } else {
      var t := Step(s, TakeAck);
      TakesFirst(s, TakeAck, |s.srrQueue|);
      AcknowledgedFirst(s.srrQueue, expected);
      if s.srrQueue[0] / 32 == expected {
        NoMoreWaiting(t, |s.srrQueue| - 1);
      } else {
        AllTaken(t, expected);
      }
    }
  }

  /**
   Whatever frames arrive while an acknowledgement is awaited: the wait ends exactly if one of the S-frames,
   those already queued included, acknowledges the awaited number; any other is dropped.
   */
  lemma AckEndsWait(s: Session, frames: seq<Frame>, expected: nat)
    requires s.pc == AwaitingAck(expected) && (s.rxBuf == [] || s.rxBuf == [0])
    ensures var acks := s.srrQueue + Receipts(frames);
            Run(s, [FeedBytes(Wire(frames))] + H.Takes(TakeAck, |acks|)).pc
            == if Acknowledged(acks, expected) then Serving else AwaitingAck(expected)
  {
    hide Run, Events, Leftover, Queued, Acks, LastAck, Acknowledged, Wire, H.Takes;
    var feed := FeedBytes(Wire(frames));
    WireDelivers(frames);
    AfterZeroDelivers(frames);
    ReceiptsQueued(frames);
    assert [] + Wire(frames) == Wire(frames);
    var t := Step(s, feed);
    H.RunConcat(s, [feed], H.Takes(TakeAck, |t.srrQueue|));
    H.RunOne(s, feed);
    AllTaken(t, expected);
  }

  /** If none of them does, the timeout ends the wait, and the run goes on as if it had been acknowledged. */
  lemma TimeoutEndsWait(s: Session, frames: seq<Frame>, expected: nat)
    requires s.pc == AwaitingAck(expected) && (s.rxBuf == [] || s.rxBuf == [0])
    requires !Acknowledged(s.srrQueue + Receipts(frames), expected)
    ensures var acks := s.srrQueue + Receipts(frames);
            Run(s, [FeedBytes(Wire(frames))] + H.Takes(TakeAck, |acks|) + [Timeout]).pc == Serving
  {
    hide Run, Events, Leftover, Queued, Acks, LastAck, Acknowledged, Wire, H.Takes;
    var labels := [FeedBytes(Wire(frames))] + H.Takes(TakeAck, |s.srrQueue + Receipts(frames)|);
    AckEndsWait(s, frames, expected);
    H.RunConcat(s, labels, [Timeout]);
    H.RunOne(Run(s, labels), Timeout);
  }

  // ---- stale acknowledgements ----

  /** The acknowledgements a step brings in. */
  function Came(s: Session, l: Label): seq<byte> {
    if l.FeedBytes? then Acks(Events(s.rxBuf + l.data)) else []
  }

  function AllCame(s: Session, labels: seq<Label>): seq<byte>
    decreases |labels|
  {
    if labels == [] then [] else Came(s, labels[0]) + AllCame(Step(s, labels[0]), labels[1..])
  }

  /** What is left of a queue, and of what came to it, once some have gone from its front. */
  predicate LeftOf(left: seq<byte>, queue: seq<byte>, came: seq<byte>) {
    |left| <= |queue + came| && left == (queue + came)[|queue + came| - |left|..]
  }

  lemma NothingGone(queue: seq<byte>, came: seq<byte>)
    ensures LeftOf(queue + came, queue, came)
  {
  }

  lemma NothingCame(queue: seq<byte>)
    ensures LeftOf(queue, queue, []) && LeftOf([], queue, []) && (queue != [] ==> LeftOf(queue[1..], queue, []))
  {
    assert queue + [] == queue;
  }

  lemma LeftOfLeft(last: seq<byte>, left: seq<byte>, queue: seq<byte>, came: seq<byte>, later: seq<byte>)
    requires LeftOf(left, queue, came) && LeftOf(last, left, later)
    ensures LeftOf(last, queue, came + later)
  {
    var all := queue + came;
    assert queue + (came + later) == all + later;
    assert left + later == (all + later)[|all| - |left|..];
  }

  /** The step takes a SABM in the frame loop, or sends the last answer of a request. */
  predicate Drains(s: Session, l: Label) {
    Q.Restarts(s, l) || (l.SendDone? && s.pc.Responding? && s.pc.rest == [])
  }

  lemma AnswerDrains(s: Session, answers: seq<seq<byte>>, plaintext: seq<byte>)
    ensures var t := Answer(s, answers, plaintext); t.srrQueue == if answers == [] then [] else s.srrQueue
  {
    RecordFields(s.(srrQueue := [], pc := Serving), Disc);
    if answers != [] {
      BuildEncFields(s, answers[0]);
    }
    hide Record, BuildEnc;
  }

  lemma TookAcks(s: Session, event: Event, plain: Option<seq<byte>>)
    ensures AfterTook(s, event, plain).srrQueue == s.srrQueue
  {
    RecordFields(s, Took(event, plain));
    hide Record;
  }

  lemma ServeLeaves(s: Session, item: Item, reaction: Reaction)
    ensures var t := ServeItem(s, item, reaction);
            (t.srrQueue == s.srrQueue || t.srrQueue == []) && (IsSabm(item) ==> t.srrQueue == [])
  {
    hide Record, BuildEnc, Answer, AfterTook, Opened, IsSabm;
    ServedOther(s, item, reaction);
    if item.Heard? && !IsSabm(item) {
      RecordFields(s, Took(item.event, None));
      if s.keys.Some? {
        ServedIs(s, item, reaction);
        var plain := Opened(s, item.event);
        var t := AfterTook(s, item.event, plain);
        TookAcks(s, item.event, plain);
        BuildEncFields(t, FAKE_RESPONSE);
        if plain.Some? && reaction.Answers? {
          AnswerDrains(t, reaction.frames, plain.value);
        }
        hide ServeItem;
      }
    }
  }

  lemma PlainLeaves(s: Session, payload: seq<byte>)
    ensures BuildPlain(s, payload).srrQueue == s.srrQueue
  {
    BuildPlainFields(s, payload);
    hide BuildPlain;
  }

  lemma KeLeaves(s: Session, item: Item, exchange: Option<Exchange>)
    ensures OnKe(s, item, exchange).srrQueue == s.srrQueue
  {
    hide BuildPlain, IsSecurity;
    if exchange.Some? {
      PlainLeaves(SetKeys(s, exchange.value.keys), [KE_RESP] + exchange.value.reply);
    }
  }

  lemma TakeLeaves(s: Session, l: Label)
    requires l.Take? && s.rxQueue != []
    ensures var t := TakeStep(s, l);
            (t.srrQueue == s.srrQueue || t.srrQueue == []) && (Q.Restarts(s, l) ==> t.srrQueue == [])
  {
    hide BuildPlain, ServeItem, OnKe, IsSabm, IsSecurity;
    var u := s.(rxQueue := s.rxQueue[1..]);
    match s.pc
    case AwaitVersion => PlainLeaves(u, [VERSION_RESP, 0, 0, 0, 0, 0, 1]);
    case AwaitEp => PlainLeaves(u, [EP_RESP] + l.nonces + [1]);
    case AwaitKe => KeLeaves(u, s.rxQueue[0], l.exchange);
    case Serving => ServeLeaves(u, s.rxQueue[0], l.reaction);
    case _ =>
  }

  lemma FeedLeaves(s: Session, data: seq<byte>)
    ensures FeedStep(s, data).srrQueue == s.srrQueue + Acks(Events(s.rxBuf + data))
  {
  }

  lemma TakeAckLeaves(s: Session)
    ensures var t := TakeAckStep(s); t.srrQueue == s.srrQueue || (s.srrQueue != [] && t.srrQueue == s.srrQueue[1..])
  {
  }

  lemma TimeoutLeaves(s: Session)
    ensures TimeoutStep(s).srrQueue == s.srrQueue
  {
  }

  lemma SendDoneLeaves(s: Session)
    ensures var t := SendDoneStep(s);
            (t.srrQueue == s.srrQueue || t.srrQueue == []) && (Drains(s, SendDone) ==> t.srrQueue == [])
  {
    hide Answer;
    if s.pc.Responding? {
      AnswerDrains(s, s.pc.rest, s.pc.plaintext);
    }
  }

  lemma PushLeaves(s: Session, payload: seq<byte>)
    ensures Step(s, Push(payload)).srrQueue == s.srrQueue
  {
    BuildEncFields(s, payload);
    hide BuildEnc;
  }

  /** Which steps bring acknowledgements in, take one out or drop them all. */
  lemma StepQueue(s: Session, l: Label)
    ensures var t := Step(s, l);
            && (l.FeedBytes? ==> t.srrQueue == s.srrQueue + Acks(Events(s.rxBuf + l.data)))
            && (!l.FeedBytes? ==> t.srrQueue == s.srrQueue || t.srrQueue == []
                                  || (s.srrQueue != [] && t.srrQueue == s.srrQueue[1..]))
            && (Drains(s, l) ==> t.srrQueue == [])
  {
    match l
    case FeedBytes(data) => FeedLeaves(s, data);
    case Take(_, _, _) =>
      if s.rxQueue != [] {
        TakeLeaves(s, l);
      }
    case SendDone => SendDoneLeaves(s);
    case TakeAck => TakeAckLeaves(s);
    case Timeout => TimeoutLeaves(s);
    case Push(payload) => PushLeaves(s, payload);
    case _ =>
    hide BuildEnc, FeedStep, TakeStep, SendDoneStep, TakeAckStep, TimeoutStep, Events, Acks, IsSabm;
  }

  /** The queue of acknowledgements is only ever added to at its end and taken from at its front. */
  lemma StepLeaves(s: Session, l: Label)
    ensures LeftOf(Step(s, l).srrQueue, s.srrQueue, Came(s, l))
  {
    hide Step, Acks, Events, LeftOf, Drains;
    StepQueue(s, l);
    NothingCame(s.srrQueue);
    if l.FeedBytes? {
      NothingGone(s.srrQueue, Came(s, l));
    }
  }

  lemma {:induction false} RunLeaves(s: Session, labels: seq<Label>)
    ensures LeftOf(Run(s, labels).srrQueue, s.srrQueue, AllCame(s, labels))
    decreases |labels|
  {
    hide Step, Came, LeftOf;
    if labels == [] {
      NothingCame(s.srrQueue);
    } else {
      var t := Step(s, labels[0]);
      StepLeaves(s, labels[0]);
      RunLeaves(t, labels[1..]);
      LeftOfLeft(Run(t, labels[1..]).srrQueue, t.srrQueue, s.srrQueue, Came(s, labels[0]), AllCame(t, labels[1..]));
    }
  }

  /** Once a handshake has restarted or a request is done, no acknowledgement from before can end a wait. */
  lemma StaleDropped(s: Session, l: Label, labels: seq<Label>)
    requires Drains(s, l)
    ensures LeftOf(Run(Step(s, l), labels).srrQueue, [], AllCame(Step(s, l), labels))
  {
    hide Step, Run, AllCame, Drains, LeftOf;
    StepQueue(s, l);
    RunLeaves(Step(s, l), labels);
  }
}
