/**
 The request side of a Mera device: one request frame at a time under a lock, each acknowledged with
 the bitmap of what has been received, a response pushed frame by frame, and selective
 retransmission driven by the client's flow-control frames.
 */
module MeraRequests {
  import opened Bytes
  import opened CrcMessages
  import opened MeraFrames
  import R = Reassembly
  import T = MeraTransport

  const MAX_ROUNDS := 3

  // ---- bitmaps in a byte ----

  /** `(ack >> i) & 1` */
  predicate Bit(ack: nat, i: nat)
    decreases i
  {
    if i == 0 then ack % 2 == 1 else Bit(ack / 2, i - 1)
  }

  /** The byte a receiver reports for these frames: bit i for frame `from + i`, `k` bits. */
  function MaskOf(bits: set<nat>, from: nat, k: nat): (m: nat)
    ensures m < Pow2(k)
    decreases k
  {
    if k == 0 then 0 else (if from in bits then 1 else 0) + 2 * MaskOf(bits, from + 1, k - 1)
  }

  lemma {:induction false} MaskBit(bits: set<nat>, from: nat, k: nat, i: nat)
    requires i < k
    ensures Bit(MaskOf(bits, from, k), i) <==> from + i in bits
    decreases k
  {
    var rest := MaskOf(bits, from + 1, k - 1);
    assert MaskOf(bits, from, k) / 2 == rest;
    if i > 0 {
      MaskBit(bits, from + 1, k - 1, i - 1);
    }
  }

  /** Of the low `k` bits exactly the first `n` are set. */
  predicate FirstSet(ack: nat, k: nat, n: nat) {
    forall i: nat :: i < k ==> (Bit(ack, i) <==> i < n)
  }

  lemma NoBits(ack: nat, n: nat)
    ensures FirstSet(ack, 0, n)
  {
  }

  lemma FirstSetStep(ack: nat, k: nat, n: nat)
    requires k > 0
    ensures FirstSet(ack, k, n)
        <==> (ack % 2 == 1 <==> 0 < n) && FirstSet(ack / 2, k - 1, if n == 0 then 0 else n - 1)
  {
    var m := if n == 0 then 0 else n - 1;
    if FirstSet(ack, k, n) {
      assert Bit(ack, 0) <==> 0 < n;
      forall i: nat | i < k - 1
        ensures Bit(ack / 2, i) <==> i < m
      {
        assert Bit(ack, i + 1) <==> i + 1 < n;
      }
    }
    if (ack % 2 == 1 <==> 0 < n) && FirstSet(ack / 2, k - 1, m) {
      forall i: nat | i < k
        ensures Bit(ack, i) <==> i < n
      {
        assert Bit(ack, i) <==> if i == 0 then ack % 2 == 1 else Bit(ack / 2, i - 1);
      }
    }
  }

  /** `(1 << n) - 1` is the number whose bits are set below n and nowhere else. */
  lemma {:induction false} AllOnes(n: nat, ack: nat, k: nat)
    requires n <= k && ack < Pow2(k)
    ensures ack == Pow2(n) - 1 <==> FirstSet(ack, k, n)
    decreases k
  {
    hide FirstSet;
    if k == 0 {
      NoBits(ack, n);
    } else {
      AllOnes(if n == 0 then 0 else n - 1, ack / 2, k - 1);
      FirstSetStep(ack, k, n);
    }
  }

  // ---- the service ----

  datatype Sent = Ack(bits: set<nat>) | Frame(index: nat, channel: nat, bytes: seq<byte>)

  datatype Service = Service(
    last: seq<seq<byte>>,
    retransmits: nat,
    ackBits: set<nat>,
    collector: R.Collector)

  function Fresh(): Service {
    Service([], 0, {}, R.Empty())
  }

  /** What one call leaves behind: frames pushed, and a request passed to the dispatcher. */
  datatype Effect = Effect(sent: seq<Sent>, dispatched: seq<Request>)

  function Push(frames: seq<seq<byte>>, i: nat): Sent
    requires i < |frames|
  {
    Frame(i, PushedOn(i), frames[i])
  }

  /** Frames `from` onwards, in order, each on its characteristic. */
  function PushFrom(frames: seq<seq<byte>>, from: nat): seq<Sent>
    requires from <= |frames|
    decreases |frames| - from
  {
    if from == |frames| then [] else [Push(frames, from)] + PushFrom(frames, from + 1)
  }

  /** Frames `from` onwards whose acknowledgement bit is missing. */
  function PushMissing(frames: seq<seq<byte>>, ack: byte, from: nat): seq<Sent>
    requires from <= |frames|
    decreases |frames| - from
  {
    if from == |frames| then []
    else (if Bit(ack, from) then [] else [Push(frames, from)]) + PushMissing(frames, ack, from + 1)
  }

  /** A flow-control frame. */
  function OnControl(s: Service, ack: byte): (Service, Effect) {
    var n := |s.last|;
    if n == 0 then (s, Effect([], []))
    else if ack == Pow2(n) - 1 then (s.(last := [], retransmits := 0), Effect([], []))
    else if s.retransmits + 1 > MAX_ROUNDS then (s.(last := [], retransmits := 0), Effect([], []))
    else (s.(retransmits := s.retransmits + 1), Effect(PushMissing(s.last, ack, 0), []))
  }

  /** What follows from the collector's outcomes: a complete request is dispatched and answered. */
  function OnOutcomes(s: Service, outs: seq<R.Outcome>, answer: seq<seq<byte>>): (Service, Effect) {
    var messages := R.Messages(outs);
    if messages == [] || ParseRequest(messages[0]) == None then (s, Effect([], []))
    else (s.(last := answer, retransmits := 0), Effect(PushFrom(answer, 0), [ParseRequest(messages[0]).value]))
  }

  predicate IsRequestFrame(raw: seq<byte>) {
    |raw| >= 11 && raw[0] / 32 == 0
  }

  predicate IsFirst(raw: seq<byte>)
    requires IsRequestFrame(raw)
  {
    raw[0] % 2 == 1
  }

  function FrameIndex(raw: seq<byte>): nat
    requires IsRequestFrame(raw)
  {
    if IsFirst(raw) then 0 else raw[0] / 2 % 4
  }

  function Payload(raw: seq<byte>): seq<byte>
    requires IsRequestFrame(raw)
  {
    raw[1..if |raw| < 20 then |raw| else 20]
  }

  function ArrivalOf(raw: seq<byte>): R.Arrival
    requires IsRequestFrame(raw)
  {
    if IsFirst(raw) then R.First(raw[0] / 2 % 4 + 1, Payload(raw)) else R.Cons(raw[0] / 2 % 4, Payload(raw))
  }

  /** The bitmap after one more request frame; a first frame starts it over. */
  function Acknowledged(bits: set<nat>, raw: seq<byte>): set<nat>
    requires IsRequestFrame(raw)
  {
    if IsFirst(raw) then {0} else bits + {FrameIndex(raw)}
  }

  /** `_handle_request`; `answer` is what the dispatcher returns if this call reaches it. */
  function Handle(s: Service, raw: seq<byte>, answer: seq<seq<byte>>): (Service, Effect) {
    if |raw| < 11 then (s, Effect([], []))
    else if raw[0] / 32 == 3 then OnControl(s, raw[4])
    else if !IsRequestFrame(raw) then (s, Effect([], []))
    else
      var bits := Acknowledged(s.ackBits, raw);
      var (c, outs) := R.Arrive(s.collector, ArrivalOf(raw));
      var (t, e) := OnOutcomes(s.(ackBits := bits, collector := c), outs, answer);
      (t, e.(sent := [Ack(bits)] + e.sent))
  }

  datatype Call = Call(raw: seq<byte>, answer: seq<seq<byte>>)

  /** A run of calls; the lock keeps them from overlapping. */
  function HandleAll(s: Service, calls: seq<Call>): (Service, Effect)
  {
    if calls == [] then (s, Effect([], []))
    else
      var n := |calls| - 1;
      var (t, e) := HandleAll(s, calls[..n]);
      var (u, f) := Handle(t, calls[n].raw, calls[n].answer);
      (u, Effect(e.sent + f.sent, e.dispatched + f.dispatched))
  }

  // ---- acknowledgements ----

  /** No first frame of a request comes after the call at `i`. */
  predicate NoFirstAfter(calls: seq<Call>, i: nat) {
    forall j :: i < j < |calls| && IsRequestFrame(calls[j].raw) ==> !IsFirst(calls[j].raw)
  }

  /** The indices of the request frames received since the latest first frame, it included. */
  function SinceFirst(calls: seq<Call>): set<nat> {
    set i | 0 <= i < |calls| && IsRequestFrame(calls[i].raw) && NoFirstAfter(calls, i) :: FrameIndex(calls[i].raw)
  }

  lemma NoFirstOneMore(calls: seq<Call>, i: nat)
    requires i + 1 < |calls|
    ensures var last := calls[|calls| - 1].raw;
            NoFirstAfter(calls, i) <==> NoFirstAfter(calls[..|calls| - 1], i) && !(IsRequestFrame(last) && IsFirst(last))
  {
    var n := |calls| - 1;
    if NoFirstAfter(calls[..n], i) && !(IsRequestFrame(calls[n].raw) && IsFirst(calls[n].raw)) {
      assert forall j :: i < j < n ==> calls[..n][j] == calls[j];
    }
  }

  lemma FirstIndex(raw: seq<byte>)
    requires IsRequestFrame(raw)
    ensures IsFirst(raw) ==> FrameIndex(raw) == 0
  {
  }

  /** One more call: the bitmap's rule. */
  lemma SinceFirstStep(calls: seq<Call>)
    requires calls != []
    ensures var before, raw := SinceFirst(calls[..|calls| - 1]), calls[|calls| - 1].raw;
            SinceFirst(calls) == if IsRequestFrame(raw) then Acknowledged(before, raw) else before
  {
    var n := |calls| - 1;
    var raw := calls[n].raw;
    hide FrameIndex, IsRequestFrame, IsFirst;
    forall i: nat | i < n
      ensures NoFirstAfter(calls, i) <==> NoFirstAfter(calls[..n], i) && !(IsRequestFrame(raw) && IsFirst(raw))
    {
      NoFirstOneMore(calls, i);
    }
    assert NoFirstAfter(calls, n);
    var before, now := SinceFirst(calls[..n]), SinceFirst(calls);
    forall x | x in now
      ensures (x in before && !(IsRequestFrame(raw) && IsFirst(raw))) || (IsRequestFrame(raw) && x == FrameIndex(raw))
    {
      var i: nat :| i < |calls| && IsRequestFrame(calls[i].raw) && NoFirstAfter(calls, i) && x == FrameIndex(calls[i].raw);
      if i < n {
        assert calls[..n][i] == calls[i];
      }
    }
    forall x | x in before && !(IsRequestFrame(raw) && IsFirst(raw))
      ensures x in now
    {
      var i: nat :| i < n && IsRequestFrame(calls[..n][i].raw) && NoFirstAfter(calls[..n], i)
                    && x == FrameIndex(calls[..n][i].raw);
      assert calls[i] == calls[..n][i];
    }
    if IsRequestFrame(raw) {
      assert FrameIndex(raw) in now;
      FirstIndex(raw);
    }
  }

  lemma NothingSinceFirst()
    ensures SinceFirst([]) == {}
  {
  }

  /** The bitmap is at all times the set of frames received since the latest first frame. */
  lemma {:induction false} BitmapIsReceived(calls: seq<Call>)
    ensures HandleAll(Fresh(), calls).0.ackBits == SinceFirst(calls)
  {
    hide R.Arrive, R.Messages, SinceFirst, Acknowledged;
    if calls == [] {
      NothingSinceFirst();
    } else {
      SinceFirstStep(calls);
      BitmapIsReceived(calls[..|calls| - 1]);
    }
  }

  /** The whole of what one call can send, in its order, and the response that is pending after it. */
  predicate WellOrdered(before: seq<Call>, call: Call, s: Service, t: Service, e: Effect) {
    if IsRequestFrame(call.raw) then
      && e.sent != [] && e.sent[0] == Ack(SinceFirst(before + [call]))
      && if e.dispatched == [] then e.sent[1..] == [] && t.last == s.last && t.retransmits == s.retransmits
         else e.sent[1..] == PushFrom(call.answer, 0) && t.last == call.answer && t.retransmits == 0
    else
      && e.dispatched == [] && t.collector == s.collector && t.ackBits == s.ackBits
      && if |call.raw| >= 11 && call.raw[0] / 32 == 3 then
           e.sent == [] || (s.last != [] && e.sent == PushMissing(s.last, call.raw[4], 0))
         else e.sent == [] && t == s
  }

  /**
   Each request frame is acknowledged before anything else, with exactly the set received since the
   latest first frame; if it completes a request, the response follows whole and in order, and is the
   one to retransmit; nothing else is sent but the unacknowledged frames of the last response.
   */
  lemma AckPrecedesResponse(before: seq<Call>, call: Call)
    ensures var (s, e) := HandleAll(Fresh(), before);
            var (t, f) := Handle(s, call.raw, call.answer);
            && HandleAll(Fresh(), before + [call]) == (t, Effect(e.sent + f.sent, e.dispatched + f.dispatched))
            && WellOrdered(before, call, s, t, f)
  {
    hide R.Arrive, R.Messages, PushFrom, PushMissing, SinceFirst, Acknowledged, ParseRequest;
    BitmapIsReceived(before);
    assert (before + [call])[..|before|] == before;
    SinceFirstStep(before + [call]);
  }

  // ---- flow control over a lossy channel ----

  /** The client's flow-control frame for the frames it holds. */
  function AckByte(held: set<nat>): byte {
    assert Pow2(8) == 256 by { Pow2Of8(); }
    MaskOf(held, 0, 8)
  }

  function MaskByte(bits: set<nat>, j: nat): byte {
    assert Pow2(8) == 256 by { Pow2Of8(); }
    MaskOf(bits, 8 * j, 8)
  }

  /** `BuildControlFrame`, serialized: the bitmap stands in bytes 4 to 11. */
  function ControlFrame(bits: set<nat>): (raw: seq<byte>)
    ensures |raw| == 20
  {
    [0x70, 0, 8, 0] + seq(8, j requires 0 <= j < 8 => MaskByte(bits, j)) + Zeros(8)
  }

  /** Bit i of byte j of the bitmap in a control frame says whether frame 8 j + i is there. */
  lemma ControlReadsBack(bits: set<nat>, j: nat, i: nat)
    requires j < 8 && i < 8
    ensures ReadFrame(ControlFrame(bits)) == Control(ControlFrame(bits)[4..12])
    ensures Bit(ControlFrame(bits)[4..12][j], i) <==> 8 * j + i in bits
  {
    hide MaskOf;
    MaskBit(bits, 8 * j, 8, i);
  }

  lemma ControlBytes(bits: set<nat>)
    ensures ControlFrame(bits)[0] == 0x70 && ControlFrame(bits)[4] == AckByte(bits)
  {
    hide MaskOf;
  }

  /** For up to 8 frames the device sees "all acknowledged" exactly when the client holds them all. */
  lemma AllAckedMeansHeld(n: nat, held: set<nat>)
    requires 0 < n <= 8 && held <= R.Range(n)
    ensures AckByte(held) == Pow2(n) - 1 <==> held == R.Range(n)
  {
    Pow2Of8();
    AllOnes(n, AckByte(held), 8);
    forall i: nat | i < 8
      ensures Bit(AckByte(held), i) <==> i in held
    {
      MaskBit(held, 0, 8, i);
    }
    if FirstSet(AckByte(held), 8, n) {
      forall i: nat | i in R.Range(n)
        ensures i in held
      {
        assert Bit(AckByte(held), i) <==> i < n;
      }
    }
  }

  /** With more than 8 frames one byte can never acknowledge them all. */
  lemma {:induction false} NeverAllAcked(n: nat, ack: byte)
    requires n > 8
    ensures ack < Pow2(n) - 1
  {
    Pow2Of8();
    if n > 9 {
      NeverAllAcked(n - 1, ack);
    }
  }

  lemma AckBit(held: set<nat>, i: nat)
    requires i < 8
    ensures Bit(AckByte(held), i) <==> i in held
  {
    MaskBit(held, 0, 8, i);
  }

  /** The indices of the frames in a trace. */
  function Indices(sent: seq<Sent>): set<nat> {
    if sent == [] then {}
    else (if sent[0].Frame? then {sent[0].index} else {}) + Indices(sent[1..])
  }

  /** Frames of this response, unchanged and on their channels. */
  predicate Genuine(frames: seq<seq<byte>>, sent: seq<Sent>) {
    forall k :: 0 <= k < |sent| ==> sent[k].Frame? && sent[k].index < |frames| && sent[k] == Push(frames, sent[k].index)
  }

  lemma PushIndex(frames: seq<seq<byte>>, i: nat)
    requires i < |frames|
    ensures Push(frames, i).Frame? && Push(frames, i).index == i
  {
  }

  /** A round resends exactly the frames the client does not hold. */
  lemma {:induction false} ResendsMissing(frames: seq<seq<byte>>, held: set<nat>, from: nat)
    requires from <= |frames| <= 8
    ensures var sent := PushMissing(frames, AckByte(held), from);
            && (forall i: nat :: i in Indices(sent) <==> from <= i < |frames| && i !in held)
            && Genuine(frames, sent)
    decreases |frames| - from
  {
    hide AckByte, Bit, Push;
    if from < |frames| {
      AckBit(held, from);
      ResendsMissing(frames, held, from + 1);
      var rest := PushMissing(frames, AckByte(held), from + 1);
      PushIndex(frames, from);
      assert [] + rest == rest;
      if from !in held {
        assert ([Push(frames, from)] + rest)[1..] == rest;
        assert Indices([Push(frames, from)] + rest) == {from} + Indices(rest);
      }
    }
  }

  /**
   The service and a client that reports all it holds, once per round; of the frames resent in
   round k the channel lets through those in `deliveries[k]`.  Gives the service and what is held.
   */
  function Exchange(s: Service, held: set<nat>, deliveries: seq<set<nat>>): (Service, set<nat>)
    decreases |deliveries|
  {
    var (t, e) := OnControl(s, AckByte(held));
    if t.last == [] || deliveries == [] then (t, held)
    else Exchange(t, held + deliveries[0] * Indices(e.sent), deliveries[1..])
  }

  /** One report: the response is closed, given up, or its missing frames are sent once more. */
  lemma ControlRound(s: Service, held: set<nat>)
    requires 0 < |s.last| <= 8 && held <= R.Range(|s.last|) && s.retransmits <= MAX_ROUNDS
    ensures var (t, e) := OnControl(s, AckByte(held));
            var n := |s.last|;
            if held == R.Range(n) || s.retransmits == MAX_ROUNDS then
              t == s.(last := [], retransmits := 0) && e.sent == []
            else t == s.(retransmits := s.retransmits + 1) && Indices(e.sent) == R.Range(n) - held
                 && Genuine(s.last, e.sent)
  {
    var n := |s.last|;
    AllAckedMeansHeld(n, held);
    hide AckByte, Pow2, Genuine;
    ResendsMissing(s.last, held, 0);
    var sent := PushMissing(s.last, AckByte(held), 0);
    hide PushMissing;
    assert Indices(sent) == R.Range(n) - held;
  }

  /** Every round delivers at least one frame that was still missing. */
  predicate Progress(n: nat, held: set<nat>, deliveries: seq<set<nat>>)
    decreases |deliveries|
  {
    deliveries == []
    || (held != R.Range(n) ==>
          && deliveries[0] * (R.Range(n) - held) != {}
          && Progress(n, held + deliveries[0] * (R.Range(n) - held), deliveries[1..]))
  }

  lemma LosesOne(all: set<nat>, held: set<nat>, delivered: set<nat>)
    requires held <= all && delivered * (all - held) != {}
    ensures var now := held + delivered * (all - held);
            now <= all && |all - now| < |all - held|
  {
    var got := delivered * (all - held);
    assert all - (held + got) == (all - held) - got;
    assert |(all - held) - got| == |all - held| - |got|;
  }

  /**
   With at most as many frames missing as rounds are left, and one getting through per round, the
   service sees the response complete before it gives up.
   */
  lemma {:induction false} CompletesInTime(s: Service, held: set<nat>, deliveries: seq<set<nat>>)
    requires 0 < |s.last| <= 8 && held <= R.Range(|s.last|) && s.retransmits <= MAX_ROUNDS
    requires |R.Range(|s.last|) - held| <= MAX_ROUNDS - s.retransmits
    requires |deliveries| >= |R.Range(|s.last|) - held| && Progress(|s.last|, held, deliveries)
    ensures Exchange(s, held, deliveries) == (s.(last := [], retransmits := 0), R.Range(|s.last|))
    decreases |deliveries|
  {
    ControlRound(s, held);
    hide AckByte, Pow2, R.Range, OnControl;
    var all := R.Range(|s.last|);
    if held == all {
      assert all - held == {};
    } else {
      assert all - held != {};
      LosesOne(all, held, deliveries[0]);
      CompletesInTime(OnControl(s, AckByte(held)).0, held + deliveries[0] * (all - held), deliveries[1..]);
    }
  }

  lemma LosesAtMostOne(all: set<nat>, held: set<nat>, delivered: set<nat>)
    requires held <= all && |delivered| <= 1
    ensures var now := held + delivered * (all - held);
            now <= all && |all - now| >= |all - held| - 1
  {
    var got := delivered * (all - held);
    R.SubsetSize(got, delivered);
    assert all - (held + got) == (all - held) - got;
    assert |(all - held) - got| == |all - held| - |got|;
  }

  /** One frame per round and more frames missing than rounds are left: the device gives up. */
  lemma {:induction false} GivesUp(s: Service, held: set<nat>, deliveries: seq<set<nat>>)
    requires 0 < |s.last| <= 8 && held <= R.Range(|s.last|) && s.retransmits <= MAX_ROUNDS
    requires |R.Range(|s.last|) - held| > MAX_ROUNDS - s.retransmits
    requires |deliveries| >= MAX_ROUNDS - s.retransmits
    requires forall k :: 0 <= k < |deliveries| ==> |deliveries[k]| <= 1
    ensures var (t, now) := Exchange(s, held, deliveries);
            t == s.(last := [], retransmits := 0) && now != R.Range(|s.last|)
    decreases |deliveries|
  {
    ControlRound(s, held);
    hide AckByte, Pow2, R.Range, OnControl, Indices, Genuine;
    var all := R.Range(|s.last|);
    if s.retransmits < MAX_ROUNDS {
      LosesAtMostOne(all, held, deliveries[0]);
      GivesUp(OnControl(s, AckByte(held)).0, held + deliveries[0] * (all - held), deliveries[1..]);
    }
  }

  // ---- flow-control frames among the calls ----

  /** A flow-control frame, long enough to be looked at. */
  predicate IsControl(raw: seq<byte>) {
    |raw| >= 11 && raw[0] / 32 == 3
  }

  /** A control frame of the client reaches the service with the bitmap's first byte. */
  lemma ClientControls(s: Service, bits: set<nat>, answer: seq<seq<byte>>)
    ensures IsControl(ControlFrame(bits))
    ensures Handle(s, ControlFrame(bits), answer) == OnControl(s, AckByte(bits))
  {
    ControlBytes(bits);
    hide OnControl, AckByte, ControlFrame;
  }

  lemma OneCallKeepsCount(s: Service, call: Call)
    requires s.retransmits <= MAX_ROUNDS
    ensures Handle(s, call.raw, call.answer).0.retransmits <= MAX_ROUNDS
  {
    hide R.Arrive, R.Messages, PushFrom, PushMissing, ParseRequest, Pow2;
  }

  lemma {:induction false} CountBounded(calls: seq<Call>)
    ensures HandleAll(Fresh(), calls).0.retransmits <= MAX_ROUNDS
  {
    hide Handle;
    if calls != [] {
      CountBounded(calls[..|calls| - 1]);
      OneCallKeepsCount(HandleAll(Fresh(), calls[..|calls| - 1]).0, calls[|calls| - 1]);
    }
  }

  lemma ControlIs(s: Service, call: Call)
    requires IsControl(call.raw)
    ensures Handle(s, call.raw, call.answer) == OnControl(s, call.raw[4])
    ensures OnControl(s, call.raw[4]).1.dispatched == []
  {
    hide PushMissing, Pow2;
  }

  /**
   After any calls, while a response of up to 8 frames is pending: a flow-control frame that reports
   these frames held closes the response if they are all, gives it up after three rounds, and
   otherwise resends exactly the others, unchanged; nothing is dispatched.
   */
  lemma ControlFrameActs(calls: seq<Call>, call: Call, held: set<nat>)
    requires var s := HandleAll(Fresh(), calls).0; 0 < |s.last| <= 8 && held <= R.Range(|s.last|)
    requires IsControl(call.raw) && call.raw[4] == AckByte(held)
    ensures var (s, before) := HandleAll(Fresh(), calls);
            var (t, all) := HandleAll(Fresh(), calls + [call]);
            var (u, e) := Handle(s, call.raw, call.answer);
            var n := |s.last|;
            && u == t && all == Effect(before.sent + e.sent, before.dispatched) && e.dispatched == []
            && if held == R.Range(n) || s.retransmits == MAX_ROUNDS then
                 t == s.(last := [], retransmits := 0) && e.sent == []
               else
                 && t == s.(retransmits := s.retransmits + 1) && Indices(e.sent) == R.Range(n) - held
                 && Genuine(s.last, e.sent)
  {
    var (s, before) := HandleAll(Fresh(), calls);
    CountBounded(calls);
    assert (calls + [call])[..|calls|] == calls;
    ControlIs(s, call);
    hide OnControl, AckByte, Handle, R.Range, Genuine;
    ControlRound(s, held);
    assert before.dispatched + [] == before.dispatched;
  }

  /** How many of a run of calls trigger a retransmission. */
  function Rounds(s: Service, calls: seq<Call>): nat {
    if calls == [] then 0
    else
      var n := |calls| - 1;
      var t := HandleAll(s, calls[..n]).0;
      Rounds(s, calls[..n])
      + if IsControl(calls[n].raw) && Handle(t, calls[n].raw, calls[n].answer).1.sent != [] then 1 else 0
  }

  /** A pending response, and the rounds made for it so far; or it is closed for good. */
  predicate Pending(s: Service, t: Service, rounds: nat) {
    if s.last == [] then t.last == [] && rounds == 0
    else
      || (t.last == [] && rounds <= MAX_ROUNDS - s.retransmits)
      || (t.last == s.last && s.retransmits + rounds <= t.retransmits <= MAX_ROUNDS)
  }

  lemma OneCallPends(s: Service, t: Service, rounds: nat, call: Call)
    requires s.retransmits <= MAX_ROUNDS && Pending(s, t, rounds)
    requires Handle(t, call.raw, call.answer).1.dispatched == []
    ensures var (u, e) := Handle(t, call.raw, call.answer);
            Pending(s, u, rounds + if IsControl(call.raw) && e.sent != [] then 1 else 0)
  {
    hide R.Arrive, R.Messages, PushFrom, PushMissing, ParseRequest, Pow2;
  }

  lemma NotYet(s: Service)
    requires s.retransmits <= MAX_ROUNDS
    ensures Pending(s, s, 0)
  {
  }

  lemma {:induction false} StillPending(s: Service, calls: seq<Call>)
    requires s.retransmits <= MAX_ROUNDS && HandleAll(s, calls).1.dispatched == []
    ensures Pending(s, HandleAll(s, calls).0, Rounds(s, calls))
  {
    hide Handle, Pending;
    if calls == [] {
      NotYet(s);
    } else {
      var n := |calls| - 1;
      StillPending(s, calls[..n]);
      OneCallPends(s, HandleAll(s, calls[..n]).0, Rounds(s, calls[..n]), calls[n]);
    }
  }

  /** Whatever calls come, one response is retransmitted at most three times. */
  lemma AtMostThreeRounds(s: Service, calls: seq<Call>)
    requires s.retransmits <= MAX_ROUNDS && HandleAll(s, calls).1.dispatched == []
    ensures Rounds(s, calls) <= if s.last == [] then 0 else MAX_ROUNDS - s.retransmits
  {
    hide HandleAll, Rounds;
    StillPending(s, calls);
  }

  // ---- a request, frame by frame ----

  /** The frames of a request in the legacy format. */
  function RequestBuffer(segments: byte, node: byte, ctx: byte, procedure: byte, args: seq<byte>): seq<byte>
    requires |args| < 256
  {
    Serialize(Create(REQUEST_ID, segments, RequestBody(node, ctx, procedure, args)))
  }

  /** The service treats a legacy frame of a message as the collector's arrival of that frame. */
  lemma LegacyArrival(content: nat, buffer: seq<byte>, i: nat)
    requires 0 < content && IsLegacy(content) && i < Count(content)
    ensures Count(content) < 256
    ensures var raw := FrameAt(content, buffer, i);
            IsRequestFrame(raw) && Some(ArrivalOf(raw)) == T.ToArrival(ReadFrame(raw))
  {
    hide Chunk, Count;
    CountFits(content);
    HeadersReadBack(content, buffer, i);
  }

  function ParseAll(messages: seq<seq<byte>>): seq<Request> {
    if messages == [] then []
    else (match ParseRequest(messages[0]) case Some(r) => [r] case None => []) + ParseAll(messages[1..])
  }

  predicate AreRequests(calls: seq<Call>) {
    forall k :: 0 <= k < |calls| ==> IsRequestFrame(calls[k].raw)
  }

  function ArrivalsOf(calls: seq<Call>): seq<R.Arrival>
    requires AreRequests(calls)
  {
    seq(|calls|, k requires 0 <= k < |calls| => ArrivalOf(calls[k].raw))
  }

  lemma HandleDispatches(s: Service, call: Call)
    requires IsRequestFrame(call.raw) && |R.Messages(R.Arrive(s.collector, ArrivalOf(call.raw)).1)| <= 1
    ensures var (t, e) := Handle(s, call.raw, call.answer);
            var (c, outs) := R.Arrive(s.collector, ArrivalOf(call.raw));
            t.collector == c && e.dispatched == ParseAll(R.Messages(outs))
  {
    hide R.Arrive, ArrivalOf, R.Messages, ParseRequest;
  }

  lemma ParseAllSmall(a: seq<seq<byte>>, b: seq<seq<byte>>)
    requires |a + b| <= 1
    ensures ParseAll(a + b) == ParseAll(a) + ParseAll(b)
  {
    hide ParseRequest;
    if a == [] {
      assert a + b == b;
    } else {
      assert a + b == a && b == [];
    }
  }

  /** What a run of request frames dispatches is what the collector completed, parsed. */
  lemma {:induction false} DispatchesMessages(s: Service, calls: seq<Call>)
    requires AreRequests(calls) && |R.Messages(R.ArriveAll(s.collector, ArrivalsOf(calls)).1)| <= 1
    ensures var (t, e) := HandleAll(s, calls);
            var (c, outs) := R.ArriveAll(s.collector, ArrivalsOf(calls));
            t.collector == c && e.dispatched == ParseAll(R.Messages(outs))
    decreases |calls|
  {
    hide R.Arrive, ArrivalOf, ParseRequest;
    if calls == [] {
      R.NothingArrives(s.collector);
    } else {
      var n := |calls| - 1;
      var a := ArrivalOf(calls[n].raw);
      assert ArrivalsOf(calls) == ArrivalsOf(calls[..n]) + [a];
      R.ArriveAllConcat(s.collector, ArrivalsOf(calls[..n]), [a]);
      var (c, outs) := R.ArriveAll(s.collector, ArrivalsOf(calls[..n]));
      R.OneArrives(c, a);
      hide R.ArriveAll;
      var more := R.Arrive(c, a).1;
      R.MessagesConcat(outs, more);
      DispatchesMessages(s, calls[..n]);
      HandleDispatches(HandleAll(s, calls[..n]).0, calls[n]);
      ParseAllSmall(R.Messages(outs), R.Messages(more));
    }
  }

  /** The calls for these frames of a message, with whatever answers the dispatcher gives. */
  predicate CallsMatch(calls: seq<Call>, content: nat, buffer: seq<byte>, order: seq<nat>) {
    && 0 < content && IsLegacy(content) && Count(content) < 256 && |calls| == |order|
    && forall k :: 0 <= k < |calls| ==>
         order[k] < Count(content) && calls[k].raw == FrameAt(content, buffer, order[k])
  }

  lemma {:induction false} CallsArrive(calls: seq<Call>, content: nat, buffer: seq<byte>, order: seq<nat>)
    requires CallsMatch(calls, content, buffer, order)
    ensures AreRequests(calls)
    ensures var a := ArrivalsOf(calls);
            var p := Payloads(buffer, PayloadSize(content), Count(content));
            R.AllBelong(a, p) && R.Firsts(a) == T.Zeroes(order) && R.Arrived(a) == T.Seen(order)
    decreases |calls|
  {
    hide Count, FrameAt, Chunk, ReadFrame, ArrivalOf, IsRequestFrame;
    forall k | 0 <= k < |calls|
      ensures IsRequestFrame(calls[k].raw)
    {
      LegacyArrival(content, buffer, order[k]);
    }
    if calls != [] {
      HeadersReadBack(content, buffer, order[0]);
      LegacyArrival(content, buffer, order[0]);
      assert CallsMatch(calls[1..], content, buffer, order[1..]);
      CallsArrive(calls[1..], content, buffer, order[1..]);
      assert ArrivalsOf(calls)[1..] == ArrivalsOf(calls[1..]);
      var p := Payloads(buffer, PayloadSize(content), Count(content));
      assert R.Belongs(ArrivalsOf(calls)[0], p);
      assert forall k :: 0 < k < |calls| ==> ArrivalsOf(calls)[k] == ArrivalsOf(calls[1..])[k - 1];
    }
  }

  lemma RequestLength(segments: byte, body: seq<byte>)
    requires |body| < 0x10000
    ensures |Serialize(Create(REQUEST_ID, segments, body))| >= HEADER + |body|
  {
    hide CheckBytes;
  }

  lemma RequestBytes(segments: byte, node: byte, ctx: byte, procedure: byte, args: seq<byte>)
    requires |args| <= 66
    ensures var content := HEADER + 4 + |args|;
            var buffer := RequestBuffer(segments, node, ctx, procedure, args);
            var data := Flatten(Payloads(buffer, PayloadSize(content), Count(content)));
            ParseAll([data]) == [Request(ctx, procedure, args)]
  {
    hide Chunk, Create, Serialize, Padded, Count, ParseRequest;
    var content := HEADER + 4 + |args|;
    var buffer := RequestBuffer(segments, node, ctx, procedure, args);
    var body := RequestBody(node, ctx, procedure, args);
    var data := Flatten(Payloads(buffer, PayloadSize(content), Count(content)));
    CountFits(content);
    RequestLength(segments, body);
    ChunksConcat(buffer, PayloadSize(content), Count(content));
    PaddedShorter(buffer, content, Count(content) * PayloadSize(content));
    PaddedPrefix(buffer, content);
    RequestReadBack(segments, node, ctx, procedure, args, data);
    assert ParseAll([data]) == (match ParseRequest(data) case Some(r) => [r] case None => []) + ParseAll([]);
  }

  /**
   A request of up to 66 argument bytes in the legacy format, its frames in any order with every
   continuation frame repeated at will, reaches the dispatcher exactly once, and as it was sent.
   */
  lemma RequestDelivered(s: Service, segments: byte, node: byte, ctx: byte, procedure: byte, args: seq<byte>,
                         order: seq<nat>, calls: seq<Call>)
    requires R.Clean(s.collector) && |args| <= 66
    requires var content := HEADER + 4 + |args|;
             && CallsMatch(calls, content, RequestBuffer(segments, node, ctx, procedure, args), order)
             && T.Zeroes(order) == 1 && T.Seen(order) == R.Range(Count(content))
    ensures HandleAll(s, calls).1.dispatched == [Request(ctx, procedure, args)]
  {
    hide FrameAt, Chunk, Count, Padded, RequestBuffer, R.ArriveAll, R.Messages, R.Clean, R.AllBelong, R.Firsts,
         R.Arrived, R.Range, T.Seen, T.Zeroes, Flatten, HandleAll, ArrivalsOf, CallsMatch, Create, Serialize;
    var content := HEADER + 4 + |args|;
    var buffer := RequestBuffer(segments, node, ctx, procedure, args);
    var p := Payloads(buffer, PayloadSize(content), Count(content));
    CountFits(content);
    CallsArrive(calls, content, buffer, order);
    R.AnyOrderCompletesOnce(s.collector, p, ArrivalsOf(calls));
    DispatchesMessages(s, calls);
    RequestBytes(segments, node, ctx, procedure, args);
  }

  // ---- the pushing loops, one frame at a time ----

  lemma MissingStep(frames: seq<seq<byte>>, ack: byte, i: nat)
    requires i < |frames|
    ensures PushMissing(frames, ack, i)
         == (if Bit(ack, i) then [] else [Push(frames, i)]) + PushMissing(frames, ack, i + 1)
  {
  }

  lemma NothingLeft(frames: seq<seq<byte>>, ack: byte)
    ensures PushMissing(frames, ack, |frames|) == []
  {
  }

  lemma PushStep(frames: seq<seq<byte>>, i: nat)
    requires i < |frames|
    ensures PushFrom(frames, i) == [Push(frames, i)] + PushFrom(frames, i + 1)
  {
  }

  lemma NothingToPush(frames: seq<seq<byte>>)
    ensures PushFrom(frames, |frames|) == []
  {
  }

  // ---- the object ----

  class MeraService {
    var lastFrames: seq<seq<byte>>
    var retransmitCount: nat
    var requestAckBitmap: set<nat>
    const frameCollector: R.FrameCollector

    ghost function Model(): Service
      reads this, frameCollector
    {
      Service(lastFrames, retransmitCount, requestAckBitmap, frameCollector.Model())
    }

    constructor ()
      ensures Model() == Fresh() && fresh(frameCollector)
    {
      lastFrames, retransmitCount, requestAckBitmap := [], 0, {};
      frameCollector := new R.FrameCollector();
    }

    /** One write of the client, from taking the lock to releasing it. */
    method HandleRequest(raw: seq<byte>, answer: seq<seq<byte>>) returns (sent: seq<Sent>, dispatched: seq<Request>)
      modifies this, frameCollector
      ensures (Model(), Effect(sent, dispatched)) == Handle(old(Model()), raw, answer)
    {
      hide R.Arrive, R.Messages, ParseRequest, PushFrom, PushMissing, R.FrameCollector.Model, OnOutcomes;
      sent, dispatched := [], [];
      if |raw| < 11 {
        return;
      }
      var kind := raw[0] / 32;
      if kind == 3 {
        sent := HandleControl(raw[4]);
        return;
      }
      if kind != 0 {
        return;
      }
      requestAckBitmap := if raw[0] % 2 == 1 then {0} else requestAckBitmap + {raw[0] / 2 % 4};
      sent := [Ack(requestAckBitmap)];
      var outs := frameCollector.Receive(ArrivalOf(raw));
      var response;
      response, dispatched := OnCollected(outs, answer);
      sent := sent + response;
    }

    method HandleControl(ack: byte) returns (sent: seq<Sent>)
      modifies this`lastFrames, this`retransmitCount
      ensures (Model(), Effect(sent, [])) == OnControl(old(Model()), ack)
    {
      hide PushMissing, R.FrameCollector.Model;
      sent := [];
      var n := |lastFrames|;
      if n == 0 {
        return;
      }
      if ack == Pow2(n) - 1 {
        lastFrames, retransmitCount := [], 0;
        return;
      }
      retransmitCount := retransmitCount + 1;
      if retransmitCount > MAX_ROUNDS {
        lastFrames, retransmitCount := [], 0;
        return;
      }
      for i := 0 to n
        modifies {}
        invariant sent + PushMissing(lastFrames, ack, i) == PushMissing(lastFrames, ack, 0)
      {
        MissingStep(lastFrames, ack, i);
        ghost var rest := PushMissing(lastFrames, ack, i + 1);
        if !Bit(ack, i) {
          assert sent + ([Push(lastFrames, i)] + rest) == sent + [Push(lastFrames, i)] + rest;
          sent := sent + [Push(lastFrames, i)];
        }
      }
      NothingLeft(lastFrames, ack);
      assert sent + [] == sent;
    }

    method OnCollected(outs: seq<R.Outcome>, answer: seq<seq<byte>>)
      returns (sent: seq<Sent>, dispatched: seq<Request>)
      modifies this`lastFrames, this`retransmitCount
      ensures (Model(), Effect(sent, dispatched)) == OnOutcomes(old(Model()), outs, answer)
    {
      hide R.Messages, ParseRequest, PushFrom, R.FrameCollector.Model;
      sent, dispatched := [], [];
      var messages := R.Messages(outs);
      if messages == [] {
        return;
      }
      var request := ParseRequest(messages[0]);
      if request == None {
        return;
      }
      dispatched := [request.value];
      lastFrames, retransmitCount := answer, 0;
      for i := 0 to |answer|
        modifies {}
        invariant sent + PushFrom(answer, i) == PushFrom(answer, 0)
      {
        PushStep(answer, i);
        assert sent + ([Push(answer, i)] + PushFrom(answer, i + 1)) == sent + [Push(answer, i)] + PushFrom(answer, i + 1);
        sent := sent + [Push(answer, i)];
      }
      NothingToPush(answer);
      assert sent + [] == sent;
    }
  }

  // ---- the probe's request ----

  const GET_SYSTEM_PARAMETERS: byte := 0x0D

  /** The 13 argument bytes of the probe's request: a count and room for twelve parameters. */
  function ProbeArgs(params: seq<byte>): (a: seq<byte>)
    ensures |a| == 13
  {
    var n := if |params| < 12 then |params| else 12;
    [n] + params[..n] + Zeros(12 - n)
  }

  function ProbeMessage(params: seq<byte>): seq<byte> {
    Serialize(Create(REQUEST_ID, 0xFF, RequestBody(1, 1, GET_SYSTEM_PARAMETERS, ProbeArgs(params))))
  }

  method BuildProbeFrame(params: seq<byte>) returns (frame: seq<byte>)
    ensures frame == [0x11] + ProbeMessage(params)[..19]
  {
    hide CheckBytes;
    var argCount := if |params| < 12 then |params| else 12;
    var payload := new byte[13](_ => 0);
    payload[0] := argCount;
    for i := 0 to argCount
      invariant payload[0] == argCount
      invariant forall k :: 0 <= k < i ==> payload[k + 1] == params[k]
      invariant forall k :: i < k < 13 ==> payload[k] == 0
    {
      payload[i + 1] := params[i];
    }
    assert payload[..] == ProbeArgs(params);
    var body := [1, 1, GET_SYSTEM_PARAMETERS, payload.Length] + payload[..];
    var message := Serialize(Create(REQUEST_ID, 0xFF, body));
    frame := [0x11] + message[..19];
  }

  /** What the device reads from a probe frame: only nine of the thirteen argument bytes fit. */
  lemma ProbeReadBack(params: seq<byte>)
    ensures |ProbeMessage(params)| >= 19
    ensures ParseRequest(ProbeMessage(params)[..19])
         == Some(Request(1, GET_SYSTEM_PARAMETERS, ProbeArgs(params)[..9]))
  {
    hide CheckBytes;
    var body := RequestBody(1, 1, GET_SYSTEM_PARAMETERS, ProbeArgs(params));
    var data := ProbeMessage(params)[..19];
    assert forall i :: 6 <= i < 19 ==> data[i] == body[i - 6];
    assert data[10..19] == ProbeArgs(params)[..9];
  }

  /** The parameters an argument list announces, as far as it holds them. */
  function Announced(args: seq<byte>): seq<byte>
    requires args != []
  {
    args[1..if 1 + args[0] < |args| then 1 + args[0] else |args|]
  }

  /** The device sees the probe's parameters, and a matching count, exactly for up to eight of them. */
  lemma ProbeRoundTrip(params: seq<byte>)
    ensures var args := ProbeArgs(params)[..9];
            Announced(args) == params && args[0] == |params| <==> |params| <= 8
  {
    var args := ProbeArgs(params)[..9];
    if |params| <= 8 {
      assert args[1..1 + |params|] == params;
    } else {
      assert |Announced(args)| == 8;
    }
  }
}
