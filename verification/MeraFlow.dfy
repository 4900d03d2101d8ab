/**
 The flow control of one response as a closed loop: the device of `MeraRequests`, the collector of
 `Reassembly`, and between them two channels that keep the order.  The downlink loses frames at will;
 the collector's reports decide what the device resends.
 */
module MeraFlow {
  import opened Bytes
  import opened CrcMessages
  import opened MeraFrames
  import M = MeraRequests
  import R = Reassembly
  import T = MeraTransport

  // ---- state and steps ----

  /** A frame on its way to the client, as first pushed or resent. */
  datatype Copy = Copy(frame: M.Sent, again: bool)

  /**
   The device, the frames on their way to the client, the client's collector and the reports on their
   way to the device.  The rest is history: the messages handed on, all reports, the positions of the lost
   ones among them, how many frames of the first transmission have left the downlink, the indices
   received and lost when first pushed and when resent, and those received after the message was
   complete.
   */
  datatype Loop = Loop(
    service: M.Service,
    down: seq<Copy>,
    collector: R.Collector,
    up: seq<set<nat>>,
    delivered: seq<seq<byte>>,
    reports: seq<set<nat>>,
    missed: set<nat>,
    gone: nat,
    got: set<nat>,
    lost: set<nat>,
    gotAgain: set<nat>,
    lostAgain: set<nat>,
    late: set<nat>)

  datatype Label = Deliver | Lose | Handle | LoseReport

  function Copies(sent: seq<M.Sent>, again: bool): (c: seq<Copy>)
    ensures |c| == |sent|
  {
    seq(|sent|, i requires 0 <= i < |sent| => Copy(sent[i], again))
  }

  /** The bitmaps among the outcomes. */
  function Bitmaps(outs: seq<R.Outcome>): seq<set<nat>> {
    if outs == [] then []
    else (if outs[0].Report? || outs[0].Complete? then [outs[0].bits] else []) + Bitmaps(outs[1..])
  }

  /** The frame service's reading of a pushed frame; anything else it does not pass on. */
  function Read(frame: M.Sent): Option<R.Arrival> {
    if frame.Frame? then T.ToArrival(ReadFrame(frame.bytes)) else None
  }

  predicate Enabled(x: Loop, l: Label) {
    if l.Handle? || l.LoseReport? then x.up != [] else x.down != [] && x.down[0].frame.Frame?
  }

  /** The next frame reaches the client. */
  function Delivered(x: Loop): Loop
    requires Enabled(x, Deliver)
  {
    var copy := x.down[0];
    var i := copy.frame.index;
    var (c, outs) := match Read(copy.frame) case Some(a) => R.Arrive(x.collector, a) case None => (x.collector, []);
    x.(down := x.down[1..],
       collector := c,
       up := x.up + Bitmaps(outs),
       delivered := x.delivered + R.Messages(outs),
       reports := x.reports + Bitmaps(outs),
       gone := if copy.again then x.gone else x.gone + 1,
       got := if copy.again then x.got else x.got + {i},
       gotAgain := if copy.again then x.gotAgain + {i} else x.gotAgain,
       late := if x.delivered != [] then x.late + {i} else x.late)
  }

  /** The next frame is lost. */
  function Dropped(x: Loop): Loop
    requires Enabled(x, Lose)
  {
    var copy := x.down[0];
    var i := copy.frame.index;
    x.(down := x.down[1..],
       gone := if copy.again then x.gone else x.gone + 1,
       lost := if copy.again then x.lost else x.lost + {i},
       lostAgain := if copy.again then x.lostAgain + {i} else x.lostAgain)
  }

  /** The device handles the next report, the control frame the client builds from it. */
  function Handled(x: Loop): Loop
    requires Enabled(x, Handle)
  {
    var (s, e) := M.Handle(x.service, M.ControlFrame(x.up[0]), []);
    x.(service := s, up := x.up[1..], down := x.down + Copies(e.sent, true))
  }

  /** The position of the next report among all reports. */
  function Numbered(x: Loop): nat {
    if |x.up| <= |x.reports| then |x.reports| - |x.up| else 0
  }

  /** The next report is lost. */
  function Missed(x: Loop): Loop
    requires Enabled(x, LoseReport)
  {
    x.(up := x.up[1..], missed := x.missed + {Numbered(x)})
  }

  function Step(x: Loop, l: Label): Loop
    requires Enabled(x, l)
  {
    match l
    case Deliver => Delivered(x)
    case Lose => Dropped(x)
    case Handle => Handled(x)
    case LoseReport => Missed(x)
  }

  /** A response has just been pushed and the collector is clean. */
  predicate Begins(x: Loop, frames: seq<seq<byte>>) {
    && x.service.last == frames && x.service.retransmits == 0
    && x.down == Copies(M.PushFrom(frames, 0), false) && R.Clean(x.collector)
    && x.up == [] && x.delivered == [] && x.reports == [] && x.missed == {} && x.gone == 0
    && x.got == x.lost == x.gotAgain == x.lostAgain == x.late == {}
  }

  predicate Reaches(x: Loop, labels: seq<Label>, y: Loop)
    decreases |labels|
  {
    if labels == [] then y == x
    else Enabled(x, labels[0]) && Reaches(Step(x, labels[0]), labels[1..], y)
  }

  // ---- the frames of a message ----

  function Incoming(p: seq<seq<byte>>, i: nat): R.Arrival
    requires i < |p|
  {
    if i == 0 then R.First(|p|, p[0]) else R.Cons(i, p[i])
  }

  /** These frames carry these payloads. */
  ghost predicate Carries(frames: seq<seq<byte>>, p: seq<seq<byte>>) {
    && |frames| == |p| && 0 < |p| <= R.MAX_INDEX
    && forall i: nat :: i < |p| ==> Read(M.Push(frames, i)) == Some(Incoming(p, i))
  }

  function Part(p: seq<seq<byte>>, held: set<nat>): map<nat, seq<byte>>
    requires held <= R.Range(|p|)
  {
    map i | i in held :: p[i]
  }

  // ---- what the collector holds ----

  /** Before its first frame, while it runs, and after it is complete. */
  predicate Holds(c: R.Collector, p: seq<seq<byte>>, started: bool, held: set<nat>, late: set<nat>) {
    && held <= R.Range(|p|) && late <= R.Range(|p|) && 0 !in late
    && (started <==> 0 in held)
    && if !started then R.Idle(c, Part(p, held)) && late == {}
       else if held == R.Range(|p|) then R.Idle(c, Part(p, late))
       else R.Running(c, |p|, Part(p, held)) && late == {}
  }

  function Outcome(p: seq<seq<byte>>, started: bool, held: set<nat>, i: nat): R.Outcome {
    var now := held + {i};
    if (i > 0 && !started) || (started && held == R.Range(|p|)) then R.Quiet
    else if now == R.Range(|p|) then R.Complete(now, Flatten(p))
    else if |now| % 4 == 0 then R.Report(now)
    else R.Quiet
  }

  lemma PartStep(p: seq<seq<byte>>, held: set<nat>, i: nat)
    requires held <= R.Range(|p|) && i < |p|
    ensures Part(p, held).Keys == held
    ensures held + {i} <= R.Range(|p|) && Part(p, held)[i := p[i]] == Part(p, held + {i})
    ensures Part(p, held + {i}).Keys == held + {i}
  {
  }

  lemma WholePart(p: seq<seq<byte>>)
    ensures R.InOrder(|p|, Part(p, R.Range(|p|))) == p
  {
  }

  lemma NoPart(p: seq<seq<byte>>)
    ensures Part(p, {}) == map[]
  {
  }

  lemma NothingBuffered(c: R.Collector)
    requires R.Buffered(c.temp) == map[]
    ensures c.temp == []
  {
    R.BufferedKeys(c.temp);
  }

  lemma FirstOne(c: R.Collector, p: seq<seq<byte>>)
    requires R.Idle(c, Part(p, {})) && 0 < |p| <= R.MAX_INDEX
    ensures var (d, outs) := R.Arrive(c, R.First(|p|, p[0]));
            && outs == [Outcome(p, false, {}, 0)]
            && Holds(d, p, true, {0}, {})
  {
    R.InRange(0, |p|);
    hide Flatten, R.InOrder, R.Range;
    NoPart(p);
    PartStep(p, {}, 0);
    WholePart(p);
    var s := R.Collector(map[], {}, |p|, true, []);
    R.AddRuns(s, |p|, map[], 0, p[0]);
    NothingBuffered(c);
    R.CleanIsIdle(R.Add(s, 0, p[0]).0);
    assert R.Start(c, |p|) == (s, []);
    assert [] + [R.Add(s, 0, p[0]).1] == [R.Add(s, 0, p[0]).1];
    assert {} + {0} == {0};
  }

  lemma ArriveStep(c: R.Collector, p: seq<seq<byte>>, started: bool, held: set<nat>, late: set<nat>, i: nat)
    requires Holds(c, p, started, held, late) && i < |p| <= R.MAX_INDEX && (i == 0 ==> held == {})
    ensures var (d, outs) := R.Arrive(c, Incoming(p, i));
            && outs == [Outcome(p, started, held, i)]
            && Holds(d, p, started || i == 0, held + {i},
                     if started && held == R.Range(|p|) then late + {i} else late)
  {
    hide Flatten, R.InOrder, R.Range, R.Running, R.Idle, Part;
    R.InRange(0, |p|);
    PartStep(p, held, i);
    PartStep(p, late, i);
    WholePart(p);
    if i == 0 {
      FirstOne(c, p);
    } else if !started || held == R.Range(|p|) {
      R.BufferOne(c, if started then Part(p, late) else Part(p, held), i, p[i]);
    } else {
      R.AddRuns(c, |p|, Part(p, held), i, p[i]);
      R.CleanIsIdle(R.Add(c, i, p[i]).0);
      NoPart(p);
    }
  }

  // ---- what every run keeps ----

  predicate Under(c: Copy, frames: seq<seq<byte>>) {
    c.frame.Frame? && c.frame.index < |frames| && c.frame == M.Push(frames, c.frame.index)
  }

  /** From frame `k` on the first transmission is still under way, in order, and behind it resent frames. */
  predicate Queue(down: seq<Copy>, frames: seq<seq<byte>>, k: nat) {
    var n := |frames|;
    && k <= n <= k + |down|
    && (forall i :: 0 <= i < |down| ==> Under(down[i], frames))
    && (forall i :: 0 <= i < n - k ==> !down[i].again && down[i].frame.index == k + i)
    && (forall i :: n - k <= i < |down| ==> down[i].again && down[i].frame.index > 0)
  }

  /** Of the first `k` frames each was received or lost, and resent ones come after all of them. */
  predicate Counted(n: nat, k: nat, got: set<nat>, lost: set<nat>, gotAgain: set<nat>, lostAgain: set<nat>) {
    && got + lost == R.Range(k) && got !! lost
    && (k < n ==> gotAgain == lostAgain == {})
    && gotAgain <= R.Range(n) && lostAgain <= R.Range(n) && 0 !in gotAgain && 0 !in lostAgain
  }

  predicate Channel(x: Loop, frames: seq<seq<byte>>) {
    && Queue(x.down, frames, x.gone)
    && Counted(|frames|, x.gone, x.got, x.lost, x.gotAgain, x.lostAgain)
  }

  /** Every index is held: the message is complete. */
  predicate Whole(x: Loop, n: nat) {
    0 in x.got && x.got + x.gotAgain == R.Range(n)
  }

  ghost predicate Receiver(x: Loop, p: seq<seq<byte>>) {
    && Holds(x.collector, p, 0 in x.got, x.got + x.gotAgain, x.late)
    && x.delivered == (if Whole(x, |p|) then [Flatten(p)] else [])
  }

  predicate Untouched(x: Loop, frames: seq<seq<byte>>) {
    x.service.last == frames && x.service.retransmits == 0 && forall i :: 0 <= i < |x.down| ==> !x.down[i].again
  }

  ghost predicate Sender(x: Loop, frames: seq<seq<byte>>) {
    && (x.service.last == [] || x.service.last == frames) && x.service.retransmits <= M.MAX_ROUNDS
    && |x.up| <= |x.reports| && x.up == x.reports[|x.reports| - |x.up|..]
    && (forall j :: 0 <= j < |x.reports| ==> 0 in x.reports[j] && x.reports[j] <= R.Range(|frames|))
    && (0 !in x.got ==> x.reports == [] && x.gotAgain == x.lostAgain == {} && Untouched(x, frames))
  }

  ghost predicate Safe(x: Loop, frames: seq<seq<byte>>, p: seq<seq<byte>>) {
    Carries(frames, p) && Channel(x, frames) && Receiver(x, p) && Sender(x, frames)
  }

  lemma {:induction false} PushFromShape(frames: seq<seq<byte>>, from: nat)
    requires from <= |frames|
    ensures var s := M.PushFrom(frames, from);
            |s| == |frames| - from && forall i :: 0 <= i < |s| ==> s[i] == M.Push(frames, from + i)
    decreases |frames| - from
  {
    hide M.Push;
    if from < |frames| {
      PushFromShape(frames, from + 1);
      var s, rest := M.PushFrom(frames, from), M.PushFrom(frames, from + 1);
      assert s == [M.Push(frames, from)] + rest;
      forall i | 0 < i < |s|
        ensures s[i] == M.Push(frames, from + i)
      {
        assert s[i] == rest[i - 1] == M.Push(frames, (from + 1) + (i - 1));
      }
    }
  }

  predicate Ascending(sent: seq<M.Sent>) {
    forall i, j :: 0 <= i < j < |sent| && sent[i].Frame? && sent[j].Frame? ==> sent[i].index < sent[j].index
  }

  predicate MissingFrom(sent: seq<M.Sent>, frames: seq<seq<byte>>, ack: byte, from: nat) {
    && M.Genuine(frames, sent) && Ascending(sent)
    && forall i :: 0 <= i < |sent| ==> from <= sent[i].index && !M.Bit(ack, sent[i].index)
  }

  lemma OneMoreMissing(rest: seq<M.Sent>, frames: seq<seq<byte>>, ack: byte, from: nat)
    requires from < |frames| && MissingFrom(rest, frames, ack, from + 1)
    ensures MissingFrom(rest, frames, ack, from)
    ensures !M.Bit(ack, from) ==> MissingFrom([M.Push(frames, from)] + rest, frames, ack, from)
  {
    M.PushIndex(frames, from);
    hide M.Push, M.Bit;
    var s := [M.Push(frames, from)] + rest;
    assert forall i :: 0 < i < |s| ==> s[i] == rest[i - 1];
  }

  lemma {:induction false} PushMissingShape(frames: seq<seq<byte>>, ack: byte, from: nat)
    requires from <= |frames|
    ensures MissingFrom(M.PushMissing(frames, ack, from), frames, ack, from)
    decreases |frames| - from
  {
    if from < |frames| {
      PushMissingShape(frames, ack, from + 1);
      hide MissingFrom, M.Push, M.Bit;
      OneMoreMissing(M.PushMissing(frames, ack, from + 1), frames, ack, from);
      assert [] + M.PushMissing(frames, ack, from + 1) == M.PushMissing(frames, ack, from + 1);
    }
  }

  lemma AppendQueue(down: seq<Copy>, frames: seq<seq<byte>>, k: nat, sent: seq<M.Sent>)
    requires Queue(down, frames, k) && (sent == [] || M.Genuine(frames, sent))
    requires forall i :: 0 <= i < |sent| ==> sent[i].index > 0
    ensures Queue(down + Copies(sent, true), frames, k)
  {
    hide M.Push;
  }

  lemma UnderFrame(c: Copy, frames: seq<seq<byte>>)
    requires Under(c, frames)
    ensures c.frame.Frame? && c.frame.index < |frames|
  {
  }

  lemma PopQueue(down: seq<Copy>, frames: seq<seq<byte>>, k: nat)
    requires Queue(down, frames, k) && down != []
    ensures Under(down[0], frames)
    ensures if down[0].again then k == |frames| && down[0].frame.index > 0 && Queue(down[1..], frames, k)
            else k < |frames| && down[0].frame.index == k && Queue(down[1..], frames, k + 1)
  {
    hide M.Push, Under;
    assert Under(down[0], frames);
    UnderFrame(down[0], frames);
    if down[0].again {
      assert k == |frames|;
    } else {
      assert k < |frames|;
    }
    assert forall i :: 0 <= i < |down[1..]| ==> down[1..][i] == down[i + 1];
  }

  lemma NextRange(k: nat)
    ensures R.Range(k + 1) == R.Range(k) + {k} && k !in R.Range(k)
  {
    R.InRange(k, k);
  }

  lemma CountOne(n: nat, k: nat, got: set<nat>, lost: set<nat>, gotAgain: set<nat>, lostAgain: set<nat>)
    requires Counted(n, k, got, lost, gotAgain, lostAgain)
    ensures k !in got + lost
    ensures k < n ==> gotAgain == lostAgain == {} && Counted(n, k + 1, got + {k}, lost, {}, {})
                      && Counted(n, k + 1, got, lost + {k}, {}, {})
  {
    NextRange(k);
    hide R.Range;
    assert k !in got + lost;
    assert got + {k} + lost == R.Range(k) + {k} && got + (lost + {k}) == R.Range(k) + {k};
  }

  lemma CountAgain(n: nat, got: set<nat>, lost: set<nat>, gotAgain: set<nat>, lostAgain: set<nat>, i: nat)
    requires Counted(n, n, got, lost, gotAgain, lostAgain) && 0 < i < n
    ensures Counted(n, n, got, lost, gotAgain + {i}, lostAgain) && Counted(n, n, got, lost, gotAgain, lostAgain + {i})
  {
    R.InRange(i, n);
    hide R.Range;
  }

  /** The head of the downlink is gone and recorded as received or lost. */
  predicate Popped(x: Loop, y: Loop, arrives: bool)
    requires x.down != [] && x.down[0].frame.Frame?
  {
    var i := x.down[0].frame.index;
    && y.down == x.down[1..] && y.gone == (if x.down[0].again then x.gone else x.gone + 1)
    && if x.down[0].again then
         && y.got == x.got && y.lost == x.lost
         && y.gotAgain == (if arrives then x.gotAgain + {i} else x.gotAgain)
         && y.lostAgain == (if arrives then x.lostAgain else x.lostAgain + {i})
       else
         && y.gotAgain == x.gotAgain && y.lostAgain == x.lostAgain
         && y.got == (if arrives then x.got + {i} else x.got)
         && y.lost == (if arrives then x.lost else x.lost + {i})
  }

  lemma StepPops(x: Loop, l: Label)
    requires (l.Deliver? || l.Lose?) && Enabled(x, l)
    ensures Popped(x, Step(x, l), l.Deliver?)
  {
    hide R.Arrive, R.Messages, Bitmaps, Read;
  }

  lemma PopFirst(x: Loop, frames: seq<seq<byte>>, y: Loop, arrives: bool)
    requires Channel(x, frames) && x.down != [] && !x.down[0].again && Under(x.down[0], frames)
    requires Popped(x, y, arrives)
    ensures Channel(y, frames)
    ensures var k := x.gone;
            k < |frames| && x.down[0].frame.index == k && k !in x.got + x.lost && x.gotAgain == x.lostAgain == {}
  {
    hide Queue, Under, Counted;
    PopQueue(x.down, frames, x.gone);
    CountOne(|frames|, x.gone, x.got, x.lost, x.gotAgain, x.lostAgain);
  }

  lemma PopAgain(x: Loop, frames: seq<seq<byte>>, y: Loop, arrives: bool)
    requires Channel(x, frames) && x.down != [] && x.down[0].again && Under(x.down[0], frames)
    requires Popped(x, y, arrives)
    ensures Channel(y, frames)
    ensures x.down[0].frame.index > 0 && x.gone == |frames|
  {
    UnderFrame(x.down[0], frames);
    hide Queue, Under, Counted;
    PopQueue(x.down, frames, x.gone);
    CountAgain(|frames|, x.got, x.lost, x.gotAgain, x.lostAgain, x.down[0].frame.index);
  }

  lemma PopChannel(x: Loop, frames: seq<seq<byte>>, l: Label)
    requires Channel(x, frames) && (l.Deliver? || l.Lose?) && Enabled(x, l)
    ensures Under(x.down[0], frames)
    ensures Channel(Step(x, l), frames)
  {
    PopQueue(x.down, frames, x.gone);
    hide Channel, Popped, Step, Queue, Under;
    StepPops(x, l);
    if x.down[0].again {
      PopAgain(x, frames, Step(x, l), l.Deliver?);
    } else {
      PopFirst(x, frames, Step(x, l), l.Deliver?);
    }
  }

  /** What a report that names frame 0 makes the device resend. */
  lemma Resent(s: M.Service, bits: set<nat>)
    requires 0 in bits
    ensures var sent := M.OnControl(s, M.AckByte(bits)).1.sent;
            && (s.last == [] ==> sent == []) && M.Genuine(s.last, sent) && Ascending(sent)
            && forall i :: 0 <= i < |sent| ==> sent[i].index > 0
  {
    var ack := M.AckByte(bits);
    M.AckBit(bits, 0);
    PushMissingShape(s.last, ack, 0);
    hide M.AckByte, M.Bit, M.Push, M.PushMissing;
    var sent := M.OnControl(s, ack).1.sent;
    forall i | 0 <= i < |sent|
      ensures sent[i].index > 0
    {
      assert !M.Bit(ack, sent[i].index);
    }
  }

  lemma NextReport(x: Loop, frames: seq<seq<byte>>)
    requires Sender(x, frames) && x.up != []
    ensures 0 in x.up[0] && x.up[0] <= R.Range(|frames|) && 0 in x.got
    ensures x.service.last == [] || x.service.last == frames
  {
    assert x.up[0] == x.reports[|x.reports| - |x.up|];
  }

  lemma HandledFields(x: Loop)
    requires Enabled(x, Handle)
    ensures var y := Handled(x);
            && y.down == x.down + Copies(M.OnControl(x.service, M.AckByte(x.up[0])).1.sent, true)
            && y.gone == x.gone && y.got == x.got && y.lost == x.lost
            && y.gotAgain == x.gotAgain && y.lostAgain == x.lostAgain
  {
    M.ClientControls(x.service, x.up[0], []);
    hide M.OnControl, M.AckByte, M.Handle, M.ControlFrame, Copies;
  }

  lemma ControlChannel(x: Loop, frames: seq<seq<byte>>)
    requires Channel(x, frames) && Sender(x, frames) && x.up != [] && frames != []
    ensures Channel(Handled(x), frames)
  {
    NextReport(x, frames);
    hide R.Range, M.AckByte, Queue, M.Push, Counted, M.OnControl, Sender, M.Genuine, Ascending, Copies, Handled;
    Resent(x.service, x.up[0]);
    HandledFields(x);
    AppendQueue(x.down, frames, x.gone, M.OnControl(x.service, M.AckByte(x.up[0])).1.sent);
  }

  lemma BitmapsOne(o: R.Outcome)
    ensures Bitmaps([o]) == if o.Report? || o.Complete? then [o.bits] else []
  {
    assert Bitmaps([o]) == (if o.Report? || o.Complete? then [o.bits] else []) + Bitmaps([]);
  }

  function Held(x: Loop): set<nat> {
    x.got + x.gotAgain
  }

  /** What the collector says to the next frame. */
  function Answer(x: Loop, p: seq<seq<byte>>): R.Outcome
    requires Enabled(x, Deliver)
  {
    Outcome(p, 0 in x.got, Held(x), x.down[0].frame.index)
  }

  function BitsOf(o: R.Outcome): seq<set<nat>> {
    if o.Report? || o.Complete? then [o.bits] else []
  }

  lemma FirstIsFirst(x: Loop, frames: seq<seq<byte>>)
    requires Channel(x, frames) && Enabled(x, Deliver)
    ensures x.down[0].frame.index == 0 ==> Held(x) == {} && !x.down[0].again
    ensures x.down[0].frame.index < |frames| && x.down[0].frame == M.Push(frames, x.down[0].frame.index)
  {
    PopQueue(x.down, frames, x.gone);
  }

  lemma OutcomeOf(p: seq<seq<byte>>, started: bool, held: set<nat>, i: nat)
    requires started <==> 0 in held
    ensures var o := Outcome(p, started, held, i);
            && (o.Complete? <==> (started || i == 0) && held + {i} == R.Range(|p|) && !(started && held == R.Range(|p|)))
            && (o.Complete? ==> o.data == Flatten(p) && o.bits == R.Range(|p|))
            && (o.Report? ==> o.bits == held + {i} && (started || i == 0))
  {
    hide R.Range;
  }

  lemma DeliveredFields(x: Loop, a: R.Arrival, d: R.Collector, o: R.Outcome)
    requires Enabled(x, Deliver) && Read(x.down[0].frame) == Some(a) && R.Arrive(x.collector, a) == (d, [o])
    ensures var y, i := Delivered(x), x.down[0].frame.index;
            && y.collector == d && y.service == x.service && y.missed == x.missed
            && y.reports == x.reports + BitsOf(o) && y.up == x.up + BitsOf(o)
            && y.delivered == x.delivered + (if o.Complete? then [o.data] else [])
            && Held(y) == Held(x) + {i} && (0 in y.got <==> 0 in x.got || (i == 0 && !x.down[0].again))
            && y.late == if x.delivered != [] then x.late + {i} else x.late
  {
    hide R.Arrive, Read;
    BitmapsOne(o);
    R.MessagesOne(o);
  }

  lemma HoldsStarted(c: R.Collector, p: seq<seq<byte>>, started: bool, held: set<nat>, late: set<nat>)
    requires Holds(c, p, started, held, late)
    ensures (started <==> 0 in held) && held <= R.Range(|p|)
  {
  }

  lemma DeliveredIs(x: Loop, frames: seq<seq<byte>>, p: seq<seq<byte>>)
    requires Carries(frames, p) && Channel(x, frames) && Receiver(x, p) && Enabled(x, Deliver)
    ensures var y, o := Delivered(x), Answer(x, p);
            && Receiver(y, p) && y.service == x.service && y.missed == x.missed
            && y.reports == x.reports + BitsOf(o) && y.up == x.up + BitsOf(o)
            && (BitsOf(o) != [] ==> 0 in y.got && 0 in o.bits && o.bits <= R.Range(|p|))
  {
    var i := x.down[0].frame.index;
    FirstIsFirst(x, frames);
    hide Holds, R.Range, Flatten, Outcome, Channel, M.Push, R.Arrive, Read, Delivered;
    ArriveStep(x.collector, p, 0 in x.got, Held(x), x.late, i);
    var o := Answer(x, p);
    var d := R.Arrive(x.collector, Incoming(p, i)).0;
    DeliveredFields(x, Incoming(p, i), d, o);
    HoldsStarted(x.collector, p, 0 in x.got, Held(x), x.late);
    HoldsStarted(d, p, 0 in x.got || i == 0, Held(x) + {i},
                 if 0 in x.got && Held(x) == R.Range(|p|) then x.late + {i} else x.late);
    OutcomeOf(p, 0 in x.got, Held(x), i);
  }

  lemma UpGrows(reports: seq<set<nat>>, up: seq<set<nat>>, more: seq<set<nat>>)
    requires |up| <= |reports| && up == reports[|reports| - |up|..]
    ensures up + more == (reports + more)[|reports + more| - |up + more|..]
  {
  }

  lemma SenderGrows(x: Loop, frames: seq<seq<byte>>, y: Loop, bits: seq<set<nat>>)
    requires Sender(x, frames) && y.service == x.service && y.reports == x.reports + bits && y.up == x.up + bits
    requires forall j :: 0 <= j < |bits| ==> 0 in bits[j] && bits[j] <= R.Range(|frames|)
    requires 0 !in y.got ==> bits == [] && 0 !in x.got && y.gotAgain == y.lostAgain == {} && Untouched(y, frames)
    ensures Sender(y, frames)
  {
    hide R.Range, Untouched;
    UpGrows(x.reports, x.up, bits);
  }

  lemma StillUntouched(x: Loop, frames: seq<seq<byte>>, y: Loop)
    requires Sender(x, frames) && Enabled(x, Deliver) && Popped(x, y, true) && y.service == x.service && 0 !in y.got
    ensures 0 !in x.got && y.gotAgain == y.lostAgain == {} && Untouched(y, frames)
  {
    assert forall i :: 0 <= i < |y.down| ==> y.down[i] == x.down[i + 1];
  }

  lemma SameLength(frames: seq<seq<byte>>, p: seq<seq<byte>>)
    requires Carries(frames, p)
    ensures 0 < |frames| == |p| <= R.MAX_INDEX
  {
  }

  lemma DeliverSender(x: Loop, frames: seq<seq<byte>>, y: Loop, bits: seq<set<nat>>)
    requires Sender(x, frames) && Enabled(x, Deliver) && Popped(x, y, true)
    requires y.service == x.service && y.reports == x.reports + bits && y.up == x.up + bits
    requires bits != [] ==> |bits| == 1 && 0 in y.got && 0 in bits[0] && bits[0] <= R.Range(|frames|)
    ensures Sender(y, frames)
  {
    hide R.Range, Untouched;
    if 0 !in y.got {
      StillUntouched(x, frames, y);
    }
    hide Sender, Popped, Enabled;
    SenderGrows(x, frames, y, bits);
  }

  lemma LoseSafe(x: Loop, frames: seq<seq<byte>>, p: seq<seq<byte>>)
    requires Safe(x, frames, p) && Enabled(x, Lose)
    ensures Receiver(Dropped(x), p) && Sender(Dropped(x), frames)
  {
    hide Holds, Flatten, Carries, R.Range;
  }

  lemma HandleSafe(x: Loop, frames: seq<seq<byte>>, p: seq<seq<byte>>)
    requires Safe(x, frames, p) && Enabled(x, Handle)
    ensures Receiver(Handled(x), p) && Sender(Handled(x), frames)
  {
    M.ClientControls(x.service, x.up[0], []);
    hide Holds, Flatten, Carries, R.Range, M.AckByte, M.PushMissing, M.Handle, M.ControlFrame, Copies, Channel, Pow2;
    NextReport(x, frames);
  }

  lemma MissSafe(x: Loop, frames: seq<seq<byte>>, p: seq<seq<byte>>)
    requires Safe(x, frames, p) && Enabled(x, LoseReport)
    ensures Safe(Missed(x), frames, p)
  {
    hide Holds, Flatten, Carries, R.Range, Queue, Counted;
  }

  /** Every step keeps the loop safe. */
  lemma StepKeeps(x: Loop, l: Label, frames: seq<seq<byte>>, p: seq<seq<byte>>)
    requires Safe(x, frames, p) && Enabled(x, l)
    ensures Safe(Step(x, l), frames, p)
  {
    SameLength(frames, p);
    match l {
      case Deliver =>
        PopChannel(x, frames, l);
        DeliveredIs(x, frames, p);
        StepPops(x, l);
        hide Channel, Receiver, Sender, Carries, Delivered, Popped, Outcome;
        DeliverSender(x, frames, Delivered(x), BitsOf(Answer(x, p)));
      case Lose =>
        PopChannel(x, frames, l);
        LoseSafe(x, frames, p);
      case Handle =>
        ControlChannel(x, frames);
        HandleSafe(x, frames, p);
      case LoseReport =>
        MissSafe(x, frames, p);
    }
  }

  lemma BeginsChannel(x: Loop, frames: seq<seq<byte>>)
    requires Begins(x, frames)
    ensures Channel(x, frames) && Sender(x, frames)
  {
    PushFromShape(frames, 0);
    R.RangeMembers(0);
    hide M.Push, R.Range, M.PushFrom, Read;
    assert Counted(|frames|, 0, {}, {}, {}, {});
  }

  lemma BeginsReceiver(x: Loop, frames: seq<seq<byte>>, p: seq<seq<byte>>)
    requires Begins(x, frames) && p != []
    ensures Receiver(x, p)
  {
    R.CleanIsIdle(x.collector);
    NoPart(p);
    R.InRange(0, |p|);
    hide R.Range, Flatten, M.PushFrom, Copies;
    assert Held(x) == {};
  }

  lemma BeginsSafe(x: Loop, frames: seq<seq<byte>>, p: seq<seq<byte>>)
    requires Carries(frames, p) && Begins(x, frames)
    ensures Safe(x, frames, p)
  {
    SameLength(frames, p);
    BeginsChannel(x, frames);
    BeginsReceiver(x, frames, p);
  }

  lemma {:induction false} RunKeeps(x: Loop, labels: seq<Label>, y: Loop, frames: seq<seq<byte>>, p: seq<seq<byte>>)
    requires Safe(x, frames, p) && Reaches(x, labels, y)
    ensures Safe(y, frames, p)
    decreases |labels|
  {
    hide Safe, Step, Enabled;
    if labels != [] {
      StepKeeps(x, labels[0], frames, p);
      RunKeeps(Step(x, labels[0]), labels[1..], y, frames, p);
    }
  }

  // ---- up to eight frames: every loss decides ----

  /** Four frames with frame 0 among them: the collector has reported before the message was complete. */
  predicate Early(x: Loop, n: nat) {
    n > 4 && 0 in x.got && |x.got| >= 4
  }

  predicate FirstFour(b: set<nat>, got: set<nat>) {
    b <= got && |b| == 4 && forall i, j :: i in b && j in got - b ==> i < j
  }

  /** The device has handled the early report. */
  predicate Resending(x: Loop, n: nat) {
    Early(x, n) && |x.up| < |x.reports| && 0 !in x.missed
  }

  /** The device has handled the report of the whole message. */
  predicate Closed(x: Loop, n: nat) {
    Whole(x, n) && x.up == [] && |x.reports| - 1 !in x.missed
  }

  /** Only reports that have left the uplink are lost. */
  predicate MissedGone(x: Loop) {
    forall m :: m in x.missed ==> m + |x.up| < |x.reports|
  }

  predicate Reported(x: Loop, n: nat) {
    && |x.reports| == (if Early(x, n) then 1 else 0) + (if Whole(x, n) then 1 else 0)
    && (Early(x, n) ==> FirstFour(x.reports[0], x.got))
    && (Whole(x, n) ==> x.reports[|x.reports| - 1] == R.Range(n))
  }

  predicate Closing(x: Loop, frames: seq<seq<byte>>) {
    if Closed(x, |frames|) then x.service.last == [] && x.service.retransmits == 0
    else x.service.last == frames && x.service.retransmits == if Resending(x, |frames|) then 1 else 0
  }

  function Resends(down: seq<Copy>): set<nat> {
    set i | 0 <= i < |down| && down[i].again && down[i].frame.Frame? :: down[i].frame.index
  }

  /** Each frame that the first report missed is resent once, in order. */
  predicate Resent1(x: Loop, n: nat) {
    && x.gotAgain !! x.lostAgain
    && (forall i, j :: 0 <= i < j < |x.down| && x.down[i].again && x.down[i].frame.Frame? && x.down[j].frame.Frame?
                       ==> x.down[i].frame.index < x.down[j].frame.index)
    && (forall i, j :: i in Resends(x.down) && j in x.gotAgain + x.lostAgain ==> j < i)
    && Resends(x.down) + x.gotAgain + x.lostAgain
       == if Resending(x, n) then R.Range(n) - x.reports[0] else {}
  }

  /** Late are the resent frames behind the last one that was missing. */
  predicate Lateness(x: Loop, n: nat) {
    Whole(x, n) ==> x.late == set i | i in x.gotAgain && forall j :: j in x.lost ==> j < i
  }

  predicate Exact(x: Loop, frames: seq<seq<byte>>) {
    && |frames| <= 8 && MissedGone(x) && Reported(x, |frames|) && Closing(x, frames)
    && Resent1(x, |frames|) && Lateness(x, |frames|)
  }

  lemma OneBigger(got: set<nat>, k: nat, n: nat)
    requires got <= R.Range(k) && k < n
    ensures var now := got + {k};
            now <= R.Range(n) && |now| == |got| + 1 <= n && (|now| == n <==> now == R.Range(n)) && got != R.Range(n)
  {
    R.InRange(k, k);
    R.InRange(k, n);
    R.RangeMembers(k);
    R.RangeMembers(n);
    hide R.Range;
    assert k !in got;
    R.AllSeen(got + {k}, n);
  }

  lemma OutcomeSized(p: seq<seq<byte>>, started: bool, held: set<nat>, i: nat, now: set<nat>, m: nat)
    requires now == held + {i} && m == |now| && 0 < m <= |p| <= 8 && (m == |p| <==> now == R.Range(|p|))
    requires held != R.Range(|p|) && (started || i == 0)
    ensures var o := Outcome(p, started, held, i);
            if now == R.Range(|p|) then o.Complete? && o.bits == now
            else if m == 4 then o == R.Report(now) else o == R.Quiet
  {
    hide R.Range, Flatten;
    assert m % 4 == 0 <==> m == 4 || m == 8;
  }

  lemma FirstAnswer(p: seq<seq<byte>>, got: set<nat>, k: nat)
    requires got <= R.Range(k) && k < |p| <= 8
    ensures var o, now := Outcome(p, 0 in got, got, k), got + {k};
            && (0 !in now ==> o == R.Quiet)
            && (0 in now ==> if now == R.Range(|p|) then o.Complete? && o.bits == now
                             else if |now| == 4 then o == R.Report(now) else o == R.Quiet)
  {
    OneBigger(got, k, |p|);
    var now := got + {k};
    var m := |now|;
    assert 0 in now <==> 0 in got || k == 0;
    if 0 in now {
      hide Outcome, R.Range;
      OutcomeSized(p, 0 in got, got, k, now, m);
    }
  }

  lemma FiveHeld(b: set<nat>, held: set<nat>, i: nat, n: nat)
    requires b <= held <= R.Range(n) && |b| == 4 && i !in b && i < n
    ensures var now := held + {i};
            now <= R.Range(n) && 5 <= |now| <= n && (|now| == n <==> now == R.Range(n))
  {
    R.InRange(i, n);
    hide R.Range;
    R.AllSeen(held + {i}, n);
    R.SubsetSize(b + {i}, held + {i});
  }

  /** Behind the first report only the last missing frame is answered. */
  lemma AgainAnswer(p: seq<seq<byte>>, b: set<nat>, held: set<nat>, i: nat)
    requires 0 in held && b <= held <= R.Range(|p|) && i < |p| <= 8 && |b| == 4 && i !in b
    ensures var o, now := Outcome(p, true, held, i), held + {i};
            && now <= R.Range(|p|)
            && if held != R.Range(|p|) && now == R.Range(|p|) then o.Complete? && o.bits == now else o == R.Quiet
  {
    FiveHeld(b, held, i, |p|);
    var now := held + {i};
    var m := |now|;
    if held == R.Range(|p|) {
      hide R.Range, Flatten;
      assert Outcome(p, true, held, i) == R.Quiet;
    } else {
      hide R.Range, Outcome;
      OutcomeSized(p, true, held, i, now, m);
    }
  }

  lemma FourExtends(b: set<nat>, got: set<nat>, k: nat)
    requires FirstFour(b, got) && got <= R.Range(k)
    ensures FirstFour(b, got + {k})
  {
    R.RangeMembers(k);
    hide R.Range;
    forall i, j | i in b && j in got + {k} - b
      ensures i < j
    {
      if j in got {
        assert j in got - b;
      } else {
        assert i in got;
      }
    }
  }

  lemma FourFirst(got: set<nat>)
    requires |got| == 4
    ensures FirstFour(got, got)
  {
  }

  /** The collector's answer is on its way; the device has not seen it. */
  predicate Answered(x: Loop, y: Loop, o: R.Outcome) {
    && y.service == x.service && y.missed == x.missed
    && y.reports == x.reports + BitsOf(o) && y.up == x.up + BitsOf(o)
  }

  lemma FirstEarly(x: Loop, n: nat, y: Loop)
    requires x.gone < n && x.got <= R.Range(x.gone) && y.got == x.got + {x.gone} && x.gotAgain == y.gotAgain == {}
    ensures !Whole(x, n) && (Whole(y, n) <==> 0 in y.got && y.got == R.Range(n))
    ensures Whole(y, n) ==> (Early(y, n) <==> Early(x, n))
    ensures !Whole(y, n) ==> (Early(y, n) <==> Early(x, n) || (0 in y.got && |y.got| == 4))
    ensures Early(x, n) ==> Early(y, n) && |y.got| != 4 && 0 in y.got
  {
    OneBigger(x.got, x.gone, n);
    assert x.got + {} == x.got && y.got + {} == y.got;
    R.InRange(0, x.gone);
    hide R.Range;
    var m := |x.got|;
    assert |y.got| == m + 1;
    if x.gone == 0 {
      assert x.got == {};
    }
  }

  lemma FirstReported(x: Loop, n: nat, y: Loop, o: R.Outcome)
    requires Reported(x, n) && |x.up| <= |x.reports| && Answered(x, y, o) && !Whole(x, n)
    requires Early(x, n) ==> Early(y, n) && FirstFour(x.reports[0], y.got)
    requires if Whole(y, n) then o.Complete? && o.bits == R.Range(n) && (Early(y, n) ==> Early(x, n))
             else if Early(y, n) && !Early(x, n) then o == R.Report(y.got) && FirstFour(y.got, y.got)
             else o == R.Quiet
    ensures Reported(y, n) && !Closed(x, n) && !Closed(y, n)
    ensures Resending(x, n) <==> Resending(y, n)
    ensures Resending(x, n) ==> y.reports[0] == x.reports[0]
  {
    hide R.Range, FirstFour, Whole, Early;
  }

  lemma FirstSays(x: Loop, p: seq<seq<byte>>, y: Loop, o: R.Outcome)
    requires x.gone < |p| <= 8 && x.got <= R.Range(x.gone) && x.gotAgain == y.gotAgain == {}
    requires y.got == x.got + {x.gone} && o == Outcome(p, 0 in x.got, x.got, x.gone)
    ensures !Whole(x, |p|) && (Early(x, |p|) ==> Early(y, |p|))
    ensures if Whole(y, |p|) then o.Complete? && o.bits == R.Range(|p|) && (Early(y, |p|) ==> Early(x, |p|))
            else if Early(y, |p|) && !Early(x, |p|) then o == R.Report(y.got) && FirstFour(y.got, y.got)
            else o == R.Quiet
  {
    FirstAnswer(p, x.got, x.gone);
    FirstEarly(x, |p|, y);
    hide R.Range, Outcome, Whole, FirstFour;
    if |y.got| == 4 {
      FourFirst(y.got);
    }
  }

  lemma AgainReported(x: Loop, n: nat, y: Loop, o: R.Outcome)
    requires Reported(x, n) && Early(x, n) && |x.up| <= |x.reports| && y.got == x.got && Answered(x, y, o)
    requires x.gotAgain <= y.gotAgain && Held(y) <= R.Range(n)
    requires if Held(x) != R.Range(n) && Held(y) == R.Range(n) then o.Complete? && o.bits == R.Range(n) else o == R.Quiet
    ensures Reported(y, n) && (Closed(x, n) <==> Closed(y, n))
    ensures Resending(x, n) <==> Resending(y, n)
    ensures y.reports[0] == x.reports[0]
  {
    hide R.Range, FirstFour;
    if Whole(x, n) {
      assert Held(x) <= Held(y);
    }
  }

  lemma PopResends(down: seq<Copy>)
    requires down != []
    ensures Resends(down)
         == Resends(down[1..]) + if down[0].again && down[0].frame.Frame? then {down[0].frame.index} else {}
  {
    var rest := down[1..];
    assert forall i :: 0 <= i < |rest| ==> rest[i] == down[i + 1];
    forall x | x in Resends(down)
      ensures x in Resends(rest) || (down[0].again && down[0].frame.Frame? && x == down[0].frame.index)
    {
      var i :| 0 <= i < |down| && down[i].again && down[i].frame.Frame? && x == down[i].frame.index;
      if i > 0 {
        assert rest[i - 1] == down[i];
      }
    }
  }

  lemma HeadFirst(down: seq<Copy>, n: nat)
    requires down != [] && down[0].again && down[0].frame.Frame?
    requires forall i, j :: 0 <= i < j < |down| && down[i].again && down[i].frame.Frame? && down[j].frame.Frame?
                            ==> down[i].frame.index < down[j].frame.index
    ensures down[0].frame.index in Resends(down)
    ensures forall i :: i in Resends(down[1..]) ==> down[0].frame.index < i
  {
    var rest := down[1..];
    assert forall i :: 0 <= i < |rest| ==> rest[i] == down[i + 1];
  }

  lemma PopResent1(x: Loop, n: nat, y: Loop, arrives: bool)
    requires Resent1(x, n) && x.down != [] && x.down[0].frame.Frame? && Popped(x, y, arrives)
    requires (Resending(x, n) <==> Resending(y, n)) && (Resending(x, n) ==> y.reports[0] == x.reports[0])
    ensures Resent1(y, n)
    ensures x.down[0].again ==>
      && Resending(x, n) && x.down[0].frame.index in R.Range(n) - x.reports[0]
      && forall j :: j in x.gotAgain + x.lostAgain ==> j < x.down[0].frame.index
  {
    hide Resending, R.Range;
    PopResends(x.down);
    assert forall i :: 0 <= i < |y.down| ==> y.down[i] == x.down[i + 1];
    var i := x.down[0].frame.index;
    if x.down[0].again {
      HeadFirst(x.down, n);
      hide Resends;
      assert i in Resends(x.down);
      assert i !in x.gotAgain + x.lostAgain;
      assert Resends(y.down) + y.gotAgain + y.lostAgain == Resends(x.down) + x.gotAgain + x.lostAgain;
      forall a, b | a in Resends(y.down) && b in y.gotAgain + y.lostAgain
        ensures b < a
      {
        assert a in Resends(x.down);
        if b != i {
          assert b in x.gotAgain + x.lostAgain;
        }
      }
    }
  }

  lemma AgainLate(x: Loop, n: nat, y: Loop)
    requires Lateness(x, n) && Enabled(x, Deliver) && x.down[0].again && Popped(x, y, true)
    requires forall j :: j in x.gotAgain ==> j < x.down[0].frame.index
    requires x.got + x.lost == R.Range(n) && x.got !! x.lost && x.down[0].frame.index in R.Range(n)
    requires y.late == (if Whole(x, n) then x.late + {x.down[0].frame.index} else x.late)
    requires Held(y) <= R.Range(n) && (!Whole(x, n) ==> x.late == {})
    ensures Lateness(y, n)
  {
    hide R.Range;
    var i := x.down[0].frame.index;
    if Whole(x, n) {
      assert x.lost <= x.gotAgain;
    } else if Whole(y, n) {
      assert i in x.lost;
    }
  }

  lemma NotLateYet(x: Loop, p: seq<seq<byte>>)
    requires Receiver(x, p) && !Whole(x, |p|)
    ensures x.late == {} && x.delivered == []
  {
    hide R.Range, Flatten;
  }

  lemma ClosingKept(x: Loop, frames: seq<seq<byte>>, y: Loop)
    requires Closing(x, frames) && y.service == x.service
    requires Closed(x, |frames|) <==> Closed(y, |frames|)
    requires Resending(x, |frames|) <==> Resending(y, |frames|)
    ensures Closing(y, frames)
  {
    hide Closed, Resending;
  }

  lemma LateFields(x: Loop)
    requires Enabled(x, Deliver)
    ensures Delivered(x).late == if x.delivered != [] then x.late + {x.down[0].frame.index} else x.late
  {
    hide R.Arrive, Read;
  }

  lemma CountedIn(n: nat, k: nat, got: set<nat>, lost: set<nat>, gotAgain: set<nat>, lostAgain: set<nat>)
    requires Counted(n, k, got, lost, gotAgain, lostAgain)
    ensures got <= R.Range(k)
  {
  }

  /** What both kinds of delivery start from. */
  lemma SafeParts(x: Loop, frames: seq<seq<byte>>, p: seq<seq<byte>>)
    requires Safe(x, frames, p)
    ensures |frames| == |p| && |x.up| <= |x.reports| && Held(x) <= R.Range(|p|)
    ensures if Whole(x, |p|) then x.delivered != [] else x.late == {} && x.delivered == []
    ensures Counted(|frames|, x.gone, x.got, x.lost, x.gotAgain, x.lostAgain)
  {
    SameLength(frames, p);
    HoldsStarted(x.collector, p, 0 in x.got, Held(x), x.late);
    hide Carries, Queue, Counted, R.Range, Flatten;
    if !Whole(x, |p|) {
      NotLateYet(x, p);
    }
  }

  lemma FirstFields(x: Loop, frames: seq<seq<byte>>, p: seq<seq<byte>>)
    requires Safe(x, frames, p) && Enabled(x, Deliver) && !x.down[0].again
    ensures var y := Delivered(x);
            && Popped(x, y, true) && Answered(x, y, Outcome(p, 0 in x.got, x.got, x.gone))
            && x.gone < |frames| == |p| && x.got <= R.Range(x.gone) && x.gotAgain == y.gotAgain == {}
            && y.got == x.got + {x.gone} && |x.up| <= |x.reports|
            && (!Whole(x, |p|) ==> y.late == {})
  {
    var y := Delivered(x);
    SafeParts(x, frames, p);
    hide Delivered, Carries, Outcome, R.Range, Queue, Receiver, Sender, Counted, Holds;
    DeliveredIs(x, frames, p);
    StepPops(x, Deliver);
    LateFields(x);
    PopQueue(x.down, frames, x.gone);
    PopFirst(x, frames, y, true);
    CountedIn(|frames|, x.gone, x.got, x.lost, x.gotAgain, x.lostAgain);
    hide Channel;
    assert Held(x) == x.got;
  }

  lemma NothingLate(y: Loop, n: nat)
    requires y.gotAgain == {} && y.late == {}
    ensures Lateness(y, n)
  {
  }

  lemma ExactFirst(x: Loop, frames: seq<seq<byte>>, p: seq<seq<byte>>, y: Loop)
    requires |frames| == |p| && Exact(x, frames) && x.down != [] && x.down[0].frame.Frame?
    requires Popped(x, y, true) && Answered(x, y, Outcome(p, 0 in x.got, x.got, x.gone))
    requires x.gone < |p| && x.got <= R.Range(x.gone) && x.gotAgain == y.gotAgain == {}
    requires y.got == x.got + {x.gone} && |x.up| <= |x.reports| && (!Whole(x, |p|) ==> y.late == {})
    ensures Exact(y, frames)
  {
    hide Outcome, R.Range, Whole, Early, FirstFour, Closing, Resent1, Resending, Lateness, Popped;
    FirstSays(x, p, y, Outcome(p, 0 in x.got, x.got, x.gone));
    if Early(x, |p|) {
      FourExtends(x.reports[0], x.got, x.gone);
    }
    FirstReported(x, |p|, y, Outcome(p, 0 in x.got, x.got, x.gone));
    hide Reported;
    NothingLate(y, |p|);
    PopResent1(x, |p|, y, true);
    ClosingKept(x, frames, y);
  }

  lemma AgainSets(x: Loop, frames: seq<seq<byte>>)
    requires Channel(x, frames) && Enabled(x, Deliver) && x.down[0].again
    ensures x.down[0].frame.index in R.Range(|frames|) && x.gone == |frames|
    ensures x.got + x.lost == R.Range(|frames|) && x.got !! x.lost
  {
    hide Queue;
    PopQueue(x.down, frames, x.gone);
    UnderFrame(x.down[0], frames);
    R.InRange(x.down[0].frame.index, |frames|);
    hide R.Range;
  }

  lemma AgainFields(x: Loop, frames: seq<seq<byte>>, p: seq<seq<byte>>)
    requires Safe(x, frames, p) && Enabled(x, Deliver) && x.down[0].again
    ensures var y, i := Delivered(x), x.down[0].frame.index;
            && Popped(x, y, true) && Answered(x, y, Outcome(p, 0 in x.got, Held(x), i))
            && |frames| == |p| && Held(y) == Held(x) + {i} && i in R.Range(|p|) && Held(x) <= R.Range(|p|)
            && x.got + x.lost == R.Range(|p|) && x.got !! x.lost && |x.up| <= |x.reports|
            && (!Whole(x, |p|) ==> x.late == {})
            && y.late == if Whole(x, |p|) then x.late + {i} else x.late
  {
    SafeParts(x, frames, p);
    hide Delivered, Carries, Outcome, R.Range, Channel, Receiver, Sender, Counted;
    DeliveredIs(x, frames, p);
    AgainSets(x, frames);
    StepPops(x, Deliver);
    LateFields(x);
  }

  lemma ResendHead(x: Loop, n: nat)
    requires Resent1(x, n) && Reported(x, n) && Enabled(x, Deliver) && x.down[0].again
    ensures var i := x.down[0].frame.index;
            && Resending(x, n) && Early(x, n) && i !in x.reports[0]
            && 0 in x.got && x.reports[0] <= Held(x) && |x.reports[0]| == 4
            && forall j :: j in x.gotAgain ==> j < i
  {
    hide R.Range;
    HeadFirst(x.down, n);
    hide Resends;
    var i := x.down[0].frame.index;
    assert i in Resends(x.down) + x.gotAgain + x.lostAgain;
    forall j | j in x.gotAgain
      ensures j < i
    {
      assert j in x.gotAgain + x.lostAgain;
    }
  }

  lemma ExactAgain(x: Loop, frames: seq<seq<byte>>, p: seq<seq<byte>>, y: Loop)
    requires |frames| == |p| && Exact(x, frames) && Enabled(x, Deliver) && x.down[0].again
    requires var i := x.down[0].frame.index;
             && Popped(x, y, true) && Answered(x, y, Outcome(p, 0 in x.got, Held(x), i))
             && Held(y) == Held(x) + {i} && i in R.Range(|p|) && Held(x) <= R.Range(|p|)
             && x.got + x.lost == R.Range(|p|) && x.got !! x.lost && |x.up| <= |x.reports|
             && (!Whole(x, |p|) ==> x.late == {})
             && y.late == if Whole(x, |p|) then x.late + {i} else x.late
    ensures Exact(y, frames)
  {
    var i := x.down[0].frame.index;
    R.InRange(i, |p|);
    hide Outcome, R.Range, Closing, Resent1, Lateness;
    ResendHead(x, |p|);
    AgainAnswer(p, x.reports[0], Held(x), i);
    assert Held(y) <= R.Range(|p|);
    AgainReported(x, |p|, y, Outcome(p, true, Held(x), i));
    PopResent1(x, |p|, y, true);
    AgainLate(x, |p|, y);
    hide Whole, Early, Reported, Resending, Popped;
    ClosingKept(x, frames, y);
  }

  lemma Unanswered(x: Loop, n: nat, y: Loop)
    requires y.reports == x.reports && y.up == x.up && y.missed == x.missed
    requires y.got == x.got && y.gotAgain == x.gotAgain
    ensures (Whole(x, n) <==> Whole(y, n)) && (Closed(x, n) <==> Closed(y, n)) && (Resending(x, n) <==> Resending(y, n))
    ensures Reported(x, n) ==> Reported(y, n)
  {
    hide FirstFour;
  }

  lemma DroppedFields(x: Loop)
    requires Enabled(x, Lose)
    ensures var y := Dropped(x);
            y.reports == x.reports && y.up == x.up && y.service == x.service && y.missed == x.missed
  {
  }

  lemma LoseFirst(x: Loop, frames: seq<seq<byte>>)
    requires Channel(x, frames) && Enabled(x, Lose) && !x.down[0].again
    ensures !Whole(x, |frames|) && x.gotAgain == x.lostAgain == {}
  {
    PopQueue(x.down, frames, x.gone);
    hide Queue;
    CountedIn(|frames|, x.gone, x.got, x.lost, x.gotAgain, x.lostAgain);
    OneBigger(x.got, x.gone, |frames|);
    hide R.Range;
    assert Held(x) == x.got;
  }

  lemma LoseLate(x: Loop, frames: seq<seq<byte>>)
    requires Channel(x, frames) && Lateness(x, |frames|) && Enabled(x, Lose)
    ensures Lateness(Dropped(x), |frames|)
  {
    if !x.down[0].again {
      LoseFirst(x, frames);
    }
    hide Channel;
  }

  lemma ExactLose(x: Loop, frames: seq<seq<byte>>)
    requires Channel(x, frames) && Exact(x, frames) && Enabled(x, Lose)
    ensures Exact(Dropped(x), frames)
  {
    var n, y := |frames|, Dropped(x);
    StepPops(x, Lose);
    DroppedFields(x);
    LoseLate(x, frames);
    if !x.down[0].again {
      LoseFirst(x, frames);
    }
    hide Channel, Dropped, Resent1, Reported, Closing, Lateness, Whole, Resending;
    Unanswered(x, n, y);
    ClosingKept(x, frames, y);
    PopResent1(x, n, y, false);
  }

  lemma {:induction false} CopiedIndices(sent: seq<M.Sent>)
    requires forall i :: 0 <= i < |sent| ==> sent[i].Frame?
    ensures Resends(Copies(sent, true)) == M.Indices(sent)
  {
    if sent == [] {
      assert Resends(Copies(sent, true)) == {};
    } else {
      CopiedIndices(sent[1..]);
      assert Copies(sent, true)[1..] == Copies(sent[1..], true);
      PopResends(Copies(sent, true));
    }
  }

  lemma InResends(down: seq<Copy>, i: nat)
    requires i < |down|
    ensures down[i].again && down[i].frame.Frame? ==> down[i].frame.index in Resends(down)
  {
  }

  lemma ResendsConcat(a: seq<Copy>, b: seq<Copy>)
    ensures Resends(a + b) == Resends(a) + Resends(b)
  {
    forall x | x in Resends(a + b)
      ensures x in Resends(a) + Resends(b)
    {
      var i :| 0 <= i < |a + b| && (a + b)[i].again && (a + b)[i].frame.Frame? && x == (a + b)[i].frame.index;
      if i < |a| {
        assert a[i] == (a + b)[i];
      } else {
        assert b[i - |a|] == (a + b)[i];
      }
    }
    forall x | x in Resends(a)
      ensures x in Resends(a + b)
    {
      var i :| 0 <= i < |a| && a[i].again && a[i].frame.Frame? && x == a[i].frame.index;
      assert (a + b)[i] == a[i];
    }
    forall x | x in Resends(b)
      ensures x in Resends(a + b)
    {
      var i :| 0 <= i < |b| && b[i].again && b[i].frame.Frame? && x == b[i].frame.index;
      assert (a + b)[i + |a|] == b[i];
    }
  }

  lemma AppendAscending(down: seq<Copy>, sent: seq<M.Sent>)
    requires Resends(down) == {} && Ascending(sent)
    requires forall i :: 0 <= i < |down| ==> down[i].frame.Frame?
    ensures var more := down + Copies(sent, true);
            forall i, j :: 0 <= i < j < |more| && more[i].again && more[i].frame.Frame? && more[j].frame.Frame?
                           ==> more[i].frame.index < more[j].frame.index
  {
    forall i: nat | i < |down|
      ensures !down[i].again
    {
      InResends(down, i);
    }
    hide Resends;
  }

  /** The first report makes the device resend what it misses. */
  lemma EarlyHandled(x: Loop, frames: seq<seq<byte>>)
    requires Sender(x, frames) && Exact(x, frames) && Enabled(x, Handle)
    requires Early(x, |frames|) && |x.up| == |x.reports|
    ensures var (t, e) := M.OnControl(x.service, M.AckByte(x.up[0]));
            && t == x.service.(retransmits := 1) && M.Indices(e.sent) == R.Range(|frames|) - x.reports[0]
            && M.Genuine(frames, e.sent) && Ascending(e.sent)
  {
    var n := |frames|;
    assert x.up[0] == x.reports[0];
    R.RangeSize(n);
    NextReport(x, frames);
    hide R.Range, M.OnControl, M.AckByte, M.Genuine, Ascending, Resent1, Lateness;
    M.ControlRound(x.service, x.up[0]);
    Resent(x.service, x.up[0]);
  }

  /** The report of the whole message closes the exchange. */
  lemma WholeHandled(x: Loop, frames: seq<seq<byte>>)
    requires Sender(x, frames) && Exact(x, frames) && Enabled(x, Handle) && frames != []
    requires !(Early(x, |frames|) && |x.up| == |x.reports|)
    ensures Whole(x, |frames|) && |x.up| == 1
    ensures var (t, e) := M.OnControl(x.service, M.AckByte(x.up[0]));
            t == x.service.(last := [], retransmits := 0) && e.sent == []
  {
    hide R.Range, M.OnControl, M.AckByte, M.Genuine, Resent1, Lateness, FirstFour;
    NextReport(x, frames);
    assert x.up[0] == x.reports[|x.reports| - |x.up|];
    assert x.up[0] == R.Range(|frames|);
    M.ControlRound(x.service, x.up[0]);
  }

  lemma HandledState(x: Loop)
    requires Enabled(x, Handle)
    ensures var y, (t, e) := Handled(x), M.OnControl(x.service, M.AckByte(x.up[0]));
            && y.service == t && y.up == x.up[1..] && y.reports == x.reports && y.missed == x.missed && y.late == x.late
            && y.down == x.down + Copies(e.sent, true)
            && y.got == x.got && y.lost == x.lost && y.gotAgain == x.gotAgain && y.lostAgain == x.lostAgain
  {
    M.ClientControls(x.service, x.up[0], []);
    hide M.OnControl, M.AckByte, M.Handle, M.ControlFrame;
  }

  lemma FramesOnly(down: seq<Copy>, frames: seq<seq<byte>>, k: nat)
    requires Queue(down, frames, k)
    ensures forall i :: 0 <= i < |down| ==> down[i].frame.Frame?
  {
    forall i | 0 <= i < |down|
      ensures down[i].frame.Frame?
    {
      UnderFrame(down[i], frames);
    }
  }

  lemma ResendsStart(x: Loop, frames: seq<seq<byte>>, y: Loop, sent: seq<M.Sent>)
    requires Resent1(x, |frames|) && !Resending(x, |frames|) && Resending(y, |frames|) && Queue(x.down, frames, x.gone)
    requires M.Genuine(frames, sent) && Ascending(sent) && y.reports == x.reports != []
    requires M.Indices(sent) == R.Range(|frames|) - x.reports[0] && y.down == x.down + Copies(sent, true)
    requires y.gotAgain == x.gotAgain && y.lostAgain == x.lostAgain
    ensures Resent1(y, |frames|)
  {
    hide Resending, R.Range;
    FramesOnly(x.down, frames, x.gone);
    AppendAscending(x.down, sent);
    ResendsConcat(x.down, Copies(sent, true));
    CopiedIndices(sent);
    hide Resends, Copies, M.Indices;
    assert x.gotAgain == {} && x.lostAgain == {} && Resends(x.down) == {};
    assert Resends(y.down) == {} + M.Indices(sent);
  }

  lemma EarlyState(x: Loop, n: nat, y: Loop)
    requires Reported(x, n) && Early(x, n) && |x.up| == |x.reports| && y.up == x.up[1..]
    requires y.reports == x.reports && y.got == x.got && y.gotAgain == x.gotAgain
    requires MissedGone(x) && y.missed == x.missed
    ensures Reported(y, n) && !Resending(x, n) && Resending(y, n) && !Closed(y, n) && MissedGone(y) && y.reports != []
  {
    hide FirstFour, R.Range;
  }

  lemma WholeState(x: Loop, n: nat, y: Loop)
    requires Reported(x, n) && Whole(x, n) && |x.up| == 1 && y.up == x.up[1..]
    requires !(Early(x, n) && |x.up| == |x.reports|)
    requires y.reports == x.reports && y.got == x.got && y.gotAgain == x.gotAgain
    requires MissedGone(x) && y.missed == x.missed
    ensures Reported(y, n) && (Resending(x, n) <==> Resending(y, n)) && Closed(y, n) && MissedGone(y)
  {
    hide FirstFour, R.Range;
  }

  lemma NoneSent(down: seq<Copy>)
    ensures down + Copies([], true) == down
  {
  }

  /** The device has handled the report; `y` is the state after it. */
  predicate After(x: Loop, y: Loop, t: M.Service, sent: seq<M.Sent>) {
    && x.up != [] && y.service == t && y.up == x.up[1..] && y.reports == x.reports && y.missed == x.missed
    && y.late == x.late
    && y.down == x.down + Copies(sent, true)
    && y.got == x.got && y.lost == x.lost && y.gotAgain == x.gotAgain && y.lostAgain == x.lostAgain
  }

  lemma SameLateness(x: Loop, n: nat, y: Loop)
    requires Lateness(x, n) && y.late == x.late && y.got == x.got && y.gotAgain == x.gotAgain && y.lost == x.lost
    ensures Lateness(y, n)
  {
  }

  lemma EarlyExact(x: Loop, frames: seq<seq<byte>>, y: Loop, t: M.Service, sent: seq<M.Sent>)
    requires Exact(x, frames) && Queue(x.down, frames, x.gone) && After(x, y, t, sent)
    requires Early(x, |frames|) && |x.up| == |x.reports| && t == x.service.(retransmits := 1)
    requires M.Indices(sent) == R.Range(|frames|) - x.reports[0] && M.Genuine(frames, sent) && Ascending(sent)
    ensures Exact(y, frames)
  {
    hide Queue, Copies, M.Genuine, Ascending, M.Indices, R.Range, Resent1, Lateness;
    EarlyState(x, |frames|, y);
    ResendsStart(x, frames, y, sent);
    assert Lateness(y, |frames|) by {
      SameLateness(x, |frames|, y);
    }
    hide Reported, Early, Resending;
  }

  lemma SameResent1(x: Loop, n: nat, y: Loop)
    requires Resent1(x, n) && y.down == x.down && y.gotAgain == x.gotAgain && y.lostAgain == x.lostAgain
    requires y.reports == x.reports && (Resending(x, n) <==> Resending(y, n))
    ensures Resent1(y, n)
  {
    hide Resends, R.Range;
  }

  lemma WholeExact(x: Loop, frames: seq<seq<byte>>, y: Loop, t: M.Service)
    requires Exact(x, frames) && After(x, y, t, []) && t == x.service.(last := [], retransmits := 0)
    requires !(Early(x, |frames|) && |x.up| == |x.reports|) && Whole(x, |frames|) && |x.up| == 1
    ensures Exact(y, frames)
  {
    hide R.Range, Resent1, Lateness, Copies;
    WholeState(x, |frames|, y);
    NoneSent(x.down);
    SameLateness(x, |frames|, y);
    SameResent1(x, |frames|, y);
    hide Reported, Early, Resending;
  }

  lemma ExactHandle(x: Loop, frames: seq<seq<byte>>)
    requires Channel(x, frames) && Sender(x, frames) && Exact(x, frames) && Enabled(x, Handle) && frames != []
    ensures Exact(Handled(x), frames)
  {
    HandledState(x);
    var (t, e) := M.OnControl(x.service, M.AckByte(x.up[0]));
    assert After(x, Handled(x), t, e.sent);
    hide Handled, M.OnControl, M.AckByte, Queue, Counted, M.Genuine, Ascending, Exact, Sender, After, Whole, Early;
    if Early(x, |frames|) && |x.up| == |x.reports| {
      EarlyHandled(x, frames);
      EarlyExact(x, frames, Handled(x), t, e.sent);
    } else {
      WholeHandled(x, frames);
      WholeExact(x, frames, Handled(x), t);
    }
  }

  lemma MissState(x: Loop, n: nat, y: Loop)
    requires Reported(x, n) && MissedGone(x) && 0 < |x.up| <= |x.reports| && y.up == x.up[1..]
    requires y.reports == x.reports && y.got == x.got && y.gotAgain == x.gotAgain
    requires y.missed == x.missed + {|x.reports| - |x.up|}
    ensures Reported(y, n) && MissedGone(y) && (Resending(x, n) <==> Resending(y, n)) && !Closed(x, n) && !Closed(y, n)
  {
    hide FirstFour, R.Range;
  }

  lemma ExactMiss(x: Loop, frames: seq<seq<byte>>)
    requires Sender(x, frames) && Exact(x, frames) && Enabled(x, LoseReport)
    ensures Exact(Missed(x), frames)
  {
    var n, y := |frames|, Missed(x);
    hide Resent1, Lateness, R.Range;
    MissState(x, n, y);
    SameLateness(x, n, y);
    SameResent1(x, n, y);
    hide Reported, Resending, Closed, MissedGone;
    ClosingKept(x, frames, y);
  }

  /** Every step keeps the exact account as well. */
  lemma StepExact(x: Loop, l: Label, frames: seq<seq<byte>>, p: seq<seq<byte>>)
    requires Safe(x, frames, p) && Exact(x, frames) && Enabled(x, l)
    ensures Exact(Step(x, l), frames)
  {
    SameLength(frames, p);
    hide Exact, Channel, Receiver, Sender, Carries, Delivered, Dropped, Handled, Missed, Popped, Answered, Whole, R.Range,
         Outcome;
    match l {
      case Deliver =>
        if x.down[0].again {
          AgainFields(x, frames, p);
          ExactAgain(x, frames, p, Delivered(x));
        } else {
          FirstFields(x, frames, p);
          ExactFirst(x, frames, p, Delivered(x));
        }
      case Lose =>
        ExactLose(x, frames);
      case Handle =>
        ExactHandle(x, frames);
      case LoseReport =>
        ExactMiss(x, frames);
    }
  }

  lemma BeginsExact(x: Loop, frames: seq<seq<byte>>)
    requires Begins(x, frames) && 0 < |frames| <= 8
    ensures Exact(x, frames)
  {
    PushFromShape(frames, 0);
    R.InRange(0, |frames|);
    hide M.Push, R.Range, M.PushFrom;
    assert {} + {} == x.got + x.gotAgain;
    assert Resends(x.down) == {};
  }

  /** All over a run. */
  lemma {:induction false} RunExact(x: Loop, labels: seq<Label>, y: Loop, frames: seq<seq<byte>>, p: seq<seq<byte>>)
    requires Safe(x, frames, p) && Exact(x, frames) && Reaches(x, labels, y)
    ensures Safe(y, frames, p) && Exact(y, frames)
    decreases |labels|
  {
    hide Safe, Exact, Step, Enabled;
    if labels != [] {
      StepKeeps(x, labels[0], frames, p);
      StepExact(x, labels[0], frames, p);
      RunExact(Step(x, labels[0]), labels[1..], y, frames, p);
    }
  }

  // ---- what it means ----

  lemma NotBoth(y: Loop, frames: seq<seq<byte>>)
    requires Channel(y, frames)
    ensures 0 in y.lost ==> 0 !in y.got
  {
  }

  /** Whatever is lost and however the steps interleave, the client gets the message once or not at all. */
  lemma DeliveredOnce(x: Loop, labels: seq<Label>, y: Loop, frames: seq<seq<byte>>, p: seq<seq<byte>>)
    requires Carries(frames, p) && Begins(x, frames) && Reaches(x, labels, y)
    ensures y.delivered == (if Whole(y, |p|) then [Flatten(p)] else [])
    ensures y.service.retransmits <= M.MAX_ROUNDS
    ensures 0 in y.lost ==> y.delivered == [] && y.reports == [] && y.service.last == frames
  {
    BeginsSafe(x, frames, p);
    RunKeeps(x, labels, y, frames, p);
    hide Flatten;
    NotBoth(y, frames);
  }

  predicate Settled(x: Loop) {
    x.down == [] && x.up == []
  }

  /** These first losses leave the collector four frames, the first among them, to report. */
  predicate Reportable(n: nat, lost: set<nat>) {
    0 !in lost && 4 < n && |lost| + 4 <= n
  }

  /** Nothing was lost, or what was lost is reported, the report heard, and nothing of it lost again. */
  predicate Recovers(n: nat, lost: set<nat>, missed: set<nat>, lostAgain: set<nat>) {
    lost == {} || (Reportable(n, lost) && 0 !in missed && lost !! lostAgain)
  }

  lemma SettledSets(y: Loop, frames: seq<seq<byte>>)
    requires Channel(y, frames) && y.down == []
    ensures y.got + y.lost == R.Range(|frames|) && y.got !! y.lost
  {
  }

  lemma Complement(got: set<nat>, lost: set<nat>, n: nat)
    requires got + lost == R.Range(n) && got !! lost
    ensures got == R.Range(n) - lost && |got| + |lost| == n
  {
    R.RangeSize(n);
    hide R.Range;
    assert |got + lost| == |got| + |lost|;
  }

  lemma SettledEarly(y: Loop, n: nat)
    requires y.got + y.lost == R.Range(n) && y.got !! y.lost && n > 0
    ensures Early(y, n) <==> Reportable(n, y.lost)
    ensures 0 in y.got <==> 0 !in y.lost
  {
    Complement(y.got, y.lost, n);
    R.InRange(0, n);
    hide R.Range;
  }

  lemma ReportableFirst(n: nat, lost: set<nat>)
    ensures Reportable(n, lost) ==> 0 !in lost
  {
  }

  lemma SettledAgain(y: Loop, n: nat)
    requires n > 0 && y.got + y.lost == R.Range(n) && y.got !! y.lost && y.down == [] && y.up == []
    requires Reported(y, n) && Resent1(y, n)
    ensures Reportable(n, y.lost) ==> y.reports != [] && FirstFour(y.reports[0], y.got)
    ensures Resending(y, n) <==> Reportable(n, y.lost) && 0 !in y.missed
    ensures y.gotAgain == if Resending(y, n) then R.Range(n) - y.reports[0] - y.lostAgain else {}
  {
    SettledEarly(y, n);
    assert Resends(y.down) == {};
    hide R.Range, Resends, Reportable, Early, FirstFour;
    assert {} + y.gotAgain + y.lostAgain == y.gotAgain + y.lostAgain;
  }

  lemma SettledWhole(y: Loop, n: nat)
    requires n > 0 && y.got + y.lost == R.Range(n) && y.got !! y.lost && (0 in y.got <==> 0 !in y.lost)
    requires if Reportable(n, y.lost) && 0 !in y.missed then
               y.reports != [] && y.reports[0] <= y.got && y.gotAgain == R.Range(n) - y.reports[0] - y.lostAgain
             else y.gotAgain == {}
    ensures Whole(y, n) <==> Recovers(n, y.lost, y.missed, y.lostAgain)
  {
    R.InRange(0, n);
    hide R.Range, Reportable;
    ReportableFirst(n, y.lost);
    if y.lost == {} {
      assert y.got == R.Range(n) && y.gotAgain <= R.Range(n);
    } else if Reportable(n, y.lost) && 0 !in y.missed {
      assert y.lost !! y.reports[0];
      assert Whole(y, n) <==> y.lost <= y.gotAgain;
    } else {
      assert Held(y) == y.got;
    }
  }

  lemma SettledCollector(y: Loop, p: seq<seq<byte>>)
    requires Receiver(y, p)
    ensures Whole(y, |p|) ==> y.late <= R.Range(|p|) && R.Idle(y.collector, Part(p, y.late))
    ensures !Whole(y, |p|) ==> (y.collector.active <==> 0 in y.got)
  {
    hide R.Range, Flatten;
  }

  /**
   Once both channels are empty, the losses alone decide.  A response of up to eight frames has been
   delivered exactly if nothing of it was lost at first, or its first frame and three more of more than
   four came through, the report of these was not lost, and no lost frame was lost again when resent;
   the device has closed it exactly if it was delivered and the report of that was not lost either.
   Otherwise the exchange stands still: the device keeps the response, and after at most one
   retransmission no report is left to start another.
   */
  lemma ExchangeOutcome(x: Loop, labels: seq<Label>, y: Loop, frames: seq<seq<byte>>, p: seq<seq<byte>>)
    requires Carries(frames, p) && Begins(x, frames) && Reaches(x, labels, y) && |p| <= 8 && Settled(y)
    ensures y.got == R.Range(|p|) - y.lost
    ensures Reportable(|p|, y.lost) ==> y.reports != [] && FirstFour(y.reports[0], y.got)
    ensures y.gotAgain
         == if Reportable(|p|, y.lost) && 0 !in y.missed then R.Range(|p|) - y.reports[0] - y.lostAgain else {}
    ensures if Recovers(|p|, y.lost, y.missed, y.lostAgain) then
              && y.delivered == [Flatten(p)] && y.reports != []
              && y.late == (set i | i in y.gotAgain && forall j :: j in y.lost ==> j < i)
              && y.late <= R.Range(|p|) && R.Idle(y.collector, Part(p, y.late))
            else y.delivered == [] && (y.collector.active <==> 0 !in y.lost)
    ensures if Recovers(|p|, y.lost, y.missed, y.lostAgain) && |y.reports| - 1 !in y.missed then
              y.service.last == [] && y.service.retransmits == 0
            else
              && y.service.last == frames
              && y.service.retransmits == if Reportable(|p|, y.lost) && 0 !in y.missed then 1 else 0
  {
    SameLength(frames, p);
    BeginsSafe(x, frames, p);
    BeginsExact(x, frames);
    RunExact(x, labels, y, frames, p);
    hide Begins, Reaches, Carries;
    SettledSets(y, frames);
    Complement(y.got, y.lost, |p|);
    SettledEarly(y, |p|);
    SettledAgain(y, |p|);
    SettledWhole(y, |p|);
    hide Channel, Sender, Resent1, R.Range, Flatten, FirstFour, Reportable, Resending, Early, MissedGone;
    SettledCollector(y, p);
  }

  /** Up to eight frames are never retransmitted more than once, whatever happens. */
  lemma OneRound(x: Loop, labels: seq<Label>, y: Loop, frames: seq<seq<byte>>, p: seq<seq<byte>>)
    requires Carries(frames, p) && Begins(x, frames) && Reaches(x, labels, y) && |p| <= 8
    ensures y.service.retransmits <= 1 && |y.reports| <= 2 && (|p| <= 4 ==> y.service.retransmits == 0)
  {
    SameLength(frames, p);
    BeginsSafe(x, frames, p);
    BeginsExact(x, frames);
    RunExact(x, labels, y, frames, p);
    hide Safe, Begins, Reaches, Carries;
  }

  // ---- without any loss ----

  lemma FirstFourOfAll(b: set<nat>, n: nat)
    requires FirstFour(b, R.Range(n))
    ensures b == R.Range(4)
  {
    R.RangeMembers(n);
    R.RangeSize(4);
    R.RangeSize(5);
    assert R.Range(5) == R.Range(4) + {4};
    if i :| i in b && i > 3 {
      assert forall j :: j in R.Range(n) - b ==> i < j;
      assert forall j: nat :: j < 5 ==> j in b || j in R.Range(n) - b;
      R.RangeMembers(5);
      R.SubsetSize(R.Range(5), b);
    } else {
      R.RangeMembers(4);
      R.SubsetSize(b, R.Range(4));
    }
  }

  lemma NothingLost(n: nat)
    ensures Recovers(n, {}, {}, {}) && (Reportable(n, {}) <==> n > 4)
  {
  }

  /** What is resent without a loss, and that all of it is late. */
  lemma EverythingAgain(n: nat, b: set<nat>, got: set<nat>, lost: set<nat>, again: set<nat>, late: set<nat>)
    requires FirstFour(b, got) && got == R.Range(n) - lost && lost == {} && again == R.Range(n) - b - {}
    requires late == set i | i in again && forall j :: j in lost ==> j < i
    ensures late == R.Range(n) - R.Range(4)
  {
    hide R.Range, FirstFour;
    assert got == R.Range(n);
    FirstFourOfAll(b, n);
    assert late == again;
  }

  lemma NoneBehindFour(n: nat, late: set<nat>)
    requires n <= 4 && late == {}
    ensures late == R.Range(n) - R.Range(4)
  {
    R.RangeMembers(n);
    R.RangeMembers(4);
  }

  /**
   Without any loss a response of five to eight frames is delivered, but the frames behind the fourth,
   resent on the early report, arrive late and stay in the collector's buffer; shorter ones leave it
   clean.
   */
  lemma LosslessLeaves(x: Loop, labels: seq<Label>, y: Loop, frames: seq<seq<byte>>, p: seq<seq<byte>>)
    requires Carries(frames, p) && Begins(x, frames) && Reaches(x, labels, y) && |p| <= 8 && Settled(y)
    requires y.lost == y.lostAgain == y.missed == {}
    ensures y.delivered == [Flatten(p)] && y.late == R.Range(|p|) - R.Range(4) && R.Idle(y.collector, Part(p, y.late))
    ensures |p| <= 4 ==> R.Clean(y.collector)
  {
    SameLength(frames, p);
    ExchangeOutcome(x, labels, y, frames, p);
    hide Reaches, Begins, Carries, Flatten;
    var n := |p|;
    NothingLost(n);
    hide Reportable, Recovers;
    if n > 4 {
      EverythingAgain(n, y.reports[0], y.got, y.lost, y.gotAgain, y.late);
    } else {
      assert y.late == {};
      NoneBehindFour(n, y.late);
      NoPart(p);
      NothingBuffered(y.collector);
    }
  }

  /** The frames of a message in order. */
  function InTurn(q: seq<seq<byte>>, k: nat): (a: seq<R.Arrival>)
    requires k <= |q|
    ensures |a| == k
  {
    seq(k, i requires 0 <= i < k => Incoming(q, i))
  }

  lemma {:induction false} FirstsConcat(a: seq<R.Arrival>, b: seq<R.Arrival>)
    ensures R.Firsts(a + b) == R.Firsts(a) + R.Firsts(b)
  {
    if a == [] {
      assert a + b == b;
    } else {
      assert (a + b)[1..] == a[1..] + b;
      FirstsConcat(a[1..], b);
    }
  }

  lemma {:induction false} InTurnArrives(q: seq<seq<byte>>, k: nat)
    requires k <= |q|
    ensures var a := InTurn(q, k);
            R.AllBelong(a, q) && R.Firsts(a) == (if k == 0 then 0 else 1) && R.Arrived(a) == R.Range(k)
  {
    if k > 0 {
      InTurnArrives(q, k - 1);
      assert InTurn(q, k) == InTurn(q, k - 1) + [Incoming(q, k - 1)];
      FirstsConcat(InTurn(q, k - 1), [Incoming(q, k - 1)]);
      R.ArrivedConcat(InTurn(q, k - 1), [Incoming(q, k - 1)]);
      R.OneFirst(Incoming(q, k - 1));
    }
  }

  lemma LateOnes(p: seq<seq<byte>>, late: set<nat>)
    requires late == R.Range(|p|) - R.Range(4)
    ensures Part(p, late).Keys == late && forall i: nat :: i in late <==> 4 <= i < |p|
    ensures forall i :: i in Part(p, late) ==> 4 <= i < |p| && Part(p, late)[i] == p[i]
  {
    R.RangeMembers(|p|);
    R.RangeMembers(4);
  }

  lemma LateFits(n: nat, m: nat, late: set<nat>)
    requires m > 0 && forall i: nat :: i in late <==> 4 <= i < n
    ensures late <= R.Range(m) && m - 1 !in late <==> n <= 4 || m > n
  {
    R.RangeMembers(m);
    hide R.Range;
    if n > 4 {
      assert n - 1 in late;
    }
  }

  lemma LastInTurn(q: seq<seq<byte>>)
    requires q != []
    ensures R.Index(InTurn(q, |q|)[|q| - 1]) == |q| - 1
  {
  }

  /**
   The response after a lossless one of `|p|` frames, again without loss: when its payloads differ from
   the late ones, the client reads it intact exactly if the earlier response had at most four frames
   or the new one has more frames than it.
   */
  lemma NextResponse(c: R.Collector, p: seq<seq<byte>>, q: seq<seq<byte>>)
    requires 0 < |p| <= 8 && 0 < |q| <= R.MAX_INDEX && R.Idle(c, Part(p, R.Range(|p|) - R.Range(4)))
    requires R.OneSided(q, Part(p, R.Range(|p|) - R.Range(4)))
    requires forall i :: 4 <= i < |p| && i < |q| ==> p[i] != q[i]
    ensures R.Messages(R.ArriveAll(c, InTurn(q, |q|)).1) == [Flatten(q)] <==> |p| <= 4 || |q| > |p|
  {
    var late := R.Range(|p|) - R.Range(4);
    InTurnArrives(q, |q|);
    LateOnes(p, late);
    LateFits(|p|, |q|, late);
    LastInTurn(q);
    hide R.Range, R.ArriveAll, R.Messages, R.Idle, Flatten, R.AllBelong, R.Arrived, R.Firsts, Part, InTurn,
         R.Index, R.OneSided;
    R.IntactWithoutRepeats(c, q, Part(p, late), InTurn(q, |q|));
  }

  // ---- the frames of a response ----

  /** `frames` are those of a response. */
  predicate IsResponse(frames: seq<seq<byte>>, ctx: byte, procedure: byte, result: seq<byte>, status: byte, node: byte)
    requires |result| <= 251
  {
    var content := Content(result);
    CountFits(content);
    && |frames| == Count(content)
    && forall i :: 0 <= i < |frames| ==>
         frames[i] == FrameAt(content, ResponseBuffer(ctx, procedure, result, status, node), i)
  }

  lemma ResponseCarries(frames: seq<seq<byte>>, ctx: byte, procedure: byte, result: seq<byte>, status: byte, node: byte)
    requires |result| <= 251 && IsResponse(frames, ctx, procedure, result, status, node)
    ensures var buffer := ResponseBuffer(ctx, procedure, result, status, node);
            Carries(frames, Payloads(buffer, PayloadSize(Content(result)), Count(Content(result))))
  {
    var content := Content(result);
    var buffer := ResponseBuffer(ctx, procedure, result, status, node);
    T.CountSmall(content);
    hide Count, FrameAt, Chunk, ReadFrame, ResponseBuffer;
    forall i: nat | i < |frames|
      ensures Read(M.Push(frames, i)) == Some(Incoming(Payloads(buffer, PayloadSize(content), Count(content)), i))
    {
      HeadersReadBack(content, buffer, i);
    }
  }

  /** In every run the client reads from what it is handed exactly what the device answered with. */
  lemma ResponseRead(x: Loop, labels: seq<Label>, y: Loop, frames: seq<seq<byte>>,
                     ctx: byte, procedure: byte, result: seq<byte>, status: byte, node: byte)
    requires |result| <= 251 && IsResponse(frames, ctx, procedure, result, status, node)
    requires Begins(x, frames) && Reaches(x, labels, y)
    ensures |y.delivered| <= 1
    ensures y.delivered != [] ==> ParseResponse(y.delivered[0]) == Context(ctx, procedure, result, true)
  {
    ResponseCarries(frames, ctx, procedure, result, status, node);
    var content := Content(result);
    var p := Payloads(ResponseBuffer(ctx, procedure, result, status, node), PayloadSize(content), Count(content));
    DeliveredOnce(x, labels, y, frames, p);
    hide Begins, Reaches, Chunk, Count, ResponseBuffer, ParseResponse, IsResponse, Carries, Flatten;
    ResponseRoundTrip(ctx, procedure, result, status, node);
  }
}
