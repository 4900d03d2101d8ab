/**
 A response of a Mera device from its arguments to the client's reading of them: built, cut into
 frames, received in any order with duplicates, collected and parsed.
 */
module MeraTransport {
  import opened Bytes
  import opened CrcMessages
  import opened MeraFrames
  import R = Reassembly

  /** What the frame service passes to the collector. */
  function ToArrival(f: FrameRead): Option<R.Arrival> {
    match f
    case First(count, payload) => Some(R.First(count, payload))
    case Cons(index, payload) => Some(R.Cons(index, payload))
    case _ => None
  }

  function Arrivals(frames: seq<seq<byte>>): seq<R.Arrival> {
    if frames == [] then []
    else (match ToArrival(ReadFrame(frames[0])) case Some(a) => [a] case None => []) + Arrivals(frames[1..])
  }

  /** The frames with these indices, in this order. */
  function Picked(content: nat, buffer: seq<byte>, order: seq<nat>): seq<seq<byte>>
    requires 0 < content <= 4590 && forall k :: 0 <= k < |order| ==> order[k] < Count(content)
    requires Count(content) < 256
  {
    if order == [] then [] else [FrameAt(content, buffer, order[0])] + Picked(content, buffer, order[1..])
  }

  /** How often frame 0 is among them, and which indices are. */
  function Zeroes(order: seq<nat>): nat {
    if order == [] then 0 else (if order[0] == 0 then 1 else 0) + Zeroes(order[1..])
  }

  function Seen(order: seq<nat>): set<nat> {
    if order == [] then {} else {order[0]} + Seen(order[1..])
  }

  lemma {:induction false} PickedArrive(content: nat, buffer: seq<byte>, order: seq<nat>)
    requires 0 < content <= 4590 && forall k :: 0 <= k < |order| ==> order[k] < Count(content)
    requires Count(content) < 256
    ensures var a := Arrivals(Picked(content, buffer, order));
            var p := Payloads(buffer, PayloadSize(content), Count(content));
            && R.AllBelong(a, p) && R.Firsts(a) == Zeroes(order) && R.Arrived(a) == Seen(order) && |a| == |order|
    decreases |order|
  {
    hide Count, FrameAt, Chunk, ReadFrame;
    if order != [] {
      var p := Payloads(buffer, PayloadSize(content), Count(content));
      var f := FrameAt(content, buffer, order[0]);
      HeadersReadBack(content, buffer, order[0]);
      PickedArrive(content, buffer, order[1..]);
      var rest := Picked(content, buffer, order[1..]);
      assert Picked(content, buffer, order)[1..] == rest;
      var a := ToArrival(ReadFrame(f)).value;
      assert Arrivals(Picked(content, buffer, order)) == [a] + Arrivals(rest);
      assert ([a] + Arrivals(rest))[1..] == Arrivals(rest);
      assert R.Belongs(a, p);
    }
  }

  lemma CountSmall(content: nat)
    requires 0 < content <= 262
    ensures 0 < Count(content) <= 15
  {
  }

  /**
   Whatever order the frames of a response arrive in, and however often each frame but the first is
   repeated, the client gets one message out of them, and reads from it exactly the context,
   procedure and result that the device answered with, in both frame formats.
   */
  lemma ResponseDelivered(c: R.Collector, ctx: byte, procedure: byte, result: seq<byte>, status: byte, node: byte,
                          order: seq<nat>)
    requires R.Clean(c) && |result| <= 251
    requires forall k :: 0 <= k < |order| ==> order[k] < Count(Content(result))
    requires Zeroes(order) == 1 && Seen(order) == R.Range(Count(Content(result)))
    ensures Count(Content(result)) < 256
    ensures var buffer := ResponseBuffer(ctx, procedure, result, status, node);
            var frames := Picked(Content(result), buffer, order);
            var (d, outs) := R.ArriveAll(c, Arrivals(frames));
            && |R.Messages(outs)| == 1
            && ParseResponse(R.Messages(outs)[0]) == Context(ctx, procedure, result, true)
            && (|order| == Count(Content(result)) ==> R.Clean(d))
  {
    hide FrameAt, Chunk, ResponseBuffer, Arrivals, Picked, R.ArriveAll, R.Messages, R.Clean, R.AllBelong, R.Firsts,
         R.Arrived, R.Range, Seen, Zeroes, ParseResponse, Flatten;
    var content := Content(result);
    CountSmall(content);
    var buffer := ResponseBuffer(ctx, procedure, result, status, node);
    PickedArrive(content, buffer, order);
    var p := Payloads(buffer, PayloadSize(content), Count(content));
    var a := Arrivals(Picked(content, buffer, order));
    R.AnyOrderCompletesOnce(c, p, a);
    if |order| == Count(content) {
      R.NoneRepeats(a, Count(content));
    }
    ResponseRoundTrip(ctx, procedure, result, status, node);
  }
}
