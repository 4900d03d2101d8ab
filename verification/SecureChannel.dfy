/**
 Everything between an application payload and the bytes on the air: the inner frame, the stream
 cipher, the I-frame number and the outer frame, in both directions.
 */
module SecureChannel {
  import opened Bytes
  import opened Cobs
  import opened Hdlc
  import opened AesCtr
  import Crc

  const ENCRYPTED: byte := 0x20

  // ---- inner frame ----

  /** `00 COBS(payload, CRC) 00`, the plaintext of one encrypted frame. */
  function InnerEncode(payload: seq<byte>): seq<byte> {
    [0] + Encode(Checked(payload)) + [0]
  }

  /** The index of the first zero at or after `from`, or the length. */
  function NextZero(s: seq<byte>, from: nat): (i: nat)
    requires from <= |s|
    ensures from <= i <= |s| && (i < |s| ==> s[i] == 0)
    ensures forall k :: from <= k < i ==> s[k] != 0
    decreases |s| - from
  {
    if from == |s| || s[from] == 0 then from else NextZero(s, from + 1)
  }

  /** The device's decoder of one inner frame; it looks only at the first delimited piece. */
  function InnerDecode(frame: seq<byte>): Option<seq<byte>> {
    if |frame| < 4 || frame[0] != 0 then None
    else
      var end := NextZero(frame, 1);
      if end == |frame| || end == 1 then None
      else
        match Decode(frame[1..end])
        case None => None
        case Some(decoded) => Unchecked(decoded)
  }

  lemma FirstZero(z: seq<byte>, rest: seq<byte>)
    requires ZeroFree(z)
    ensures NextZero([0] + z + [0] + rest, 1) == |z| + 1
  {
    var s := [0] + z + [0] + rest;
    assert s[|z| + 1] == 0;
    assert forall k :: 1 <= k <= |z| ==> s[k] == z[k - 1];
  }

  lemma EncodedLonger(d: seq<byte>)
    requires d != []
    ensures |Encode(d)| >= 2
  {
    hide Encode;
    Overhead(d);
  }

  /** Whatever bytes are framed, and whatever follows them: they are accepted exactly if they end in their check. */
  lemma InnerIsChecked(d: seq<byte>, rest: seq<byte>)
    requires d != []
    ensures InnerDecode([0] + Encode(d) + [0] + rest) == Unchecked(d)
  {
    hide Encode, Decode, Unchecked;
    var z := Encode(d);
    RoundTrip(d);
    EncodedLonger(d);
    var frame := [0] + z + [0] + rest;
    FirstZero(z, rest);
    assert frame[1..|z| + 1] == z;
  }

  /** A burst of at most 16 wrong bits in an inner frame, in payload, check or both, makes it unreadable. */
  lemma InnerBurstRefused(payload: seq<byte>, d: seq<byte>, before: seq<bool>, v: seq<bool>, w: seq<bool>, after: seq<bool>,
                          rest: seq<byte>)
    requires |v| == |w| <= 16 && v != w
    requires Crc.Message(Checked(payload), Crc.LowFirst) == before + v + after
    requires Crc.Message(d, Crc.LowFirst) == before + w + after && d != []
    ensures InnerDecode([0] + Encode(d) + [0] + rest) == None
  {
    hide Encode, InnerDecode, Unchecked, Checked, Crc.Divide, Crc.Message;
    InnerIsChecked(d, rest);
    UncheckedInverts(payload);
    AcceptedIffDivides(Checked(payload));
    AcceptedIffDivides(d);
    Crc.BurstDetected(0, before, v, w, after);
  }

  /** The inner decoder inverts the inner encoder on every payload, the empty one included. */
  lemma InnerRoundTrip(payload: seq<byte>)
    ensures InnerDecode(InnerEncode(payload)) == Some(payload)
  {
    hide Encode, InnerDecode, Unchecked, Crc.KermitBytes;
    InnerIsChecked(Checked(payload), []);
    UncheckedInverts(payload);
    assert InnerEncode(payload) == [0] + Encode(Checked(payload)) + [0] + [];
  }

  // ---- sending ----

  /** The keystream position after the inner frames of these payloads. */
  function Advance(at: nat, payloads: seq<seq<byte>>): nat
    decreases |payloads|
  {
    if payloads == [] then at else Advance(at + |InnerEncode(payloads[0])|, payloads[1..])
  }

  function EncryptedFrame(c: Cipher, at: nat, ctrl: byte, payload: seq<byte>): Frame {
    Frame(ctrl, [ENCRYPTED] + Apply(c, at, InnerEncode(payload)))
  }

  /**
   The I-frames for a run of payloads: each is inner-framed, encrypted where the previous one
   stopped, and numbered one up from `sent`; `acks` are whatever N(R) values were current.
   */
  function Seal(c: Cipher, at: nat, sent: nat, acks: seq<nat>, payloads: seq<seq<byte>>): seq<Frame>
    requires |acks| == |payloads|
    decreases |payloads|
  {
    if payloads == [] then []
    else [EncryptedFrame(c, at, ICtrl(acks[0], sent), payloads[0])]
         + Seal(c, at + |InnerEncode(payloads[0])|, sent + 1, acks[1..], payloads[1..])
  }

  // ---- receiving ----

  /** Feeding a receiver chunk by chunk: what it has kept and what it has delivered. */
  function Feed(buf: seq<byte>, chunks: seq<seq<byte>>): seq<Event>
    decreases |chunks|
  {
    if chunks == [] then [] else Events(buf + chunks[0]) + Feed(Leftover(buf + chunks[0]), chunks[1..])
  }

  lemma {:induction false} FeedFrom(heard: seq<byte>, chunks: seq<seq<byte>>)
    ensures Events(heard) + Feed(Leftover(heard), chunks) == Events(heard + Flatten(chunks))
    decreases |chunks|
  {
    hide Events, Leftover;
    if chunks == [] {
      assert heard + [] == heard;
    } else {
      Resume(heard, chunks[0]);
      FeedFrom(heard + chunks[0], chunks[1..]);
      assert heard + (chunks[0] + Flatten(chunks[1..])) == heard + chunks[0] + Flatten(chunks[1..]);
    }
  }

  lemma NothingHeard()
    ensures Events([]) == [] && Leftover([]) == []
  {
  }

  /** However a stream is cut into chunks, the receiver delivers the events of the whole stream. */
  lemma ChunkingIsIrrelevant(chunks: seq<seq<byte>>)
    ensures Feed([], chunks) == Events(Flatten(chunks))
  {
    hide Feed;
    NothingHeard();
    hide Events, Leftover;
    FeedFrom([], chunks);
    assert [] + Flatten(chunks) == Flatten(chunks);
  }

  predicate IsEncrypted(e: Event) {
    e.I? && e.payload != [] && e.payload[0] == ENCRYPTED
  }

  predicate NoneEncrypted(events: seq<Event>) {
    forall i :: 0 <= i < |events| ==> !IsEncrypted(events[i])
  }

  /** The payloads a receiver decrypts, in order; frames of other kinds do not touch the cipher. */
  function Open(c: Cipher, at: nat, events: seq<Event>): seq<seq<byte>>
    decreases |events|
  {
    if events == [] then []
    else if !IsEncrypted(events[0]) then Open(c, at, events[1..])
    else
      var data := events[0].payload[1..];
      (match InnerDecode(Apply(c, at, data)) case Some(p) => [p] case None => [])
      + Open(c, at + |data|, events[1..])
  }

  /** How far a run of events has moved the receiver's cipher. */
  function Consumed(at: nat, events: seq<Event>): nat
    decreases |events|
  {
    if events == [] then at
    else if !IsEncrypted(events[0]) then Consumed(at, events[1..])
    else Consumed(at + |events[0].payload| - 1, events[1..])
  }

  /** One sealed frame opens to its payload and leaves both ciphers at the same position. */
  lemma OpenOne(c: Cipher, at: nat, ctrl: byte, payload: seq<byte>)
    requires ctrl % 2 == 0
    ensures var f := EncryptedFrame(c, at, ctrl, payload);
            && IsEncrypted(Route(f.ctrl, f.payload))
            && f.payload[1..] == Apply(c, at, InnerEncode(payload))
            && InnerDecode(Apply(c, at, f.payload[1..])) == Some(payload)
  {
    hide Apply, InnerDecode, InnerEncode;
    var f := EncryptedFrame(c, at, ctrl, payload);
    assert f.payload[1..] == Apply(c, at, InnerEncode(payload));
    ApplyTwice(c, at, InnerEncode(payload));
    InnerRoundTrip(payload);
  }

  lemma RouteKeeps(ctrl: byte, payload: seq<byte>)
    requires IsEncrypted(Route(ctrl, payload))
    ensures Route(ctrl, payload) == I(ctrl, payload)
  {
  }

  lemma {:induction false} OpenSealed(c: Cipher, at: nat, sent: nat, acks: seq<nat>, payloads: seq<seq<byte>>)
    requires |acks| == |payloads|
    ensures Open(c, at, Routed(Seal(c, at, sent, acks, payloads))) == payloads
    ensures Consumed(at, Routed(Seal(c, at, sent, acks, payloads))) == Advance(at, payloads)
    decreases |payloads|
  {
    hide Apply, InnerDecode, InnerEncode, ICtrl, Route;
    if payloads != [] {
      var f := EncryptedFrame(c, at, ICtrl(acks[0], sent), payloads[0]);
      var rest := Seal(c, at + |InnerEncode(payloads[0])|, sent + 1, acks[1..], payloads[1..]);
      NumbersReadBack(acks[0], sent);
      OpenOne(c, at, ICtrl(acks[0], sent), payloads[0]);
      OpenSealed(c, at + |InnerEncode(payloads[0])|, sent + 1, acks[1..], payloads[1..]);
      assert (([f] + rest)[1..]) == rest;
      assert Routed([f] + rest) == [Route(f.ctrl, f.payload)] + Routed(rest);
      assert Routed([f] + rest)[1..] == Routed(rest);
      RouteKeeps(f.ctrl, f.payload);
      assert [payloads[0]] + payloads[1..] == payloads;
    }
  }

  /**
   The full stack: whatever payloads are sealed and however the bytes are cut into chunks, the
   receiver with the mirrored cipher recovers exactly the payload sequence, in order.
   */
  lemma FullStackRoundTrip(c: Cipher, at: nat, sent: nat, acks: seq<nat>, payloads: seq<seq<byte>>,
                           chunks: seq<seq<byte>>)
    requires |acks| == |payloads|
    requires Flatten(chunks) == Wire(Seal(c, at, sent, acks, payloads))
    ensures Open(c, at, Feed([], chunks)) == payloads
    ensures Consumed(at, Feed([], chunks)) == Advance(at, payloads)
  {
    hide Open, Feed, Seal, Consumed;
    ChunkingIsIrrelevant(chunks);
    WireDelivers(Seal(c, at, sent, acks, payloads));
    OpenSealed(c, at, sent, acks, payloads);
  }

  lemma FrameCtrl(c: Cipher, at: nat, ctrl: byte, payload: seq<byte>)
    ensures EncryptedFrame(c, at, ctrl, payload).ctrl == ctrl
  {
  }

  /** The i-th of a run of sealed frames carries the i-th number, modulo 8, in its control byte. */
  lemma {:induction false} SealNumbers(c: Cipher, at: nat, sent: nat, acks: seq<nat>, payloads: seq<seq<byte>>, i: nat)
    requires |acks| == |payloads| && i < |payloads|
    ensures |Seal(c, at, sent, acks, payloads)| == |payloads|
    ensures var f := Seal(c, at, sent, acks, payloads)[i];
            f.ctrl % 2 == 0 && SendNumber(f.ctrl) == (sent + i) % 8 && ReceiveNumber(f.ctrl) == acks[i] % 8
    decreases |payloads|
  {
    hide ICtrl, SendNumber, ReceiveNumber, EncryptedFrame, InnerEncode;
    NumbersReadBack(acks[0], sent);
    FrameCtrl(c, at, ICtrl(acks[0], sent), payloads[0]);
    if |payloads| > 1 {
      SealNumbers(c, at + |InnerEncode(payloads[0])|, sent + 1, acks[1..], payloads[1..], if i == 0 then 0 else i - 1);
    }
  }
}
