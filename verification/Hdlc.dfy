/**
 The outer frame of the Alba link: `00 COBS(control, payload, CRC) 00`.

 `Events` says declaratively what a byte stream means: drop everything before the first zero, split
 the rest at the zeros, ignore the unfinished last piece, and keep the pieces that decode to at
 least three bytes with a matching check.  The receiving object refines it (ArendiServer.dfy).
 */
module Hdlc {
  import opened Bytes
  import opened Cobs
  import Crc

  // ---- control bytes ----

  const SABM_TYPE := 7
  const UA_TYPE := 12
  const DISC_TYPE := 8

  /** `((t << 3) & 0xE0) | ((t << 2) & 0x0C) | 0x03` */
  function UCtrl(t: nat): byte {
    t / 4 % 8 * 32 + t % 4 * 4 + 3
  }

  /** `((ack << 5) & 0xE0) | ((seq << 1) & 0x0E)` */
  function ICtrl(ack: nat, sent: nat): byte {
    ack % 8 * 32 + sent % 8 * 2
  }

  /** `(ctrl >> 1) & 7` */
  function SendNumber(ctrl: byte): nat {
    ctrl / 2 % 8
  }

  /** `(ctrl >> 5) & 7` */
  function ReceiveNumber(ctrl: byte): nat {
    ctrl / 32
  }

  // ---- one frame ----

  datatype Event = I(ctrl: byte, payload: seq<byte>) | U(ctrl: byte, payload: seq<byte>) | S(ctrl: byte)

  /** Which queue a checked frame goes to, by its two low control bits. */
  function Route(ctrl: byte, payload: seq<byte>): Event {
    if ctrl % 2 == 0 then I(ctrl, payload)
    else if ctrl % 4 == 3 then U(ctrl, payload)
    else S(ctrl)
  }

  /** A body followed by its check. */
  function Checked(body: seq<byte>): seq<byte> {
    body + Crc.KermitBytes(body)
  }

  function BuildAtt(ctrl: byte, payload: seq<byte>): seq<byte> {
    [0] + Encode(Checked([ctrl] + payload)) + [0]
  }

  /** The body of a string that ends in its own check, if it does. */
  function Unchecked(decoded: seq<byte>): Option<seq<byte>> {
    if |decoded| < 2 then None
    else
      var body := decoded[..|decoded| - 2];
      if decoded[|decoded| - 2..] == Crc.KermitBytes(body) then Some(body) else None
  }

  /** What the receiver makes of the bytes between two delimiters. */
  function DecodeFrame(piece: seq<byte>): Option<Event> {
    match Decode(piece)
    case None => None
    case Some(decoded) =>
      if |decoded| < 3 then None
      else
        match Unchecked(decoded)
        case None => None
        case Some(body) => Some(Route(body[0], body[1..]))
  }

  lemma UncheckedInverts(body: seq<byte>)
    ensures Unchecked(Checked(body)) == Some(body)
  {
    hide Crc.KermitBytes;
    var d := Checked(body);
    assert d[..|d| - 2] == body && d[|d| - 2..] == Crc.KermitBytes(body);
  }

  lemma DecodeBuilt(ctrl: byte, payload: seq<byte>)
    ensures DecodeFrame(Encode(Checked([ctrl] + payload))) == Some(Route(ctrl, payload))
  {
    hide Encode, Decode, Unchecked, Crc.KermitBytes;
    RoundTrip(Checked([ctrl] + payload));
    UncheckedInverts([ctrl] + payload);
    assert ([ctrl] + payload)[1..] == payload;
  }

  /** A body and its check: what the receiver accepts is what the division of the whole leaves nothing of. */
  lemma AcceptedIffDivides(d: seq<byte>)
    ensures Unchecked(d).Some? <==> |d| >= 2 && Crc.Divide(0, Crc.Message(d, Crc.LowFirst)) == 0
  {
    hide Crc.KermitBytes, Crc.Kermit, Crc.Divide, Crc.Message;
    if |d| >= 2 {
      var n := |d| - 2;
      assert d == d[..n] + d[n..];
      Crc.CheckedIffDivides(d[..n], d[n..]);
      Crc.KermitZero(d);
    }
  }

  lemma NotAccepted(e: seq<byte>)
    requires Unchecked(e) == None
    ensures DecodeFrame(Encode(e)) == None
  {
    hide Encode, Decode, Unchecked;
    RoundTrip(e);
  }

  /** A frame with any burst of at most 16 wrong bits, in its body, its check or across both, is dropped. */
  lemma BurstDropped(d: seq<byte>, e: seq<byte>, before: seq<bool>, v: seq<bool>, w: seq<bool>, after: seq<bool>)
    requires Unchecked(d).Some? && |v| == |w| <= 16 && v != w
    requires Crc.Message(d, Crc.LowFirst) == before + v + after
    requires Crc.Message(e, Crc.LowFirst) == before + w + after
    ensures DecodeFrame(Encode(e)) == None
  {
    hide Unchecked, DecodeFrame, Encode, Crc.Divide, Crc.Message;
    AcceptedIffDivides(d);
    AcceptedIffDivides(e);
    Crc.BurstDetected(0, before, v, w, after);
    NotAccepted(e);
  }

  /** So is a frame in which one byte or two adjacent ones are altered, wherever they stand. */
  lemma TamperedBytesDropped(before: seq<byte>, v: seq<byte>, w: seq<byte>, after: seq<byte>)
    requires |v| == |w| <= 2 && v != w && Unchecked(before + v + after).Some?
    ensures DecodeFrame(Encode(before + w + after)) == None
  {
    hide Unchecked, DecodeFrame, Encode, Crc.Divide, Crc.Message;
    AcceptedIffDivides(before + v + after);
    AcceptedIffDivides(before + w + after);
    Crc.AdjacentBytesDetected(0, Crc.LowFirst, before, v, w, after);
    NotAccepted(before + w + after);
  }

  /** And one with an odd number of flipped bits, wherever they are. */
  lemma TamperedBitsDropped(d: seq<byte>, e: seq<byte>)
    requires Unchecked(d).Some? && |Crc.Message(d, Crc.LowFirst)| == |Crc.Message(e, Crc.LowFirst)|
    requires Crc.Distance(Crc.Message(d, Crc.LowFirst), Crc.Message(e, Crc.LowFirst)) % 2 == 1
    ensures DecodeFrame(Encode(e)) == None
  {
    hide Unchecked, DecodeFrame, Encode, Crc.Divide, Crc.Message, Crc.Distance;
    AcceptedIffDivides(d);
    AcceptedIffDivides(e);
    Crc.OddErrorsDetected(0, Crc.Message(d, Crc.LowFirst), Crc.Message(e, Crc.LowFirst));
    NotAccepted(e);
  }

  // ---- a stream ----

  /** The pieces between the zeros, as Python's `split(b"\x00")` returns them. */
  function Split(s: seq<byte>): (pieces: seq<seq<byte>>)
    ensures |pieces| > 0
  {
    if s == [] then [[]]
    else
      var rest := Split(s[1..]);
      if s[0] == 0 then [[]] + rest else [[s[0]] + rest[0]] + rest[1..]
  }

  /** The frames among the pieces. */
  function Collect(pieces: seq<seq<byte>>): seq<Event> {
    if pieces == [] then []
    else (match DecodeFrame(pieces[0]) case Some(e) => [e] case None => []) + Collect(pieces[1..])
  }

  function Complete(s: seq<byte>): seq<seq<byte>> {
    var pieces := Split(s);
    if |pieces| == 1 then [] else pieces[1..|pieces| - 1]
  }

  /** What a byte stream delivers. */
  function Events(s: seq<byte>): seq<Event> {
    Collect(Complete(s))
  }

  /** What has to be kept of a byte stream to understand its continuation. */
  function Leftover(s: seq<byte>): seq<byte> {
    var pieces := Split(s);
    if |pieces| == 1 then [] else [0] + pieces[|pieces| - 1]
  }

  lemma {:induction false} CollectConcat(a: seq<seq<byte>>, b: seq<seq<byte>>)
    ensures Collect(a + b) == Collect(a) + Collect(b)
  {
    hide DecodeFrame;
    if a == [] {
      assert a + b == b;
    } else {
      assert (a + b)[1..] == a[1..] + b;
      CollectConcat(a[1..], b);
    }
  }

  /** Two pieces of stream put together: the last piece of one meets the first of the other. */
  function Joined(a: seq<seq<byte>>, b: seq<seq<byte>>): seq<seq<byte>>
    requires |a| > 0 && |b| > 0
  {
    a[..|a| - 1] + [a[|a| - 1] + b[0]] + b[1..]
  }

  lemma JoinedHead(c: byte, t: seq<seq<byte>>, u: seq<seq<byte>>)
    requires |t| > 0 && |u| > 0
    ensures var j := Joined(t, u);
            [[c] + j[0]] + j[1..] == Joined([[c] + t[0]] + t[1..], u)
  {
    var h := [[c] + t[0]] + t[1..];
    if |t| == 1 {
      assert [c] + (t[0] + u[0]) == [c] + t[0] + u[0];
    } else {
      assert h[..|h| - 1] == [[c] + t[0]] + t[1..|t| - 1];
    }
  }

  lemma JoinedDelimiter(t: seq<seq<byte>>, u: seq<seq<byte>>)
    requires |t| > 0 && |u| > 0
    ensures [[]] + Joined(t, u) == Joined([[]] + t, u)
  {
    assert ([[]] + t)[..|t|] == [[]] + t[..|t| - 1];
  }

  lemma SplitStep(s: seq<byte>)
    requires s != []
    ensures var rest := Split(s[1..]);
            Split(s) == if s[0] == 0 then [[]] + rest else [[s[0]] + rest[0]] + rest[1..]
  {
  }

  lemma {:induction false} SplitConcat(a: seq<byte>, b: seq<byte>)
    ensures Split(a + b) == Joined(Split(a), Split(b))
  {
    if a == [] {
      assert a + b == b;
      assert [] + Split(b)[0] == Split(b)[0];
    } else {
      hide Split, Joined;
      SplitConcat(a[1..], b);
      assert (a + b)[1..] == a[1..] + b;
      SplitStep(a);
      SplitStep(a + b);
      if a[0] == 0 {
        JoinedDelimiter(Split(a[1..]), Split(b));
      } else {
        JoinedHead(a[0], Split(a[1..]), Split(b));
      }
    }
  }

  lemma {:induction false} SplitZeroFree(z: seq<byte>)
    requires ZeroFree(z)
    ensures Split(z) == [z]
  {
    if z != [] {
      assert forall i :: 0 <= i < |z[1..]| ==> z[1..][i] == z[i + 1];
      SplitZeroFree(z[1..]);
      assert [z[0]] + z[1..] == z;
    }
  }

  /** A zero-free prefix and the delimiter after it form the first piece. */
  lemma SplitFirst(z: seq<byte>, rest: seq<byte>)
    requires ZeroFree(z)
    ensures Split(z + [0] + rest) == [z] + Split(rest)
  {
    SplitZeroFree(z);
    SplitConcat(z, [0] + rest);
    assert z + [0] + rest == z + ([0] + rest);
    assert ([0] + rest)[1..] == rest;
    assert Split([0] + rest) == [[]] + Split(rest);
    assert z + [] == z;
  }

  lemma JoinedPair(last: seq<byte>, q: seq<seq<byte>>)
    requires |q| > 0
    ensures Joined([[], last], q) == [[], last + q[0]] + q[1..]
  {
    assert [[], last][..1] == [[]];
  }

  lemma {:induction false} SplitLast(s: seq<byte>)
    ensures ZeroFree(Split(s)[|Split(s)| - 1])
  {
    if s != [] {
      SplitLast(s[1..]);
      var t := Split(s[1..]);
      if |t| == 1 && s[0] != 0 {
        assert Split(s)[0] == [s[0]] + t[0];
      }
    }
  }

  /** Carrying on from the leftover splits the rest just as the whole stream would be split. */
  lemma SplitLeftover(a: seq<byte>, b: seq<byte>)
    requires |Split(a)| > 1
    ensures var p, q := Split(a), Split(b);
            Split(Leftover(a) + b) == [[], p[|p| - 1] + q[0]] + q[1..]
  {
    hide Split;
    var p, q := Split(a), Split(b);
    var last := p[|p| - 1];
    SplitLast(a);
    SplitFirst([], last);
    SplitZeroFree(last);
    assert [] + [0] + last == [0] + last;
    SplitConcat([0] + last, b);
    assert [[]] + [last] == [[], last];
    JoinedPair(last, q);
  }

  lemma JoinedMiddle<T>(p: seq<T>, r: seq<T>, j: seq<T>)
    requires |p| > 1 && |r| > 1 && j == p[..|p| - 1] + r[1..]
    ensures j[1..|j| - 1] == p[1..|p| - 1] + r[1..|r| - 1] && j[|j| - 1] == r[|r| - 1]
  {
  }

  lemma CollectNone()
    ensures Collect([]) == []
  {
  }

  lemma ResumeUnopened(a: seq<byte>, b: seq<byte>)
    requires |Split(a)| == 1
    ensures Events(a + b) == Events(b) && Leftover(a + b) == Leftover(b) && Events(a) == [] && Leftover(a) == []
  {
    hide Collect, Split;
    SplitConcat(a, b);
    CollectNone();
    assert Joined(Split(a), Split(b))[1..] == Split(b)[1..];
    assert Complete(a + b) == Complete(b);
  }

  lemma JoinedTail(p: seq<seq<byte>>, q: seq<seq<byte>>, r: seq<seq<byte>>)
    requires |p| > 1 && q != [] && r == [[], p[|p| - 1] + q[0]] + q[1..]
    ensures Joined(p, q) == p[..|p| - 1] + r[1..] && |r| > 1
  {
    assert r[1..] == [p[|p| - 1] + q[0]] + q[1..];
  }

  lemma Pieces(s: seq<byte>, pieces: seq<seq<byte>>)
    requires pieces == Split(s) && |pieces| > 1
    ensures Complete(s) == pieces[1..|pieces| - 1] && Leftover(s) == [0] + pieces[|pieces| - 1]
  {
  }

  lemma ResumeOpened(a: seq<byte>, b: seq<byte>)
    requires |Split(a)| > 1
    ensures Complete(a + b) == Complete(a) + Complete(Leftover(a) + b)
    ensures Leftover(a + b) == Leftover(Leftover(a) + b)
  {
    hide Split, Joined, Complete, Leftover;
    var p, q, r := Split(a), Split(b), Split(Leftover(a) + b);
    SplitConcat(a, b);
    SplitLeftover(a, b);
    JoinedTail(p, q, r);
    JoinedMiddle(p, r, Joined(p, q));
    Pieces(a, p);
    Pieces(a + b, Joined(p, q));
    Pieces(Leftover(a) + b, r);
  }

  /** Every chunk can be processed with no more than the leftover of the chunks before it. */
  lemma Resume(a: seq<byte>, b: seq<byte>)
    ensures Events(a + b) == Events(a) + Events(Leftover(a) + b)
    ensures Leftover(a + b) == Leftover(Leftover(a) + b)
  {
    hide Collect, Split, Complete, Leftover;
    if |Split(a)| == 1 {
      ResumeUnopened(a, b);
      assert [] + b == b;
    } else {
      ResumeOpened(a, b);
      CollectConcat(Complete(a), Complete(Leftover(a) + b));
    }
  }

  /** The leftover is empty, or one zero followed by bytes other than zero. */
  lemma LeftoverShape(s: seq<byte>)
    ensures Leftover(s) == [] || (Leftover(s)[0] == 0 && ZeroFree(Leftover(s)[1..]))
  {
    SplitLast(s);
    var last := Split(s)[|Split(s)| - 1];
    assert ([0] + last)[1..] == last;
  }

  /** A stream that ends in a delimiter leaves just that delimiter over. */
  lemma AfterDelimiter(g: seq<byte>)
    ensures Leftover(g + [0]) == [0]
  {
    SplitConcat(g, [0]);
    assert Split([0]) == [[]] + Split([]) == [[], []];
    var p := Split(g);
    assert Joined(p, [[], []]) == p[..|p| - 1] + [p[|p| - 1] + []] + [[]];
  }

  /** One more delimited piece after a delimiter adds exactly that piece. */
  lemma OneMore(z: seq<byte>)
    requires ZeroFree(z)
    ensures Events([0] + z + [0]) == (match DecodeFrame(z) case Some(e) => [e] case None => [])
    ensures Leftover([0] + z + [0]) == [0]
  {
    hide DecodeFrame;
    SplitFirst([], z + [0]);
    SplitFirst(z, []);
    assert [] + [0] + (z + [0]) == [0] + z + [0];
    assert z + [0] + [] == z + [0];
    assert Split([0] + z + [0]) == [[]] + ([z] + [[]]);
    assert Complete([0] + z + [0]) == [z];
    assert Collect([z]) == (match DecodeFrame(z) case Some(e) => [e] case None => []) + Collect([z][1..]);
  }

  /**
   Resynchronisation: whatever came before, a frame made by `BuildAtt` is delivered, as the last
   event, and the stream stands at a delimiter afterwards.  The garbage itself delivers what it
   would have delivered if it had been closed by a single zero.
   */
  lemma Resynchronises(garbage: seq<byte>, ctrl: byte, payload: seq<byte>)
    ensures Events(garbage + BuildAtt(ctrl, payload)) == Events(garbage + [0]) + [Route(ctrl, payload)]
    ensures Leftover(garbage + BuildAtt(ctrl, payload)) == [0]
  {
    hide Encode, DecodeFrame, Events, Leftover, Checked;
    var z := Encode(Checked([ctrl] + payload));
    RoundTrip(Checked([ctrl] + payload));
    assert garbage + BuildAtt(ctrl, payload) == garbage + [0] + (z + [0]);
    Resume(garbage + [0], z + [0]);
    AfterDelimiter(garbage);
    assert [0] + (z + [0]) == [0] + z + [0];
    OneMore(z);
    DecodeBuilt(ctrl, payload);
  }

  /** The garbage in front of a frame can swallow nothing and add at most one event of its own. */
  lemma GarbageAddsAtMostOne(garbage: seq<byte>)
    ensures Events(garbage) <= Events(garbage + [0])
    ensures |Events(garbage + [0])| <= |Events(garbage)| + 1
  {
    hide DecodeFrame;
    Resume(garbage, [0]);
    LeftoverShape(garbage);
    var l := Leftover(garbage);
    if l == [] {
      assert Split([0]) == [[]] + Split([]) == [[], []];
      assert l + [0] == [0];
      assert Events([0]) == [];
    } else {
      assert l == [0] + l[1..];
      OneMore(l[1..]);
    }
  }

  // ---- a stream of frames ----

  datatype Frame = Frame(ctrl: byte, payload: seq<byte>)

  function Wire(frames: seq<Frame>): seq<byte> {
    if frames == [] then [] else BuildAtt(frames[0].ctrl, frames[0].payload) + Wire(frames[1..])
  }

  function Routed(frames: seq<Frame>): seq<Event> {
    if frames == [] then [] else [Route(frames[0].ctrl, frames[0].payload)] + Routed(frames[1..])
  }

  lemma {:induction false} RoutedConcat(a: seq<Frame>, b: seq<Frame>)
    ensures Routed(a + b) == Routed(a) + Routed(b)
  {
    hide Route;
    if a == [] {
      assert a + b == b;
    } else {
      assert (a + b)[1..] == a[1..] + b;
      RoutedConcat(a[1..], b);
    }
  }

  lemma {:induction false} WireSnoc(frames: seq<Frame>, f: Frame)
    ensures Wire(frames + [f]) == Wire(frames) + BuildAtt(f.ctrl, f.payload)
    ensures Routed(frames + [f]) == Routed(frames) + [Route(f.ctrl, f.payload)]
  {
    hide BuildAtt, Route;
    if frames == [] {
      assert frames + [f] == [f];
      assert [f][1..] == [];
    } else {
      assert (frames + [f])[1..] == frames[1..] + [f];
      WireSnoc(frames[1..], f);
    }
  }

  lemma TwoZeros()
    ensures Events([0] + [0]) == []
  {
    assert [0] + [0] == [0] + [] + [0];
    OneMore([]);
    assert DecodeFrame([]) == None;
  }

  /** After any garbage, every frame of a following stream is delivered, in order. */
  lemma {:induction false} ResynchronisesStream(garbage: seq<byte>, frames: seq<Frame>)
    requires frames != []
    ensures Events(garbage + Wire(frames)) == Events(garbage + [0]) + Routed(frames)
    ensures Leftover(garbage + Wire(frames)) == [0]
    decreases |frames|
  {
    hide Events, Leftover, BuildAtt, Route, DecodeFrame;
    var n := |frames| - 1;
    var init, f := frames[..n], frames[n];
    assert frames == init + [f];
    WireSnoc(init, f);
    if init == [] {
      assert Wire(frames) == BuildAtt(f.ctrl, f.payload);
      Resynchronises(garbage, f.ctrl, f.payload);
    } else {
      ResynchronisesStream(garbage, init);
      var heard := garbage + Wire(init);
      assert garbage + Wire(frames) == heard + BuildAtt(f.ctrl, f.payload);
      Resynchronises(heard, f.ctrl, f.payload);
      Resume(heard, [0]);
      TwoZeros();
    }
  }

  lemma OnlyDelimiter()
    ensures Events([0]) == []
  {
    assert Split([0]) == [[]] + Split([]) == [[], []];
  }

  /** A stream of built frames delivers exactly those frames, in order. */
  lemma WireDelivers(frames: seq<Frame>)
    ensures Events(Wire(frames)) == Routed(frames)
    ensures Leftover(Wire(frames)) == if frames == [] then [] else [0]
  {
    OnlyDelimiter();
    if frames != [] {
      hide Events, Leftover;
      ResynchronisesStream([], frames);
      assert [] + Wire(frames) == Wire(frames);
      assert [] + [0] == [0];
    }
  }

  /** A receiver standing at a delimiter delivers the same frames as a fresh one. */
  lemma AfterZeroDelivers(frames: seq<Frame>)
    ensures Events([0] + Wire(frames)) == Routed(frames)
    ensures Leftover([0] + Wire(frames)) == [0]
  {
    if frames == [] {
      OnlyDelimiter();
      assert [0] + Wire(frames) == [0];
      AfterDelimiter([]);
      assert [] + [0] == [0];
    } else {
      hide Events, Leftover;
      ResynchronisesStream([0], frames);
      TwoZeros();
    }
  }

  /** The numbers in an I-frame's control byte read back as they were written. */
  lemma NumbersReadBack(ack: nat, sent: nat)
    ensures var c := ICtrl(ack, sent);
            c % 2 == 0 && SendNumber(c) == sent % 8 && ReceiveNumber(c) == ack % 8
  {
  }

  /** The control bytes of SABM, UA and DISC on the air. */
  lemma TypesAsSent()
    ensures UCtrl(SABM_TYPE) == 0x2F && UCtrl(UA_TYPE) == 0x63 && UCtrl(DISC_TYPE) == 0x43
  {
  }

  function OneIf(bit: bool): nat {
    if bit then 1 else 0
  }

  lemma Remainder8(x: nat, q: nat, r: nat)
    requires x == 8 * q + r && r < 8
    ensures x % 8 == r
  {
  }

  lemma Remainder4(x: nat, q: nat, r: nat)
    requires x == 4 * q + r && r < 4
    ensures x % 4 == r
  {
  }

  lemma LowBits(x: nat)
    ensures x % 8 == OneIf(x % 2 == 1) + 2 * (x / 2 % 4)
    ensures x % 4 == OneIf(x % 2 == 1) + 2 * (x / 2 % 2)
  {
    var y := x / 2;
    Remainder8(x, y / 4, x % 2 + 2 * (y % 4));
    Remainder4(x, y / 2, x % 2 + 2 * (y % 2));
  }

  lemma ThreeBits(x: nat)
    ensures x % 8 == OneIf(x % 2 == 1) + 2 * OneIf(x / 2 % 2 == 1) + 4 * OneIf(x / 4 % 2 == 1)
  {
    LowBits(x);
    LowBits(x / 2);
    assert x / 2 / 2 == x / 4;
    assert x / 4 % 2 == OneIf(x / 4 % 2 == 1);
  }

  lemma Quarters(c: byte)
    ensures c / 2 / 2 == c / 4 && c / 2 / 4 == c / 8
    ensures c / 32 / 2 == c / 64 && c / 32 / 4 == c / 128 && c / 32 % 8 == c / 32
  {
  }

  /** N(S) is bits 1 to 3 of a control byte and N(R) bits 5 to 7. */
  lemma NumbersAsSent(c: byte)
    ensures SendNumber(c)
         == OneIf((ToBits(c) >> 1) & 1 == 1) + 2 * OneIf((ToBits(c) >> 2) & 1 == 1) + 4 * OneIf((ToBits(c) >> 3) & 1 == 1)
    ensures ReceiveNumber(c)
         == OneIf((ToBits(c) >> 5) & 1 == 1) + 2 * OneIf((ToBits(c) >> 6) & 1 == 1) + 4 * OneIf((ToBits(c) >> 7) & 1 == 1)
  {
    hide ToBits, OneIf;
    BitsOfByte(c);
    ThreeBits(c / 2);
    ThreeBits(c / 32);
    Quarters(c);
  }

  /** In a built control byte of an I-frame bits 0 and 4 are clear. */
  lemma BuiltClear(ack: nat, sent: nat)
    ensures ICtrl(ack, sent) % 2 == 0 && ICtrl(ack, sent) / 16 % 2 == 0
  {
  }
}
