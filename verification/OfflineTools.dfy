/**
 The offline reader of captured traffic: the frame splitter and the classifier of what it returns.

 The splitter is not the streaming parser: it consumes the closing delimiter together with the frame.
 What stands in front of a stream decides whether it stays in step: behind an even number of zeros it
 finds every frame, behind an odd number none.
 */
module OfflineTools {
  import opened Bytes
  import opened Cobs
  import opened Hdlc
  import opened AesCtr
  import opened SecureChannel
  import Crc

  // ---- the splitter ----

  /** What `parse_frames` finds. */
  function Offline(raw: seq<byte>): seq<seq<byte>> {
    if raw == [] then []
    else if raw[0] != 0 then Offline(raw[1..])
    else
      var end := NextZero(raw, 1);
      if end == |raw| then []
      else (if end > 1 then [DecodeLenient(raw[1..end])] else []) + Offline(raw[end + 1..])
  }

  /** The next zero of a tail, counted from the start of the whole. */
  lemma {:induction false} ZeroFrom(raw: seq<byte>, i: nat, j: nat)
    requires i + j <= |raw|
    ensures NextZero(raw[i..], j) == NextZero(raw, i + j) - i
    decreases |raw| - i - j
  {
    if i + j < |raw| && raw[i + j] != 0 {
      ZeroFrom(raw, i, j + 1);
    }
  }

  method ParseFrames(raw: seq<byte>) returns (frames: seq<seq<byte>>)
    ensures frames == Offline(raw)
  {
    hide DecodeLenient, NextZero;
    frames := [];
    var i := 0;
    assert raw[0..] == raw;
    while i < |raw|
      invariant 0 <= i <= |raw|
      invariant frames + Offline(raw[i..]) == Offline(raw)
    {
      ZeroFrom(raw, i, 1);
      if raw[i] == 0 {
        var end := NextZero(raw, i + 1);
        if end == |raw| {
          assert Offline(raw[i..]) == [];
          return;
        }
        var cobs := raw[i + 1..end];
        assert raw[i..][1..end - i] == cobs;
        assert raw[i..][end - i + 1..] == raw[end + 1..];
        if cobs != [] {
          frames := frames + [DecodeLenient(cobs)];
        }
        i := end + 1;
      } else {
        assert raw[i..][1..] == raw[i + 1..];
        i := i + 1;
      }
    }
  }

  /** A delimited non-empty piece is taken, together with both its delimiters. */
  lemma OfflinePiece(z: seq<byte>, rest: seq<byte>)
    requires ZeroFree(z)
    ensures Offline([0] + z + [0] + rest) == (if z != [] then [DecodeLenient(z)] else []) + Offline(rest)
  {
    hide DecodeLenient;
    var raw := [0] + z + [0] + rest;
    FirstZero(z, rest);
    assert raw[1..|z| + 1] == z && raw[|z| + 2..] == rest;
  }

  /** The decoded frames the streaming parser would check and route. */
  function Bodies(frames: seq<Frame>): seq<seq<byte>> {
    if frames == [] then [] else [Checked([frames[0].ctrl] + frames[0].payload)] + Bodies(frames[1..])
  }

  /** Checking and routing what the splitter returns. */
  function RouteAll(decoded: seq<seq<byte>>): seq<Event> {
    if decoded == [] then []
    else
      (if |decoded[0]| < 3 then []
       else match Unchecked(decoded[0])
            case None => []
            case Some(body) => [Route(body[0], body[1..])])
      + RouteAll(decoded[1..])
  }

  lemma NothingOffline()
    ensures Offline([]) == []
  {
  }

  lemma {:induction false} OfflineWire(frames: seq<Frame>)
    ensures Offline(Wire(frames)) == Bodies(frames)
  {
    hide Offline, Encode, Decode, DecodeLenient, Checked;
    if frames == [] {
      NothingOffline();
    } else {
      var body := Checked([frames[0].ctrl] + frames[0].payload);
      RoundTrip(body);
      LenientAgrees(Encode(body));
      OfflinePiece(Encode(body), Wire(frames[1..]));
      OfflineWire(frames[1..]);
    }
  }

  lemma CheckedLength(body: seq<byte>)
    ensures |Checked(body)| == |body| + 2
  {
  }

  lemma {:induction false} RouteBodies(frames: seq<Frame>)
    ensures RouteAll(Bodies(frames)) == Routed(frames)
  {
    hide Checked, Unchecked, Route;
    if frames != [] {
      var body := [frames[0].ctrl] + frames[0].payload;
      UncheckedInverts(body);
      CheckedLength(body);
      assert body[1..] == frames[0].payload;
      RouteBodies(frames[1..]);
      assert Bodies(frames)[1..] == Bodies(frames[1..]);
    }
  }

  // ---- what precedes a stream decides ----

  function ZeroCount(s: seq<byte>): nat {
    if s == [] then 0 else (if s[0] == 0 then 1 else 0) + ZeroCount(s[1..])
  }

  lemma {:induction false} ZeroCountConcat(a: seq<byte>, b: seq<byte>)
    ensures ZeroCount(a + b) == ZeroCount(a) + ZeroCount(b)
  {
    if a == [] {
      assert a + b == b;
    } else {
      assert (a + b)[1..] == a[1..] + b;
      ZeroCountConcat(a[1..], b);
    }
  }

  lemma {:induction false} NoneCounted(z: seq<byte>)
    ensures ZeroCount(z) == 0 <==> ZeroFree(z)
  {
    if z != [] {
      NoneCounted(z[1..]);
      assert forall i :: 0 <= i < |z[1..]| ==> z[1..][i] == z[i + 1];
    }
  }

  lemma LoneZero(z: seq<byte>)
    requires ZeroFree(z)
    ensures Offline([0] + z) == []
  {
    var raw := [0] + z;
    assert forall k :: 1 <= k < |raw| ==> raw[k] == z[k - 1];
  }

  lemma {:induction false} SkipToZero(z: seq<byte>, rest: seq<byte>)
    requires ZeroFree(z)
    ensures Offline(z + rest) == Offline(rest)
  {
    if z == [] {
      assert z + rest == rest;
    } else {
      assert (z + rest)[1..] == z[1..] + rest;
      assert ZeroFree(z[1..]);
      SkipToZero(z[1..], rest);
    }
  }

  /** A string with a zero in it, cut at the first or at the last one. */
  lemma CutFirst(g: seq<byte>) returns (z: seq<byte>, rest: seq<byte>)
    requires ZeroCount(g) > 0
    ensures g == z + [0] + rest && ZeroFree(z) && ZeroCount(rest) == ZeroCount(g) - 1
  {
    NoneCounted(g);
    var i := NextZero(g, 0);
    z, rest := g[..i], g[i + 1..];
    assert g == z + [0] + rest;
    ZeroCountConcat(z + [0], rest);
    ZeroCountConcat(z, [0]);
    NoneCounted(z);
    assert ZeroCount([0]) == 1 + ZeroCount([]);
  }

  lemma {:induction false} CutLast(g: seq<byte>) returns (a: seq<byte>, z: seq<byte>)
    requires ZeroCount(g) > 0
    ensures g == a + [0] + z && ZeroFree(z) && ZeroCount(a) == ZeroCount(g) - 1
    decreases |g|
  {
    var first, rest := CutFirst(g);
    if ZeroCount(rest) == 0 {
      NoneCounted(rest);
      NoneCounted(first);
      a, z := first, rest;
    } else {
      a, z := CutLast(rest);
      assert g == first + [0] + a + [0] + z;
      ZeroCountConcat(first + [0], a);
      ZeroCountConcat(first, [0]);
      NoneCounted(first);
      assert ZeroCount([0]) == 1 + ZeroCount([]);
      a := first + [0] + a;
    }
  }

  /** After an even number of zeros every delimiter has been paired: what follows is read afresh. */
  lemma {:induction false} EvenReadsAfresh(g: seq<byte>, tail: seq<byte>)
    requires ZeroCount(g) % 2 == 0
    ensures Offline(g + tail) == Offline(g) + Offline(tail)
    decreases |g|
  {
    hide Offline, DecodeLenient, ZeroCount;
    if ZeroCount(g) == 0 {
      NoneCounted(g);
      SkipToZero(g, tail);
      SkipToZero(g, []);
      NothingOffline();
      assert g + [] == g;
    } else {
      var skipped, open := CutFirst(g);
      var z, rest := CutFirst(open);
      EvenReadsAfresh(rest, tail);
      assert g == skipped + ([0] + z + [0] + rest);
      assert g + tail == skipped + ([0] + z + [0] + (rest + tail));
      SkipToZero(skipped, [0] + z + [0] + rest);
      SkipToZero(skipped, [0] + z + [0] + (rest + tail));
      OfflinePiece(z, rest);
      OfflinePiece(z, rest + tail);
    }
  }

  /** A parser out of step takes every closing delimiter for an opening one and finds nothing. */
  lemma {:induction false} OutOfStep(frames: seq<Frame>)
    ensures Offline([0] + Wire(frames)) == []
  {
    hide Offline, Encode, Checked, DecodeLenient;
    if frames == [] {
      LoneZero([]);
      assert [0] + Wire(frames) == [0] + [];
    } else {
      var z := Encode(Checked([frames[0].ctrl] + frames[0].payload));
      RoundTrip(Checked([frames[0].ctrl] + frames[0].payload));
      var rest := [0] + Wire(frames[1..]);
      assert [0] + Wire(frames) == [0] + [] + [0] + (z + rest);
      OfflinePiece([], z + rest);
      SkipToZero(z, rest);
      OutOfStep(frames[1..]);
    }
  }

  lemma ClosePiece(a: seq<byte>, z: seq<byte>, rest: seq<byte>)
    requires ZeroCount(a) % 2 == 0 && ZeroFree(z)
    ensures Offline(a + [0] + z + [0] + rest) == Offline(a) + (if z != [] then [DecodeLenient(z)] else []) + Offline(rest)
  {
    hide Offline, DecodeLenient, ZeroCount;
    assert a + [0] + z + [0] + rest == a + ([0] + z + [0] + rest);
    EvenReadsAfresh(a, [0] + z + [0] + rest);
    OfflinePiece(z, rest);
  }

  /** What a parser out of step reads of a stream after its first delimiter. */
  lemma AfterFirstDelimiter(frames: seq<Frame>)
    requires frames != []
    ensures Wire(frames) == [0] + Wire(frames)[1..] && Offline(Wire(frames)[1..]) == []
  {
    hide Offline, Encode, Checked;
    var e := Encode(Checked([frames[0].ctrl] + frames[0].payload));
    RoundTrip(Checked([frames[0].ctrl] + frames[0].payload));
    var later := [0] + Wire(frames[1..]);
    assert Wire(frames)[1..] == e + later;
    SkipToZero(e, later);
    OutOfStep(frames[1..]);
  }

  /** The piece an odd number of zeros leaves open is closed by the first delimiter that follows. */
  lemma OddClosesPiece(g: seq<byte>, frames: seq<Frame>)
    requires ZeroCount(g) % 2 == 1 && frames != []
    ensures Offline(g + Wire(frames)) == Offline(g + [0])
    ensures |Offline(g + [0])| <= |Offline(g)| + 1
  {
    hide Offline, DecodeLenient, ZeroCount, Wire;
    var a, z := CutLast(g);
    AfterFirstDelimiter(frames);
    var more := Wire(frames)[1..];
    assert g + Wire(frames) == a + [0] + z + [0] + more;
    assert g + [0] == a + [0] + z + [0] + [];
    assert g == a + ([0] + z);
    ClosePiece(a, z, more);
    ClosePiece(a, z, []);
    EvenReadsAfresh(a, [0] + z);
    LoneZero(z);
    NothingOffline();
  }

  lemma {:induction false} BodiesLength(frames: seq<Frame>)
    ensures |Bodies(frames)| == |frames|
  {
    hide Checked;
    if frames != [] {
      BodiesLength(frames[1..]);
    }
  }

  /**
   Whatever bytes precede a stream of frames: with an even number of zeros among them the splitter
   finds every frame, with an odd number none, while the streaming parser delivers them all.
   */
  lemma SplitterByParity(g: seq<byte>, frames: seq<Frame>)
    ensures ZeroCount(g) % 2 == 0 ==> Offline(g + Wire(frames)) == Offline(g) + Bodies(frames)
    ensures ZeroCount(g) % 2 == 1 && frames != [] ==> Offline(g + Wire(frames)) == Offline(g + [0])
    ensures |frames| >= 2 ==>
      (ZeroCount(g) % 2 == 0 <==> Offline(g + Wire(frames)) == Offline(g) + Bodies(frames))
    ensures frames != [] ==> Events(g + Wire(frames)) == Events(g + [0]) + RouteAll(Bodies(frames))
  {
    hide Offline, Events, RouteAll, ZeroCount;
    if ZeroCount(g) % 2 == 0 {
      EvenReadsAfresh(g, Wire(frames));
      OfflineWire(frames);
    } else if frames != [] {
      OddClosesPiece(g, frames);
      BodiesLength(frames);
    }
    if frames != [] {
      ResynchronisesStream(g, frames);
      RouteBodies(frames);
    }
  }

  /** On any concatenation of built frames the splitter returns what the streaming parser accepts. */
  lemma SplitterAgrees(frames: seq<Frame>)
    ensures RouteAll(Offline(Wire(frames))) == Events(Wire(frames))
  {
    hide Offline, RouteAll, Events;
    SplitterByParity([], frames);
    NothingOffline();
    assert [] + Wire(frames) == Wire(frames);
    assert [] + Bodies(frames) == Bodies(frames);
    RouteBodies(frames);
    WireDelivers(frames);
  }

  /** The smallest case of an odd number: one stray zero, and every frame is missed. */
  lemma StrayZeroLosesAll(frames: seq<Frame>)
    ensures Offline([0] + Wire(frames)) == []
    ensures Events([0] + Wire(frames)) == Routed(frames)
  {
    hide Offline, Events, RouteAll;
    assert ZeroCount([0]) == 1 + ZeroCount([]);
    SplitterByParity([0], frames);
    LoneZero([]);
    assert [0] + [] == [0];
    OfflinePiece([], []);
    assert [0] + [] + [0] + [] == [0] + [0];
    NothingOffline();
    assert frames == [] ==> [0] + Wire(frames) == [0];
    AfterZeroDelivers(frames);
  }

  // ---- the classifier ----

  datatype Content = Encrypted(bytes: nat, ble20: int) | Plaintext(kind: byte) | Empty

  datatype Class =
    | Short(length: nat)
    | IFrame(ns: nat, nr: nat, content: Content)
    | SFrame(kind: nat, nr: nat)
    | UFrame(ctrl: byte)
    | Unknown(ctrl: byte)

  /** What `classify_frame` says of one decoded frame; it does not look at the check. */
  function Classify(decoded: seq<byte>): Class {
    if |decoded| < 3 then Short(|decoded|)
    else
      var ctrl, payload := decoded[0], decoded[1..|decoded| - 2];
      if ctrl % 2 == 0 then
        IFrame(SendNumber(ctrl), ReceiveNumber(ctrl),
               if payload == [] then Empty
               else if payload[0] == ENCRYPTED then Encrypted(|payload| - 1, |payload| - 1 - 5)
               else Plaintext(payload[0]))
      else if ctrl % 4 == 1 then SFrame(ctrl / 4 % 4, ReceiveNumber(ctrl))
      else if ctrl % 4 == 3 then UFrame(ctrl)
      else Unknown(ctrl)
  }

  /** The classifier reads back the numbers `_i_ctrl` wrote, for every payload. */
  lemma ClassifyReadsNumbers(ack: nat, sent: nat, payload: seq<byte>)
    ensures var c := Classify(Checked([ICtrl(ack, sent)] + payload));
            c.IFrame? && c.ns == sent % 8 && c.nr == ack % 8
  {
    hide Crc.KermitBytes, ICtrl, SendNumber, ReceiveNumber;
    NumbersReadBack(ack, sent);
  }

  /** The classifier and the receiver's routing name the same kind of frame; nothing is unknown. */
  lemma ClassifyMatchesRoute(ctrl: byte, payload: seq<byte>)
    ensures var c := Classify(Checked([ctrl] + payload));
            && !c.Unknown? && !c.Short?
            && (c.IFrame? <==> Route(ctrl, payload).I?)
            && (c.UFrame? <==> Route(ctrl, payload).U?)
            && (c.SFrame? <==> Route(ctrl, payload).S?)
  {
    hide Crc.KermitBytes;
    assert Checked([ctrl] + payload)[0] == ctrl;
  }

  lemma EncodeIsFrom(data: seq<byte>)
    ensures Encode(data) == EncodeFrom([], data)
  {
  }

  /**
   The size it prints for an encrypted frame is the size of the application payload, except that
   every closed full group of the inner stuffing is counted as one more byte.
   */
  lemma ClassifySizes(c: Cipher, at: nat, ack: nat, sent: nat, payload: seq<byte>)
    ensures var f := EncryptedFrame(c, at, ICtrl(ack, sent), payload);
            var k := Classify(Checked([f.ctrl] + f.payload));
            && k.IFrame? && k.content.Encrypted?
            && k.content.ble20 == |payload| + FullGroups(0, Checked(payload))
            && (|payload| < 252 ==> k.content.ble20 == |payload|)
  {
    hide Crc.KermitBytes, ICtrl, SendNumber, ReceiveNumber, Apply, Encode, FullGroups;
    NumbersReadBack(ack, sent);
    EncodedLength([], Checked(payload));
    EncodeIsFrom(Checked(payload));
    Overhead(Checked(payload));
    var f := EncryptedFrame(c, at, ICtrl(ack, sent), payload);
    var d := Checked([f.ctrl] + f.payload);
    assert d[1..|d| - 2] == f.payload;
  }
}
