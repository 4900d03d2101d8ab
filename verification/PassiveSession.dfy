/**
 Passive decryption of whole sessions of the modelled device: from the UA and the plaintext handshake
 on, with the client's supervisory and handshake frames in between, on an observer in any state.
 */
module PassiveSession {
  import opened Bytes
  import opened Hdlc
  import opened AesCtr
  import opened SecureChannel
  import opened PassiveDecryption
  import opened ArendiTheorems
  import A = ArendiSession
  import S = ArendiServer

  /** No encrypted frame of the client is completed before the device's EP_RESP has been. */
  ghost predicate KeysFirst(frames: seq<Tagged>) {
    forall i :: 0 <= i < |frames| && frames[i].dir == AppToDev && IsEncrypted(frames[i].event) ==>
      exists j :: 0 <= j < i && frames[j].dir == DevToApp && IsEpResp(frames[j].event)
  }

  // ---- the device's side of a session ----

  /** One more entry of a well-formed log, as the observer sees it. */
  lemma EntryReported(k: nat, keys: Option<A.Keys>, before: seq<A.Entry>, e: A.Entry, tx: Cipher)
    requires Fits(k, keys, before, e) && (keys.Some? ==> tx == keys.value.tx)
    ensures Reported(tx, Used(before), Routed(Frames([e]))) == EachIntact(if e.Enc? then [e.payload] else [])
    ensures Consumed(Used(before), Routed(Frames([e]))) == Used(before) + if e.Enc? then |InnerEncode(e.payload)| else 0
    ensures |before| >= 3 ==> NoEpResp(Routed(Frames([e])))
  {
    hide Apply, InnerEncode, FindInner, StorageThenRead, Intact;
    EntryOpens(k, keys, before, e, tx);
    assert [e][..0] == [];
    match e
    case Enc(ctrl, cipher, at, payload) =>
      OpenOne(cipher, at, ctrl, payload);
      var f := EncryptedFrame(cipher, at, ctrl, payload);
      assert Routed([f]) == [Route(f.ctrl, f.payload)];
      RouteKeeps(f.ctrl, f.payload);
      ApplyTwice(cipher, at, InnerEncode(payload));
      OneInner(payload);
    case _ =>
  }

  lemma {:induction false} EachIntactConcat(a: seq<seq<byte>>, b: seq<seq<byte>>)
    ensures EachIntact(a + b) == EachIntact(a) + EachIntact(b)
  {
    hide Intact;
    if a == [] {
      assert a + b == b;
    } else {
      assert (a + b)[1..] == a[1..] + b;
      EachIntactConcat(a[1..], b);
    }
  }

  lemma NothingReported(c: Cipher)
    ensures Reported(c, 0, Routed(Frames([]))) == EachIntact(Sent([])) && Consumed(0, Routed(Frames([]))) == Used([])
  {
  }

  /** Every well-formed log of a phase gives the observer exactly the payloads the device sent. */
  lemma {:induction false} LogReported(k: nat, p: A.Phase, n: nat, tx: Cipher)
    requires Ordered(k, p) && n <= |p.log|
    requires p.keys.Some? ==> tx == p.keys.value.tx
    ensures Reported(tx, 0, Routed(Frames(p.log[..n]))) == EachIntact(Sent(p.log[..n]))
    ensures Consumed(0, Routed(Frames(p.log[..n]))) == Used(p.log[..n])
  {
    hide Reported, Consumed, Routed, Frames, Sent, Used, InnerEncode, Fits, EachIntact;
    if n == 0 {
      NothingReported(tx);
    } else {
      var log, e := p.log[..n - 1], p.log[n - 1];
      LogReported(k, p, n - 1, tx);
      assert p.log[..n] == log + [e];
      assert Fits(k, p.keys, log, e);
      hide Ordered;
      SentSnoc(log, e);
      LastFrame(log, e);
      RoutedConcat(Frames(log), Frames([e]));
      ReportedConcat(tx, 0, Routed(Frames(log)), Routed(Frames([e])));
      ConsumedConcat(0, Routed(Frames(log)), Routed(Frames([e])));
      EntryReported(k, p.keys, log, e, tx);
      EachIntactConcat(Sent(log), if e.Enc? then [e.payload] else []);
    }
  }

  /** The third frame of a phase is its EP_RESP, the only one; nothing up to it is encrypted. */
  ghost predicate ArmsThird(events: seq<Event>, ep: A.Entry) {
    && ep.Plain? && |events| >= 3 && events[2] == Route(ep.ctrl, ep.payload)
    && (forall i :: 0 <= i < 3 ==> !IsEncrypted(events[i]))
    && (forall i :: 0 <= i < |events| && i != 2 ==> !IsEpResp(events[i]))
  }

  lemma ArmsMore(events: seq<Event>, more: seq<Event>, ep: A.Entry)
    requires ArmsThird(events, ep) && NoEpResp(more)
    ensures ArmsThird(events + more, ep)
  {
    hide IsEpResp, IsEncrypted, Route;
  }

  lemma ArmsStep(k: nat, p: A.Phase, log: seq<A.Entry>, e: A.Entry, ep: A.Entry)
    requires ArmsThird(Routed(Frames(log)), ep) && Fits(k, p.keys, log, e) && |log| >= 3
    ensures ArmsThird(Routed(Frames(log + [e])), ep)
  {
    hide Frames, Routed, Fits, ArmsThird, NoEpResp, Reported, Consumed, Used, InnerEncode, EachIntact;
    LastFrame(log, e);
    RoutedConcat(Frames(log), Frames([e]));
    if p.keys.Some? {
      EntryReported(k, p.keys, log, e, p.keys.value.tx);
    } else {
      EntryReported(k, p.keys, log, e, Cipher(b => b, NO_NONCE));
    }
    ArmsMore(Routed(Frames(log)), Routed(Frames([e])), ep);
  }

  lemma RoutedThree(fs: seq<Frame>)
    requires |fs| == 3
    ensures Routed(fs) == [Route(fs[0].ctrl, fs[0].payload), Route(fs[1].ctrl, fs[1].payload),
                           Route(fs[2].ctrl, fs[2].payload)]
  {
    hide Route;
    assert fs[1..][1..] == [fs[2]] && fs[1..][1..][1..] == [];
    assert Routed(fs[1..]) == [Route(fs[1].ctrl, fs[1].payload)] + Routed([fs[2]]);
    assert Routed([fs[2]]) == [Route(fs[2].ctrl, fs[2].payload)] + Routed([]);
  }

  lemma OneFrame(e: A.Entry)
    requires e.Ua? || e.Plain?
    ensures Frames([e]) == [if e.Ua? then Frame(UCtrl(UA_TYPE), []) else Frame(e.ctrl, e.payload)]
  {
    assert [e][..0] == [];
  }

  lemma ThreeFrames(k: nat, p: A.Phase)
    requires Ordered(k, p) && 3 <= |p.log|
    ensures ArmsThird(Routed(Frames(p.log[..3])), p.log[2])
  {
    hide StorageThenRead;
    var a, b, c := p.log[0], p.log[1], p.log[2];
    assert Fits(k, p.keys, p.log[..0], a);
    assert Fits(k, p.keys, p.log[..1], b);
    assert Fits(k, p.keys, p.log[..2], c);
    assert p.log[..3] == [a] + [b] + [c];
    LastFrame([a] + [b], c);
    LastFrame([a], b);
    OneFrame(a);
    OneFrame(b);
    OneFrame(c);
    hide Frames;
    var fs := Frames([a]) + Frames([b]) + Frames([c]);
    assert fs == [Frame(UCtrl(UA_TYPE), []), Frame(b.ctrl, b.payload), Frame(c.ctrl, c.payload)];
    RoutedThree(fs);
  }

  lemma {:induction false} DeviceArms(k: nat, p: A.Phase, n: nat)
    requires Ordered(k, p) && 3 <= n <= |p.log|
    ensures ArmsThird(Routed(Frames(p.log[..n])), p.log[2])
  {
    hide Frames, Routed, Fits, ArmsThird;
    if n == 3 {
      ThreeFrames(k, p);
    } else {
      DeviceArms(k, p, n - 1);
      assert p.log[..n] == p.log[..n - 1] + [p.log[n - 1]];
      assert Fits(k, p.keys, p.log[..n - 1], p.log[n - 1]);
      ArmsStep(k, p, p.log[..n - 1], p.log[n - 1], p.log[2]);
    }
  }

  const NO_NONCE: Block := [0, 0, 0, 0, 0, 0, 0, 0, 0, 0, 0, 0, 0, 0, 0, 0]

  // ---- finding the EP_RESP among the interleaved frames ----

  /** A frame of one direction has a place among all frames. */
  lemma OfDirHead(dir: Direction, f: Tagged, rest: seq<Tagged>)
    ensures OfDir(dir, [f] + rest) == (if f.dir == dir then [f.event] else []) + OfDir(dir, rest)
  {
    assert ([f] + rest)[1..] == rest;
  }

  lemma OneBehind<T>(s: seq<T>, i: nat)
    requires i + 1 < |s|
    ensures s[..i + 1] == [s[0]] + s[1..][..i] && s[i + 2..] == s[1..][i + 1..] && s == [s[0]] + s[1..]
  {
  }

  lemma OneInFront<T>(x: T, d: seq<T>, n: nat)
    requires n < |d|
    ensures var e := [x] + d; e[n + 1] == d[n] && e[..n + 1] == [x] + d[..n] && e[n + 2..] == d[n + 1..]
  {
  }

  /** Frame `j` is the n-th one of its direction. */
  predicate Located(dir: Direction, frames: seq<Tagged>, n: nat, j: nat) {
    && n < |OfDir(dir, frames)| && j < |frames|
    && frames[j] == Tagged(dir, OfDir(dir, frames)[n])
    && OfDir(dir, frames[..j]) == OfDir(dir, frames)[..n]
    && OfDir(dir, frames[j + 1..]) == OfDir(dir, frames)[n + 1..]
  }

  lemma LocatedHere(dir: Direction, frames: seq<Tagged>)
    requires frames != [] && frames[0].dir == dir
    ensures Located(dir, frames, 0, 0)
  {
    NoFrames(dir);
    OfDirHead(dir, frames[0], frames[1..]);
    hide OfDir;
    assert frames[..0] == [] && frames == [frames[0]] + frames[1..];
  }

  lemma LocatedLater(dir: Direction, frames: seq<Tagged>, m: nat, i: nat)
    requires frames != [] && Located(dir, frames[1..], m, i)
    ensures Located(dir, frames, if frames[0].dir == dir then m + 1 else m, i + 1)
  {
    var f, rest := frames[0], frames[1..];
    hide OfDir;
    OneBehind(frames, i);
    OfDirHead(dir, f, rest);
    OfDirHead(dir, f, rest[..i]);
    if f.dir == dir {
      OneInFront(f.event, OfDir(dir, rest), m);
    } else {
      assert [] + OfDir(dir, rest) == OfDir(dir, rest) && [] + OfDir(dir, rest[..i]) == OfDir(dir, rest[..i]);
    }
  }

  lemma {:induction false} Locate(dir: Direction, frames: seq<Tagged>, n: nat) returns (j: nat)
    requires n < |OfDir(dir, frames)|
    ensures Located(dir, frames, n, j)
    decreases |frames|
  {
    hide Located;
    assert frames != [];
    if frames[0].dir == dir && n == 0 {
      LocatedHere(dir, frames);
      j := 0;
    } else {
      var m := if frames[0].dir == dir then n - 1 else n;
      j := Locate(dir, frames[1..], m);
      LocatedLater(dir, frames, m, j);
      j := j + 1;
    }
  }

 lemma {:induction false} InOfDir(dir: Direction, frames: seq<Tagged>, i: nat)
    requires i < |frames| && frames[i].dir == dir
    ensures frames[i].event in OfDir(dir, frames)
    decreases |frames|
  {
    if i > 0 {
      InOfDir(dir, frames[1..], i - 1);
    }
  }

  /** A client stream with no EP_RESP and a device stream with one: everything hangs on that one. */
  lemma OneArms(frames: seq<Tagged>, ep: A.Entry) returns (j: nat)
    requires ArmsThird(OfDir(DevToApp, frames), ep) && NoEpResp(OfDir(AppToDev, frames)) && KeysFirst(frames)
    ensures j < |frames| && frames[j] == Tagged(DevToApp, Route(ep.ctrl, ep.payload))
    ensures NoneArms(frames[..j]) && NoneArms(frames[j + 1..])
    ensures forall i :: 0 <= i < j ==> !IsEncrypted(frames[i].event)
    ensures OfDir(DevToApp, frames[j + 1..]) == OfDir(DevToApp, frames)[3..]
    ensures OfDir(DevToApp, frames[..j]) == OfDir(DevToApp, frames)[..2]
  {
    hide IsEpResp, IsEncrypted;
    j := Locate(DevToApp, frames, 2);
    var before, after := frames[..j], frames[j + 1..];
    var d := OfDir(DevToApp, frames);
    forall i | 0 <= i < |frames| && i != j
      ensures !IsEpResp(frames[i].event)
    {
      if frames[i].dir == AppToDev {
        InOfDir(AppToDev, frames, i);
      } else if i < j {
        InOfDir(DevToApp, before, i);
        assert before[i].event in d[..2];
      } else {
        InOfDir(DevToApp, after, i - j - 1);
        assert after[i - j - 1].event in d[3..];
      }
    }
    forall i | 0 <= i < j
      ensures !IsEncrypted(frames[i].event)
    {
      if frames[i].dir == DevToApp {
        InOfDir(DevToApp, before, i);
        assert before[i].event in d[..2];
      }
    }
  }

  lemma {:induction false} PlainReportsNothing(c: Cipher, at: nat, a: seq<Event>, b: seq<Event>)
    requires NoneEncrypted(a)
    ensures Reported(c, at, a + b) == Reported(c, at, b)
    decreases |a|
  {
    hide FindInner, Apply, IsEncrypted;
    if a == [] {
      assert a + b == b;
    } else {
      assert (a + b)[1..] == a[1..] + b;
      assert NoneEncrypted(a[1..]);
      PlainReportsNothing(c, at, a[1..], b);
    }
  }

  lemma {:induction false} PlainIgnored(o: Observer, frames: seq<Tagged>, sessions: map<seq<byte>, SessionKeys>)
    requires NoneArms(frames) && forall i :: 0 <= i < |frames| ==> !IsEncrypted(frames[i].event)
    ensures SeeTagged(o, frames, sessions) == o
    decreases |frames|
  {
    hide IsEpResp, IsEncrypted;
    if frames != [] {
      assert NoneArms(frames[1..]);
      PlainIgnored(o, frames[1..], sessions);
    }
  }

  lemma {:induction false} OfDirPlain(dir: Direction, frames: seq<Tagged>)
    requires forall i :: 0 <= i < |frames| ==> !IsEncrypted(frames[i].event)
    ensures NoneEncrypted(OfDir(dir, frames))
  {
    hide IsEncrypted;
    if frames != [] {
      OfDirPlain(dir, frames[1..]);
    }
  }

  /** The keys an observer has for a session are the device's own, by their nonce. */
  predicate Knows(sessions: map<seq<byte>, SessionKeys>, ep: A.Entry) {
    ep.Plain? && |ep.payload| >= 33 && ep.payload[0] == EP_RESP && ep.payload[17..33] in sessions
  }

  function KeyFor(dir: Direction, sessions: map<seq<byte>, SessionKeys>, ep: A.Entry): Cipher
    requires Knows(sessions, ep)
  {
    var nonce2 := ep.payload[17..33];
    Cipher(if dir == DevToApp then sessions[nonce2].rx else sessions[nonce2].tx, nonce2)
  }

  /** Seen frame by frame: each direction is decrypted as if only it had been captured. */
  lemma FramesOfSession(o: Observer, frames: seq<Tagged>, ep: A.Entry, dir: Direction,
                        sessions: map<seq<byte>, SessionKeys>)
    requires ArmsThird(OfDir(DevToApp, frames), ep) && NoEpResp(OfDir(AppToDev, frames)) && KeysFirst(frames)
    requires Knows(sessions, ep) && ep.ctrl % 2 == 0
    ensures Of(dir, SeeTagged(o, frames, sessions).reports)
         == Of(dir, o.reports) + Reported(KeyFor(dir, sessions, ep), 0, OfDir(dir, frames))
  {
    hide Reported, Of, SeeTagged, OfDir, NoEpResp;
    var j := OneArms(frames, ep);
    var before, f, after := frames[..j], frames[j], frames[j + 1..];
    LatestEpRespDecides(o, frames, j, dir, sessions);
    PlainIgnored(o, before, sessions);
    assert frames == before + ([f] + after);
    OfDirConcat(dir, before, [f] + after);
    OfDirHead(dir, f, after);
    OfDirPlain(dir, before);
    var c := KeyFor(dir, sessions, ep);
    PlainReportsNothing(c, 0, OfDir(dir, before), OfDir(dir, [f] + after));
    PlainReportsNothing(c, 0, if f.dir == dir then [f.event] else [], OfDir(dir, after));
    assert [] + OfDir(dir, after) == OfDir(dir, after);
  }

  lemma ThirdIsNumbered(k: nat, p: A.Phase)
    requires Ordered(k, p) && |p.log| >= 3
    ensures p.log[2].Plain? && p.log[2].ctrl % 2 == 0
  {
    hide StorageThenRead, Used, CountI, SendNumber;
    assert Fits(k, p.keys, p.log[..2], p.log[2]);
  }

  /** The client's frames of one session and what its encrypted ones carry. */
  datatype Client = Client(frames: seq<Frame>, payloads: seq<seq<byte>>)

  /** The payloads one side sends in a session. */
  function Said(dir: Direction, p: A.Phase, client: Client): seq<seq<byte>> {
    if dir == DevToApp then Sent(p.log) else client.payloads
  }

  /**
   The observer has the device's keys of the session, by the nonce of its EP_RESP, and the client uses
   them; or no keys were agreed and the client encrypts nothing.
   */
  ghost predicate Known(p: A.Phase, client: Client, sessions: map<seq<byte>, SessionKeys>) {
    if p.keys.Some? then
      && |p.log| >= 3 && Knows(sessions, p.log[2])
      && p.keys.value == A.Keys(KeyFor(DevToApp, sessions, p.log[2]), KeyFor(AppToDev, sessions, p.log[2]))
      && Carries(p.keys.value.rx, 0, client.frames, client.payloads)
    else NoneEncrypted(Routed(client.frames)) && client.payloads == []
  }

  /** Without encrypted frames nothing is reported, whatever EP_RESPs there are. */
  lemma {:induction false} PlainUnreported(o: Observer, frames: seq<Tagged>, sessions: map<seq<byte>, SessionKeys>)
    requires forall i :: 0 <= i < |frames| ==> !IsEncrypted(frames[i].event)
    ensures SeeTagged(o, frames, sessions).reports == o.reports
    decreases |frames|
  {
    hide IsEpResp, IsEncrypted;
    if frames != [] {
      PlainUnreported(See(o, frames[0].dir, frames[0].event, sessions), frames[1..], sessions);
    }
  }

  lemma NothingBuilt()
    ensures NoneEncrypted(Routed(Frames([]))) && Sent([]) == []
  {
  }

  lemma UnkeyedEntry(k: nat, before: seq<A.Entry>, e: A.Entry)
    requires Fits(k, None, before, e) && |before| < 3
    ensures !e.Enc? && NoneEncrypted(Routed(Frames([e])))
  {
    hide StorageThenRead, Used, CountI, SendNumber;
    assert [e][..0] == [];
  }

  /** A phase without keys has built nothing but its UA and plaintext answers. */
  lemma {:induction false} UnkeyedPlain(k: nat, p: A.Phase, n: nat)
    requires Ordered(k, p) && p.keys == None && n <= |p.log| && n <= 3
    ensures NoneEncrypted(Routed(Frames(p.log[..n]))) && Sent(p.log[..n]) == []
  {
    hide Routed, Frames, Sent, IsEncrypted, Fits;
    if n == 0 {
      NothingBuilt();
    } else {
      var log, e := p.log[..n - 1], p.log[n - 1];
      UnkeyedPlain(k, p, n - 1);
      assert p.log[..n] == log + [e];
      assert Fits(k, p.keys, log, e);
      LastFrame(log, e);
      SentSnoc(log, e);
      RoutedConcat(Frames(log), Frames([e]));
      UnkeyedEntry(k, log, e);
    }
  }

  lemma {:induction false} InDirection(frames: seq<Tagged>, i: nat)
    requires i < |frames| && NoneEncrypted(OfDir(frames[i].dir, frames))
    ensures !IsEncrypted(frames[i].event)
  {
    hide IsEncrypted;
    InOfDir(frames[i].dir, frames, i);
  }

  lemma NothingIntact()
    ensures EachIntact([]) == []
  {
  }

  /** The frames of one session, in any interleaving, on an observer in any state. */
  lemma SessionReported(o: Observer, frames: seq<Tagged>, sessions: map<seq<byte>, SessionKeys>, dir: Direction,
                        k: nat, p: A.Phase, client: Client)
    requires PhaseOk(k, p) && Known(p, client, sessions) && (p.keys.Some? ==> KeysFirst(frames))
    requires OfDir(DevToApp, frames) == Routed(Frames(p.log)) && OfDir(AppToDev, frames) == Routed(client.frames)
    ensures Of(dir, SeeTagged(o, frames, sessions).reports) == Of(dir, o.reports) + EachIntact(Said(dir, p, client))
  {
    hide Of, Carries, Reported, EachIntact, Routed, OfDir, Frames, Sent, KeysFirst, Ordered, NoEpResp, ArmsThird,
         Consumed, Used, SeeTagged, KeyFor, IsEncrypted, NoneEncrypted, Open, Received, Taken;
    assert p.log[..|p.log|] == p.log;
    if p.keys.Some? {
      ThirdIsNumbered(k, p);
      DeviceArms(k, p, |p.log|);
      ReportedCarried(p.keys.value.rx, 0, client.frames, client.payloads);
      LogReported(k, p, |p.log|, p.keys.value.tx);
      FramesOfSession(o, frames, p.log[2], dir, sessions);
    } else {
      UnkeyedPlain(k, p, |p.log|);
      forall i | 0 <= i < |frames|
        ensures !IsEncrypted(frames[i].event)
      {
        assert frames[i].dir == DevToApp || frames[i].dir == AppToDev;
        InDirection(frames, i);
      }
      PlainUnreported(o, frames, sessions);
      NothingIntact();
      assert Of(dir, o.reports) + [] == Of(dir, o.reports);
    }
  }

  /** What a parser has kept after these chunks. */
  function Kept(buf: seq<byte>, chunks: seq<seq<byte>>): seq<byte>
    decreases |chunks|
  {
    if chunks == [] then buf else Kept(Leftover(buf + chunks[0]), chunks[1..])
  }

  lemma {:induction false} KeptFrom(heard: seq<byte>, chunks: seq<seq<byte>>)
    ensures Kept(Leftover(heard), chunks) == Leftover(heard + Flatten(chunks))
    decreases |chunks|
  {
    hide Leftover, Events;
    if chunks == [] {
      assert heard + [] == heard;
    } else {
      Resume(heard, chunks[0]);
      assert Kept(Leftover(heard), chunks) == Kept(Leftover(heard + chunks[0]), chunks[1..]);
      KeptFrom(heard + chunks[0], chunks[1..]);
      assert heard + (chunks[0] + Flatten(chunks[1..])) == heard + chunks[0] + Flatten(chunks[1..]);
    }
  }

  /** A parser at a frame boundary stands at one again after a stream of frames. */
  lemma AtBoundary(buf: seq<byte>, chunks: seq<seq<byte>>, frames: seq<Frame>)
    requires (buf == [] || buf == [0]) && Flatten(chunks) == Wire(frames)
    ensures Kept(buf, chunks) == [] || Kept(buf, chunks) == [0]
  {
    hide Leftover, Kept, Wire;
    if buf == [] {
      NothingHeard();
      KeptFrom([], chunks);
      assert [] + Flatten(chunks) == Flatten(chunks);
      WireDelivers(frames);
    } else {
      AfterDelimiter([]);
      assert [] + [0] == [0];
      OnlyDelimiter();
      KeptFrom([0], chunks);
      AfterZeroDelivers(frames);
    }
  }

  lemma ChunksHead(dir: Direction, rows: seq<Row>)
    requires rows != []
    ensures Chunks(dir, rows) == (if rows[0].dir == dir then [rows[0].data] else []) + Chunks(dir, rows[1..])
    ensures rows[0].dir == dir ==> Chunks(dir, rows)[0] == rows[0].data && Chunks(dir, rows)[1..] == Chunks(dir, rows[1..])
    ensures rows[0].dir != dir ==> Chunks(dir, rows) == Chunks(dir, rows[1..])
  {
  }

  lemma {:induction false} BuffersAfter(o: Observer, rows: seq<Row>, sessions: map<seq<byte>, SessionKeys>)
    ensures var t := Observe(o, rows, sessions);
            t.devBuf == Kept(o.devBuf, Chunks(DevToApp, rows)) && t.appBuf == Kept(o.appBuf, Chunks(AppToDev, rows))
    decreases |rows|
  {
    hide Leftover, Events, SeeAll;
    if rows != [] {
      var row := rows[0];
      var stream := Buffer(o, row.dir) + row.data;
      SeeAllBuffers(WithBuffer(o, row.dir, Leftover(stream)), row.dir, Events(stream), sessions);
      BuffersAfter(ObserveRow(o, row, sessions), rows[1..], sessions);
      ChunksHead(DevToApp, rows);
      ChunksHead(AppToDev, rows);
    }
  }

  /**
   A whole session: an observer in any state at a frame boundary reads any interleaving, cut into rows
   anywhere, of a device phase, its UA and plaintext handshake included, and a client stream of sealed
   frames with any other frames among them.  It recovers what the device sent and what the client
   sealed, in order, every payload with a good check, and stands at a frame boundary again.
   */
  lemma WholeSessionRecovered(o: Observer, rows: seq<Row>, sessions: map<seq<byte>, SessionKeys>, dir: Direction,
                              k: nat, p: A.Phase, client: Client)
    requires PhaseOk(k, p) && Known(p, client, sessions)
    requires (o.devBuf == [] || o.devBuf == [0]) && (o.appBuf == [] || o.appBuf == [0])
    requires Flatten(Chunks(DevToApp, rows)) == Wire(Frames(p.log))
    requires Flatten(Chunks(AppToDev, rows)) == Wire(client.frames)
    requires p.keys.Some? ==> KeysFirst(Seen(o.appBuf, o.devBuf, rows))
    ensures var t := Observe(o, rows, sessions);
            && Of(dir, t.reports) == Of(dir, o.reports) + EachIntact(Said(dir, p, client))
            && (t.devBuf == [] || t.devBuf == [0]) && (t.appBuf == [] || t.appBuf == [0])
  {
    hide Of, Observe, Carries, Wire, Feed, Chunks, Reported, EachIntact, Flatten, Routed, OfDir, Seen, Frames, Said,
         KeysFirst, Ordered, PhaseOk, SeeTagged, Known;
    SeenOfDir(o.appBuf, o.devBuf, rows, DevToApp);
    SeenOfDir(o.appBuf, o.devBuf, rows, AppToDev);
    FeedFrames(o.devBuf, Chunks(DevToApp, rows), Frames(p.log));
    FeedFrames(o.appBuf, Chunks(AppToDev, rows), client.frames);
    SessionReported(o, Seen(o.appBuf, o.devBuf, rows), sessions, dir, k, p, client);
    ObserveSees(o, rows, sessions);
    BuffersAfter(o, rows, sessions);
    AtBoundary(o.devBuf, Chunks(DevToApp, rows), Frames(p.log));
    AtBoundary(o.appBuf, Chunks(AppToDev, rows), client.frames);
  }

  lemma NoReports(dir: Direction)
    ensures Of(dir, []) == []
  {
  }

  /** In particular every phase of every run of the device, read by an observer that starts fresh. */
  lemma EverySessionRecovered(labels: seq<A.Label>, k: nat, rows: seq<Row>, sessions: map<seq<byte>, SessionKeys>,
                              dir: Direction, client: Client)
    requires 1 <= k <= |A.Run(A.Fresh(), labels).phases| && Known(PhaseAfter(labels, k), client, sessions)
    requires Flatten(Chunks(DevToApp, rows)) == Wire(Frames(PhaseAfter(labels, k).log))
    requires Flatten(Chunks(AppToDev, rows)) == Wire(client.frames)
    requires PhaseAfter(labels, k).keys.Some? ==> KeysFirst(Seen([], [], rows))
    ensures Of(dir, Observe(Observer([], [], None, 0, 0, []), rows, sessions).reports)
         == EachIntact(Said(dir, PhaseAfter(labels, k), client))
  {
    hide A.Run, PhaseAfter, Of, Observe, Known, Wire, Chunks, EachIntact, Flatten, Seen, Frames, Said, KeysFirst, PhaseOk;
    EveryPhase(labels, k);
    WholeSessionRecovered(Observer([], [], None, 0, 0, []), rows, sessions, dir, k, PhaseAfter(labels, k), client);
    NoReports(dir);
  }

  // ---- all sessions of a link ----

  /** What both sides say in all sessions, as the observer reports it. */
  function AllSaid(dir: Direction, phases: seq<A.Phase>, clients: seq<Client>): seq<seq<Found>>
    requires |clients| == |phases|
  {
    if phases == [] then []
    else
      var n := |phases| - 1;
      AllSaid(dir, phases[..n], clients[..n]) + EachIntact(Said(dir, phases[n], clients[n]))
  }

  function ClientFrames(clients: seq<Client>): seq<Frame> {
    if clients == [] then [] else ClientFrames(clients[..|clients| - 1]) + clients[|clients| - 1].frames
  }

  /** All frames of one side. */
  function SideFrames(dir: Direction, phases: seq<A.Phase>, clients: seq<Client>): seq<Frame> {
    if dir == DevToApp then S.AllFrames(phases) else ClientFrames(clients)
  }

  function OneSession(dir: Direction, p: A.Phase, client: Client): seq<Frame> {
    if dir == DevToApp then Frames(p.log) else client.frames
  }

  /**
   The frames a capture completes, cut into one stretch per session: each holds as many frames of
   either side as that side's session has, and if keys are agreed in it, nothing of the client is
   encrypted before the device's EP_RESP.
   */
  ghost predicate Stretches(parts: seq<seq<Tagged>>, phases: seq<A.Phase>, clients: seq<Client>) {
    && |parts| == |phases| == |clients|
    && forall k :: 0 <= k < |phases| ==>
         && |OfDir(DevToApp, parts[k])| == |Frames(phases[k].log)|
         && |OfDir(AppToDev, parts[k])| == |clients[k].frames|
         && (phases[k].keys.Some? ==> KeysFirst(parts[k]))
  }

  lemma {:induction false} RoutedSize(frames: seq<Frame>)
    ensures |Routed(frames)| == |frames|
  {
    hide Route;
    if frames != [] {
      RoutedSize(frames[1..]);
    }
  }

  lemma SameEnds<T>(a: seq<T>, b: seq<T>, c: seq<T>, d: seq<T>)
    requires a + b == c + d && |b| == |d|
    ensures a == c && b == d
  {
    assert a == (a + b)[..|a|] && c == (c + d)[..|c|];
    assert b == (a + b)[|a|..] && d == (c + d)[|c|..];
  }

  lemma SideSnoc(dir: Direction, phases: seq<A.Phase>, clients: seq<Client>)
    requires |phases| == |clients| > 0
    ensures var n := |phases| - 1;
            SideFrames(dir, phases, clients)
            == SideFrames(dir, phases[..n], clients[..n]) + OneSession(dir, phases[n], clients[n])
  {
    hide Frames;
  }

  /** The last stretch holds the last session, and the others the others. */
  lemma LastStretch(dir: Direction, parts: seq<seq<Tagged>>, phases: seq<A.Phase>, clients: seq<Client>)
    requires Stretches(parts, phases, clients) && phases != []
    requires OfDir(dir, Flatten(parts)) == Routed(SideFrames(dir, phases, clients))
    ensures var n := |phases| - 1;
            && OfDir(dir, Flatten(parts[..n])) == Routed(SideFrames(dir, phases[..n], clients[..n]))
            && OfDir(dir, parts[n]) == Routed(OneSession(dir, phases[n], clients[n]))
  {
    hide OfDir, Routed, Frames, SideFrames, KeysFirst;
    var n := |phases| - 1;
    var last := OneSession(dir, phases[n], clients[n]);
    assert parts == parts[..n] + [parts[n]];
    FlattenSnoc(parts[..n], parts[n]);
    OfDirConcat(dir, Flatten(parts[..n]), parts[n]);
    SideSnoc(dir, phases, clients);
    RoutedConcat(SideFrames(dir, phases[..n], clients[..n]), last);
    RoutedSize(last);
    SameEnds(OfDir(dir, Flatten(parts[..n])), OfDir(dir, parts[n]),
             Routed(SideFrames(dir, phases[..n], clients[..n])), Routed(last));
  }

  lemma StretchesInit(parts: seq<seq<Tagged>>, phases: seq<A.Phase>, clients: seq<Client>)
    requires Stretches(parts, phases, clients) && phases != []
    ensures var n := |phases| - 1;
            Stretches(parts[..n], phases[..n], clients[..n]) && (phases[n].keys.Some? ==> KeysFirst(parts[n]))
  {
    hide OfDir, Frames, KeysFirst;
  }

  lemma NStretches(parts: seq<seq<Tagged>>, phases: seq<A.Phase>, clients: seq<Client>)
    requires Stretches(parts, phases, clients)
    ensures |parts| == |phases| == |clients|
  {
  }

  lemma NoStretch(o: Observer, parts: seq<seq<Tagged>>, sessions: map<seq<byte>, SessionKeys>,
                  phases: seq<A.Phase>, clients: seq<Client>)
    requires Stretches(parts, phases, clients) && phases == []
    ensures SeeTagged(o, Flatten(parts), sessions) == o
  {
  }

  lemma {:induction false} LinkReported(o: Observer, parts: seq<seq<Tagged>>, sessions: map<seq<byte>, SessionKeys>,
                                        dir: Direction, phases: seq<A.Phase>, clients: seq<Client>)
    requires Stretches(parts, phases, clients)
    requires forall k :: 0 <= k < |phases| ==> PhaseOk(k + 1, phases[k]) && Known(phases[k], clients[k], sessions)
    requires OfDir(DevToApp, Flatten(parts)) == Routed(SideFrames(DevToApp, phases, clients))
    requires OfDir(AppToDev, Flatten(parts)) == Routed(SideFrames(AppToDev, phases, clients))
    ensures Of(dir, SeeTagged(o, Flatten(parts), sessions).reports)
         == Of(dir, o.reports) + AllSaid(dir, phases, clients)
    decreases |phases|
  {
    hide Of, SeeTagged, OfDir, Routed, SideFrames, PhaseOk, Known, EachIntact, Said, Stretches, KeysFirst, Frames;
    if phases == [] {
      NoStretch(o, parts, sessions, phases, clients);
      assert Of(dir, o.reports) + [] == Of(dir, o.reports);
    } else {
      var n := |phases| - 1;
      NStretches(parts, phases, clients);
      LastStretch(DevToApp, parts, phases, clients);
      LastStretch(AppToDev, parts, phases, clients);
      StretchesInit(parts, phases, clients);
      LinkReported(o, parts[..n], sessions, dir, phases[..n], clients[..n]);
      var t := SeeTagged(o, Flatten(parts[..n]), sessions);
      SessionReported(t, parts[n], sessions, dir, n + 1, phases[n], clients[n]);
      assert parts == parts[..n] + [parts[n]];
      FlattenSnoc(parts[..n], parts[n]);
      SeeTaggedConcat(o, Flatten(parts[..n]), parts[n], sessions);
      var said := EachIntact(Said(dir, phases[n], clients[n]));
      assert Of(dir, o.reports) + AllSaid(dir, phases[..n], clients[..n]) + said
          == Of(dir, o.reports) + (AllSaid(dir, phases[..n], clients[..n]) + said);
    }
  }

  /**
   All phases of every run of the device, one after the other on one link: an observer that starts
   fresh reads any interleaving, cut anywhere, of everything the device built and everything the
   client sent, and recovers what either side said in every session, in order.
   */
  lemma EveryLinkRecovered(labels: seq<A.Label>, rows: seq<Row>, sessions: map<seq<byte>, SessionKeys>,
                           dir: Direction, clients: seq<Client>, parts: seq<seq<Tagged>>)
    requires Flatten(parts) == Seen([], [], rows)
    requires Stretches(parts, A.Run(A.Fresh(), labels).phases, clients)
    requires forall k :: 0 <= k < |clients| ==> Known(A.Run(A.Fresh(), labels).phases[k], clients[k], sessions)
    requires Flatten(Chunks(DevToApp, rows)) == S.OnAir(A.Run(A.Fresh(), labels).phases)
    requires Flatten(Chunks(AppToDev, rows)) == Wire(ClientFrames(clients))
    ensures Of(dir, Observe(Observer([], [], None, 0, 0, []), rows, sessions).reports)
         == AllSaid(dir, A.Run(A.Fresh(), labels).phases, clients)
  {
    hide A.Run, Of, Observe, Known, Wire, Chunks, Flatten, Seen, KeysFirst, PhaseOk, S.AllFrames, ClientFrames, AllSaid,
         OfDir, Routed, Feed, SeeTagged, Stretches;
    var o := Observer([], [], None, 0, 0, []);
    var phases := A.Run(A.Fresh(), labels).phases;
    NStretches(parts, phases, clients);
    forall k | 0 <= k < |phases|
      ensures PhaseOk(k + 1, phases[k])
    {
      EveryPhase(labels, k + 1);
    }
    SeenOfDir([], [], rows, DevToApp);
    SeenOfDir([], [], rows, AppToDev);
    FeedFrames([], Chunks(DevToApp, rows), S.AllFrames(phases));
    FeedFrames([], Chunks(AppToDev, rows), ClientFrames(clients));
    LinkReported(o, parts, sessions, dir, phases, clients);
    ObserveSees(o, rows, sessions);
    NoReports(dir);
  }
}
