/**
 Passive decryption of a capture: one frame parser per direction and, once the EP_RESP has named a
 known session, one cipher per direction.  The reports of a direction depend only on the bytes of
 that direction and on the EP_RESPs, whatever the other side sends in between.
 */
module PassiveDecryption {
  import opened Bytes
  import opened Cobs
  import opened Hdlc
  import opened AesCtr
  import opened SecureChannel
  import Crc

  const EP_RESP: byte := 0x11

  // ---- inner frames of one plaintext ----

  datatype Found = Found(payload: seq<byte>, crcOk: bool)

  function Inspect(piece: seq<byte>): seq<Found> {
    if piece == [] then []
    else
      match Decode(piece)
      case None => []
      case Some(d) =>
        if |d| < 3 then []
        else [Found(d[..|d| - 2], d[|d| - 2..] == Crc.KermitBytes(d[..|d| - 2]))]
  }

  function InspectAll(pieces: seq<seq<byte>>): seq<Found> {
    if pieces == [] then [] else Inspect(pieces[0]) + InspectAll(pieces[1..])
  }

  function FindInner(data: seq<byte>): seq<Found> {
    InspectAll(Split(data))
  }

  lemma {:induction false} InspectConcat(a: seq<seq<byte>>, b: seq<seq<byte>>)
    ensures InspectAll(a + b) == InspectAll(a) + InspectAll(b)
  {
    hide Inspect;
    if a == [] {
      assert a + b == b;
    } else {
      assert (a + b)[1..] == a[1..] + b;
      InspectConcat(a[1..], b);
    }
  }

  lemma InspectOne(piece: seq<byte>)
    ensures InspectAll([piece]) == Inspect(piece)
  {
    hide Inspect;
    assert InspectAll([piece]) == Inspect(piece) + InspectAll([]);
  }

  lemma InspectNext(parts: seq<seq<byte>>, i: nat)
    requires i < |parts|
    ensures InspectAll(parts[..i + 1]) == InspectAll(parts[..i]) + Inspect(parts[i])
  {
    assert parts[..i + 1] == parts[..i] + [parts[i]];
    InspectConcat(parts[..i], [parts[i]]);
    InspectOne(parts[i]);
  }

  method DecodeInner(data: seq<byte>) returns (results: seq<Found>)
    ensures results == FindInner(data)
  {
    hide Crc.KermitBytes, Decode, Split;
    var parts := Split(data);
    results := [];
    assert parts[..0] == [];
    for i := 0 to |parts|
      invariant results == InspectAll(parts[..i])
    {
      var part := parts[i];
      InspectNext(parts, i);
      hide InspectAll;
      if part == [] {
        continue;
      }
      var decoded := Decode(part);
      if decoded == None || |decoded.value| < 3 {
        continue;
      }
      var d := decoded.value;
      results := results + [Found(d[..|d| - 2], d[|d| - 2..] == Crc.KermitBytes(d[..|d| - 2]))];
    }
    assert parts[..|parts|] == parts;
  }

  /** The inner frames of several payloads, one after the other. */
  function InnerFrames(payloads: seq<seq<byte>>): seq<byte> {
    if payloads == [] then [] else InnerEncode(payloads[0]) + InnerFrames(payloads[1..])
  }

  function Intact(payloads: seq<seq<byte>>): seq<Found> {
    if payloads == [] then []
    else (if payloads[0] == [] then [] else [Found(payloads[0], true)]) + Intact(payloads[1..])
  }

  lemma InspectBuilt(payload: seq<byte>)
    ensures Inspect(Encode(Checked(payload))) == if payload == [] then [] else [Found(payload, true)]
  {
    hide Encode, Decode, Crc.KermitBytes;
    var d := Checked(payload);
    RoundTrip(d);
    assert d[..|d| - 2] == payload && d[|d| - 2..] == Crc.KermitBytes(payload);
  }

  lemma InspectEmpty()
    ensures Inspect([]) == []
  {
  }

  /** One delimited piece in front of a stream is one more piece to inspect. */
  lemma FindDelimited(z: seq<byte>, rest: seq<byte>)
    requires ZeroFree(z)
    ensures FindInner([0] + z + [0] + rest) == Inspect(z) + FindInner(rest)
  {
    hide Split, Inspect;
    SplitFirst([], z + [0] + rest);
    SplitFirst(z, rest);
    assert [0] + z + [0] + rest == [] + [0] + (z + [0] + rest);
    InspectConcat([[]], [z] + Split(rest));
    InspectConcat([z], Split(rest));
    InspectOne([]);
    InspectOne(z);
    InspectEmpty();
  }

  /**
   Whatever bytes stand in an inner frame: they are reported, in their place, as sound exactly if bytes and
   check together leave no remainder.
   */
  lemma DamageIsFlagged(d: seq<byte>, rest: seq<byte>)
    requires |d| >= 3
    ensures FindInner([0] + Encode(d) + [0] + rest)
         == [Found(d[..|d| - 2], Crc.Divide(0, Crc.Message(d, Crc.LowFirst)) == 0)] + FindInner(rest)
  {
    hide Encode, Decode, FindInner, Crc.KermitBytes, Crc.Divide, Crc.Message;
    RoundTrip(d);
    FindDelimited(Encode(d), rest);
    AcceptedIffDivides(d);
  }

  lemma NothingFound()
    ensures FindInner([]) == []
  {
    assert Split([]) == [[]];
    InspectOne([]);
  }

  /** All inner frames are found, in order and intact; only an empty payload is passed over. */
  lemma {:induction false} FindsAll(payloads: seq<seq<byte>>)
    ensures FindInner(InnerFrames(payloads)) == Intact(payloads)
  {
    hide FindInner, Inspect, Encode, Checked;
    if payloads == [] {
      NothingFound();
    } else {
      var z, rest := Encode(Checked(payloads[0])), InnerFrames(payloads[1..]);
      RoundTrip(Checked(payloads[0]));
      FindsAll(payloads[1..]);
      FindDelimited(z, rest);
      InspectBuilt(payloads[0]);
    }
  }

  // ---- the observer ----

  datatype Direction = AppToDev | DevToApp

  datatype Row = Row(dir: Direction, data: seq<byte>)

  datatype Report = Report(dir: Direction, found: seq<Found>)

  datatype SessionKeys = SessionKeys(rx: Block -> Block, tx: Block -> Block)

  datatype Observer = Observer(
    appBuf: seq<byte>,
    devBuf: seq<byte>,
    ciphers: Option<(Cipher, Cipher)>,
    devAt: nat,
    appAt: nat,
    reports: seq<Report>)

  predicate IsEpResp(e: Event) {
    e.I? && |e.payload| >= 33 && e.payload[0] == EP_RESP
  }

  function CipherOf(o: Observer, dir: Direction): Cipher
    requires o.ciphers.Some?
  {
    if dir == DevToApp then o.ciphers.value.0 else o.ciphers.value.1
  }

  function At(o: Observer, dir: Direction): nat {
    if dir == DevToApp then o.devAt else o.appAt
  }

  function MoveTo(o: Observer, dir: Direction, at: nat): Observer {
    if dir == DevToApp then o.(devAt := at) else o.(appAt := at)
  }

  function Buffer(o: Observer, dir: Direction): seq<byte> {
    if dir == DevToApp then o.devBuf else o.appBuf
  }

  function WithBuffer(o: Observer, dir: Direction, buf: seq<byte>): Observer {
    if dir == DevToApp then o.(devBuf := buf) else o.(appBuf := buf)
  }

  /** One frame of one direction. */
  function See(o: Observer, dir: Direction, e: Event, sessions: map<seq<byte>, SessionKeys>): Observer {
    if IsEpResp(e) then
      var nonce2 := e.payload[17..33];
      if nonce2 in sessions then
        o.(ciphers := Some((Cipher(sessions[nonce2].rx, nonce2), Cipher(sessions[nonce2].tx, nonce2))),
           devAt := 0, appAt := 0)
      else o.(ciphers := None, devAt := 0, appAt := 0)
    else if IsEncrypted(e) && o.ciphers.Some? then
      var data := e.payload[1..];
      var found := FindInner(Apply(CipherOf(o, dir), At(o, dir), data));
      MoveTo(o, dir, At(o, dir) + |data|).(reports := o.reports + [Report(dir, found)])
    else o
  }

  function SeeAll(o: Observer, dir: Direction, events: seq<Event>, sessions: map<seq<byte>, SessionKeys>): Observer
    decreases |events|
  {
    if events == [] then o else SeeAll(See(o, dir, events[0], sessions), dir, events[1..], sessions)
  }

  function ObserveRow(o: Observer, row: Row, sessions: map<seq<byte>, SessionKeys>): Observer {
    var stream := Buffer(o, row.dir) + row.data;
    SeeAll(WithBuffer(o, row.dir, Leftover(stream)), row.dir, Events(stream), sessions)
  }

  function Observe(o: Observer, rows: seq<Row>, sessions: map<seq<byte>, SessionKeys>): Observer
    decreases |rows|
  {
    if rows == [] then o else Observe(ObserveRow(o, rows[0], sessions), rows[1..], sessions)
  }

  // ---- one direction's frames ----

  /** What one direction's frames give with one cipher. */
  function Reported(c: Cipher, at: nat, events: seq<Event>): seq<seq<Found>>
    decreases |events|
  {
    if events == [] then []
    else if !IsEncrypted(events[0]) then Reported(c, at, events[1..])
    else
      var data := events[0].payload[1..];
      [FindInner(Apply(c, at, data))] + Reported(c, at + |data|, events[1..])
  }

  function Of(dir: Direction, reports: seq<Report>): seq<seq<Found>> {
    if reports == [] then []
    else (if reports[0].dir == dir then [reports[0].found] else []) + Of(dir, reports[1..])
  }

  function Chunks(dir: Direction, rows: seq<Row>): seq<seq<byte>> {
    if rows == [] then []
    else (if rows[0].dir == dir then [rows[0].data] else []) + Chunks(dir, rows[1..])
  }

  predicate NoEpResp(events: seq<Event>) {
    forall i :: 0 <= i < |events| ==> !IsEpResp(events[i])
  }

  lemma {:induction false} OfConcat(dir: Direction, a: seq<Report>, b: seq<Report>)
    ensures Of(dir, a + b) == Of(dir, a) + Of(dir, b)
  {
    if a == [] {
      assert a + b == b;
    } else {
      assert (a + b)[1..] == a[1..] + b;
      OfConcat(dir, a[1..], b);
    }
  }

  lemma OfOne(dir: Direction, r: Report)
    ensures Of(dir, [r]) == if r.dir == dir then [r.found] else []
  {
    assert Of(dir, [r]) == (if r.dir == dir then [r.found] else []) + Of(dir, []);
  }

  lemma SeeEffect(o: Observer, dir: Direction, e: Event, sessions: map<seq<byte>, SessionKeys>)
    requires o.ciphers.Some? && !IsEpResp(e)
    ensures var s := See(o, dir, e, sessions);
            && s == MoveTo(o, dir, Consumed(At(o, dir), [e])).(reports := s.reports)
            && Of(dir, s.reports) == Of(dir, o.reports) + Reported(CipherOf(o, dir), At(o, dir), [e])
            && forall d :: d != dir ==> Of(d, s.reports) == Of(d, o.reports)
  {
    hide FindInner, Apply, IsEpResp, Of;
    if IsEncrypted(e) {
      var r := Report(dir, FindInner(Apply(CipherOf(o, dir), At(o, dir), e.payload[1..])));
      forall d
        ensures Of(d, o.reports + [r]) == Of(d, o.reports) + if d == dir then [r.found] else []
      {
        OfConcat(d, o.reports, [r]);
        OfOne(d, r);
      }
    }
  }

  // ---- the interleaved frames ----

  /** A frame and the direction it came from. */
  datatype Tagged = Tagged(dir: Direction, event: Event)

  function TagAll(dir: Direction, events: seq<Event>): seq<Tagged> {
    if events == [] then [] else [Tagged(dir, events[0])] + TagAll(dir, events[1..])
  }

  /** The frames a capture completes, in the order in which the observer sees them. */
  function Seen(appBuf: seq<byte>, devBuf: seq<byte>, rows: seq<Row>): seq<Tagged>
    decreases |rows|
  {
    if rows == [] then []
    else
      var dev := rows[0].dir == DevToApp;
      var stream := (if dev then devBuf else appBuf) + rows[0].data;
      TagAll(rows[0].dir, Events(stream))
      + Seen(if dev then appBuf else Leftover(stream), if dev then Leftover(stream) else devBuf, rows[1..])
  }

  function SeeTagged(o: Observer, frames: seq<Tagged>, sessions: map<seq<byte>, SessionKeys>): Observer
    decreases |frames|
  {
    if frames == [] then o else SeeTagged(See(o, frames[0].dir, frames[0].event, sessions), frames[1..], sessions)
  }

  /** One direction's frames. */
  function OfDir(dir: Direction, frames: seq<Tagged>): seq<Event> {
    if frames == [] then []
    else (if frames[0].dir == dir then [frames[0].event] else []) + OfDir(dir, frames[1..])
  }

  lemma {:induction false} SeeTaggedConcat(o: Observer, a: seq<Tagged>, b: seq<Tagged>,
                                           sessions: map<seq<byte>, SessionKeys>)
    ensures SeeTagged(o, a + b, sessions) == SeeTagged(SeeTagged(o, a, sessions), b, sessions)
    decreases |a|
  {
    hide See;
    if a == [] {
      assert a + b == b;
    } else {
      assert (a + b)[1..] == a[1..] + b;
      SeeTaggedConcat(See(o, a[0].dir, a[0].event, sessions), a[1..], b, sessions);
    }
  }

  lemma {:induction false} OfDirConcat(dir: Direction, a: seq<Tagged>, b: seq<Tagged>)
    ensures OfDir(dir, a + b) == OfDir(dir, a) + OfDir(dir, b)
  {
    if a == [] {
      assert a + b == b;
    } else {
      assert (a + b)[1..] == a[1..] + b;
      OfDirConcat(dir, a[1..], b);
    }
  }

  lemma {:induction false} OfDirTagged(dir: Direction, d: Direction, events: seq<Event>)
    ensures OfDir(d, TagAll(dir, events)) == if d == dir then events else []
    decreases |events|
  {
    if events != [] {
      assert TagAll(dir, events)[1..] == TagAll(dir, events[1..]);
      OfDirTagged(dir, d, events[1..]);
    }
  }

  lemma {:induction false} SeeAllTagged(o: Observer, dir: Direction, events: seq<Event>,
                                        sessions: map<seq<byte>, SessionKeys>)
    ensures SeeAll(o, dir, events, sessions) == SeeTagged(o, TagAll(dir, events), sessions)
    decreases |events|
  {
    hide See;
    if events != [] {
      assert TagAll(dir, events)[1..] == TagAll(dir, events[1..]);
      SeeAllTagged(See(o, dir, events[0], sessions), dir, events[1..], sessions);
    }
  }

  lemma OneApart(o: Observer, appBuf: seq<byte>, devBuf: seq<byte>, dir: Direction, e: Event,
                 sessions: map<seq<byte>, SessionKeys>)
    ensures See(o.(appBuf := appBuf, devBuf := devBuf), dir, e, sessions)
         == See(o, dir, e, sessions).(appBuf := appBuf, devBuf := devBuf)
  {
    hide FindInner, Apply, IsEncrypted, IsEpResp;
  }

  /** Frames do not look at the buffers. */
  lemma {:induction false} BuffersApart(o: Observer, appBuf: seq<byte>, devBuf: seq<byte>, frames: seq<Tagged>,
                                        sessions: map<seq<byte>, SessionKeys>)
    ensures SeeTagged(o.(appBuf := appBuf, devBuf := devBuf), frames, sessions)
         == SeeTagged(o, frames, sessions).(appBuf := appBuf, devBuf := devBuf)
    decreases |frames|
  {
    if frames != [] {
      OneApart(o, appBuf, devBuf, frames[0].dir, frames[0].event, sessions);
      hide See;
      BuffersApart(See(o, frames[0].dir, frames[0].event, sessions), appBuf, devBuf, frames[1..], sessions);
    }
  }

  lemma SeeNothing(o: Observer, sessions: map<seq<byte>, SessionKeys>)
    ensures SeeTagged(o, [], sessions) == o
  {
  }

  lemma {:induction false} SeeAllBuffers(o: Observer, dir: Direction, events: seq<Event>,
                                         sessions: map<seq<byte>, SessionKeys>)
    ensures var t := SeeAll(o, dir, events, sessions); t.appBuf == o.appBuf && t.devBuf == o.devBuf
    decreases |events|
  {
    hide FindInner, Apply, IsEncrypted, IsEpResp;
    if events != [] {
      SeeAllBuffers(See(o, dir, events[0], sessions), dir, events[1..], sessions);
    }
  }

  /** Reading rows is seeing the frames they complete, one after the other. */
  lemma {:induction false} ObserveSees(o: Observer, rows: seq<Row>, sessions: map<seq<byte>, SessionKeys>)
    ensures var t := Observe(o, rows, sessions);
            t == SeeTagged(o, Seen(o.appBuf, o.devBuf, rows), sessions).(appBuf := t.appBuf, devBuf := t.devBuf)
    decreases |rows|
  {
    hide Events, Leftover, SeeAll, SeeTagged, TagAll;
    if rows == [] {
      SeeNothing(o, sessions);
    } else {
      var row := rows[0];
      var stream := Buffer(o, row.dir) + row.data;
      var mid := WithBuffer(o, row.dir, Leftover(stream));
      var t := ObserveRow(o, row, sessions);
      SeeAllTagged(mid, row.dir, Events(stream), sessions);
      SeeAllBuffers(mid, row.dir, Events(stream), sessions);
      ObserveSees(t, rows[1..], sessions);
      var first, more := TagAll(row.dir, Events(stream)), Seen(mid.appBuf, mid.devBuf, rows[1..]);
      SeeTaggedConcat(o, first, more, sessions);
      BuffersApart(o, mid.appBuf, mid.devBuf, first, sessions);
      BuffersApart(SeeTagged(o, first, sessions), mid.appBuf, mid.devBuf, more, sessions);
    }
  }

  lemma NoFrames(dir: Direction)
    ensures OfDir(dir, []) == []
  {
  }

  lemma FeedFirst(buf: seq<byte>, chunk: seq<byte>, chunks: seq<seq<byte>>)
    ensures Feed(buf, [chunk] + chunks) == Events(buf + chunk) + Feed(Leftover(buf + chunk), chunks)
  {
    hide Events, Leftover;
    assert ([chunk] + chunks)[1..] == chunks;
  }

  /** The frames of a direction are those of its own chunks fed to its own parser. */
  lemma {:induction false} SeenOfDir(appBuf: seq<byte>, devBuf: seq<byte>, rows: seq<Row>, dir: Direction)
    ensures OfDir(dir, Seen(appBuf, devBuf, rows))
         == Feed(if dir == DevToApp then devBuf else appBuf, Chunks(dir, rows))
    decreases |rows|
  {
    hide Events, Leftover, OfDir, TagAll;
    if rows == [] {
      assert OfDir(dir, []) == [] by { NoFrames(dir); }
    } else {
      var row := rows[0];
      var dev := row.dir == DevToApp;
      var stream := (if dev then devBuf else appBuf) + row.data;
      var a, d := if dev then appBuf else Leftover(stream), if dev then Leftover(stream) else devBuf;
      SeenOfDir(a, d, rows[1..], dir);
      OfDirConcat(dir, TagAll(row.dir, Events(stream)), Seen(a, d, rows[1..]));
      OfDirTagged(row.dir, dir, Events(stream));
      if row.dir == dir {
        FeedFirst(if dir == DevToApp then devBuf else appBuf, row.data, Chunks(dir, rows[1..]));
        assert Chunks(dir, rows) == [row.data] + Chunks(dir, rows[1..]);
      } else {
        assert Chunks(dir, rows) == Chunks(dir, rows[1..]);
      }
    }
  }

  // ---- each direction on its own ----

  /** What matters for one direction: its own frames, and every EP_RESP. */
  function View(dir: Direction, frames: seq<Tagged>): seq<Tagged> {
    if frames == [] then []
    else (if frames[0].dir == dir || IsEpResp(frames[0].event) then [frames[0]] else []) + View(dir, frames[1..])
  }

  /** Two observers that are the same as far as one direction is concerned. */
  ghost predicate Alike(dir: Direction, a: Observer, b: Observer) {
    a.ciphers == b.ciphers && At(a, dir) == At(b, dir) && Of(dir, a.reports) == Of(dir, b.reports)
  }

  lemma SeeAlike(dir: Direction, a: Observer, b: Observer, d: Direction, e: Event,
                 sessions: map<seq<byte>, SessionKeys>)
    requires Alike(dir, a, b)
    ensures d == dir || IsEpResp(e) ==> Alike(dir, See(a, d, e, sessions), See(b, d, e, sessions))
    ensures d != dir && !IsEpResp(e) ==> Alike(dir, See(a, d, e, sessions), b)
  {
    hide FindInner, Apply, IsEpResp, Of;
    if !IsEpResp(e) && a.ciphers.Some? {
      SeeEffect(a, d, e, sessions);
      SeeEffect(b, d, e, sessions);
    }
  }

  /**
   Projection: for any rows whatsoever, cut and interleaved anywhere, the reports of a direction are
   decided by its own frames and the EP_RESPs; the other side's traffic leaves no trace in them.
   */
  lemma {:induction false} EachDirectionAlone(a: Observer, b: Observer, frames: seq<Tagged>, dir: Direction,
                                              sessions: map<seq<byte>, SessionKeys>)
    requires Alike(dir, a, b)
    ensures Alike(dir, SeeTagged(a, frames, sessions), SeeTagged(b, View(dir, frames), sessions))
    decreases |frames|
  {
    hide Alike, IsEpResp, See;
    if frames != [] {
      var f, rest := frames[0], frames[1..];
      SeeAlike(dir, a, b, f.dir, f.event, sessions);
      var c := See(a, f.dir, f.event, sessions);
      if f.dir == dir || IsEpResp(f.event) {
        assert View(dir, frames)[1..] == View(dir, rest);
        EachDirectionAlone(c, See(b, f.dir, f.event, sessions), rest, dir, sessions);
      } else {
        assert View(dir, frames) == View(dir, rest);
        EachDirectionAlone(c, b, rest, dir, sessions);
      }
    }
  }

  predicate NoneArms(frames: seq<Tagged>) {
    forall i :: 0 <= i < |frames| ==> !IsEpResp(frames[i].event)
  }

  lemma {:induction false} ConsumedConcat(at: nat, a: seq<Event>, b: seq<Event>)
    ensures Consumed(at, a + b) == Consumed(Consumed(at, a), b)
    decreases |a|
  {
    if a == [] {
      assert a + b == b;
    } else {
      assert (a + b)[1..] == a[1..] + b;
      ConsumedConcat(if IsEncrypted(a[0]) then at + |a[0].payload| - 1 else at, a[1..], b);
    }
  }

  lemma {:induction false} ReportedConcat(c: Cipher, at: nat, a: seq<Event>, b: seq<Event>)
    ensures Reported(c, at, a + b) == Reported(c, at, a) + Reported(c, Consumed(at, a), b)
    decreases |a|
  {
    hide FindInner, Apply;
    if a == [] {
      assert a + b == b;
    } else {
      assert (a + b)[1..] == a[1..] + b;
      ReportedConcat(c, if IsEncrypted(a[0]) then at + |a[0].payload| - 1 else at, a[1..], b);
    }
  }

  /** With ciphers in use and no EP_RESP, a direction's reports are its own frames decrypted in order. */
  lemma {:induction false} ArmedDecrypts(o: Observer, frames: seq<Tagged>, dir: Direction,
                                         sessions: map<seq<byte>, SessionKeys>)
    requires o.ciphers.Some? && NoneArms(frames)
    ensures var t := SeeTagged(o, frames, sessions);
            && t.ciphers == o.ciphers && At(t, dir) == Consumed(At(o, dir), OfDir(dir, frames))
            && Of(dir, t.reports) == Of(dir, o.reports) + Reported(CipherOf(o, dir), At(o, dir), OfDir(dir, frames))
    decreases |frames|
  {
    hide FindInner, Apply, IsEncrypted, IsEpResp, Of;
    if frames != [] {
      var f, rest := frames[0], frames[1..];
      assert NoneArms(rest);
      SeeEffect(o, f.dir, f.event, sessions);
      var s := See(o, f.dir, f.event, sessions);
      hide See;
      ArmedDecrypts(s, rest, dir, sessions);
      if f.dir == dir {
        assert OfDir(dir, frames) == [f.event] + OfDir(dir, rest);
        ReportedConcat(CipherOf(o, dir), At(o, dir), [f.event], OfDir(dir, rest));
        ConsumedConcat(At(o, dir), [f.event], OfDir(dir, rest));
      } else {
        assert OfDir(dir, frames) == OfDir(dir, rest);
      }
    }
  }

  function NonceOf(e: Event): seq<byte>
    requires IsEpResp(e)
  {
    e.payload[17..33]
  }

  lemma {:induction false} UnarmedIgnores(o: Observer, frames: seq<Tagged>, sessions: map<seq<byte>, SessionKeys>)
    requires o.ciphers == None && NoneArms(frames)
    ensures SeeTagged(o, frames, sessions) == o
    decreases |frames|
  {
    hide IsEpResp, IsEncrypted;
    if frames != [] {
      assert NoneArms(frames[1..]);
      UnarmedIgnores(o, frames[1..], sessions);
    }
  }

  /**
   The latest EP_RESP decides, whatever was seen before it: with a known nonce both directions are
   decrypted from offset 0 of that session's keys, with an unknown one nothing is.
   */
  lemma LatestEpRespDecides(o: Observer, frames: seq<Tagged>, j: nat, dir: Direction,
                            sessions: map<seq<byte>, SessionKeys>)
    requires j < |frames| && NoneArms(frames[j + 1..])
    requires var e := frames[j].event; e.I? && |e.payload| >= 33 && e.payload[0] == 0x11
    ensures var t := SeeTagged(o, frames, sessions);
            var nonce2 := frames[j].event.payload[17..33];
            var before := Of(dir, SeeTagged(o, frames[..j], sessions).reports);
            if nonce2 in sessions then
              var c := Cipher(if dir == DevToApp then sessions[nonce2].rx else sessions[nonce2].tx, nonce2);
              && t.ciphers.Some? && CipherOf(t, dir) == c && At(t, dir) == Consumed(0, OfDir(dir, frames[j + 1..]))
              && Of(dir, t.reports) == before + Reported(c, 0, OfDir(dir, frames[j + 1..]))
            else t.ciphers == None && Of(dir, t.reports) == before
  {
    hide FindInner, Apply, Of, Reported, Consumed;
    var before, f, after := frames[..j], frames[j], frames[j + 1..];
    assert frames == before + ([f] + after);
    SeeTaggedConcat(o, before, [f] + after, sessions);
    var p := SeeTagged(o, before, sessions);
    assert ([f] + after)[1..] == after;
    var q := See(p, f.dir, f.event, sessions);
    if NonceOf(f.event) in sessions {
      ArmedDecrypts(q, after, dir, sessions);
    } else {
      UnarmedIgnores(q, after, sessions);
    }
  }

  // ---- streams of sealed and other frames ----

  function EachIntact(payloads: seq<seq<byte>>): seq<seq<Found>> {
    if payloads == [] then [] else [Intact([payloads[0]])] + EachIntact(payloads[1..])
  }

  /**
   These frames carry these payloads from offset `at` on: sealed frames with any numbers, and between
   them frames of any other kind but an EP_RESP, which would replace the ciphers.
   */
  ghost predicate Carries(c: Cipher, at: nat, frames: seq<Frame>, payloads: seq<seq<byte>>)
    decreases |frames|
  {
    if frames == [] then payloads == []
    else
      var f := frames[0];
      if IsEncrypted(Route(f.ctrl, f.payload)) then
        payloads != [] && f == EncryptedFrame(c, at, f.ctrl, payloads[0])
        && Carries(c, at + |InnerEncode(payloads[0])|, frames[1..], payloads[1..])
      else !IsEpResp(Route(f.ctrl, f.payload)) && Carries(c, at, frames[1..], payloads)
  }

  lemma OneInner(payload: seq<byte>)
    ensures FindInner(InnerEncode(payload)) == Intact([payload])
  {
    hide FindInner, InnerEncode;
    FindsAll([payload]);
    assert InnerFrames([payload]) == InnerEncode(payload) + [];
    assert InnerEncode(payload) + [] == InnerEncode(payload);
  }

  lemma SealedReported(c: Cipher, at: nat, f: Frame, payload: seq<byte>)
    requires f == EncryptedFrame(c, at, f.ctrl, payload) && IsEncrypted(Route(f.ctrl, f.payload))
    ensures var e := Route(f.ctrl, f.payload);
            && e.payload[1..] == f.payload[1..] && |f.payload| == 1 + |InnerEncode(payload)| && !IsEpResp(e)
            && FindInner(Apply(c, at, e.payload[1..])) == Intact([payload])
  {
    hide Apply, FindInner, InnerEncode, Intact;
    RouteKeeps(f.ctrl, f.payload);
    assert f.payload[1..] == Apply(c, at, InnerEncode(payload));
    ApplyTwice(c, at, InnerEncode(payload));
    OneInner(payload);
  }

  lemma ReportedHead(c: Cipher, at: nat, e: Event, rest: seq<Event>)
    ensures Reported(c, at, [e] + rest)
         == if IsEncrypted(e) then [FindInner(Apply(c, at, e.payload[1..]))] + Reported(c, at + |e.payload| - 1, rest)
            else Reported(c, at, rest)
    ensures NoEpResp([e] + rest) <==> !IsEpResp(e) && NoEpResp(rest)
  {
    hide FindInner, Apply, IsEpResp;
    assert ([e] + rest)[1..] == rest;
    if NoEpResp([e] + rest) {
      assert forall i :: 0 <= i < |rest| ==> rest[i] == ([e] + rest)[i + 1];
      assert ([e] + rest)[0] == e;
    }
  }

  lemma RoutedHead(frames: seq<Frame>)
    requires frames != []
    ensures Routed(frames) == [Route(frames[0].ctrl, frames[0].payload)] + Routed(frames[1..])
  {
  }

  lemma SealedLength(f: Frame)
    requires IsEncrypted(Route(f.ctrl, f.payload))
    ensures Route(f.ctrl, f.payload).I? && Route(f.ctrl, f.payload).payload == f.payload
  {
  }

  lemma NothingToReport(c: Cipher, at: nat)
    ensures Reported(c, at, Routed([])) == [] && NoEpResp(Routed([]))
  {
  }

  lemma {:induction false} ReportedCarried(c: Cipher, at: nat, frames: seq<Frame>, payloads: seq<seq<byte>>)
    requires Carries(c, at, frames, payloads)
    ensures Reported(c, at, Routed(frames)) == EachIntact(payloads)
    ensures NoEpResp(Routed(frames))
    decreases |frames|
  {
    hide Apply, FindInner, InnerEncode, Intact, Route, IsEpResp, EncryptedFrame, IsEncrypted, Reported, NoEpResp;
    if frames == [] {
      NothingToReport(c, at);
    } else {
      var f, rest := frames[0], frames[1..];
      var e := Route(f.ctrl, f.payload);
      RoutedHead(frames);
      ReportedHead(c, at, e, Routed(rest));
      hide Routed;
      if IsEncrypted(e) {
        SealedReported(c, at, f, payloads[0]);
        SealedLength(f);
        ReportedCarried(c, at + |InnerEncode(payloads[0])|, rest, payloads[1..]);
      } else {
        ReportedCarried(c, at, rest, payloads);
      }
    }
  }

  /** A run of sealed frames, numbered from anywhere, is such a stream. */
  lemma {:induction false} SealCarries(c: Cipher, at: nat, sent: nat, acks: seq<nat>, payloads: seq<seq<byte>>)
    requires |acks| == |payloads|
    ensures Carries(c, at, Seal(c, at, sent, acks, payloads), payloads)
    decreases |payloads|
  {
    hide Apply, InnerEncode, ICtrl, Route;
    if payloads != [] {
      NumbersReadBack(acks[0], sent);
      OpenOne(c, at, ICtrl(acks[0], sent), payloads[0]);
      SealCarries(c, at + |InnerEncode(payloads[0])|, sent + 1, acks[1..], payloads[1..]);
    }
  }

  /** A parser that has just delivered a frame, or nothing yet, receives a stream of frames. */
  lemma FeedFrames(buf: seq<byte>, chunks: seq<seq<byte>>, frames: seq<Frame>)
    requires (buf == [] || buf == [0]) && Flatten(chunks) == Wire(frames)
    ensures Feed(buf, chunks) == Routed(frames)
  {
    hide Events, Leftover, Feed, Wire, Routed;
    if buf == [] {
      ChunkingIsIrrelevant(chunks);
      WireDelivers(frames);
    } else {
      AfterDelimiter([]);
      assert [] + [0] == [0];
      OnlyDelimiter();
      FeedFrom([0], chunks);
      AfterZeroDelivers(frames);
    }
  }

  /** No frame of either direction is an EP_RESP. */
  lemma {:induction false} NeitherArms(frames: seq<Tagged>)
    requires NoEpResp(OfDir(AppToDev, frames)) && NoEpResp(OfDir(DevToApp, frames))
    ensures NoneArms(frames)
  {
    hide IsEpResp;
    if frames != [] {
      var dir := frames[0].dir;
      var other := if dir == DevToApp then AppToDev else DevToApp;
      assert OfDir(dir, frames) == [frames[0].event] + OfDir(dir, frames[1..]);
      assert OfDir(other, frames) == OfDir(other, frames[1..]);
      assert !IsEpResp(OfDir(dir, frames)[0]);
      assert forall i :: 0 <= i < |OfDir(dir, frames[1..])| ==> OfDir(dir, frames[1..])[i] == OfDir(dir, frames)[i + 1];
      NeitherArms(frames[1..]);
    }
  }

  /**
   With matched keys, an observer of any interleaving of two frame streams, cut into rows anywhere,
   recovers both payload sequences, every one with a good check, whatever else the streams hold.
   */
  lemma BothSidesRecovered(o: Observer, rows: seq<Row>, sessions: map<seq<byte>, SessionKeys>, dir: Direction,
                           devFrames: seq<Frame>, dev: seq<seq<byte>>, appFrames: seq<Frame>, app: seq<seq<byte>>)
    requires o.ciphers.Some?
    requires (o.devBuf == [] || o.devBuf == [0]) && (o.appBuf == [] || o.appBuf == [0])
    requires Carries(CipherOf(o, DevToApp), o.devAt, devFrames, dev)
    requires Carries(CipherOf(o, AppToDev), o.appAt, appFrames, app)
    requires Flatten(Chunks(DevToApp, rows)) == Wire(devFrames) && Flatten(Chunks(AppToDev, rows)) == Wire(appFrames)
    ensures Of(dir, Observe(o, rows, sessions).reports)
         == Of(dir, o.reports) + EachIntact(if dir == DevToApp then dev else app)
  {
    hide Of, Observe, Carries, Wire, Feed, Chunks, Reported, EachIntact, Flatten, Routed, OfDir, Seen, Consumed;
    var frames := Seen(o.appBuf, o.devBuf, rows);
    SeenOfDir(o.appBuf, o.devBuf, rows, DevToApp);
    SeenOfDir(o.appBuf, o.devBuf, rows, AppToDev);
    FeedFrames(o.devBuf, Chunks(DevToApp, rows), devFrames);
    FeedFrames(o.appBuf, Chunks(AppToDev, rows), appFrames);
    ReportedCarried(CipherOf(o, DevToApp), o.devAt, devFrames, dev);
    ReportedCarried(CipherOf(o, AppToDev), o.appAt, appFrames, app);
    NeitherArms(frames);
    ArmedDecrypts(o, frames, dir, sessions);
    ObserveSees(o, rows, sessions);
  }

  /** In particular two runs of sealed frames, each numbered from anywhere with any acknowledgements. */
  lemma SealedRecovered(o: Observer, rows: seq<Row>, sessions: map<seq<byte>, SessionKeys>, dir: Direction,
                        devSent: nat, devAcks: seq<nat>, dev: seq<seq<byte>>,
                        appSent: nat, appAcks: seq<nat>, app: seq<seq<byte>>)
    requires o.ciphers.Some? && |devAcks| == |dev| && |appAcks| == |app|
    requires (o.devBuf == [] || o.devBuf == [0]) && (o.appBuf == [] || o.appBuf == [0])
    requires Flatten(Chunks(DevToApp, rows)) == Wire(Seal(CipherOf(o, DevToApp), o.devAt, devSent, devAcks, dev))
    requires Flatten(Chunks(AppToDev, rows)) == Wire(Seal(CipherOf(o, AppToDev), o.appAt, appSent, appAcks, app))
    ensures Of(dir, Observe(o, rows, sessions).reports)
         == Of(dir, o.reports) + EachIntact(if dir == DevToApp then dev else app)
  {
    hide Of, Observe, Carries, Wire, Chunks, EachIntact, Flatten, Seal;
    SealCarries(CipherOf(o, DevToApp), o.devAt, devSent, devAcks, dev);
    SealCarries(CipherOf(o, AppToDev), o.appAt, appSent, appAcks, app);
    BothSidesRecovered(o, rows, sessions, dir,
                       Seal(CipherOf(o, DevToApp), o.devAt, devSent, devAcks, dev), dev,
                       Seal(CipherOf(o, AppToDev), o.appAt, appSent, appAcks, app), app);
  }

  lemma {:induction false} SeeAllConcat(o: Observer, dir: Direction, a: seq<Event>, b: seq<Event>,
                                        sessions: map<seq<byte>, SessionKeys>)
    ensures SeeAll(o, dir, a + b, sessions) == SeeAll(SeeAll(o, dir, a, sessions), dir, b, sessions)
    decreases |a|
  {
    hide See;
    if a == [] {
      assert a + b == b;
    } else {
      assert (a + b)[1..] == a[1..] + b;
      SeeAllConcat(See(o, dir, a[0], sessions), dir, a[1..], b, sessions);
    }
  }

  lemma SeeAllOne(o: Observer, dir: Direction, e: Event, sessions: map<seq<byte>, SessionKeys>)
    ensures SeeAll(o, dir, [e], sessions) == See(o, dir, e, sessions)
  {
    hide See;
    assert [e][1..] == [];
  }

  // ---- the loop over a capture ----

  /** Two cipher objects in use, or none. */
  ghost predicate Paired(rx: AesCtrState?, tx: AesCtrState?)
    reads rx, tx
  {
    (rx == null <==> tx == null) && (rx != null ==> rx != tx && rx.Valid()) && (tx != null ==> tx.Valid())
  }

  /** The observer a pair of buffers and a pair of cipher objects stand for. */
  ghost function Standing(appBuf: seq<byte>, devBuf: seq<byte>, rx: AesCtrState?, tx: AesCtrState?,
                          reports: seq<Report>): Observer
    reads rx, tx
    requires Paired(rx, tx)
  {
    if rx == null || tx == null then Observer(appBuf, devBuf, None, 0, 0, reports)
    else Observer(appBuf, devBuf, Some((rx.Key(), tx.Key())), rx.Offset(), tx.Offset(), reports)
  }

  lemma ObserveSnoc(o: Observer, rows: seq<Row>, row: Row, sessions: map<seq<byte>, SessionKeys>)
    ensures Observe(o, rows + [row], sessions) == ObserveRow(Observe(o, rows, sessions), row, sessions)
    decreases |rows|
  {
    hide ObserveRow;
    if rows == [] {
      assert [] + [row] == [row];
      assert [row][1..] == [];
    } else {
      assert (rows + [row])[1..] == rows[1..] + [row];
      ObserveSnoc(ObserveRow(o, rows[0], sessions), rows[1..], row, sessions);
    }
  }

  lemma {:induction false} SeeAllSnoc(o: Observer, dir: Direction, events: seq<Event>, e: Event,
                                      sessions: map<seq<byte>, SessionKeys>)
    ensures SeeAll(o, dir, events + [e], sessions) == See(SeeAll(o, dir, events, sessions), dir, e, sessions)
  {
    hide See;
    SeeAllConcat(o, dir, events, [e], sessions);
    SeeAllOne(SeeAll(o, dir, events, sessions), dir, e, sessions);
  }

  lemma EpRespLength(e: Event)
    requires IsEpResp(e)
    ensures e.I? && |e.payload| >= 33
  {
  }

  lemma EncryptedLength(e: Event)
    requires IsEncrypted(e)
    ensures e.I? && |e.payload| >= 1
  {
  }

  method OneFrame(rx: AesCtrState?, tx: AesCtrState?, dir: Direction, e: Event,
                  sessions: map<seq<byte>, SessionKeys>, ghost o: Observer)
    returns (rx2: AesCtrState?, tx2: AesCtrState?, more: seq<Report>)
    requires Paired(rx, tx) && o == Standing(o.appBuf, o.devBuf, rx, tx, o.reports)
    modifies rx, tx
    ensures (rx2 == rx && tx2 == tx) || (rx2 == null && tx2 == null) || (fresh(rx2) && fresh(tx2))
    ensures Paired(rx2, tx2)
    ensures Standing(o.appBuf, o.devBuf, rx2, tx2, o.reports + more) == See(o, dir, e, sessions)
  {
    hide AesCtrState.Valid, AesCtrState.Offset, AesCtrState.Key, FindInner, Apply, IsEncrypted, IsEpResp;
    rx2, tx2, more := rx, tx, [];
    assert o.reports + [] == o.reports;
    if IsEpResp(e) {
      EpRespLength(e);
      var nonce2 := e.payload[17..33];
      if nonce2 in sessions {
        rx2 := new AesCtrState(sessions[nonce2].rx, nonce2);
        tx2 := new AesCtrState(sessions[nonce2].tx, nonce2);
      } else {
        rx2, tx2 := null, null;
      }
    } else if IsEncrypted(e) && rx != null {
      EncryptedLength(e);
      var cipher := if dir == DevToApp then rx else tx;
      var plaintext := cipher.Process(e.payload[1..]);
      var found := DecodeInner(plaintext);
      more := [Report(dir, found)];
    }
  }

  method OneRow(rx: AesCtrState?, tx: AesCtrState?, dir: Direction, events: seq<Event>,
                sessions: map<seq<byte>, SessionKeys>, ghost o: Observer)
    returns (rx2: AesCtrState?, tx2: AesCtrState?, more: seq<Report>)
    requires Paired(rx, tx) && o == Standing(o.appBuf, o.devBuf, rx, tx, o.reports)
    modifies rx, tx
    ensures (rx2 == rx && tx2 == tx) || (rx2 == null && tx2 == null) || (fresh(rx2) && fresh(tx2))
    ensures Paired(rx2, tx2)
    ensures Standing(o.appBuf, o.devBuf, rx2, tx2, o.reports + more) == SeeAll(o, dir, events, sessions)
  {
    hide AesCtrState.Valid, AesCtrState.Offset, AesCtrState.Key, See, Paired;
    rx2, tx2, more := rx, tx, [];
    assert o.reports + [] == o.reports;
    ghost var now := o;
    for i := 0 to |events|
      invariant (rx2 == rx && tx2 == tx) || (rx2 == null && tx2 == null) || (fresh(rx2) && fresh(tx2))
      invariant Paired(rx2, tx2) && now == SeeAll(o, dir, events[..i], sessions)
      invariant now == Standing(o.appBuf, o.devBuf, rx2, tx2, o.reports + more)
    {
      assert events[..i + 1] == events[..i] + [events[i]];
      SeeAllSnoc(o, dir, events[..i], events[i], sessions);
      var found;
      rx2, tx2, found := OneFrame(rx2, tx2, dir, events[i], sessions, now);
      now := See(now, dir, events[i], sessions);
      assert o.reports + (more + found) == o.reports + more + found;
      more := more + found;
    }
    assert events[..|events|] == events;
  }

  /** One row at a time, one frame at a time, with two parsers and two stateful ciphers. */
  method ProcessRows(rows: seq<Row>, sessions: map<seq<byte>, SessionKeys>) returns (reports: seq<Report>)
    ensures reports == Observe(Observer([], [], None, 0, 0, []), rows, sessions).reports
  {
    hide SeeAll, Events, Leftover, AesCtrState.Valid, AesCtrState.Offset, AesCtrState.Key;
    ghost var start := Observer([], [], None, 0, 0, []);
    var appBuf: seq<byte>, devBuf: seq<byte> := [], [];
    var rx: AesCtrState?, tx: AesCtrState? := null, null;
    reports := [];
    for i := 0 to |rows|
      invariant Paired(rx, tx) && (rx != null ==> fresh(rx)) && (tx != null ==> fresh(tx))
      invariant Standing(appBuf, devBuf, rx, tx, reports) == Observe(start, rows[..i], sessions)
    {
      var row := rows[i];
      ghost var before := Standing(appBuf, devBuf, rx, tx, reports);
      assert rows[..i + 1] == rows[..i] + [row];
      ObserveSnoc(start, rows[..i], row, sessions);
      hide Observe;
      var stream := (if row.dir == DevToApp then devBuf else appBuf) + row.data;
      if row.dir == DevToApp {
        devBuf := Leftover(stream);
      } else {
        appBuf := Leftover(stream);
      }
      ghost var now := WithBuffer(before, row.dir, Leftover(stream));
      var more;
      SeeAllBuffers(now, row.dir, Events(stream), sessions);
      rx, tx, more := OneRow(rx, tx, row.dir, Events(stream), sessions, now);
      reports := reports + more;
    }
    assert rows[..|rows|] == rows;
  }
}
