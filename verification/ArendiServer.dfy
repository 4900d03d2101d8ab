/**
 The device's side of the link as the object it is: a byte buffer, two queues, two counters and two
 ciphers, updated in place by the byte feed, the handshake loop, the frame loop and the pusher.

 Every method is one region between two awaits.  Its contract says that the object takes exactly
 the step of the state machine, and that the bytes it hands to the radio are the frames that the
 trace gained; so everything proved of runs of the state machine holds of the object.
 */
module ArendiServer {
  import opened Bytes
  import opened Cobs
  import opened Hdlc
  import opened AesCtr
  import opened SecureChannel
  import opened ArendiSession
  import opened ArendiTheorems

  // ---- how the receive loop advances ----

  /** The piece in front of the first delimiter does not matter. */
  lemma FirstPieceIgnored(a: seq<byte>, b: seq<byte>, x: seq<byte>, y: seq<byte>, rest: seq<seq<byte>>)
    requires Split(a) == [x] + rest && Split(b) == [y] + rest
    ensures Events(a) == Events(b) && Leftover(a) == Leftover(b)
  {
    hide Split, Collect;
    if rest != [] {
      assert Complete(a) == rest[..|rest| - 1] && Complete(b) == rest[..|rest| - 1];
    }
  }

  lemma CutAt(s: seq<byte>, i: nat)
    requires i < |s| && s[i] == 0
    ensures s == s[..i] + [0] + s[i + 1..] && s[i..] == [0] + s[i + 1..]
    ensures i > 0 && s[0] == 0 ==> s[..i] == [0] + s[1..i]
  {
  }

  lemma OnlyGarbage(s: seq<byte>)
    requires ZeroFree(s)
    ensures Events(s) == [] && Leftover(s) == []
  {
    hide Collect, Split;
    CollectNone();
    SplitZeroFree(s);
  }

  lemma GarbageThenZero(z: seq<byte>, rest: seq<byte>)
    requires ZeroFree(z)
    ensures Events(z + [0] + rest) == Events([0] + rest) && Leftover(z + [0] + rest) == Leftover([0] + rest)
  {
    hide Events, Leftover, Split;
    SplitFirst(z, rest);
    SplitFirst([], rest);
    assert [] + [0] + rest == [0] + rest;
    FirstPieceIgnored(z + [0] + rest, [0] + rest, z, [], Split(rest));
  }

  /** Bytes in front of the first zero mean nothing. */
  lemma SkipGarbage(s: seq<byte>)
    ensures var i := NextZero(s, 0);
            if i == |s| then Events(s) == [] && Leftover(s) == []
            else Events(s) == Events(s[i..]) && Leftover(s) == Leftover(s[i..])
  {
    hide Events, Leftover, NextZero;
    var i := NextZero(s, 0);
    if i == |s| {
      OnlyGarbage(s);
    } else {
      CutAt(s, i);
      GarbageThenZero(s[..i], s[i + 1..]);
    }
  }

  /** A frame that has not ended yet is kept as it is. */
  lemma Unfinished(s: seq<byte>)
    requires s != [] && s[0] == 0 && NextZero(s, 1) == |s|
    ensures Events(s) == [] && Leftover(s) == s
  {
    hide Collect;
    CollectNone();
    var z := s[1..];
    assert s == [] + [0] + z;
    SplitFirst([], z);
    SplitZeroFree(z);
    hide Split;
    assert [[]] + [z] == [[], z];
  }

  /** One finished frame is cut off; its closing delimiter opens the next one. */
  lemma CutFrame(s: seq<byte>)
    requires s != [] && s[0] == 0 && NextZero(s, 1) < |s|
    ensures var end := NextZero(s, 1);
            && Events(s) == (match DecodeFrame(s[1..end]) case Some(e) => [e] case None => []) + Events(s[end..])
            && Leftover(s) == Leftover(s[end..])
  {
    hide Events, Leftover, DecodeFrame, NextZero;
    var end := NextZero(s, 1);
    var z, rest := s[1..end], s[end + 1..];
    CutAt(s, end);
    OneMore(z);
    Resume([0] + z + [0], rest);
  }

  lemma {:induction false} QueuedSnoc(events: seq<Event>, more: seq<Event>)
    ensures Queued(events + more) == Queued(events) + Queued(more)
  {
    if events == [] {
      assert events + more == more;
    } else {
      assert (events + more)[1..] == events[1..] + more;
      QueuedSnoc(events[1..], more);
    }
  }

  lemma {:induction false} AcksSnoc(events: seq<Event>, more: seq<Event>)
    ensures Acks(events + more) == Acks(events) + Acks(more)
  {
    if events == [] {
      assert events + more == more;
    } else {
      assert (events + more)[1..] == events[1..] + more;
      assert (events + more)[0] == events[0];
      AcksSnoc(events[1..], more);
    }
  }

  lemma {:induction false} LastAckSnoc(ack: nat, events: seq<Event>, more: seq<Event>)
    ensures LastAck(ack, events + more) == LastAck(LastAck(ack, events), more)
    decreases |events|
  {
    hide SendNumber;
    if events == [] {
      assert events + more == more;
    } else {
      assert (events + more)[1..] == events[1..] + more;
      LastAckSnoc(if events[0].I? then (SendNumber(events[0].ctrl) + 1) % 8 else ack, events[1..], more);
    }
  }

  lemma OneEvent(ack: nat, e: Event)
    ensures Queued([e]) == if e.S? then [] else [Heard(e)]
    ensures Acks([e]) == if e.S? then [e.ctrl] else []
    ensures LastAck(ack, [e]) == if e.I? then (SendNumber(e.ctrl) + 1) % 8 else ack
    ensures Queued([]) == [] && Acks([]) == [] && LastAck(ack, []) == ack
  {
    assert [e][1..] == [];
  }

  lemma AfterOne(ack: nat, events: seq<Event>, e: Event)
    ensures Queued(events + [e]) == Queued(events) + (if e.S? then [] else [Heard(e)])
    ensures Acks(events + [e]) == Acks(events) + (if e.S? then [e.ctrl] else [])
    ensures LastAck(ack, events + [e]) == if e.I? then (SendNumber(e.ctrl) + 1) % 8 else LastAck(ack, events)
  {
    hide Queued, Acks, LastAck, SendNumber;
    QueuedSnoc(events, [e]);
    AcksSnoc(events, [e]);
    LastAckSnoc(ack, events, [e]);
    OneEvent(LastAck(ack, events), e);
  }

  // ---- what is on the air ----

  function AllFrames(phases: seq<Phase>): seq<Frame> {
    if phases == [] then []
    else AllFrames(phases[..|phases| - 1]) + Frames(phases[|phases| - 1].log)
  }

  /** Every byte built so far. */
  function OnAir(phases: seq<Phase>): seq<byte> {
    Wire(AllFrames(phases))
  }

  lemma {:induction false} WireConcat(a: seq<Frame>, b: seq<Frame>)
    ensures Wire(a + b) == Wire(a) + Wire(b)
  {
    hide BuildAtt;
    if a == [] {
      assert a + b == b;
    } else {
      assert (a + b)[1..] == a[1..] + b;
      WireConcat(a[1..], b);
    }
  }

  /** The bytes of one entry. */
  function EntryBytes(e: Entry): seq<byte> {
    match e
    case Ua => BuildAtt(UCtrl(UA_TYPE), [])
    case Disc => BuildAtt(UCtrl(DISC_TYPE), [])
    case Plain(ctrl, payload) => BuildAtt(ctrl, payload)
    case Enc(ctrl, cipher, at, payload) => BuildAtt(ctrl, [ENCRYPTED] + Apply(cipher, at, InnerEncode(payload)))
    case Took(_, _) => []
  }

  lemma BytesOnAir(e: Entry)
    ensures Wire(Frames([e])) == EntryBytes(e)
  {
    hide BuildAtt, Apply, InnerEncode, UCtrl;
    assert [e][..0] == [];
    assert Frames([]) == [] && [e][0] == e;
    var f := Frames([e]);
    if !e.Took? {
      assert f[1..] == [];
    }
  }

  /** Recording an entry puts its bytes on the air. */
  lemma RecordOnAir(s: Session, e: Entry)
    requires s.phases != []
    ensures OnAir(Record(s, e).phases) == OnAir(s.phases) + EntryBytes(e)
  {
    hide Wire, EntryBytes, Frames;
    var n := |s.phases| - 1;
    var t := Record(s, e);
    assert t.phases[..n] == s.phases[..n];
    var log := s.phases[n].log;
    LastFrame(log, e);
    BytesOnAir(e);
    assert AllFrames(t.phases) == AllFrames(s.phases) + Frames([e]);
    WireConcat(AllFrames(s.phases), Frames([e]));
  }

  lemma StartOnAir(s: Session)
    ensures OnAir(StartPhase(s).phases) == OnAir(s.phases) + EntryBytes(Ua)
  {
    hide Wire, EntryBytes, Frames;
    var t := StartPhase(s);
    assert t.phases[..|s.phases|] == s.phases;
    BytesOnAir(Ua);
    WireConcat(AllFrames(s.phases), Frames([Ua]));
  }

  lemma SetKeysOnAir(s: Session, keys: Keys)
    requires s.phases != []
    ensures OnAir(SetKeys(s, keys).phases) == OnAir(s.phases)
  {
    hide Wire, Frames;
    var n := |s.phases| - 1;
    assert SetKeys(s, keys).phases[..n] == s.phases[..n];
  }

  lemma StepIs(s: Session)
    ensures Step(s, Label.SendDone) == SendDoneStep(s)
    ensures Step(s, Label.TakeAck) == TakeAckStep(s)
    ensures Step(s, Timeout) == TimeoutStep(s)
    ensures forall payload :: Step(s, Push(payload)) == if s.handshakeDone then BuildEnc(s, payload) else s
  {
  }

  /** What the place where `run` waits says about the phases. */
  lemma Waiting(s: Session)
    requires Inv(s)
    ensures !s.pc.AwaitSabm? && !s.pc.Done? ==> s.phases != []
    ensures s.handshakeDone ==> s.keys.Some? && s.phases != []
    ensures s.pc.Serving? || s.pc.Responding? || s.pc.AwaitingAck? ==> s.handshakeDone
  {
  }

  // ---- the object ----

  class AriendiServerSide {
    var rxBuf: seq<byte>
    var rxQueue: seq<Item>
    var srrQueue: seq<byte>
    var rxAck: nat
    var txSeq: nat
    var txCipher: AesCtrState?
    var rxCipher: AesCtrState?
    var handshakeDone: bool
    var disconnectedByPeer: bool
    var shouldDisconnectAfter: bool

    // The locals of `run` that live across an await.
    var pc: Pc
    var phase: nat
    var sawStorage: bool
    var discSent: bool

    ghost var phases: seq<Phase>

    ghost predicate CiphersOk()
      reads this, txCipher, rxCipher
    {
      && (txCipher == null <==> rxCipher == null)
      && (txCipher != null ==> txCipher != rxCipher && txCipher.Valid())
      && (rxCipher != null ==> rxCipher.Valid())
      && phase == |phases|
    }

    ghost function Model(): Session
      reads this, txCipher, rxCipher
      requires CiphersOk()
    {
      Session(rxBuf, rxQueue, srrQueue, rxAck, txSeq, pc, sawStorage, discSent, handshakeDone,
              disconnectedByPeer, shouldDisconnectAfter,
              if txCipher == null then None else Some(Keys(txCipher.Key(), rxCipher.Key())),
              if txCipher == null then 0 else txCipher.Offset(),
              if rxCipher == null then 0 else rxCipher.Offset(),
              phases)
    }

    ghost predicate Valid()
      reads this, txCipher, rxCipher
    {
      CiphersOk() && Inv(Model())
    }

    constructor ()
      ensures Valid() && Model() == Fresh()
    {
      rxBuf, rxQueue, srrQueue := [], [], [];
      rxAck, txSeq := 0, 0;
      txCipher, rxCipher := null, null;
      handshakeDone, disconnectedByPeer, shouldDisconnectAfter := false, false, false;
      pc, phase, sawStorage, discSent := AwaitSabm, 0, false, false;
      phases := [];
      new;
      FreshKeeps();
    }

    // ---- receiving ----

    /** Every ATT write: the bytes are parsed at once, the frames wait in the queues. */
    method Feed(data: seq<byte>)
      requires Valid()
      modifies this
      ensures Valid() && Model() == Step(old(Model()), FeedBytes(data))
      ensures txCipher == old(txCipher) && rxCipher == old(rxCipher)
    {
      hide Inv, Events, Leftover, Queued, Acks, LastAck, AesCtrState.Valid, AesCtrState.Offset, AesCtrState.Key;
      StepKeeps(Model(), FeedBytes(data));
      rxBuf := rxBuf + data;
      ProcessRxBuf();
    }

    /** Cuts frames off the buffer until no complete one is left. */
    method ProcessRxBuf()
      modifies this`rxBuf, this`rxQueue, this`srrQueue, this`rxAck
      ensures rxBuf == Leftover(old(rxBuf))
      ensures rxQueue == old(rxQueue) + Queued(Events(old(rxBuf)))
      ensures srrQueue == old(srrQueue) + Acks(Events(old(rxBuf)))
      ensures rxAck == LastAck(old(rxAck), Events(old(rxBuf)))
    {
      hide Events, Leftover, Queued, Acks, LastAck, DecodeFrame, NextZero, SendNumber;
      ghost var done: seq<Event> := [];
      OneEvent(rxAck, S(1));
      while true
        invariant Events(old(rxBuf)) == done + Events(rxBuf)
        invariant Leftover(old(rxBuf)) == Leftover(rxBuf)
        invariant rxQueue == old(rxQueue) + Queued(done)
        invariant srrQueue == old(srrQueue) + Acks(done)
        invariant rxAck == LastAck(old(rxAck), done)
        decreases |rxBuf|
      {
        var buf := rxBuf;
        if buf == [] || buf[0] != 0 {
          var idx := NextZero(buf, 0);
          SkipGarbage(buf);
          if idx == |buf| {
            rxBuf := [];
            assert done + [] == done;
            return;
          }
          rxBuf := buf[idx..];
          buf := rxBuf;
        }
        var end := NextZero(buf, 1);
        if end == |buf| {
          Unfinished(buf);
          assert done + [] == done;
          return;
        }
        CutFrame(buf);
        var frame := buf[1..end];
        rxBuf := buf[end..];
        var event := DecodeFrame(frame);
        if event.Some? {
          Deliver(event.value);
          AfterOne(old(rxAck), done, event.value);
          done := done + [event.value];
        }
      }
    }

    method Deliver(e: Event)
      modifies this`rxQueue, this`srrQueue, this`rxAck
      ensures rxQueue == old(rxQueue) + if e.S? then [] else [Heard(e)]
      ensures srrQueue == old(srrQueue) + if e.S? then [e.ctrl] else []
      ensures rxAck == if e.I? then (SendNumber(e.ctrl) + 1) % 8 else old(rxAck)
    {
      match e
      case I(ctrl, _) =>
        rxAck := (SendNumber(ctrl) + 1) % 8;
        rxQueue := rxQueue + [Heard(e)];
      case U(_, _) =>
        rxQueue := rxQueue + [Heard(e)];
      case S(ctrl) =>
        srrQueue := srrQueue + [ctrl];
    }

    // ---- building frames ----

    /** Numbers a payload and counts it. */
    method AttI(payload: seq<byte>) returns (att: seq<byte>)
      modifies this`txSeq
      ensures att == BuildAtt(ICtrl(rxAck, old(txSeq)), payload)
      ensures txSeq == (old(txSeq) + 1) % 8
    {
      att := BuildAtt(ICtrl(rxAck, txSeq), payload);
      txSeq := (txSeq + 1) % 8;
    }

    method SendPlain(payload: seq<byte>) returns (att: seq<byte>)
      requires CiphersOk() && phases != []
      modifies this`txSeq, this`phases
      ensures CiphersOk() && Model() == BuildPlain(old(Model()), payload)
      ensures OnAir(phases) == old(OnAir(phases)) + att
    {
      hide BuildAtt, ICtrl, OnAir, AesCtrState.Valid, AesCtrState.Offset, AesCtrState.Key;
      ghost var e := Plain(ICtrl(rxAck, txSeq), payload);
      ghost var t := Record(Model(), e);
      RecordOnAir(Model(), e);
      RecordFields(Model(), e);
      att := AttI(payload);
      phases := t.phases;
    }

    /** Inner-frame, encrypt, number: nothing can come between the three. */
    method SendEncrypted(payload: seq<byte>) returns (att: seq<byte>)
      requires CiphersOk() && phases != [] && txCipher != null
      modifies this`txSeq, this`phases, txCipher
      ensures CiphersOk() && Model() == BuildEnc(old(Model()), payload)
      ensures txSeq == (old(txSeq) + 1) % 8
      ensures OnAir(phases) == old(OnAir(phases)) + att
    {
      hide BuildAtt, ICtrl, OnAir, InnerEncode, Apply, AesCtrState.Valid, AesCtrState.Offset, AesCtrState.Key;
      ghost var before := Model();
      ghost var e := Enc(ICtrl(rxAck, txSeq), txCipher.Key(), txCipher.Offset(), payload);
      ghost var t := Record(before, e);
      RecordOnAir(before, e);
      RecordFields(before, e);
      var encrypted := txCipher.Process(InnerEncode(payload));
      att := AttI([ENCRYPTED] + encrypted);
      phases := t.phases;
    }

    // ---- the handshake and frame loops ----

    /** One item taken from the queue, wherever `run` is waiting for it. */
    method TakeItem(nonces: seq<byte>, exchange: Option<Exchange>, reaction: Reaction)
      returns (att: seq<byte>)
      requires Valid() && rxQueue != []
      modifies this, txCipher, rxCipher
      ensures Valid() && Model() == Step(old(Model()), Take(nonces, exchange, reaction))
      ensures OnAir(phases) == old(OnAir(phases)) + att
      ensures (txCipher == old(txCipher) || fresh(txCipher)) && (rxCipher == old(rxCipher) || fresh(rxCipher))
    {
      hide OnAir, TakeStep, AesCtrState.Valid, AesCtrState.Offset, AesCtrState.Key;
      StepKeeps(Model(), Take(nonces, exchange, reaction));
      Waiting(Model());
      hide Inv;
      att := TakeWaiting(nonces, exchange, reaction);
    }

    method TakeWaiting(nonces: seq<byte>, exchange: Option<Exchange>, reaction: Reaction)
      returns (att: seq<byte>)
      requires CiphersOk() && rxQueue != []
      requires !pc.AwaitSabm? && !pc.Done? ==> phases != []
      requires pc.Serving? ==> txCipher != null
      modifies this, txCipher, rxCipher
      ensures CiphersOk() && Model() == TakeStep(old(Model()), Take(nonces, exchange, reaction))
      ensures OnAir(phases) == old(OnAir(phases)) + att
      ensures (txCipher == old(txCipher) || fresh(txCipher)) && (rxCipher == old(rxCipher) || fresh(rxCipher))
    {
      hide OnAir, OnSabm, OnVersion, OnEp, OnKe, ServeItem, AesCtrState.Valid, AesCtrState.Offset, AesCtrState.Key;
      att := [];
      if pc.AwaitSabm? || pc.AwaitVersion? || pc.AwaitEp? || pc.AwaitKe? || pc.Serving? {
        var item := rxQueue[0];
        rxQueue := rxQueue[1..];
        match pc {
          case AwaitSabm => att := TakeSabm(item);
          case AwaitVersion => att := TakeVersion(item);
          case AwaitEp => att := TakeEp(item, nonces);
          case AwaitKe => att := TakeKe(item, exchange);
          case Serving => att := Serve(item, reaction);
        }
      }
    }

    method TakeSabm(item: Item) returns (att: seq<byte>)
      requires CiphersOk()
      modifies this`pc, this`phase, this`sawStorage, this`discSent, this`phases
      ensures CiphersOk() && Model() == OnSabm(old(Model()), item)
      ensures OnAir(phases) == old(OnAir(phases)) + att
    {
      hide OnAir, StartPhase, IsSabm, AesCtrState.Valid, AesCtrState.Offset, AesCtrState.Key;
      att := [];
      if item == Disconnect {
        pc := Done;
      } else if IsSabm(item) {
        att := SendUa();
      }
    }

    method TakeVersion(item: Item) returns (att: seq<byte>)
      requires CiphersOk() && phases != []
      modifies this`pc, this`txSeq, this`phases
      ensures CiphersOk() && Model() == OnVersion(old(Model()), item)
      ensures OnAir(phases) == old(OnAir(phases)) + att
    {
      hide OnAir, BuildPlain, IsSecurity, AesCtrState.Valid, AesCtrState.Offset, AesCtrState.Key;
      att := [];
      if item == Disconnect {
        pc := Done;
      } else if IsSecurity(item, VERSION_REQ) {
        att := SendPlain([VERSION_RESP, 0, 0, 0, 0, 0, 1]);
        pc := AwaitEp;
      }
    }

    method TakeEp(item: Item, nonces: seq<byte>) returns (att: seq<byte>)
      requires CiphersOk() && phases != []
      modifies this`pc, this`txSeq, this`phases
      ensures CiphersOk() && Model() == OnEp(old(Model()), item, nonces)
      ensures OnAir(phases) == old(OnAir(phases)) + att
    {
      hide OnAir, BuildPlain, IsSecurity, AesCtrState.Valid, AesCtrState.Offset, AesCtrState.Key;
      att := [];
      if item == Disconnect {
        pc := Done;
      } else if IsSecurity(item, EP_REQ) {
        att := SendPlain([EP_RESP] + nonces + [1]);
        pc := AwaitKe;
      }
    }

    method TakeKe(item: Item, exchange: Option<Exchange>) returns (att: seq<byte>)
      requires CiphersOk() && phases != []
      modifies this`pc, this`txSeq, this`phases, this`txCipher, this`rxCipher
      ensures CiphersOk() && Model() == OnKe(old(Model()), item, exchange)
      ensures OnAir(phases) == old(OnAir(phases)) + att
      ensures (txCipher == old(txCipher) || fresh(txCipher)) && (rxCipher == old(rxCipher) || fresh(rxCipher))
    {
      hide OnAir, BuildPlain, SetKeys, AesCtrState.Valid, AesCtrState.Offset, AesCtrState.Key;
      att := [];
      if item == Disconnect {
        pc := Done;
      } else if IsSecurity(item, KE_REQ) {
        if |item.event.payload| < 49 || exchange == None {
          pc := Done;
        } else {
          UseKeys(exchange.value.keys);
          att := SendPlain([KE_RESP] + exchange.value.reply);
          pc := SendingKe;
        }
      }
    }

    method SendUa() returns (att: seq<byte>)
      requires CiphersOk()
      modifies this`pc, this`phase, this`sawStorage, this`discSent, this`phases
      ensures CiphersOk() && Model() == StartPhase(old(Model()))
      ensures OnAir(phases) == old(OnAir(phases)) + att
    {
      hide OnAir, BuildAtt, AesCtrState.Valid, AesCtrState.Offset, AesCtrState.Key;
      StartOnAir(Model());
      att := BuildAtt(UCtrl(UA_TYPE), []);
      phase := phase + 1;
      sawStorage, discSent := false, false;
      pc := AwaitVersion;
      phases := phases + [Phase([Ua], None)];
    }

    /** A SABM in the frame loop. */
    method BeginAgain() returns (att: seq<byte>)
      requires CiphersOk()
      modifies this
      ensures CiphersOk() && Model() == Restart(old(Model()))
      ensures OnAir(phases) == old(OnAir(phases)) + att
      ensures txCipher == old(txCipher) && rxCipher == old(rxCipher)
    {
      hide OnAir, StartPhase, AesCtrState.Valid, AesCtrState.Offset, AesCtrState.Key;
      txSeq, rxAck, srrQueue, handshakeDone := 0, 0, [], false;
      att := SendUa();
    }

    /** One item of the frame loop. */
    method Serve(item: Item, reaction: Reaction) returns (att: seq<byte>)
      requires CiphersOk() && txCipher != null && phases != []
      modifies this, txCipher, rxCipher
      ensures CiphersOk() && Model() == ServeItem(old(Model()), item, reaction)
      ensures OnAir(phases) == old(OnAir(phases)) + att
      ensures txCipher == old(txCipher) && rxCipher == old(rxCipher)
    {
      hide OnAir, ServeItem, IsSabm, IsEncrypted, AfterTook, Opened, Restart, ArendiSession.React,
           AesCtrState.Valid, AesCtrState.Offset, AesCtrState.Key;
      att := [];
      if item == Disconnect {
        ServedOther(Model(), item, reaction);
        disconnectedByPeer := true;
        pc := Done;
      } else if IsSabm(item) {
        ServedOther(Model(), item, reaction);
        att := BeginAgain();
      } else {
        ServedIs(Model(), item, reaction);
        att := ServeFrame(item.event, reaction);
      }
    }

    /** A frame that is no SABM. */
    method ServeFrame(event: Event, reaction: Reaction) returns (att: seq<byte>)
      requires CiphersOk() && txCipher != null && phases != []
      modifies this, txCipher, rxCipher
      ensures CiphersOk() && OnAir(phases) == old(OnAir(phases)) + att
      ensures var plain := Opened(old(Model()), event);
              var t := AfterTook(old(Model()), event, plain);
              Model() == if plain.Some? then ArendiSession.React(t, plain.value, reaction) else t
      ensures txCipher == old(txCipher) && rxCipher == old(rxCipher)
    {
      hide OnAir, InnerDecode, Apply, Record, ArendiSession.React, AesCtrState.Valid, AesCtrState.Offset, AesCtrState.Key;
      att := [];
      if !IsEncrypted(event) {
        RecordFields(Model(), Took(event, None));
        Note(event, None);
      } else {
        var plaintext := Decrypt(event);
        if plaintext.Some? {
          att := React(plaintext.value, reaction);
        }
      }
    }

    method React(plaintext: seq<byte>, reaction: Reaction) returns (att: seq<byte>)
      requires CiphersOk() && txCipher != null && phases != []
      modifies this, txCipher
      ensures CiphersOk() && Model() == ArendiSession.React(old(Model()), plaintext, reaction)
      ensures OnAir(phases) == old(OnAir(phases)) + att
      ensures txCipher == old(txCipher) && rxCipher == old(rxCipher)
    {
      hide OnAir, BuildEnc, Answer, AesCtrState.Valid, AesCtrState.Offset, AesCtrState.Key;
      match reaction {
        case Answers(a) => att := Reply(a, plaintext);
        case NoHandler =>
          att := SendEncrypted(FAKE_RESPONSE);
          pc := AwaitingAck(txSeq);
        case Raises =>
          att := [];
          pc := Done;
      }
    }

    method Decrypt(event: Event) returns (plaintext: Option<seq<byte>>)
      requires CiphersOk() && rxCipher != null && phases != [] && IsEncrypted(event)
      modifies this`phases, rxCipher
      ensures CiphersOk() && plaintext == Opened(old(Model()), event)
      ensures Model() == AfterTook(old(Model()), event, plaintext)
      ensures OnAir(phases) == old(OnAir(phases))
    {
      hide OnAir, InnerDecode, Apply, Record, AesCtrState.Valid, AesCtrState.Key;
      var decrypted := rxCipher.Process(event.payload[1..]);
      plaintext := InnerDecode(decrypted);
      RecordFields(old(Model()), Took(event, plaintext));
      RecordPc(old(Model()), Model(), Took(event, plaintext));
      Note(event, plaintext);
    }

    ghost method Note(event: Event, plain: Option<seq<byte>>)
      requires CiphersOk() && phases != []
      modifies this`phases
      ensures CiphersOk() && Model() == Record(old(Model()), Took(event, plain))
      ensures OnAir(phases) == old(OnAir(phases))
    {
      hide OnAir, AesCtrState.Valid, AesCtrState.Offset, AesCtrState.Key;
      ghost var t := Record(Model(), Took(event, plain));
      RecordOnAir(Model(), Took(event, plain));
      RecordFields(Model(), Took(event, plain));
      phases := t.phases;
    }

    /** The next answer of a request, or the end of the request. */
    method Reply(answers: seq<seq<byte>>, plaintext: seq<byte>) returns (att: seq<byte>)
      requires CiphersOk() && txCipher != null && phases != []
      modifies this, txCipher
      ensures CiphersOk() && Model() == Answer(old(Model()), answers, plaintext)
      ensures OnAir(phases) == old(OnAir(phases)) + att
      ensures txCipher == old(txCipher) && rxCipher == old(rxCipher)
    {
      hide OnAir, BuildEnc, Record, BuildAtt, AesCtrState.Valid, AesCtrState.Offset, AesCtrState.Key;
      if answers != [] {
        att := SendEncrypted(answers[0]);
        pc := Responding(answers[1..], plaintext);
      } else {
        att := [];
        srrQueue := [];
        pc := Serving;
        if phase == 2 && !discSent {
          if Command(plaintext) == EVENT_STORAGE_INVENTORY {
            sawStorage := true;
          } else if sawStorage && Command(plaintext) == READ_CMD {
            att := SendDisc();
            pc := SendingDisc;
          }
        }
      }
    }

    method SendDisc() returns (att: seq<byte>)
      requires CiphersOk() && phases != []
      modifies this`phases
      ensures CiphersOk() && Model() == Record(old(Model()), Disc)
      ensures OnAir(phases) == old(OnAir(phases)) + att
    {
      hide OnAir, BuildAtt, AesCtrState.Valid, AesCtrState.Offset, AesCtrState.Key;
      ghost var t := Record(Model(), Disc);
      RecordOnAir(Model(), Disc);
      RecordFields(Model(), Disc);
      att := BuildAtt(UCtrl(DISC_TYPE), []);
      phases := t.phases;
    }

    /** A send that `run` was awaiting has gone through. */
    method SendDone() returns (att: seq<byte>)
      requires Valid()
      modifies this, txCipher
      ensures Valid() && Model() == Step(old(Model()), Label.SendDone)
      ensures OnAir(phases) == old(OnAir(phases)) + att
      ensures txCipher == old(txCipher) && rxCipher == old(rxCipher)
    {
      hide OnAir, Answer, AesCtrState.Valid, AesCtrState.Offset, AesCtrState.Key, Step, Inv, ReceiveNumber;
      StepIs(Model());
      StepKeeps(Model(), Label.SendDone);
      Waiting(Model());
      att := [];
      match pc {
        case SendingKe =>
          handshakeDone := true;
          pc := Serving;
        case Responding(rest, plaintext) =>
          att := Reply(rest, plaintext);
        case SendingDisc =>
          discSent := true;
          pc := Serving;
        case _ =>
      }
    }

    /** One acknowledgement taken while waiting for the one that confirms the last frame. */
    method TakeAck()
      requires Valid()
      modifies this`srrQueue, this`pc
      ensures Valid() && Model() == Step(old(Model()), Label.TakeAck)
    {
      hide AesCtrState.Valid, AesCtrState.Offset, AesCtrState.Key, Step, Inv, ReceiveNumber;
      StepIs(Model());
      StepKeeps(Model(), Label.TakeAck);
      if pc.AwaitingAck? && srrQueue != [] {
        var ctrl := srrQueue[0];
        srrQueue := srrQueue[1..];
        if ReceiveNumber(ctrl) == pc.expected {
          pc := Serving;
        }
      }
    }

    /** The wait that `run` is in has run out. */
    method TimeOut()
      requires Valid()
      modifies this`pc, this`shouldDisconnectAfter
      ensures Valid() && Model() == Step(old(Model()), Timeout)
    {
      hide AesCtrState.Valid, AesCtrState.Offset, AesCtrState.Key, Step, Inv, ReceiveNumber;
      StepIs(Model());
      StepKeeps(Model(), Timeout);
      if pc.AwaitingAck? {
        pc := Serving;
      } else if !pc.SendingKe? && !pc.SendingDisc? {
        if pc.Serving? && phase >= 2 {
          shouldDisconnectAfter := true;
        }
        pc := Done;
      }
    }

    /** The pusher's region: whatever it has read from the store goes out as one frame. */
    method PushOne(payload: seq<byte>) returns (att: seq<byte>)
      requires Valid()
      modifies this`txSeq, this`phases, txCipher
      ensures Valid() && Model() == Step(old(Model()), Push(payload))
      ensures OnAir(phases) == old(OnAir(phases)) + att
    {
      hide OnAir, BuildEnc, AesCtrState.Valid, AesCtrState.Offset, AesCtrState.Key, Step, Inv;
      StepIs(Model());
      StepKeeps(Model(), Push(payload));
      Waiting(Model());
      att := [];
      if handshakeDone {
        att := SendEncrypted(payload);
      }
    }

    method UseKeys(keys: Keys)
      requires CiphersOk() && phases != []
      modifies this`txCipher, this`rxCipher, this`phases
      ensures CiphersOk() && Model() == SetKeys(old(Model()), keys)
      ensures OnAir(phases) == old(OnAir(phases))
      ensures fresh(txCipher) && fresh(rxCipher)
    {
      hide OnAir, AesCtrState.Valid, AesCtrState.Offset, AesCtrState.Key;
      SetKeysOnAir(Model(), keys);
      phases := SetKeys(Model(), keys).phases;
      txCipher := new AesCtrState(keys.tx.encrypt, keys.tx.nonce);
      rxCipher := new AesCtrState(keys.rx.encrypt, keys.rx.nonce);
    }
  }
}
