/**
 What every run of the link keeps, whatever arrives, times out, fails or is pushed in between.
 */
module ArendiTheorems {
  import opened Bytes
  import opened Hdlc
  import opened AesCtr
  import opened SecureChannel
  import opened ArendiSession

  // ---- reading a log ----

  predicate IsIFrame(e: Entry) {
    e.Plain? || e.Enc?
  }

  /** How many I-frames a log has built. */
  function CountI(log: seq<Entry>): nat {
    if log == [] then 0
    else CountI(log[..|log| - 1]) + (if IsIFrame(log[|log| - 1]) then 1 else 0)
  }

  /** How much keystream its encrypted frames have used. */
  function Used(log: seq<Entry>): nat {
    if log == [] then 0
    else
      var e := log[|log| - 1];
      Used(log[..|log| - 1]) + (if e.Enc? then |InnerEncode(e.payload)| else 0)
  }

  /** The application payloads it sent, in build order. */
  function Sent(log: seq<Entry>): seq<seq<byte>> {
    if log == [] then []
    else
      var e := log[|log| - 1];
      Sent(log[..|log| - 1]) + (if e.Enc? then [e.payload] else [])
  }

  /** The queue items the frame loop took, and the plaintexts it got out of them. */
  function Taken(log: seq<Entry>): seq<Event> {
    if log == [] then []
    else
      var e := log[|log| - 1];
      Taken(log[..|log| - 1]) + (if e.Took? then [e.event] else [])
  }

  function Received(log: seq<Entry>): seq<seq<byte>> {
    if log == [] then []
    else
      var e := log[|log| - 1];
      Received(log[..|log| - 1]) + (if e.Took? && e.plain.Some? then [e.plain.value] else [])
  }

  /** The frames on the air. */
  function Frames(log: seq<Entry>): seq<Frame> {
    if log == [] then []
    else
      var e := log[|log| - 1];
      Frames(log[..|log| - 1])
      + (match e
         case Ua => [Frame(UCtrl(UA_TYPE), [])]
         case Disc => [Frame(UCtrl(DISC_TYPE), [])]
         case Plain(ctrl, payload) => [Frame(ctrl, payload)]
         case Enc(ctrl, cipher, at, payload) => [EncryptedFrame(cipher, at, ctrl, payload)]
         case Took(_, _) => [])
  }

  predicate IsCommand(e: Entry, c: byte) {
    e.Took? && e.plain.Some? && Command(e.plain.value) == c
  }

  predicate StorageBefore(log: seq<Entry>, n: nat) {
    exists i :: 0 <= i < n && i < |log| && IsCommand(log[i], EVENT_STORAGE_INVENTORY)
  }

  /** An EventStorageInventory was served, and a ReadCmd after it. */
  predicate StorageThenRead(log: seq<Entry>) {
    exists j :: 0 <= j < |log| && IsCommand(log[j], READ_CMD) && StorageBefore(log, j)
  }

  // ---- what a phase looks like ----

  predicate Numbered(ctrl: byte, before: seq<Entry>) {
    ctrl % 2 == 0 && SendNumber(ctrl) == CountI(before) % 8
  }

  /** Which entry may follow which prefix, in phase `k`. */
  ghost predicate Fits(k: nat, keys: Option<Keys>, before: seq<Entry>, e: Entry) {
    match e
    case Ua => before == []
    case Plain(ctrl, payload) =>
      && Numbered(ctrl, before) && payload != []
      && (|before| == 1 || |before| == 2 || |before| == 3)
      && payload[0] == (if |before| == 1 then VERSION_RESP else if |before| == 2 then EP_RESP else KE_RESP)
    case Enc(ctrl, cipher, at, payload) =>
      && |before| >= 4 && Numbered(ctrl, before)
      && keys.Some? && cipher == keys.value.tx && at == Used(before)
    case Took(_, _) => |before| >= 4
    case Disc => |before| >= 4 && k == 2 && Disc !in before && StorageThenRead(before)
  }

  ghost predicate Ordered(k: nat, p: Phase) {
    forall i :: 0 <= i < |p.log| ==> Fits(k, p.keys, p.log[..i], p.log[i])
  }

  ghost predicate PhaseOk(k: nat, p: Phase) {
    && Ordered(k, p)
    && (p.keys == None ==> |p.log| <= 3)
    && (p.keys.Some? ==> |p.log| >= 3)
    && (p.keys.Some? ==> Received(p.log) == Open(p.keys.value.rx, 0, Taken(p.log)))
  }

  // ---- the invariant ----

  ghost function Log(s: Session): seq<Entry> {
    if s.phases == [] then [] else s.phases[|s.phases| - 1].log
  }

  /** Every phase so far, the running one included, is well formed. */
  ghost predicate PhasesOk(s: Session) {
    forall k :: 0 <= k < |s.phases| ==> PhaseOk(k + 1, s.phases[k])
  }

  ghost function LastKeys(s: Session): Option<Keys> {
    if s.phases == [] then None else s.phases[|s.phases| - 1].keys
  }

  ghost predicate Core(s: Session) {
    && PhasesOk(s)
    && s.txSeq == CountI(Log(s)) % 8
  }

  /** Both ciphers stand where the log says. */
  ghost predicate Aligned(s: Session) {
    && s.phases != [] && |Log(s)| >= 4
    && s.keys.Some? && LastKeys(s) == s.keys
    && s.txAt == Used(Log(s)) && s.rxAt == Consumed(0, Taken(Log(s)))
  }

  ghost predicate RequestOk(s: Session, plaintext: seq<byte>) {
    exists j :: 0 <= j < |Log(s)| && Log(s)[j].Took? && Log(s)[j].plain == Some(plaintext)
                && (s.sawStorage ==> StorageBefore(Log(s), j))
  }

  ghost predicate PcOk(s: Session) {
    match s.pc
    case AwaitSabm => s.phases == [] && !s.handshakeDone
    case AwaitVersion => |Log(s)| == 1 && !s.handshakeDone
    case AwaitEp => |Log(s)| == 2 && !s.handshakeDone
    case AwaitKe => |Log(s)| == 3 && !s.handshakeDone
    case SendingKe => Aligned(s) && !s.handshakeDone
    case Serving => s.handshakeDone
    case Responding(rest, plaintext) => s.handshakeDone && RequestOk(s, plaintext)
    case SendingDisc => s.handshakeDone
    case AwaitingAck(_) => s.handshakeDone
    case Done => true
  }

  ghost predicate DiscOk(s: Session) {
    && (Disc in Log(s) ==> s.discSent || s.pc.SendingDisc? || s.pc.Done?)
    && (s.sawStorage ==> StorageBefore(Log(s), |Log(s)|))
  }

  ghost predicate Inv(s: Session) {
    && Core(s) && PcOk(s) && DiscOk(s)
    && (s.handshakeDone ==> Aligned(s))
  }

  // ---- appending to a log ----

  lemma Snoc(log: seq<Entry>, e: Entry)
    ensures CountI(log + [e]) == CountI(log) + (if IsIFrame(e) then 1 else 0)
    ensures Used(log + [e]) == Used(log) + (if e.Enc? then |InnerEncode(e.payload)| else 0)
    ensures Taken(log + [e]) == Taken(log) + (if e.Took? then [e.event] else [])
    ensures Received(log + [e]) == Received(log) + (if e.Took? && e.plain.Some? then [e.plain.value] else [])
  {
    hide InnerEncode;
    assert (log + [e])[..|log|] == log;
  }

  lemma OrderedSnoc(k: nat, p: Phase, e: Entry)
    requires Ordered(k, p) && Fits(k, p.keys, p.log, e)
    ensures Ordered(k, p.(log := p.log + [e]))
  {
    hide Fits;
    var q := p.(log := p.log + [e]);
    forall i | 0 <= i < |q.log|
      ensures Fits(k, q.keys, q.log[..i], q.log[i])
    {
      if i < |p.log| {
        assert q.log[..i] == p.log[..i];
      } else {
        assert q.log[..i] == p.log;
      }
    }
  }

  lemma {:induction false} OpenConcat(c: Cipher, at: nat, a: seq<Event>, b: seq<Event>)
    ensures Open(c, at, a + b) == Open(c, at, a) + Open(c, Consumed(at, a), b)
    ensures Consumed(at, a + b) == Consumed(Consumed(at, a), b)
    decreases |a|
  {
    hide InnerDecode, Apply;
    if a == [] {
      assert a + b == b;
    } else {
      assert (a + b)[1..] == a[1..] + b;
      if IsEncrypted(a[0]) {
        OpenConcat(c, at + |a[0].payload[1..]|, a[1..], b);
      } else {
        OpenConcat(c, at, a[1..], b);
      }
    }
  }

  lemma StorageGrows(log: seq<Entry>, more: seq<Entry>, n: nat, m: nat)
    requires n <= m && StorageBefore(log, n)
    ensures StorageBefore(log + more, m)
  {
    var i :| 0 <= i < n && i < |log| && IsCommand(log[i], EVENT_STORAGE_INVENTORY);
    assert (log + more)[i] == log[i];
  }

  /** Appending an entry that fits keeps a phase well formed. */
  lemma PhaseSnoc(k: nat, p: Phase, e: Entry)
    requires PhaseOk(k, p) && Fits(k, p.keys, p.log, e)
    requires p.keys == None ==> |p.log| <= 2 && !e.Took?
    requires e.Took? ==>
      Open(p.keys.value.rx, Consumed(0, Taken(p.log)), [e.event]) == if e.plain.Some? then [e.plain.value] else []
    ensures PhaseOk(k, p.(log := p.log + [e]))
  {
    hide Open, Consumed, Fits, Ordered;
    OrderedSnoc(k, p, e);
    Snoc(p.log, e);
    hide Taken, Received;
    if e.Took? {
      OpenConcat(p.keys.value.rx, 0, Taken(p.log), [e.event]);
    } else {
      assert Taken(p.log + [e]) == Taken(p.log) && Received(p.log + [e]) == Received(p.log);
    }
  }

  /** Recording an entry that fits keeps everything the past is known for. */
  lemma RecordKeeps(s: Session, e: Entry)
    requires s.phases != [] && PhasesOk(s)
    requires Fits(|s.phases|, LastKeys(s), Log(s), e)
    requires LastKeys(s) == None ==> |Log(s)| <= 2 && !e.Took?
    requires e.Took? ==>
      var rx := LastKeys(s).value.rx;
         Open(rx, Consumed(0, Taken(Log(s))), [e.event]) == if e.plain.Some? then [e.plain.value] else []
    ensures var t := Record(s, e);
            && Log(t) == Log(s) + [e] && t.phases != []
            && PhasesOk(t)
            && LastKeys(t) == LastKeys(s)
  {
    hide Open, Consumed, Fits, PhaseOk, Taken;
    var n := |s.phases| - 1;
    var p := s.phases[n];
    PhaseSnoc(n + 1, p, e);
    assert Record(s, e).phases == s.phases[n := p.(log := p.log + [e])];
    hide Record;
  }

  lemma {:induction false} ShortLog(k: nat, p: Phase)
    requires Ordered(k, p) && |p.log| <= 4
    ensures Used(p.log) == 0 && Taken(p.log) == [] && Received(p.log) == []
    decreases |p.log|
  {
    if p.log != [] {
      var n := |p.log| - 1;
      var q := p.(log := p.log[..n]);
      forall i | 0 <= i < n
        ensures Fits(k, q.keys, q.log[..i], q.log[i])
      {
        assert q.log[..i] == p.log[..i];
      }
      ShortLog(k, q);
      assert Fits(k, p.keys, p.log[..n], p.log[n]);
    }
  }

  lemma RecordLog(s: Session, e: Entry)
    ensures Log(Record(s, e)) == if s.phases == [] then [] else Log(s) + [e]
    ensures |Record(s, e).phases| == |s.phases|
  {
  }

  lemma StartLog(s: Session)
    ensures |StartPhase(s).phases| == |s.phases| + 1 && Log(StartPhase(s)) == [Ua]
  {
  }

  // ---- what each step keeps ----

  lemma NumberedNow(s: Session)
    requires s.txSeq == CountI(Log(s)) % 8
    ensures Numbered(ICtrl(s.rxAck, s.txSeq), Log(s))
  {
    hide CountI;
    NumbersReadBack(s.rxAck, s.txSeq);
  }

  lemma NextNumber(n: nat)
    ensures (n % 8 + 1) % 8 == (n + 1) % 8
  {
  }

  lemma SamePhases(s: Session, t: Session)
    requires s.phases == t.phases
    ensures PhasesOk(s) <==> PhasesOk(t)
    ensures Log(s) == Log(t) && LastKeys(s) == LastKeys(t)
  {
    hide PhaseOk;
  }

  /** A step that records one fitting entry, and counts it if it is an I-frame. */
  lemma TraceKeeps(s: Session, e: Entry, t: Session)
    requires Core(s) && s.phases != [] && Fits(|s.phases|, LastKeys(s), Log(s), e) && !e.Took?
    requires LastKeys(s) == None ==> |Log(s)| <= 2
    requires t.phases == Record(s, e).phases
    requires t.txSeq == if IsIFrame(e) then (s.txSeq + 1) % 8 else s.txSeq
    ensures Core(t) && t.phases != [] && Log(t) == Log(s) + [e] && LastKeys(t) == LastKeys(s)
  {
    hide PhasesOk, Fits, Record, Log, LastKeys, CountI, Used, Taken, Received, Open, Consumed, InnerEncode;
    RecordKeeps(s, e);
    SamePhases(Record(s, e), t);
    Snoc(Log(s), e);
    NextNumber(CountI(Log(s)));
  }

  lemma PlainFits(k: nat, keys: Option<Keys>, before: seq<Entry>, e: Entry)
    requires e.Plain? && e.payload != [] && Numbered(e.ctrl, before) && 1 <= |before| <= 3
    requires e.payload[0] == (if |before| == 1 then VERSION_RESP else if |before| == 2 then EP_RESP else KE_RESP)
    ensures Fits(k, keys, before, e)
  {
    hide Numbered;
  }

  lemma BuildPlainKeeps(s: Session, payload: seq<byte>)
    requires Core(s) && s.phases != [] && payload != []
    requires 1 <= |Log(s)| <= 3
    requires payload[0] == (if |Log(s)| == 1 then VERSION_RESP else if |Log(s)| == 2 then EP_RESP else KE_RESP)
    requires LastKeys(s) == None ==> |Log(s)| <= 2
    ensures var t := BuildPlain(s, payload);
            && Core(t) && t.phases != []
            && Log(t) == Log(s) + [Plain(ICtrl(s.rxAck, s.txSeq), payload)]
            && LastKeys(t) == LastKeys(s)
  {
    var e := Plain(ICtrl(s.rxAck, s.txSeq), payload);
    NumberedNow(s);
    hide PhasesOk, Numbered, ICtrl, Fits, Log, LastKeys, CountI, Record;
    PlainFits(|s.phases|, LastKeys(s), Log(s), e);
    TraceKeeps(s, e, BuildPlain(s, payload));
  }

  lemma EncFits(k: nat, keys: Option<Keys>, before: seq<Entry>, e: Entry)
    requires e.Enc? && |before| >= 4 && Numbered(e.ctrl, before)
    requires keys.Some? && e.cipher == keys.value.tx && e.at == Used(before)
    ensures Fits(k, keys, before, e)
  {
    hide Numbered, Used;
  }

  lemma RecordFields(s: Session, e: Entry)
    ensures Record(s, e) == s.(phases := Record(s, e).phases)
  {
  }

  lemma AlignedKeys(s: Session)
    requires Aligned(s)
    ensures s.keys.Some?
  {
  }

  lemma BuildEncKeeps(s: Session, payload: seq<byte>)
    requires Core(s) && Aligned(s)
    ensures var t := BuildEnc(s, payload);
            && Core(t) && Aligned(t)
            && Log(t) == Log(s) + [Enc(ICtrl(s.rxAck, s.txSeq), s.keys.value.tx, s.txAt, payload)]
  {
    hide PhasesOk, InnerEncode, Consumed, Fits, Numbered, ICtrl, Open;
    var e := Enc(ICtrl(s.rxAck, s.txSeq), s.keys.value.tx, s.txAt, payload);
    NumberedNow(s);
    AlignedKeys(s);
    Snoc(Log(s), e);
    RecordFields(s, e);
    hide Log, LastKeys, CountI, Record, Used, Taken;
    assert Taken(Log(s) + [e]) == Taken(Log(s));
    EncFits(|s.phases|, LastKeys(s), Log(s), e);
    var t := BuildEnc(s, payload);
    TraceKeeps(s, e, t);
  }

  lemma TookOpens(c: Cipher, at: nat, event: Event, plain: Option<seq<byte>>)
    requires if IsEncrypted(event) then plain == InnerDecode(Apply(c, at, event.payload[1..])) else plain == None
    ensures Open(c, at, [event]) == if plain.Some? then [plain.value] else []
    ensures Consumed(at, [event]) == if IsEncrypted(event) then at + |event.payload| - 1 else at
  {
  }

  /** A recorded Took entry moves the receiving cipher as far as it decrypted. */
  lemma TookKeeps(s: Session, event: Event, plain: Option<seq<byte>>)
    requires Core(s) && Aligned(s)
    requires if IsEncrypted(event) then plain == InnerDecode(Apply(s.keys.value.rx, s.rxAt, event.payload[1..]))
             else plain == None
    ensures var t := Record(s, Took(event, plain));
            && Log(t) == Log(s) + [Took(event, plain)] && Core(t)
            && Aligned(t.(rxAt := if IsEncrypted(event) then s.rxAt + |event.payload| - 1 else s.rxAt))
  {
    hide PhasesOk, InnerDecode, Apply;
    var e := Took(event, plain);
    TookOpens(s.keys.value.rx, s.rxAt, event, plain);
    assert Fits(|s.phases|, LastKeys(s), Log(s), e);
    hide Open, Consumed, IsEncrypted, Fits;
    RecordKeeps(s, e);
    Snoc(Log(s), e);
    OpenConcat(s.keys.value.rx, 0, Taken(Log(s)), [event]);
    hide Taken, Used, CountI;
    RecordFields(s, e);
    var t := Record(s, e);
    hide Record, LastKeys;
    var u := t.(rxAt := if IsEncrypted(event) then s.rxAt + |event.payload| - 1 else s.rxAt);
    SamePhases(t, u);
    assert Aligned(u);
  }

  lemma DiscKeeps(s: Session, plaintext: seq<byte>)
    requires Core(s) && Aligned(s) && |s.phases| == 2 && Disc !in Log(s)
    requires s.sawStorage && RequestOk(s, plaintext) && Command(plaintext) == READ_CMD
    ensures var t := Record(s, Disc);
            Log(t) == Log(s) + [Disc] && Core(t) && Aligned(t)
  {
    hide PhaseOk, Consumed;
    var j :| 0 <= j < |Log(s)| && Log(s)[j].Took? && Log(s)[j].plain == Some(plaintext) && StorageBefore(Log(s), j);
    assert IsCommand(Log(s)[j], READ_CMD);
    RecordKeeps(s, Disc);
    Snoc(Log(s), Disc);
    assert Taken(Log(s) + [Disc]) == Taken(Log(s));
  }

  /** Only the trace, the counters and the ciphers matter to `Core` and `Aligned`. */
  lemma SameRecord(s: Session, t: Session)
    requires s.phases == t.phases && s.txSeq == t.txSeq
    ensures Core(s) <==> Core(t)
    ensures s.keys == t.keys && s.txAt == t.txAt && s.rxAt == t.rxAt ==> (Aligned(s) <==> Aligned(t))
    ensures Log(s) == Log(t)
  {
    hide PhaseOk, Consumed;
  }

  lemma StorageAt(log: seq<Entry>, j: nat)
    requires j < |log| && IsCommand(log[j], EVENT_STORAGE_INVENTORY)
    ensures StorageBefore(log, |log|)
  {
  }

  lemma StorageExtends(s: Session, t: Session, e: Entry)
    requires Log(t) == Log(s) + [e]
    ensures forall n, m :: n <= m && StorageBefore(Log(s), n) ==> StorageBefore(Log(t), m)
  {
    forall n: nat, m: nat | n <= m && StorageBefore(Log(s), n)
      ensures StorageBefore(Log(t), m)
    {
      StorageGrows(Log(s), [e], n, m);
    }
  }

  /** The last answer of a request has been sent. */
  lemma FinishKeeps(s: Session, plaintext: seq<byte>)
    requires Inv(s) && s.handshakeDone && RequestOk(s, plaintext) && s.pc == Responding([], plaintext)
    ensures Inv(FinishRequest(s, plaintext))
  {
    hide Core, Aligned, StorageBefore;
    var t := s.(srrQueue := [], pc := Serving);
    assert Core(t) && Aligned(t) by { SameRecord(s, t); }
    assert Log(t) == Log(s);
    var j :| 0 <= j < |Log(s)| && Log(s)[j].Took? && Log(s)[j].plain == Some(plaintext)
             && (s.sawStorage ==> StorageBefore(Log(s), j));
    if |s.phases| == 2 && !s.discSent {
      if Command(plaintext) == EVENT_STORAGE_INVENTORY {
        StorageAt(Log(s), j);
        SameRecord(t, t.(sawStorage := true));
      } else if s.sawStorage && Command(plaintext) == READ_CMD {
        assert RequestOk(t, plaintext);
        DiscKeeps(t, plaintext);
        StorageExtends(t, Record(t, Disc), Disc);
        SameRecord(Record(t, Disc), Record(t, Disc).(pc := SendingDisc));
      }
    }
  }

  lemma RequestStays(s: Session, t: Session, e: Entry, plaintext: seq<byte>)
    requires RequestOk(s, plaintext) && Log(t) == Log(s) + [e] && s.sawStorage == t.sawStorage
    ensures RequestOk(t, plaintext)
  {
    hide StorageBefore;
    var j :| 0 <= j < |Log(s)| && Log(s)[j].Took? && Log(s)[j].plain == Some(plaintext)
             && (s.sawStorage ==> StorageBefore(Log(s), j));
    assert Log(t)[j] == Log(s)[j];
    StorageExtends(s, t, e);
  }

  lemma SameRequest(s: Session, t: Session, plaintext: seq<byte>)
    requires Log(s) == Log(t) && s.sawStorage == t.sawStorage
    ensures RequestOk(s, plaintext) <==> RequestOk(t, plaintext)
  {
  }

  /** Everything `BuildEnc` leaves alone. */
  lemma BuildEncFields(s: Session, payload: seq<byte>)
    ensures var t := BuildEnc(s, payload);
            t == s.(phases := t.phases, txSeq := t.txSeq, txAt := t.txAt)
  {
    hide InnerEncode, ICtrl;
    if s.keys.Some? {
      RecordFields(s, Enc(ICtrl(s.rxAck, s.txSeq), s.keys.value.tx, s.txAt, payload));
    }
    hide Record;
  }

  lemma AnswerKeeps(s: Session, answers: seq<seq<byte>>, plaintext: seq<byte>)
    requires s.pc == Responding(answers, plaintext) && Inv(s)
    ensures Inv(Answer(s, answers, plaintext))
  {
    hide Core, Aligned, StorageBefore, RequestOk;
    if answers == [] {
      FinishKeeps(s, plaintext);
    } else {
      var t := BuildEnc(s, answers[0]);
      hide BuildEnc;
      BuildEncFields(s, answers[0]);
      BuildEncKeeps(s, answers[0]);
      var e := Enc(ICtrl(s.rxAck, s.txSeq), s.keys.value.tx, s.txAt, answers[0]);
      StorageExtends(s, t, e);
      RequestStays(s, t, e, plaintext);
      var u := t.(pc := Responding(answers[1..], plaintext));
      SameRecord(t, u);
      SameRequest(t, u, plaintext);
    }
  }

  lemma PushKeeps(s: Session, payload: seq<byte>)
    requires Inv(s) && s.handshakeDone
    ensures Inv(BuildEnc(s, payload))
  {
    AlignedKeys(s);
    hide Core, Aligned, StorageBefore, RequestOk;
    var t := BuildEnc(s, payload);
    hide BuildEnc;
    BuildEncFields(s, payload);
    BuildEncKeeps(s, payload);
    var e := Enc(ICtrl(s.rxAck, s.txSeq), s.keys.value.tx, s.txAt, payload);
    hide ICtrl;
    StorageExtends(s, t, e);
    if s.pc.Responding? {
      RequestStays(s, t, e, s.pc.plaintext);
    }
    assert PcOk(t);
    assert DiscOk(t);
  }

  /** What the receiving cipher makes of one queued frame. */
  function Opened(s: Session, event: Event): Option<seq<byte>>
    requires s.keys.Some?
  {
    if IsEncrypted(event) then InnerDecode(Apply(s.keys.value.rx, s.rxAt, event.payload[1..])) else None
  }

  function AfterTook(s: Session, event: Event, plain: Option<seq<byte>>): Session {
    Record(s, Took(event, plain)).(rxAt := if IsEncrypted(event) then s.rxAt + |event.payload| - 1 else s.rxAt)
  }

  lemma TookRequest(s: Session, t: Session, event: Event, plain: seq<byte>)
    requires Log(t) == Log(s) + [Took(event, Some(plain))] && s.sawStorage == t.sawStorage
    requires s.sawStorage ==> StorageBefore(Log(s), |Log(s)|)
    ensures RequestOk(t, plain)
  {
    StorageExtends(s, t, Took(event, Some(plain)));
    assert Log(t)[|Log(s)|] == Took(event, Some(plain));
  }

  lemma TookInv(s: Session, event: Event, plain: Option<seq<byte>>)
    requires Inv(s) && s.pc == Serving && s.keys.Some?
    requires plain == Opened(s, event)
    ensures var t := AfterTook(s, event, plain);
            && Inv(t) && t.pc == Serving
            && (plain.Some? ==> RequestOk(t, plain.value))
  {
    hide Core, Aligned, StorageBefore, RequestOk, Apply, InnerDecode, CountI, Used, Taken;
    var t := AfterTook(s, event, plain);
    var e := Took(event, plain);
    TookKeeps(s, event, plain);
    RecordFields(s, e);
    hide Record, Opened;
    SameRecord(Record(s, e), t);
    StorageExtends(s, t, e);
    if plain.Some? {
      TookRequest(s, t, event, plain.value);
    }
  }

  /** A disconnect notice ends the frame loop, and a SABM starts everything over. */
  lemma ServedOther(s: Session, item: Item, reaction: Reaction)
    ensures item == Disconnect ==> ServeItem(s, item, reaction) == s.(pc := Done, disconnectedByPeer := true)
    ensures IsSabm(item) ==> ServeItem(s, item, reaction) == Restart(s)
  {
    hide Record, React;
  }

  lemma ServedIs(s: Session, item: Item, reaction: Reaction)
    requires item.Heard? && !IsSabm(item) && s.keys.Some?
    ensures var plain := Opened(s, item.event);
            var t := AfterTook(s, item.event, plain);
            ServeItem(s, item, reaction) == if plain.Some? then React(t, plain.value, reaction) else t
  {
    hide Apply, InnerDecode, BuildEnc, Answer, Record;
    RecordFields(s, Took(item.event, Opened(s, item.event)));
  }

  lemma FinishPc(s: Session, pc: Pc, plaintext: seq<byte>)
    ensures FinishRequest(s.(pc := pc), plaintext) == FinishRequest(s, plaintext)
  {
    hide Record;
    assert s.(pc := pc).(srrQueue := [], pc := Serving) == s.(srrQueue := [], pc := Serving);
  }

  lemma RecordPc(s: Session, t: Session, e: Entry)
    requires s.phases == t.phases
    ensures Record(t, e) == t.(phases := Record(s, e).phases)
  {
  }

  lemma BuildEncPc(s: Session, pc: Pc, payload: seq<byte>)
    ensures BuildEnc(s.(pc := pc), payload) == BuildEnc(s, payload).(pc := pc)
  {
    hide InnerEncode, ICtrl;
    if s.keys.Some? {
      RecordPc(s, s.(pc := pc), Enc(ICtrl(s.rxAck, s.txSeq), s.keys.value.tx, s.txAt, payload));
      RecordFields(s, Enc(ICtrl(s.rxAck, s.txSeq), s.keys.value.tx, s.txAt, payload));
      hide Record;
    }
  }

  lemma AnswerPc(s: Session, answers: seq<seq<byte>>, plaintext: seq<byte>)
    ensures Answer(s.(pc := Responding(answers, plaintext)), answers, plaintext) == Answer(s, answers, plaintext)
  {
    var u := s.(pc := Responding(answers, plaintext));
    if answers == [] {
      FinishPc(s, u.pc, plaintext);
    } else {
      BuildEncPc(s, u.pc, answers[0]);
      hide BuildEnc;
      var t := BuildEnc(s, answers[0]);
      assert t.(pc := u.pc).(pc := Responding(answers[1..], plaintext)) == t.(pc := Responding(answers[1..], plaintext));
    }
  }

  /** Changing only what the trace and the ciphers do not depend on. */
  lemma IdleKeeps(s: Session, t: Session)
    requires Inv(s)
    requires t == s.(rxBuf := t.rxBuf, rxQueue := t.rxQueue, srrQueue := t.srrQueue, rxAck := t.rxAck, pc := t.pc,
                     disconnectedByPeer := t.disconnectedByPeer, shouldDisconnectAfter := t.shouldDisconnectAfter)
    requires t.pc == s.pc || t.pc == Done || (t.pc == Serving && s.pc.AwaitingAck?)
    ensures Inv(t)
  {
    hide Core, Aligned, StorageBefore;
    SameRecord(s, t);
    if s.pc.Responding? && t.pc == s.pc {
      SameRequest(s, t, s.pc.plaintext);
    }
  }

  lemma ReactKeeps(t: Session, plain: seq<byte>, reaction: Reaction)
    requires Inv(t) && t.pc == Serving && RequestOk(t, plain)
    ensures Inv(React(t, plain, reaction))
  {
    hide Core, Aligned, StorageBefore, RequestOk, BuildEnc, Answer;
    match reaction
    case Answers(a) =>
      var u := t.(pc := Responding(a, plain));
      SameRecord(t, u);
      SameRequest(t, u, plain);
      AnswerKeeps(u, a, plain);
      AnswerPc(t, a, plain);
    case NoHandler =>
      PushKeeps(t, FAKE_RESPONSE);
      var u := BuildEnc(t, FAKE_RESPONSE);
      BuildEncFields(t, FAKE_RESPONSE);
      SameRecord(u, u.(pc := AwaitingAck((t.txSeq + 1) % 8)));
    case Raises => IdleKeeps(t, t.(pc := Done));
  }

  lemma StartPast(s: Session)
    requires PhasesOk(s)
    requires s.txSeq == 0 && !s.handshakeDone
    ensures Inv(StartPhase(s))
  {
    hide Open, Consumed;
    var t := StartPhase(s);
    var p := Phase([Ua], None);
    assert [Ua][..0] == [];
    assert Ordered(|t.phases|, p);
    assert CountI([Ua]) == CountI([]);
  }

  lemma RestartKeeps(s: Session)
    requires Core(s)
    ensures Inv(Restart(s))
  {
    var t := s.(txSeq := 0, rxAck := 0, srrQueue := [], handshakeDone := false);
    assert PhasesOk(t);
    hide PhaseOk;
    StartPast(t);
  }

  lemma ServeKeeps(s: Session, item: Item, reaction: Reaction)
    requires Inv(s) && s.pc == Serving && item.Heard?
    ensures Inv(ServeItem(s, item, reaction))
  {
    if IsSabm(item) {
      RestartKeeps(s);
    } else {
      AlignedKeys(s);
      var plain := Opened(s, item.event);
      TookInv(s, item.event, plain);
      var t := AfterTook(s, item.event, plain);
      ServedIs(s, item, reaction);
      hide Core, Aligned, StorageBefore, RequestOk, ServeItem, AfterTook, Opened;
      if plain.Some? {
        ReactKeeps(t, plain.value, reaction);
      }
    }
  }

  lemma BuildPlainFields(s: Session, payload: seq<byte>)
    ensures var t := BuildPlain(s, payload); t == s.(phases := t.phases, txSeq := t.txSeq)
  {
    hide ICtrl;
    RecordFields(s, Plain(ICtrl(s.rxAck, s.txSeq), payload));
    hide Record;
  }

  /** A handshake answer, and where the handshake goes on waiting after it. */
  lemma HandshakeKeeps(s: Session, payload: seq<byte>, pc: Pc)
    requires Inv(s) && !s.handshakeDone && payload != []
    requires (s.pc == AwaitVersion && payload[0] == VERSION_RESP && pc == AwaitEp)
          || (s.pc == AwaitEp && payload[0] == EP_RESP && pc == AwaitKe)
    ensures Inv(BuildPlain(s, payload).(pc := pc))
  {
    BuildPlainKeeps(s, payload);
    hide Core, StorageBefore, Aligned;
    BuildPlainFields(s, payload);
    var t := BuildPlain(s, payload);
    hide BuildPlain;
    SameRecord(t, t.(pc := pc));
    StorageExtends(s, t, Plain(ICtrl(s.rxAck, s.txSeq), payload));
  }

  lemma NothingOpens(c: Cipher)
    ensures Open(c, 0, []) == [] && Consumed(0, []) == 0
  {
  }

  lemma SetKeysKeeps(s: Session, keys: Keys)
    requires Core(s) && |Log(s)| == 3
    ensures var t := SetKeys(s, keys);
            && Core(t) && Log(t) == Log(s) && t.keys == Some(keys)
            && t.phases != [] && LastKeys(t) == Some(keys)
            && t == s.(keys := t.keys, txAt := 0, rxAt := 0, phases := t.phases)
  {
    hide Consumed, Open;
    var n := |s.phases| - 1;
    var p := s.phases[n];
    var q := p.(keys := Some(keys));
    assert PhaseOk(n + 1, p);
    ShortLog(n + 1, p);
    forall i | 0 <= i < |q.log|
      ensures Fits(n + 1, q.keys, q.log[..i], q.log[i])
    {
      assert Fits(n + 1, p.keys, p.log[..i], p.log[i]);
    }
    hide Fits;
    NothingOpens(keys.rx);
    assert PhaseOk(n + 1, q);
    hide PhaseOk;
  }

  /** The ciphers start at zero when the fourth entry is the KE_RESP. */
  lemma FreshCiphers(s: Session)
    requires Core(s) && |Log(s)| == 4 && s.keys.Some? && LastKeys(s) == s.keys
    requires s.txAt == 0 && s.rxAt == 0
    ensures Aligned(s)
  {
    hide Open;
    var p := s.phases[|s.phases| - 1];
    assert PhaseOk(|s.phases|, p);
    ShortLog(|s.phases|, p);
  }

  lemma KeyExchangeKeeps(s: Session, keys: Keys, payload: seq<byte>)
    requires Inv(s) && s.pc == AwaitKe && payload != [] && payload[0] == KE_RESP
    ensures Inv(BuildPlain(SetKeys(s, keys), payload).(pc := SendingKe))
  {
    hide StorageBefore, Aligned;
    SetKeysKeeps(s, keys);
    hide Core;
    var t := SetKeys(s, keys);
    hide SetKeys;
    BuildPlainKeeps(t, payload);
    BuildPlainFields(t, payload);
    var u := BuildPlain(t, payload);
    hide BuildPlain;
    var e := Plain(ICtrl(t.rxAck, t.txSeq), payload);
    StorageExtends(s, u, e);
    FreshCiphers(u);
    SameRecord(u, u.(pc := SendingKe));
  }

  lemma FirstPhase(s: Session)
    requires Inv(s) && s.pc == AwaitSabm
    ensures Inv(StartPhase(s))
  {
    assert CountI([]) == 0;
    StartPast(s);
  }

  lemma TakeKeeps(s: Session, l: Label)
    requires Inv(s) && l.Take? && s.rxQueue != []
    ensures Inv(TakeStep(s, l))
  {
    var item := s.rxQueue[0];
    var t := s.(rxQueue := s.rxQueue[1..]);
    IdleKeeps(s, t);
    var u := TakeStep(s, l);
    if s.pc == AwaitSabm && item != Disconnect && IsSabm(item) {
      assert Inv(StartPhase(t)) by { FirstPhase(t); }
    } else if s.pc == AwaitVersion && item != Disconnect && IsSecurity(item, VERSION_REQ) {
      HandshakeKeeps(t, [VERSION_RESP, 0, 0, 0, 0, 0, 1], AwaitEp);
    } else if s.pc == AwaitEp && item != Disconnect && IsSecurity(item, EP_REQ) {
      HandshakeKeeps(t, [EP_RESP] + l.nonces + [1], AwaitKe);
    } else if s.pc == AwaitKe && item != Disconnect && IsSecurity(item, KE_REQ)
              && |item.event.payload| >= 49 && l.exchange.Some? {
      KeyExchangeKeeps(t, l.exchange.value.keys, [KE_RESP] + l.exchange.value.reply);
    } else if s.pc == Serving && item != Disconnect {
      ServeKeeps(t, item, l.reaction);
    } else {
      hide Inv, StartPhase, BuildPlain, SetKeys, Restart;
      IdleKeeps(s, u);
    }
  }

  lemma SendDoneKeeps(s: Session)
    requires Inv(s)
    ensures Inv(SendDoneStep(s))
  {
    hide Core, Aligned, StorageBefore, Answer;
    match s.pc
    case SendingKe => SameRecord(s, SendDoneStep(s));
    case Responding(rest, plaintext) => AnswerKeeps(s, rest, plaintext);
    case SendingDisc => SameRecord(s, SendDoneStep(s));
    case _ =>
  }

  /** Every step of every task keeps the invariant. */
  lemma StepKeeps(s: Session, l: Label)
    requires Inv(s)
    ensures Inv(Step(s, l))
  {
    hide Inv, Events, Leftover, BuildEnc, SendDoneStep, TakeStep;
    match l
    case Take(_, _, _) => if s.rxQueue != [] { TakeKeeps(s, l); }
    case SendDone => SendDoneKeeps(s);
    case Push(payload) => if s.handshakeDone { PushKeeps(s, payload); }
    case _ => IdleKeeps(s, Step(s, l));
  }

  lemma {:induction false} RunKeeps(s: Session, labels: seq<Label>)
    requires Inv(s)
    ensures Inv(Run(s, labels))
    decreases |labels|
  {
    hide Inv, Step;
    if labels != [] {
      StepKeeps(s, labels[0]);
      RunKeeps(Step(s, labels[0]), labels[1..]);
    }
  }

  lemma FreshKeeps()
    ensures Inv(Fresh())
  {
    assert Log(Fresh()) == [];
  }

  // ---- what every run guarantees ----

  /** The trace of phase `k` (counted from 1) after a run. */
  function PhaseAfter(labels: seq<Label>, k: nat): Phase
    requires 1 <= k <= |Run(Fresh(), labels).phases|
  {
    Run(Fresh(), labels).phases[k - 1]
  }

  lemma EveryPhase(labels: seq<Label>, k: nat)
    requires 1 <= k <= |Run(Fresh(), labels).phases|
    ensures PhaseOk(k, PhaseAfter(labels, k))
  {
    hide PhaseOk, PcOk, DiscOk, Aligned;
    FreshKeeps();
    RunKeeps(Fresh(), labels);
    assert Inv(Run(Fresh(), labels));
  }

  /** The control bytes of the I-frames a log built, in order. */
  function Controls(log: seq<Entry>): (c: seq<byte>)
    ensures |c| == CountI(log)
  {
    if log == [] then []
    else
      var e := log[|log| - 1];
      Controls(log[..|log| - 1]) + (if IsIFrame(e) then [e.ctrl] else [])
  }

  lemma FitsNumbered(k: nat, p: Phase, i: nat)
    requires Ordered(k, p) && i < |p.log| && IsIFrame(p.log[i])
    ensures p.log[i].ctrl % 2 == 0 && SendNumber(p.log[i].ctrl) == CountI(p.log[..i]) % 8
  {
    hide SendNumber, CountI, Used;
    assert Fits(k, p.keys, p.log[..i], p.log[i]);
  }

  lemma ControlsSnoc(log: seq<Entry>, e: Entry)
    ensures Controls(log + [e]) == Controls(log) + (if IsIFrame(e) then [e.ctrl] else [])
    ensures CountI(log + [e]) == CountI(log) + (if IsIFrame(e) then 1 else 0)
  {
    assert (log + [e])[..|log|] == log;
  }

  lemma {:induction false} ControlsNumbered(k: nat, p: Phase, n: nat, j: nat)
    requires Ordered(k, p) && n <= |p.log| && j < CountI(p.log[..n])
    ensures Controls(p.log[..n])[j] % 2 == 0 && SendNumber(Controls(p.log[..n])[j]) == j % 8
  {
    hide Ordered, SendNumber, Controls;
    assert n > 0;
    hide CountI;
    var before, e := p.log[..n - 1], p.log[n - 1];
    assert p.log[..n] == before + [e];
    ControlsSnoc(before, e);
    if j < CountI(before) {
      ControlsNumbered(k, p, n - 1, j);
    } else {
      FitsNumbered(k, p, n - 1);
    }
  }

  /** The j-th I-frame built since a SABM was acted upon carries N(S) = j modulo 8. */
  lemma SendNumbersCount(labels: seq<Label>, k: nat, j: nat)
    requires 1 <= k <= |Run(Fresh(), labels).phases|
    requires j < |Controls(PhaseAfter(labels, k).log)|
    ensures var c := Controls(PhaseAfter(labels, k).log)[j]; c % 2 == 0 && SendNumber(c) == j % 8
  {
    hide Controls, SendNumber, Run, PhaseAfter;
    EveryPhase(labels, k);
    var p := PhaseAfter(labels, k);
    assert p.log[..|p.log|] == p.log;
    ControlsNumbered(k, p, |p.log|, j);
  }

  predicate Starts(payload: seq<byte>, kind: byte) {
    payload != [] && payload[0] == kind
  }

  /**
   A phase is a UA, the three plaintext answers in order, and only then encrypted frames, all with
   that phase's key and each starting where the one before it stopped in the keystream.
   */
  lemma PhaseShape(labels: seq<Label>, k: nat, i: nat)
    requires 1 <= k <= |Run(Fresh(), labels).phases|
    requires i < |PhaseAfter(labels, k).log|
    ensures var p := PhaseAfter(labels, k);
            && (p.log[i].Ua? <==> i == 0)
            && (p.log[i].Plain? <==> 1 <= i <= 3)
            && (i == 1 ==> Starts(p.log[i].payload, VERSION_RESP))
            && (i == 2 ==> Starts(p.log[i].payload, EP_RESP))
            && (i == 3 ==> Starts(p.log[i].payload, KE_RESP))
            && (p.log[i].Enc? ==> p.keys.Some? && p.log[i].cipher == p.keys.value.tx && p.log[i].at == Used(p.log[..i]))
  {
    hide Run, PhaseAfter, Used, CountI, SendNumber;
    EveryPhase(labels, k);
    var p := PhaseAfter(labels, k);
    assert Fits(k, p.keys, p.log[..i], p.log[i]);
  }

  lemma InPrefix(log: seq<Entry>, i: nat, n: nat)
    requires i < |log| && n <= |log|
    ensures i < n ==> log[i] in log[..n]
  {
    if i < n {
      assert log[..n][i] == log[i];
    }
  }

  lemma DiscOnce(k: nat, p: Phase, i: nat)
    requires Ordered(k, p) && i < |p.log| && p.log[i] == Disc
    ensures k == 2 && StorageThenRead(p.log[..i])
    ensures forall j :: 0 <= j < |p.log| && p.log[j] == Disc ==> j == i
  {
    hide StorageThenRead;
    assert Fits(k, p.keys, p.log[..i], p.log[i]);
    forall j | 0 <= j < |p.log| && p.log[j] == Disc
      ensures j == i
    {
      assert Fits(k, p.keys, p.log[..j], p.log[j]);
      InPrefix(p.log, i, j);
      InPrefix(p.log, j, i);
    }
  }

  /** DISC is built at most once in a run, in phase 2, after a storage inventory and a later read. */
  lemma DiscAtMostOnce(labels: seq<Label>, k: nat, i: nat, l: nat, j: nat)
    requires 1 <= k <= |Run(Fresh(), labels).phases| && i < |PhaseAfter(labels, k).log|
    requires 1 <= l <= |Run(Fresh(), labels).phases| && j < |PhaseAfter(labels, l).log|
    requires PhaseAfter(labels, k).log[i] == Disc && PhaseAfter(labels, l).log[j] == Disc
    ensures k == l == 2 && i == j
    ensures StorageThenRead(PhaseAfter(labels, 2).log[..i])
  {
    hide Run, PhaseAfter;
    EveryPhase(labels, k);
    EveryPhase(labels, l);
    DiscOnce(k, PhaseAfter(labels, k), i);
    DiscOnce(l, PhaseAfter(labels, l), j);
  }

  lemma SentSnoc(log: seq<Entry>, e: Entry)
    ensures Sent(log + [e]) == Sent(log) + if e.Enc? then [e.payload] else []
    ensures Used(log + [e]) == Used(log) + if e.Enc? then |InnerEncode(e.payload)| else 0
  {
    hide InnerEncode;
    assert (log + [e])[..|log|] == log;
  }

  lemma NothingRouted(c: Cipher)
    ensures Open(c, 0, Routed(Frames([]))) == Sent([]) && Consumed(0, Routed(Frames([]))) == Used([])
  {
  }

  lemma LastFrame(log: seq<Entry>, e: Entry)
    ensures Frames(log + [e]) == Frames(log) + Frames([e])
  {
    hide EncryptedFrame;
    assert (log + [e])[..|log|] == log;
    assert [e][..0] == [];
  }

  lemma EntryOpens(k: nat, keys: Option<Keys>, before: seq<Entry>, e: Entry, tx: Cipher)
    requires Fits(k, keys, before, e) && (keys.Some? ==> tx == keys.value.tx)
    ensures Open(tx, Used(before), Routed(Frames([e]))) == if e.Enc? then [e.payload] else []
    ensures Consumed(Used(before), Routed(Frames([e]))) == Used(before) + if e.Enc? then |InnerEncode(e.payload)| else 0
  {
    hide Apply, InnerEncode, InnerDecode, StorageThenRead;
    assert [e][..0] == [];
    match e
    case Enc(ctrl, cipher, at, payload) =>
      OpenOne(cipher, at, ctrl, payload);
      var f := EncryptedFrame(cipher, at, ctrl, payload);
      assert Routed([f]) == [Route(f.ctrl, f.payload)];
      RouteKeeps(f.ctrl, f.payload);
    case _ =>
  }

  /** What the frames of a well-formed log mean to a peer with the mirrored cipher. */
  lemma {:induction false} FramesOpen(k: nat, p: Phase, n: nat, tx: Cipher)
    requires Ordered(k, p) && n <= |p.log|
    requires p.keys.Some? ==> tx == p.keys.value.tx
    ensures Open(tx, 0, Routed(Frames(p.log[..n]))) == Sent(p.log[..n])
    ensures Consumed(0, Routed(Frames(p.log[..n]))) == Used(p.log[..n])
  {
    hide Open, Consumed, Routed, Frames, Sent, Used, InnerEncode, Fits;
    if n == 0 {
      NothingRouted(tx);
    } else {
      var log, e := p.log[..n - 1], p.log[n - 1];
      FramesOpen(k, p, n - 1, tx);
      assert p.log[..n] == log + [e];
      assert Fits(k, p.keys, log, e);
      hide Ordered;
      SentSnoc(log, e);
      LastFrame(log, e);
      RoutedConcat(Frames(log), Frames([e]));
      OpenConcat(tx, 0, Routed(Frames(log)), Routed(Frames([e])));
      EntryOpens(k, p.keys, log, e, tx);
    }
  }

  /**
   End to end: however a phase's bytes are cut, and whatever answers and notifications were
   interleaved, the client decrypts exactly the payloads the device sent, in build order.
   */
  lemma ClientReceivesSent(labels: seq<Label>, k: nat, chunks: seq<seq<byte>>)
    requires 1 <= k <= |Run(Fresh(), labels).phases| && PhaseAfter(labels, k).keys.Some?
    requires Flatten(chunks) == Wire(Frames(PhaseAfter(labels, k).log))
    ensures var p := PhaseAfter(labels, k);
            Open(p.keys.value.tx, 0, Feed([], chunks)) == Sent(p.log)
  {
    hide Run, PhaseAfter, Frames, Open, Feed, Sent, Routed, Wire, Used, Consumed;
    EveryPhase(labels, k);
    var p := PhaseAfter(labels, k);
    assert p.log[..|p.log|] == p.log;
    ChunkingIsIrrelevant(chunks);
    WireDelivers(Frames(p.log));
    FramesOpen(k, p, |p.log|, p.keys.value.tx);
  }
}
