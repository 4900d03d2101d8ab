/**
 The device's side of the Alba link as a state machine over await-free steps.

 `run` (handshake, frame loop, re-handshake), the byte feed, the disconnect notice and the
 notification pusher are separate tasks that interleave only where one of them awaits.  Each region
 between two awaits is one `Step`; what the outside decides (bytes, timeouts, key material, what the
 application answers, what is pushed) is in the step's label.  The trace of a phase records every
 frame in the order it is built, so nothing here depends on when the radio sends it.
 */
module ArendiSession {
  import opened Bytes
  import opened Hdlc
  import opened AesCtr
  import opened SecureChannel

  const VERSION_REQ: byte := 0x00
  const VERSION_RESP: byte := 0x01
  const EP_REQ: byte := 0x10
  const EP_RESP: byte := 0x11
  const KE_REQ: byte := 0x12
  const KE_RESP: byte := 0x13

  const READ_CMD: byte := 0x10
  const EVENT_STORAGE_INVENTORY: byte := 0x50

  /** The answer given when no application handler is installed. */
  const FAKE_RESPONSE: seq<byte> :=
    [0x24, 0x00, 0x00, 0x00, 0x82, 0x00, 0x41, 0x63, 0x41, 0x6C,
     0x62, 0x61, 0x00, 0x00, 0x00, 0x00, 0x00, 0x00, 0x00, 0x00]

  // ---- what a phase records ----

  datatype Entry =
    | Ua
    | Disc
    | Plain(ctrl: byte, payload: seq<byte>)
    | Enc(ctrl: byte, cipher: Cipher, at: nat, payload: seq<byte>)
    | Took(event: Event, plain: Option<seq<byte>>)

  /** One phase: everything since a SABM was acted upon, and the keys agreed in it. */
  datatype Phase = Phase(log: seq<Entry>, keys: Option<Keys>)

  datatype Keys = Keys(tx: Cipher, rx: Cipher)

  // ---- the session ----

  datatype Item = Heard(event: Event) | Disconnect

  /** Where `run` is waiting. */
  datatype Pc =
    | AwaitSabm
    | AwaitVersion
    | AwaitEp
    | AwaitKe
    | SendingKe
    | Serving
    | Responding(rest: seq<seq<byte>>, plaintext: seq<byte>)
    | SendingDisc
    | AwaitingAck(expected: nat)
    | Done

  datatype Session = Session(
    rxBuf: seq<byte>,
    rxQueue: seq<Item>,
    srrQueue: seq<byte>,
    rxAck: nat,
    txSeq: nat,
    pc: Pc,
    sawStorage: bool,
    discSent: bool,
    handshakeDone: bool,
    disconnectedByPeer: bool,
    shouldDisconnectAfter: bool,
    keys: Option<Keys>,
    txAt: nat,
    rxAt: nat,
    phases: seq<Phase>)

  function Fresh(): Session {
    Session([], [], [], 0, 0, AwaitSabm, false, false, false, false, false, None, 0, 0, [])
  }

  /** What the key exchange produces once the client's CMAC is accepted. */
  datatype Exchange = Exchange(keys: Keys, reply: seq<byte>)

  /** What the application does with a plaintext; without a handler a fixed answer is sent. */
  datatype Reaction = Answers(frames: seq<seq<byte>>) | NoHandler | Raises

  datatype Label =
    | FeedBytes(data: seq<byte>)
    | PeerGone
    | Take(nonces: seq<byte>, exchange: Option<Exchange>, reaction: Reaction)
    | SendDone
    | TakeAck
    | Timeout
    | Fail
    | Push(payload: seq<byte>)

  // ---- the trace ----

  function Record(s: Session, e: Entry): Session {
    if s.phases == [] then s
    else
      var n := |s.phases| - 1;
      s.(phases := s.phases[n := s.phases[n].(log := s.phases[n].log + [e])])
  }

  // ---- frame builders ----

  /** `_att_i` on an unencrypted payload. */
  function BuildPlain(s: Session, payload: seq<byte>): Session {
    Record(s, Plain(ICtrl(s.rxAck, s.txSeq), payload)).(txSeq := (s.txSeq + 1) % 8)
  }

  /** Inner-frame, encrypt and number one payload; nothing else can come between the three. */
  function BuildEnc(s: Session, payload: seq<byte>): Session {
    if s.keys == None then s
    else
      Record(s, Enc(ICtrl(s.rxAck, s.txSeq), s.keys.value.tx, s.txAt, payload))
        .(txSeq := (s.txSeq + 1) % 8, txAt := s.txAt + |InnerEncode(payload)|)
  }

  // ---- the steps of the three tasks ----

  function LastAck(ack: nat, events: seq<Event>): nat
    decreases |events|
  {
    if events == [] then ack
    else LastAck(if events[0].I? then (SendNumber(events[0].ctrl) + 1) % 8 else ack, events[1..])
  }

  function Queued(events: seq<Event>): seq<Item> {
    if events == [] then []
    else (if events[0].S? then [] else [Heard(events[0])]) + Queued(events[1..])
  }

  function Acks(events: seq<Event>): seq<byte> {
    if events == [] then []
    else (if events[0].S? then [events[0].ctrl] else []) + Acks(events[1..])
  }

  function FeedStep(s: Session, data: seq<byte>): Session {
    var events := Events(s.rxBuf + data);
    s.(rxBuf := Leftover(s.rxBuf + data),
       rxQueue := s.rxQueue + Queued(events),
       srrQueue := s.srrQueue + Acks(events),
       rxAck := LastAck(s.rxAck, events))
  }

  /** From a SABM acted upon to the UA in flight. */
  function StartPhase(s: Session): Session {
    s.(pc := AwaitVersion, sawStorage := false, discSent := false,
       phases := s.phases + [Phase([Ua], None)])
  }

  /** A SABM inside the frame loop: both sides count from zero again, stale acks are dropped. */
  function Restart(s: Session): Session {
    StartPhase(s.(txSeq := 0, rxAck := 0, srrQueue := [], handshakeDone := false))
  }

  predicate IsSabm(item: Item) {
    item.Heard? && item.event.U? && item.event.ctrl == UCtrl(SABM_TYPE)
  }

  predicate IsSecurity(item: Item, kind: byte) {
    item.Heard? && item.event.I? && item.event.payload != [] && item.event.payload[0] == kind
  }

  function Command(plaintext: seq<byte>): byte {
    if plaintext == [] then 0 else plaintext[0]
  }

  /** After the last answer of a request: drop acks, then decide whether phase 2 is over. */
  function FinishRequest(s: Session, plaintext: seq<byte>): Session {
    var t := s.(srrQueue := [], pc := Serving);
    if |s.phases| == 2 && !s.discSent then
      if Command(plaintext) == EVENT_STORAGE_INVENTORY then t.(sawStorage := true)
      else if s.sawStorage && Command(plaintext) == READ_CMD then Record(t, Disc).(pc := SendingDisc)
      else t
    else t
  }

  /** Builds the next answer, or finishes the request when there is none. */
  function Answer(s: Session, answers: seq<seq<byte>>, plaintext: seq<byte>): Session {
    if answers == [] then FinishRequest(s, plaintext)
    else BuildEnc(s, answers[0]).(pc := Responding(answers[1..], plaintext))
  }

  /** What follows a decrypted request; an exception in the application ends the run. */
  function React(s: Session, plaintext: seq<byte>, reaction: Reaction): Session {
    match reaction
    case Answers(frames) => Answer(s, frames, plaintext)
    case NoHandler => BuildEnc(s, FAKE_RESPONSE).(pc := AwaitingAck((s.txSeq + 1) % 8))
    case Raises => s.(pc := Done)
  }

  /** One item taken from the queue in the frame loop. */
  function ServeItem(s: Session, item: Item, reaction: Reaction): Session {
    if item == Disconnect then s.(pc := Done, disconnectedByPeer := true)
    else if IsSabm(item) then Restart(s)
    else if !IsEncrypted(item.event) || s.keys == None then Record(s, Took(item.event, None))
    else
      var data := item.event.payload[1..];
      var plain := InnerDecode(Apply(s.keys.value.rx, s.rxAt, data));
      var t := Record(s, Took(item.event, plain)).(rxAt := s.rxAt + |data|);
      match plain
      case None => t
      case Some(p) => React(t, p, reaction)
  }

  function OnSabm(s: Session, item: Item): Session {
    if item == Disconnect then s.(pc := Done) else if IsSabm(item) then StartPhase(s) else s
  }

  function OnVersion(s: Session, item: Item): Session {
    if item == Disconnect then s.(pc := Done)
    else if IsSecurity(item, VERSION_REQ) then BuildPlain(s, [VERSION_RESP, 0, 0, 0, 0, 0, 1]).(pc := AwaitEp)
    else s
  }

  function OnEp(s: Session, item: Item, nonces: seq<byte>): Session {
    if item == Disconnect then s.(pc := Done)
    else if IsSecurity(item, EP_REQ) then BuildPlain(s, [EP_RESP] + nonces + [1]).(pc := AwaitKe)
    else s
  }

  function SetKeys(s: Session, keys: Keys): Session {
    if s.phases == [] then s
    else
      var n := |s.phases| - 1;
      s.(keys := Some(keys), txAt := 0, rxAt := 0, phases := s.phases[n := s.phases[n].(keys := Some(keys))])
  }

  function OnKe(s: Session, item: Item, exchange: Option<Exchange>): Session {
    if item == Disconnect then s.(pc := Done)
    else if !IsSecurity(item, KE_REQ) then s
    else if |item.event.payload| < 49 || exchange == None then s.(pc := Done)
    else BuildPlain(SetKeys(s, exchange.value.keys), [KE_RESP] + exchange.value.reply).(pc := SendingKe)
  }

  function TakeStep(s: Session, l: Label): Session
    requires l.Take? && s.rxQueue != []
  {
    var item := s.rxQueue[0];
    var t := s.(rxQueue := s.rxQueue[1..]);
    match s.pc
    case AwaitSabm => OnSabm(t, item)
    case AwaitVersion => OnVersion(t, item)
    case AwaitEp => OnEp(t, item, l.nonces)
    case AwaitKe => OnKe(t, item, l.exchange)
    case Serving => ServeItem(t, item, l.reaction)
    case _ => s
  }

  function SendDoneStep(s: Session): Session {
    match s.pc
    case SendingKe => s.(handshakeDone := true, pc := Serving)
    case Responding(rest, plaintext) => Answer(s, rest, plaintext)
    case SendingDisc => s.(discSent := true, pc := Serving)
    case _ => s
  }

  /** An acknowledgement with another number is stale and is dropped. */
  function TakeAckStep(s: Session): Session {
    if s.pc.AwaitingAck? && s.srrQueue != [] then
      var t := s.(srrQueue := s.srrQueue[1..]);
      if ReceiveNumber(s.srrQueue[0]) == s.pc.expected then t.(pc := Serving) else t
    else s
  }

  function TimeoutStep(s: Session): Session {
    if s.pc.AwaitingAck? then s.(pc := Serving)
    else if s.pc.SendingKe? || s.pc.SendingDisc? || s.pc.Done? then s
    else if s.pc.Serving? then s.(pc := Done, shouldDisconnectAfter := s.shouldDisconnectAfter || |s.phases| >= 2)
    else s.(pc := Done)
  }

  function Step(s: Session, l: Label): Session {
    match l
    case FeedBytes(data) => FeedStep(s, data)
    case PeerGone => s.(rxQueue := s.rxQueue + [Disconnect])
    case Take(_, _, _) => if s.rxQueue == [] then s else TakeStep(s, l)
    case SendDone => SendDoneStep(s)
    case TakeAck => TakeAckStep(s)
    case Timeout => TimeoutStep(s)
    case Fail => s.(pc := Done)
    case Push(payload) => if s.handshakeDone then BuildEnc(s, payload) else s
  }

  function Run(s: Session, labels: seq<Label>): Session
    decreases |labels|
  {
    if labels == [] then s else Run(Step(s, labels[0]), labels[1..])
  }
}
