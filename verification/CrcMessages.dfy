/**
 The message inside the frames of a Mera device: a six-byte header with length and check, a body,
 and the request and response layouts that live in the body.
 */
module CrcMessages {
  import opened Bytes
  import opened Crc

  const HEADER := 6
  const BODY := 256
  const RESPONSE_ID: byte := 5
  const REQUEST_ID: byte := 4

  function Zeros(n: nat): (z: seq<byte>)
    ensures |z| == n && forall i :: 0 <= i < n ==> z[i] == 0
  {
    seq(n, _ => 0)
  }

  /** The check as it travels: high byte first. */
  function CheckBytes(data: seq<byte>): (r: seq<byte>)
    ensures |r| == 2
  {
    [FromBits(High8(GeberitCrc(data))), FromBits(Low8(GeberitCrc(data)))]
  }

  lemma CheckBytesInjective(a: seq<byte>, b: seq<byte>)
    requires CheckBytes(a) == CheckBytes(b)
    ensures GeberitCrc(a) == GeberitCrc(b)
  {
    hide GeberitCrc, FromBits, ToBits, Low8, High8;
    assert CheckBytes(a)[0] == CheckBytes(b)[0] && CheckBytes(a)[1] == CheckBytes(b)[1];
    ToFromBits(Low8(GeberitCrc(a)));
    ToFromBits(Low8(GeberitCrc(b)));
    ToFromBits(High8(GeberitCrc(a)));
    ToFromBits(High8(GeberitCrc(b)));
    HalvesInjective(GeberitCrc(a), GeberitCrc(b));
  }

  datatype CrcMessage = CrcMessage(id: byte, segments: byte, lenHi: byte, lenLo: byte, crc: seq<byte>, body: seq<byte>)

  /** A message for `data`; the body buffer has 256 bytes unless the data need more. */
  function Create(id: byte, segments: byte, data: seq<byte>): CrcMessage
    requires |data| < 0x10000
  {
    CrcMessage(id, segments, |data| / 256, |data| % 256, CheckBytes(data),
               if |data| < BODY then data + Zeros(BODY - |data|) else data)
  }

  function Serialize(m: CrcMessage): seq<byte> {
    [m.id, m.segments, m.lenHi, m.lenLo] + m.crc + m.body
  }

  lemma HalvesJoin(c: Word)
    ensures ((High8(c) as Word) << 8) | (Low8(c) as Word) == c
  {
  }

  /** The bytes of a serialized message: number, segments, length and check high byte first, body, zeros. */
  lemma MessageLayout(id: byte, segments: byte, data: seq<byte>)
    requires |data| < 0x10000
    ensures var s := Serialize(Create(id, segments, data));
            && |s| == 6 + (if |data| < 256 then 256 else |data|)
            && s[0] == id && s[1] == segments && 256 * (s[2] as int) + s[3] == |data|
            && ((ToBits(s[4]) as Word) << 8) | (ToBits(s[5]) as Word) == Divide(0x1234, Message(data, HighFirst))
            && (forall i :: 6 <= i < |s| ==> s[i] == if i - 6 < |data| then data[i - 6] else 0)
  {
    GeberitCrcIsDivision(data);
    hide GeberitCrc, FromBits, ToBits, Low8, High8, Divide, Message;
    var c := GeberitCrc(data);
    ToFromBits(Low8(c));
    ToFromBits(High8(c));
    HalvesJoin(c);
  }

  /** Reads a message back; at most 256 bytes of body are kept whatever length is declared. */
  function CreateFromBytes(data: seq<byte>): Option<CrcMessage> {
    if |data| < HEADER then None
    else
      var declared := (data[2] as int) * 256 + data[3];
      var length := if declared < BODY then declared else BODY;
      var end := if HEADER + length < |data| then HEADER + length else |data|;
      Some(CrcMessage(data[0], data[1], data[2], data[3], data[4..6], data[6..end] + Zeros(BODY - length)))
  }

  function Declared(m: CrcMessage): nat {
    (m.lenHi as int) * 256 + m.lenLo
  }

  /** `is_valid`; None where it runs off the end of the body. */
  function IsValid(m: CrcMessage): Option<bool> {
    if Declared(m) > |m.body| then None else Some(CheckBytes(m.body[..Declared(m)]) == m.crc)
  }

  // ---- responses ----

  datatype Parsed =
    | Context(ctx: byte, procedure: byte, result: seq<byte>, valid: bool)
    | Ignored
    | Failed

  /** `parse_message1`: an invalid check is only logged, everything it cannot read raises. */
  function ParseResponse(data: seq<byte>): Parsed {
    if data == [] || (data[0] != RESPONSE_ID && data[0] != 6) then Failed
    else
      match CreateFromBytes(data)
      case None => Failed
      case Some(m) =>
        if m.id != RESPONSE_ID then Ignored
        else if IsValid(m) == None || |m.body| < 5 then Failed
        else
          var n := m.body[4];
          var end := if 5 + n < |m.body| then 5 + n else |m.body|;
          Context(m.body[2], m.body[3], m.body[5..end], IsValid(m).value)
  }

  /** The body of a response. */
  function ResponseBody(status: byte, node: byte, ctx: byte, procedure: byte, result: seq<byte>): (b: seq<byte>)
    ensures |b| == 5 + |result|
  {
    [status, node, ctx, procedure, |result| % 256] + result
  }

  /** A serialized message read back from a buffer that holds at least its content. */
  lemma ReadBack(id: byte, segments: byte, data: seq<byte>, buffer: seq<byte>)
    requires |data| <= BODY && |buffer| >= HEADER + |data|
    requires buffer[..HEADER + |data|] == Serialize(Create(id, segments, data))[..HEADER + |data|]
    ensures CreateFromBytes(buffer) == Some(Create(id, segments, data))
    ensures IsValid(Create(id, segments, data)) == Some(true)
  {
    hide CheckBytes;
    var m := Create(id, segments, data);
    var s := Serialize(m);
    var k := HEADER + |data|;
    assert s[6..k] == data;
    assert buffer[6..k] == buffer[..k][6..] == data;
    assert buffer[4..6] == buffer[..k][4..6] == m.crc;
    assert forall i :: 0 <= i < 4 ==> buffer[i] == buffer[..k][i] == s[i];
    assert m.body[..|data|] == data;
    assert data + Zeros(0) == data;
  }

  /** Reading the response body of up to 251 result bytes gives context, procedure and result. */
  lemma ResponseReadBack(status: byte, node: byte, ctx: byte, procedure: byte, result: seq<byte>, buffer: seq<byte>)
    requires |result| <= 251
    requires var body := ResponseBody(status, node, ctx, procedure, result);
             && |buffer| >= HEADER + |body|
             && buffer[..HEADER + |body|] == Serialize(Create(RESPONSE_ID, 0, body))[..HEADER + |body|]
    ensures ParseResponse(buffer) == Context(ctx, procedure, result, true)
  {
    hide CheckBytes, IsValid, CreateFromBytes;
    var body := ResponseBody(status, node, ctx, procedure, result);
    ReadBack(RESPONSE_ID, 0, body, buffer);
    var m := Create(RESPONSE_ID, 0, body);
    assert buffer[0] == buffer[..HEADER + |body|][0] == RESPONSE_ID;
    assert m.body[..|body|] == body;
    assert m.body[5..5 + |result|] == body[5..] == result;
  }

  /** Which of the three a reader makes of any bytes. */
  lemma ResponseCases(data: seq<byte>)
    ensures ParseResponse(data).Ignored? <==> |data| >= 6 && data[0] == 6
    ensures ParseResponse(data).Context? <==>
              && |data| >= 6 && data[0] == 5
              && var declared := 256 * (data[2] as int) + data[3];
              var kept := if declared < 256 then declared else 256;
              var held := (if |data| - 6 < kept then |data| - 6 else kept) + 256 - kept;
              declared <= held && held >= 5
  {
    hide CheckBytes;
  }

  /** A response with more than 251 result bytes makes the reader run off its 256-byte body. */
  lemma LongResponseFails(status: byte, node: byte, ctx: byte, procedure: byte, result: seq<byte>, buffer: seq<byte>)
    requires 251 < |result| < 0x10000 - 5
    requires var body := ResponseBody(status, node, ctx, procedure, result);
             && |buffer| >= HEADER + |body|
             && buffer[..HEADER + |body|] == Serialize(Create(RESPONSE_ID, 0, body))[..HEADER + |body|]
    ensures ParseResponse(buffer) == Failed
  {
    hide CheckBytes;
    var body := ResponseBody(status, node, ctx, procedure, result);
    var s := Serialize(Create(RESPONSE_ID, 0, body));
    assert forall i :: 0 <= i < 6 ==> buffer[i] == buffer[..HEADER + |body|][i] == s[i];
    assert |body| == |body| / 256 * 256 + |body| % 256;
  }

  // ---- requests ----

  /** The body of a request: node, context, procedure, argument length, arguments. */
  function RequestBody(node: byte, ctx: byte, procedure: byte, args: seq<byte>): (b: seq<byte>)
    requires |args| < 256
    ensures |b| == 4 + |args|
  {
    [node, ctx, procedure, |args|] + args
  }

  datatype Request = Request(ctx: byte, procedure: byte, args: seq<byte>)

  /** `_parse_reassembled_request`; None where it runs off the end. */
  function ParseRequest(data: seq<byte>): Option<Request> {
    if |data| < 10 then None
    else
      var n := data[9];
      var end := if 10 + n < |data| then 10 + n else |data|;
      Some(Request(data[7], data[8], data[10..end]))
  }

  lemma BodyAt(segments: byte, body: seq<byte>, buffer: seq<byte>)
    requires |body| < 0x10000 && |buffer| >= HEADER + |body|
    requires buffer[..HEADER + |body|] == Serialize(Create(REQUEST_ID, segments, body))[..HEADER + |body|]
    ensures buffer[HEADER..HEADER + |body|] == body
    ensures forall i :: 0 <= i < |body| ==> buffer[HEADER + i] == body[i]
  {
    hide CheckBytes;
    var k := HEADER + |body|;
    var s := Serialize(Create(REQUEST_ID, segments, body));
    assert s[6..k] == body;
    assert buffer[6..k] == buffer[..k][6..] == body;
    assert forall i :: 0 <= i < |body| ==> buffer[HEADER + i] == buffer[6..k][i];
  }

  lemma RequestReadBack(segments: byte, node: byte, ctx: byte, procedure: byte, args: seq<byte>, buffer: seq<byte>)
    requires |args| <= 252
    requires var body := RequestBody(node, ctx, procedure, args);
             && |buffer| >= HEADER + |body|
             && buffer[..HEADER + |body|] == Serialize(Create(REQUEST_ID, segments, body))[..HEADER + |body|]
    ensures ParseRequest(buffer) == Some(Request(ctx, procedure, args))
  {
    var body := RequestBody(node, ctx, procedure, args);
    BodyAt(segments, body, buffer);
    hide Serialize, Create;
    var k := HEADER + |body|;
    assert buffer[10..k] == buffer[6..k][4..] == args;
    assert buffer[7] == body[1] && buffer[8] == body[2] && buffer[9] == body[3];
  }

  // ---- altered messages ----

  /** A message as it is read: its check, and its body in a buffer of 256 bytes. */
  function AsRead(id: byte, segments: byte, check: seq<byte>, data: seq<byte>): CrcMessage
    requires |data| <= BODY
  {
    CrcMessage(id, segments, |data| / 256, |data| % 256, check, data + Zeros(BODY - |data|))
  }

  lemma ValidIs(id: byte, segments: byte, check: seq<byte>, data: seq<byte>)
    requires |data| <= BODY
    ensures IsValid(AsRead(id, segments, check, data)) == Some(check == CheckBytes(data))
  {
    hide CheckBytes;
    assert (data + Zeros(BODY - |data|))[..|data|] == data;
  }

  /** Any burst of at most 16 wrong bits in a body is seen by its reader. */
  lemma BurstSeen(id: byte, segments: byte, data: seq<byte>, other: seq<byte>,
                  before: seq<bool>, v: seq<bool>, w: seq<bool>, after: seq<bool>)
    requires |data| <= BODY && |other| <= BODY && |v| == |w| <= 16 && v != w
    requires Message(data, HighFirst) == before + v + after && Message(other, HighFirst) == before + w + after
    ensures IsValid(AsRead(id, segments, CheckBytes(data), other)) == Some(false)
  {
    hide GeberitFrom, CheckBytes, Divide, Message, IsValid;
    ValidIs(id, segments, CheckBytes(data), other);
    GeberitIsDivision(GEBERIT_INIT, data);
    GeberitIsDivision(GEBERIT_INIT, other);
    BurstDetected(GEBERIT_INIT, before, v, w, after);
    if CheckBytes(data) == CheckBytes(other) {
      CheckBytesInjective(data, other);
    }
  }

  /** So are one altered byte or two adjacent ones in it. */
  lemma TamperingSeen(before: seq<byte>, v: seq<byte>, w: seq<byte>, after: seq<byte>, id: byte, segments: byte)
    requires |v| == |w| <= 2 && v != w && |before + w + after| <= BODY
    ensures IsValid(AsRead(id, segments, CheckBytes(before + v + after), before + w + after)) == Some(false)
  {
    hide GeberitCrc, CheckBytes, IsValid;
    ValidIs(id, segments, CheckBytes(before + v + after), before + w + after);
    if CheckBytes(before + w + after) == CheckBytes(before + v + after) {
      CheckBytesInjective(before + w + after, before + v + after);
      GeberitDetectsAdjacentBytes(before, v, w, after);
    }
  }

  /** A check and its body have the same parity in every message. */
  lemma OddValid(data: seq<byte>)
    ensures Odd(Message(CheckBytes(data) + data, HighFirst)) == OddWord(GEBERIT_INIT)
  {
    hide GeberitFrom, Divide, Message, Odd, OddWord, FromBits, High8, Low8;
    MessageConcat(CheckBytes(data), data, HighFirst);
    OddConcat(Message(CheckBytes(data), HighFirst), Message(data, HighFirst));
    OddBytes(GeberitCrc(data));
    GeberitIsDivision(GEBERIT_INIT, data);
    OddDivide(GEBERIT_INIT, Message(data, HighFirst));
  }

  /** An odd number of flipped bits, in the check, the body or both, is seen. */
  lemma OddTamperingSeen(id: byte, segments: byte, data: seq<byte>, check: seq<byte>, other: seq<byte>)
    requires |data| <= BODY && |other| <= BODY
    requires |Message(CheckBytes(data) + data, HighFirst)| == |Message(check + other, HighFirst)|
    requires Distance(Message(CheckBytes(data) + data, HighFirst), Message(check + other, HighFirst)) % 2 == 1
    ensures IsValid(AsRead(id, segments, check, other)) == Some(false)
  {
    hide CheckBytes, Message, Distance, Odd, OddWord, IsValid;
    ValidIs(id, segments, check, other);
    OddDistance(Message(CheckBytes(data) + data, HighFirst), Message(check + other, HighFirst));
    OddValid(data);
    OddValid(other);
  }

  lemma OneByteCrc(v: bv8)
    ensures GeberitCrc([FromBits(v)]) == GeberitByte(GEBERIT_INIT, v)
  {
    hide GeberitByte, ToBits, FromBits;
    ToFromBits(v);
    var b := FromBits(v);
    assert [b][1..] == [];
    assert GeberitFrom(GeberitByte(GEBERIT_INIT, ToBits(b)), []) == GeberitByte(GEBERIT_INIT, ToBits(b));
  }

  lemma SameHighHalf(v: bv8)
    ensures var c, d := GeberitByte(GEBERIT_INIT, v), GeberitByte(GEBERIT_INIT, v ^ 0x89);
            c != d && High8(c) == High8(d)
  {
  }

  /**
   The check stands before the body, so a burst across their border may go unseen: whatever one-byte
   body there is, these three bits of it can be altered with the second byte of its check, and the
   message is still valid.
   */
  lemma BorderUnseen(id: byte, segments: byte, v: bv8)
    ensures exists low: byte :: low != CheckBytes([FromBits(v)])[1]
              && IsValid(AsRead(id, segments, [CheckBytes([FromBits(v)])[0], low], [FromBits(v ^ 0x89)])) == Some(true)
  {
    var a, b := CheckBytes([FromBits(v)]), CheckBytes([FromBits(v ^ 0x89)]);
    OneByteCrc(v);
    OneByteCrc(v ^ 0x89);
    SameHighHalf(v);
    if a == b {
      CheckBytesInjective([FromBits(v)], [FromBits(v ^ 0x89)]);
    }
    hide GeberitCrc, GeberitByte, FromBits, High8, Low8, IsValid;
    assert a[0] == b[0];
    hide CheckBytes;
    ValidIs(id, segments, b, [FromBits(v ^ 0x89)]);
    assert b == [a[0], b[1]] && a == [a[0], a[1]];
  }
}
