/**
 Cutting a response of a Mera device into 20-byte frames, in the two formats of the wire, and
 reading count, index and payload back from the frames' own headers.
 */
module MeraFrames {
  import opened Bytes
  import opened CrcMessages

  const FRAME := 20
  const LEGACY_PAYLOAD := 19
  const EXTENDED_PAYLOAD := 18
  const LEGACY_MAX := 4 * 19

  // ---- cutting ----

  /** `buffer` cut or zero-padded to `n` bytes. */
  function Padded(buffer: seq<byte>, n: nat): (p: seq<byte>)
    ensures |p| == n
  {
    if n <= |buffer| then buffer[..n] else buffer + Zeros(n - |buffer|)
  }

  /** The i-th slice of `size` bytes, zero-padded at the end of the buffer. */
  function Chunk(buffer: seq<byte>, size: nat, i: nat): (c: seq<byte>)
    ensures |c| == size
  {
    Padded(buffer, (i + 1) * size)[i * size..(i + 1) * size]
  }

  function FrameCount(length: nat, size: nat): nat
    requires size > 0
  {
    (length + size - 1) / size
  }

  function LegacyHeader(count: nat, i: nat): seq<byte>
    requires 0 < count <= 4 && i < count
  {
    if i == 0 then [0x11 + 2 * (count - 1)] else [0x10 + 2 * i]
  }

  /** The characteristic bits of a continuation frame: A6, A7, A8, A5 in turn. */
  function ChannelBits(i: nat): byte
    requires i > 0
  {
    [2, 4, 6, 0][(i - 1) % 4]
  }

  function ExtendedHeader(count: nat, i: nat): seq<byte>
    requires count < 256 && i < count
  {
    if i == 0 then [0x30, count] else [0x40 + (if i <= 3 then 0x10 else 0) + ChannelBits(i), i]
  }

  /** Which of the two formats a response of this content length uses. */
  predicate IsLegacy(content: nat) {
    content <= LEGACY_MAX
  }

  function PayloadSize(content: nat): (p: nat)
    ensures p == 18 || p == 19
  {
    if IsLegacy(content) then LEGACY_PAYLOAD else EXTENDED_PAYLOAD
  }

  function Count(content: nat): nat {
    FrameCount(content, PayloadSize(content))
  }

  function FrameAt(content: nat, buffer: seq<byte>, i: nat): seq<byte>
    requires 0 < content && i < Count(content) < 256
  {
    (if IsLegacy(content) then LegacyHeader(Count(content), i) else ExtendedHeader(Count(content), i))
    + Chunk(buffer, PayloadSize(content), i)
  }

  /** The serialized message of a response. */
  function ResponseBuffer(ctx: byte, procedure: byte, result: seq<byte>, status: byte, node: byte): seq<byte>
    requires |result| <= 4579
  {
    Serialize(Create(RESPONSE_ID, 0, ResponseBody(status, node, ctx, procedure, result)))
  }

  function Content(result: seq<byte>): (n: nat)
    ensures n >= 11
  {
    HEADER + 5 + |result|
  }

  /** Every length either fits into at most 255 frames or makes the builder raise. */
  lemma CountFits(length: nat)
    requires 0 < length
    ensures Count(length) < 256 <==> length <= 4590
    ensures Count(length) >= 1
    ensures IsLegacy(length) ==> Count(length) <= 4
    ensures Count(length) * PayloadSize(length) >= length
    ensures (Count(length) - 1) * PayloadSize(length) < length
  {
  }

  /**
   `_build_frames`.  None is the ValueError of a frame count that does not fit its byte (or of a
   length field that does not fit its two).
   */
  method BuildFrames(ctx: byte, procedure: byte, result: seq<byte>, status: byte, node: byte)
    returns (frames: Option<seq<seq<byte>>>)
    ensures frames.Some? <==> |result| <= 4579
    ensures frames.Some? ==>
      && |frames.value| == Count(Content(result)) < 256
      && forall i :: 0 <= i < |frames.value| ==>
           frames.value[i] == FrameAt(Content(result), ResponseBuffer(ctx, procedure, result, status, node), i)
  {
    hide Chunk, Count, Create, Serialize, ResponseBody;
    var content := Content(result);
    CountFits(content);
    if |result| > 4579 {
      return None;
    }
    var serialized := ResponseBuffer(ctx, procedure, result, status, node);
    var built := [];
    if content <= LEGACY_MAX {
      var n_frames := Count(content);
      var n_cons := n_frames - 1;
      for i := 0 to n_frames
        invariant |built| == i
        invariant forall k :: 0 <= k < i ==> built[k] == FrameAt(content, serialized, k)
      {
        var chunk := Chunk(serialized, LEGACY_PAYLOAD, i);
        var hdr := if i == 0 then [0x11 + 2 * n_cons] else [0x10 + 2 * i];
        built := built + [hdr + chunk];
      }
    } else {
      var n_frames := Count(content);
      for i := 0 to n_frames
        invariant |built| == i
        invariant forall k :: 0 <= k < i ==> built[k] == FrameAt(content, serialized, k)
      {
        var chunk := Chunk(serialized, EXTENDED_PAYLOAD, i);
        var hdr;
        if i == 0 {
          hdr := [0x30, n_frames];
        } else {
          var ch := [2, 4, 6, 0][(i - 1) % 4];
          var wf := if i <= 3 then 0x10 else 0;
          hdr := [0x40 + wf + ch, i];
        }
        built := built + [hdr + chunk];
      }
    }
    frames := Some(built);
  }

  // ---- reading a frame ----

  datatype FrameRead =
    | First(count: nat, payload: seq<byte>)
    | Cons(index: nat, payload: seq<byte>)
    | Control(mask: seq<byte>)
    | Info
    | Invalid

  /** `CreateFrameFromBytes` and the dispatch on its result. */
  function ReadFrame(data: seq<byte>): FrameRead {
    if |data| != FRAME then Invalid
    else
      var kind := data[0] / 32 % 8;
      if kind == 0 then
        if data[0] % 2 == 1 then First(data[0] / 2 % 4 + 1, data[1..20]) else Cons(data[0] / 2 % 4, data[1..20])
      else if kind == 1 then First(data[1], data[2..20])
      else if kind == 2 then Cons(data[1], data[2..20])
      else if kind == 3 then Control(data[4..12])
      else if kind == 4 then Info
      else Invalid
  }

  /**
   Every built frame has 20 bytes, and its header alone tells the receiver the number of frames
   (frame 0) or the frame's own index (all others), in both formats.
   */
  lemma HeadersReadBack(content: nat, buffer: seq<byte>, i: nat)
    requires 0 < content <= 4590 && i < Count(content)
    ensures Count(content) < 256
    ensures |FrameAt(content, buffer, i)| == FRAME
    ensures var chunk := Chunk(buffer, PayloadSize(content), i);
            ReadFrame(FrameAt(content, buffer, i)) == if i == 0 then First(Count(content), chunk) else Cons(i, chunk)
  {
    hide Chunk, Count;
    CountFits(content);
    var chunk := Chunk(buffer, PayloadSize(content), i);
    var f := FrameAt(content, buffer, i);
    if IsLegacy(content) {
      assert f[1..20] == chunk;
    } else {
      assert f[2..20] == chunk;
    }
  }

  /** The characteristic `_push_method` sends frame `i` on, counted from A5. */
  function PushedOn(i: nat): nat {
    i % 4
  }

  /** The channel bits of every extended continuation frame name the characteristic it is sent on. */
  lemma ChannelNamesCharacteristic(content: nat, buffer: seq<byte>, i: nat)
    requires 0 < content <= 4590 && !IsLegacy(content) && 0 < i < Count(content)
    ensures Count(content) < 256
    ensures FrameAt(content, buffer, i)[0] % 8 == 2 * PushedOn(i)
  {
    hide Chunk, Count;
    CountFits(content);
  }

  /** Every bit of the first byte: kind, flags, and the count, the index or the channel. */
  lemma HeaderBits(content: nat, buffer: seq<byte>, i: nat)
    requires 0 < content <= 4590 && i < Count(content)
    ensures Count(content) < 256
    ensures var h := FrameAt(content, buffer, i)[0];
            if content <= 76 then
              h / 8 == 2 && h / 2 % 4 == (if i == 0 then Count(content) - 1 else i) && (h % 2 == 1 <==> i == 0)
            else if i == 0 then h == 0x30
            else h / 32 == 2 && (h / 16 % 2 == 1 <==> i <= 3) && h % 16 == 2 * PushedOn(i)
  {
    hide Chunk, Count;
    CountFits(content);
  }

  lemma ChunkByte(buffer: seq<byte>, size: nat, i: nat, j: nat)
    requires j < size
    ensures var at := i * size + j;
            Chunk(buffer, size, i)[j] == if at < |buffer| then buffer[at] else 0
  {
    assert (i + 1) * size == i * size + size;
  }

  /** Behind the header, byte by byte: the message, and zeros after its end. */
  lemma PayloadBytes(content: nat, buffer: seq<byte>, i: nat, j: nat)
    requires 0 < content <= 4590 && i < Count(content)
    requires j < if content <= 76 then 19 else 18
    ensures Count(content) < 256 && |FrameAt(content, buffer, i)| == 20
    ensures var f := FrameAt(content, buffer, i);
            if content <= 76 then
              var at := i * 19 + j;
              f[1 + j] == if at < |buffer| then buffer[at] else 0
            else
              var at := i * 18 + j;
              f[2 + j] == if at < |buffer| then buffer[at] else 0
  {
    hide Chunk, Count;
    HeadersReadBack(content, buffer, i);
    ChunkByte(buffer, PayloadSize(content), i, j);
  }

  // ---- putting the payloads together ----

  /** The payloads of frames 0 to n-1, in order. */
  function Payloads(buffer: seq<byte>, size: nat, n: nat): seq<seq<byte>> {
    seq(n, i requires 0 <= i => Chunk(buffer, size, i))
  }

  lemma PaddedShorter(buffer: seq<byte>, m: nat, n: nat)
    requires m <= n
    ensures Padded(buffer, n)[..m] == Padded(buffer, m)
  {
  }

  lemma FlattenNothing()
    ensures Flatten<byte>([]) == []
  {
  }

  lemma NextChunk(buffer: seq<byte>, size: nat, i: nat)
    ensures Padded(buffer, i * size) + Chunk(buffer, size, i) == Padded(buffer, (i + 1) * size)
  {
    assert (i + 1) * size == i * size + size;
    PaddedShorter(buffer, i * size, (i + 1) * size);
    hide Padded;
    var p := Padded(buffer, (i + 1) * size);
    assert p[..i * size] + p[i * size..(i + 1) * size] == p;
  }

  lemma {:induction false} ChunksConcat(buffer: seq<byte>, size: nat, n: nat)
    ensures Flatten(Payloads(buffer, size, n)) == Padded(buffer, n * size)
  {
    hide Padded, Chunk, Flatten;
    if n == 0 {
      assert Payloads(buffer, size, 0) == [];
      FlattenNothing();
    } else {
      ChunksConcat(buffer, size, n - 1);
      assert Payloads(buffer, size, n) == Payloads(buffer, size, n - 1) + [Chunk(buffer, size, n - 1)];
      FlattenSnoc(Payloads(buffer, size, n - 1), Chunk(buffer, size, n - 1));
      NextChunk(buffer, size, n - 1);
    }
  }

  /** All payloads of a response, put together in index order. */
  function Reassembled(ctx: byte, procedure: byte, result: seq<byte>, status: byte, node: byte): seq<byte>
    requires |result| <= 4579
  {
    var content := Content(result);
    Flatten(Payloads(ResponseBuffer(ctx, procedure, result, status, node), PayloadSize(content), Count(content)))
  }

  lemma BufferLength(body: seq<byte>)
    requires |body| < 0x10000
    ensures |Serialize(Create(RESPONSE_ID, 0, body))| >= HEADER + |body|
  {
    hide CheckBytes;
  }

  lemma PaddedPrefix(buffer: seq<byte>, n: nat)
    requires n <= |buffer|
    ensures Padded(buffer, n) == buffer[..n]
  {
  }

  /**
   Fragmentation is invertible exactly up to 251 result bytes: the payloads in index order give back
   the whole message, header and body, and its context, procedure and result, in both formats; beyond,
   the reader raises.
   */
  lemma ResponseRoundTrip(ctx: byte, procedure: byte, result: seq<byte>, status: byte, node: byte)
    requires |result| <= 4579
    ensures |result| <= 251 ==>
      && ParseResponse(Reassembled(ctx, procedure, result, status, node)) == Context(ctx, procedure, result, true)
      && CreateFromBytes(Reassembled(ctx, procedure, result, status, node))
         == Some(Create(RESPONSE_ID, 0, ResponseBody(status, node, ctx, procedure, result)))
    ensures |result| > 251 ==> ParseResponse(Reassembled(ctx, procedure, result, status, node)) == Failed
  {
    hide Chunk, Create, Serialize, ParseResponse, CreateFromBytes, Padded, Count;
    var content := Content(result);
    var buffer := ResponseBuffer(ctx, procedure, result, status, node);
    var body := ResponseBody(status, node, ctx, procedure, result);
    CountFits(content);
    BufferLength(body);
    ChunksConcat(buffer, PayloadSize(content), Count(content));
    PaddedShorter(buffer, content, Count(content) * PayloadSize(content));
    PaddedPrefix(buffer, content);
    if |result| <= 251 {
      ReadBack(RESPONSE_ID, 0, body, Reassembled(ctx, procedure, result, status, node));
      ResponseReadBack(status, node, ctx, procedure, result, Reassembled(ctx, procedure, result, status, node));
    } else {
      LongResponseFails(status, node, ctx, procedure, result, Reassembled(ctx, procedure, result, status, node));
    }
  }
}
