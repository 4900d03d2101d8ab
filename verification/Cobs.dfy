/**
 Consistent Overhead Byte Stuffing, as `AriendiSecurity.py` encodes and decodes it and as the
 capture decoder `android-ble-arendi-decode.py` decodes it (more leniently).

 A zero-free string is a sequence of groups, each a code byte `c` and `c - 1` data bytes; every
 group but the last stands for its data followed by a zero, unless `c` is 0xFF.
 */
module Cobs {
  import opened Bytes

  ghost predicate ZeroFree(s: seq<byte>) {
    forall i :: 0 <= i < |s| ==> s[i] != 0
  }

  // ---- encoder ----

  /** What the encoder still writes when `run` is the data of the open group and `data` is unread. */
  function EncodeFrom(run: seq<byte>, data: seq<byte>): (r: seq<byte>)
    requires |run| < 254
    decreases |data|
  {
    if data == [] then [|run| + 1] + run
    else if data[0] == 0 then [|run| + 1] + run + EncodeFrom([], data[1..])
    else if |run| == 253 then [255] + run + [data[0]] + EncodeFrom([], data[1..])
    else EncodeFrom(run + [data[0]], data[1..])
  }

  function Encode(data: seq<byte>): seq<byte> {
    EncodeFrom([], data)
  }

  /** The encoder loop: a placeholder is appended for each group and patched when the group closes. */
  method CobsEncode(data: seq<byte>) returns (result: seq<byte>)
    ensures result == Encode(data)
  {
    var codePos := 0;
    result := [0];
    var code: byte := 1;
    ghost var run: seq<byte> := [];
    for i := 0 to |data|
      invariant |run| < 254 && code == |run| + 1
      invariant codePos < |result|
      invariant result == result[..codePos] + [0] + run
      invariant result[..codePos] + EncodeFrom(run, data[i..]) == Encode(data)
    {
      var b := data[i];
      ghost var done := result[..codePos];
      assert data[i..][0] == b && data[i..][1..] == data[i + 1..];
      if b == 0 {
        result := result[codePos := code];
        codePos := |result|;
        result := result + [0];
        code := 1;
        assert result[..codePos] == done + ([|run| + 1] + run);
        run := [];
      } else {
        result := result + [b];
        code := code + 1;
        if code == 0xFF {
          result := result[codePos := code];
          codePos := |result|;
          result := result + [0];
          code := 1;
          assert result[..codePos] == done + ([255] + run + [b]);
          run := [];
        } else {
          run := run + [b];
          assert result[..codePos] == done;
        }
      }
    }
    assert data[|data|..] == [];
    result := result[codePos := code];
    assert result == result[..codePos] + ([|run| + 1] + run);
  }

  lemma {:induction false} EncodeZeroFree(run: seq<byte>, data: seq<byte>)
    requires |run| < 254 && ZeroFree(run)
    ensures ZeroFree(EncodeFrom(run, data)) && EncodeFrom(run, data) != []
    decreases |data|
  {
    if data == [] {
    } else if data[0] == 0 {
      EncodeZeroFree([], data[1..]);
    } else if |run| == 253 {
      EncodeZeroFree([], data[1..]);
    } else {
      EncodeZeroFree(run + [data[0]], data[1..]);
    }
  }

  lemma {:induction false} EncodeFromZero(run: seq<byte>, a: seq<byte>, b: seq<byte>)
    requires |run| < 254
    ensures EncodeFrom(run, a + [0] + b) == EncodeFrom(run, a) + Encode(b)
    decreases |a|
  {
    var s := a + [0] + b;
    if a == [] {
      assert s[0] == 0 && s[1..] == b;
    } else {
      assert s[0] == a[0] && s[1..] == a[1..] + [0] + b;
      EncodeFromZero(if a[0] == 0 || |run| == 253 then [] else run + [a[0]], a[1..], b);
    }
  }

  /** Where a zero stands the encodings of the two parts meet. */
  lemma EncodeAtZero(a: seq<byte>, b: seq<byte>)
    ensures Encode(a + [0] + b) == Encode(a) + Encode(b)
  {
    EncodeFromZero([], a, b);
  }

  lemma {:induction false} EncodeRun(run: seq<byte>, data: seq<byte>)
    requires |run| < 254 && ZeroFree(data)
    ensures EncodeFrom(run, data)
         == if |run| + |data| < 254 then [|run| + |data| + 1] + run + data
            else [255] + run + data[..254 - |run|] + Encode(data[254 - |run|..])
    decreases |data|
  {
    if data == [] {
      assert run + data == run;
    } else if |run| == 253 {
      assert data[..1] == [data[0]];
    } else {
      EncodeRun(run + [data[0]], data[1..]);
      assert run + [data[0]] + data[1..] == run + data;
      if |run| + |data| >= 254 {
        var n := 254 - |run|;
        assert data[1..][..n - 1] == data[..n][1..] && data[1..][n - 1..] == data[n..];
        assert run + [data[0]] + data[..n][1..] == run + data[..n];
      } else {
        assert [|run| + |data| + 1] + (run + [data[0]]) + data[1..] == [|run| + |data| + 1] + run + data;
      }
    }
  }

  /** Without a zero: one code byte in front of up to 253 bytes, 0xFF in front of each 254. */
  lemma EncodeWithoutZero(a: seq<byte>)
    requires ZeroFree(a)
    ensures Encode(a) == if |a| < 254 then [|a| + 1] + a else [0xFF] + a[..254] + Encode(a[254..])
  {
    EncodeRun([], a);
    assert [] + a == a;
  }

  // ---- strict decoder ----

  /** The zero a complete group stands for, or nothing. */
  function Separator(code: byte, more: bool): seq<byte> {
    if code != 255 && more then [0] else []
  }

  /** `None` is the decoder's ValueError. */
  function Decode(data: seq<byte>): (r: Option<seq<byte>>)
    decreases |data|
  {
    if data == [] then Some([])
    else if data[0] == 0 || data[0] > |data| then None
    else
      var code := data[0];
      match Decode(data[code..])
      case None => None
      case Some(tail) => Some(data[1..code] + Separator(code, code < |data|) + tail)
  }

  ghost function Prepend(done: seq<byte>, r: Option<seq<byte>>): Option<seq<byte>> {
    match r case None => None case Some(tail) => Some(done + tail)
  }

  lemma PrependNil(r: Option<seq<byte>>)
    ensures Prepend([], r) == r
  {
    if r.Some? {
      assert [] + r.value == r.value;
    }
  }

  lemma PrependTwice(a: seq<byte>, b: seq<byte>, r: Option<seq<byte>>)
    ensures Prepend(a, Prepend(b, r)) == Prepend(a + b, r)
  {
    if r.Some? {
      assert a + (b + r.value) == a + b + r.value;
    }
  }

  lemma DecodeNothing()
    ensures Decode([]) == Some([])
  {
  }

  lemma StrictFails(s: seq<byte>)
    requires s != [] && (s[0] == 0 || s[0] > |s|)
    ensures Decode(s) == None
  {
  }

  lemma StrictGroup(s: seq<byte>)
    requires s != [] && 0 < s[0] <= |s|
    ensures Decode(s) == Prepend(s[1..s[0]] + Separator(s[0], s[0] < |s|), Decode(s[s[0]..]))
  {
  }

  /** The decoder loop with its inner copy loop; `None` where the source raises. */
  method CobsDecode(data: seq<byte>) returns (r: Option<seq<byte>>)
    ensures r == Decode(data)
  {
    hide Decode;
    var result: seq<byte> := [];
    var i := 0;
    assert data[0..] == data;
    PrependNil(Decode(data));
    while i < |data|
      invariant 0 <= i <= |data|
      invariant Decode(data) == Prepend(result, Decode(data[i..]))
    {
      var code := data[i];
      ghost var rest := data[i..];
      assert rest[0] == code && |rest| == |data| - i;
      if code == 0 {
        StrictFails(rest);
        return None;
      }
      ghost var start := i;
      ghost var before := result;
      i := i + 1;
      var n := 0;
      while n < code - 1
        invariant 0 <= n <= code - 1 && i == start + 1 + n <= |data|
        invariant result == before + data[start + 1..i]
      {
        if i >= |data| {
          StrictFails(rest);
          return None;
        }
        result := result + [data[i]];
        i := i + 1;
        n := n + 1;
      }
      assert rest[1..code] == data[start + 1..i] && rest[code..] == data[i..];
      if code != 0xFF && i < |data| {
        result := result + [0];
      }
      StrictGroup(rest);
      assert result == before + (rest[1..code] + Separator(code, code < |rest|));
      PrependTwice(before, rest[1..code] + Separator(code, code < |rest|), Decode(data[i..]));
    }
    assert data[i..] == [];
    DecodeNothing();
    assert result + [] == result;
    return Some(result);
  }

  // ---- round trip ----

  /** Splitting off the first group: decoding it needs only that the rest decodes. */
  lemma DecodeGroup(code: byte, group: seq<byte>, rest: seq<byte>, tail: seq<byte>)
    requires code >= 1 && |group| == code - 1 && Decode(rest) == Some(tail)
    ensures Decode([code] + group + rest) == Some(group + Separator(code, rest != []) + tail)
  {
    var s := [code] + group + rest;
    assert s[code..] == rest && s[1..code] == group;
  }

  lemma {:induction false} DecodeEncodeFrom(run: seq<byte>, data: seq<byte>)
    requires |run| < 254 && ZeroFree(run)
    ensures Decode(EncodeFrom(run, data)) == Some(run + data)
    decreases |data|
  {
    hide Decode;
    if data == [] {
      assert EncodeFrom(run, data) == [|run| + 1] + run + [];
      DecodeNothing();
      DecodeGroup(|run| + 1, run, [], []);
      assert run + [] + [] == run + data;
    } else if data[0] == 0 {
      DecodeEncodeFrom([], data[1..]);
      EncodeZeroFree([], data[1..]);
      assert [] + data[1..] == data[1..];
      DecodeGroup(|run| + 1, run, EncodeFrom([], data[1..]), data[1..]);
      assert run + [0] + data[1..] == run + data;
    } else if |run| == 253 {
      DecodeEncodeFrom([], data[1..]);
      assert [] + data[1..] == data[1..];
      DecodeGroup(255, run + [data[0]], EncodeFrom([], data[1..]), data[1..]);
      assert [255] + run + [data[0]] == [255] + (run + [data[0]]);
      assert run + [data[0]] + [] + data[1..] == run + data;
    } else {
      DecodeEncodeFrom(run + [data[0]], data[1..]);
      assert run + [data[0]] + data[1..] == run + data;
    }
  }

  /** The decoder inverts the encoder on every byte string, and the encoding holds no zero. */
  lemma RoundTrip(data: seq<byte>)
    ensures Decode(Encode(data)) == Some(data)
    ensures ZeroFree(Encode(data)) && Encode(data) != []
  {
    DecodeEncodeFrom([], data);
    EncodeZeroFree([], data);
    assert [] + data == data;
  }

  // ---- overhead ----

  /** How many 0xFF groups the encoder closes when `open` bytes are already in the open group. */
  function FullGroups(open: nat, data: seq<byte>): nat
    requires open < 254
    decreases |data|
  {
    if data == [] then 0
    else if data[0] == 0 then FullGroups(0, data[1..])
    else if open == 253 then 1 + FullGroups(0, data[1..])
    else FullGroups(open + 1, data[1..])
  }

  lemma {:induction false} EncodedLength(run: seq<byte>, data: seq<byte>)
    requires |run| < 254
    ensures |EncodeFrom(run, data)| == |run| + |data| + 1 + FullGroups(|run|, data)
    decreases |data|
  {
    if data == [] {
    } else if data[0] == 0 {
      EncodedLength([], data[1..]);
    } else if |run| == 253 {
      EncodedLength([], data[1..]);
    } else {
      EncodedLength(run + [data[0]], data[1..]);
    }
  }

  lemma Restore(data: seq<byte>)
    requires data != [] && data[0] != 0
    ensures ZeroFree(data) <==> ZeroFree(data[1..])
  {
    assert forall i :: 1 <= i < |data| ==> data[i] == data[1..][i - 1];
  }

  /** A full group needs 254 consecutive non-zero bytes. */
  lemma {:induction false} FullGroupsBound(open: nat, data: seq<byte>)
    requires open < 254
    ensures 254 * FullGroups(open, data) <= open + |data|
    ensures 254 * FullGroups(open, data) == open + |data| ==> ZeroFree(data)
    ensures ZeroFree(data) ==> open + |data| < 254 * FullGroups(open, data) + 254
    decreases |data|
  {
    if data == [] {
    } else {
      assert forall i :: 0 <= i < |data[1..]| ==> data[1..][i] == data[i + 1];
      if data[0] == 0 {
        FullGroupsBound(0, data[1..]);
      } else if open == 253 {
        FullGroupsBound(0, data[1..]);
        Restore(data);
      } else {
        FullGroupsBound(open + 1, data[1..]);
        Restore(data);
      }
    }
  }

  function CeilDiv(n: nat, d: nat): nat
    requires d > 0
  {
    (n + d - 1) / d
  }

  /**
   The encoder adds between 1 and 1 + n/254 bytes.  The textbook bound ceil(n/254) fails for this
   encoder exactly when the data consists of full groups only: it opens one more, empty, group.
   */
  lemma Overhead(data: seq<byte>)
    ensures |data| + 1 <= |Encode(data)| <= |data| + 1 + |data| / 254
    ensures |Encode(data)| > |data| + CeilDiv(|data|, 254) <==> |data| % 254 == 0 && ZeroFree(data)
  {
    EncodedLength([], data);
    FullGroupsBound(0, data);
  }

  // ---- lenient decoder of the capture tool ----

  /** Never fails: a truncated group yields what is there, a zero code yields an empty group. */
  function DecodeLenient(data: seq<byte>): seq<byte>
    decreases |data|
  {
    if data == [] then []
    else
      var size := if data[0] == 0 then 1 else data[0];
      if size > |data| then data[1..]
      else data[1..size] + Separator(data[0], size < |data|) + DecodeLenient(data[size..])
  }

  lemma LenientNil()
    ensures DecodeLenient([]) == []
  {
  }

  lemma LenientTruncated(s: seq<byte>)
    requires s != [] && s[0] > |s|
    ensures DecodeLenient(s) == s[1..]
  {
  }

  lemma LenientGroup(s: seq<byte>, size: nat)
    requires s != [] && size == (if s[0] == 0 then 1 else s[0]) && size <= |s|
    ensures DecodeLenient(s) == s[1..size] + Separator(s[0], size < |s|) + DecodeLenient(s[size..])
  {
  }

  lemma Regroup(a: seq<byte>, b: seq<byte>, c: seq<byte>, d: seq<byte>)
    ensures a + (b + c + d) == a + b + c + d
  {
  }

  method CobsDecodeLenient(data: seq<byte>) returns (out: seq<byte>)
    ensures out == DecodeLenient(data)
  {
    hide DecodeLenient;
    out := [];
    var i := 0;
    assert data[0..] == data;
    while i < |data|
      invariant 0 <= i <= |data|
      invariant DecodeLenient(data) == out + DecodeLenient(data[i..])
    {
      ghost var rest, before, start := data[i..], out, i;
      var code := data[i];
      ghost var size := if code == 0 then 1 else code;
      i := i + 1;
      var n := 0;
      while n < code - 1
        invariant 0 <= n <= size - 1 && i == start + 1 + n <= |data|
        invariant out == before + rest[1..n + 1]
      {
        if i >= |data| {
          LenientTruncated(rest);
          assert rest[1..n + 1] == rest[1..];
          return;
        }
        assert rest[1..n + 1] + [data[i]] == rest[1..n + 2];
        out := out + [data[i]];
        i := i + 1;
        n := n + 1;
      }
      assert rest[size..] == data[i..];
      LenientGroup(rest, size);
      Regroup(before, rest[1..size], Separator(code, i < |data|), DecodeLenient(data[i..]));
      if code < 0xFF && i < |data| {
        out := out + [0];
      } else {
        assert out + [] == out;
      }
    }
    assert data[i..] == [];
    LenientNil();
    assert out + [] == out;
  }

  /** Wherever the strict decoder succeeds the lenient one agrees with it. */
  lemma {:induction false} LenientAgrees(data: seq<byte>)
    requires Decode(data).Some?
    ensures DecodeLenient(data) == Decode(data).value
    decreases |data|
  {
    if data != [] {
      LenientAgrees(data[data[0]..]);
    }
  }

  /** The lenient decoder reads the code byte zero as one. */
  lemma ZeroCodeIsOne(x: seq<byte>)
    ensures DecodeLenient([0] + x) == DecodeLenient([1] + x)
  {
    assert ([0] + x)[1..] == x && ([1] + x)[1..] == x;
  }

  function RunFrom(data: seq<byte>, from: nat): (n: nat)
    requires from <= |data| && from <= 254 && ZeroFree(data[..from])
    ensures from <= n <= |data| && n <= 254 && ZeroFree(data[..n])
    ensures n < 254 && n < |data| ==> data[n] == 0
    decreases |data| - from
  {
    if from == |data| || from == 254 || data[from] == 0 then from else RunFrom(data, from + 1)
  }

  /** The bytes up to the first zero, at most 254 of them. */
  function FirstRun(data: seq<byte>): (n: nat)
    ensures n <= |data| && n <= 254 && ZeroFree(data[..n])
    ensures n < 254 && n < |data| ==> data[n] == 0
  {
    RunFrom(data, 0)
  }

  lemma {:induction false} EncodeOpenFrom(run: seq<byte>, a: seq<byte>, b: seq<byte>)
    requires |run| + |a| == 254 && a != [] && ZeroFree(a)
    ensures EncodeFrom(run, a + b) == [255] + (run + a) + Encode(b)
    decreases |a|
  {
    assert (a + b)[0] == a[0] && (a + b)[1..] == a[1..] + b;
    if |run| == 253 {
      assert a == [a[0]] && a[1..] + b == b;
      assert [255] + run + [a[0]] == [255] + (run + a);
    } else {
      EncodeOpenFrom(run + [a[0]], a[1..], b);
      assert run + [a[0]] + a[1..] == run + a;
    }
  }

  lemma EncodeOpen(a: seq<byte>, b: seq<byte>)
    requires |a| == 254 && ZeroFree(a)
    ensures Encode(a + b) == [255] + a + Encode(b)
  {
    EncodeOpenFrom([], a, b);
    assert [] + a == a;
  }

  /** How the encoding of any bytes begins. */
  lemma EncodeHead(data: seq<byte>)
    ensures var n := FirstRun(data);
            Encode(data) == if n == 254 then [255] + data[..n] + Encode(data[n..])
                            else if n == |data| then [n + 1] + data
                            else [n + 1] + data[..n] + Encode(data[n + 1..])
  {
    var n := FirstRun(data);
    var a := data[..n];
    if n == 254 || n == |data| {
      assert data == a + data[n..];
      if n == 254 {
        EncodeOpen(a, data[n..]);
      } else {
        assert data == a;
        EncodeWithoutZero(data);
      }
    } else {
      assert data == a + [0] + data[n + 1..];
      EncodeAtZero(a, data[n + 1..]);
      EncodeWithoutZero(a);
    }
  }

  lemma WholeGroup(code: byte, run: seq<byte>, rest: seq<byte>)
    requires code == |run| + 1
    ensures DecodeLenient([code] + run + rest) == run + Separator(code, rest != []) + DecodeLenient(rest)
  {
    var s := [code] + run + rest;
    assert s[1..code] == run && s[code..] == rest;
    LenientGroup(s, code);
  }

  lemma BrokenRest(e: seq<byte>, m: nat, run: seq<byte>, rest: seq<byte>, k: nat)
    requires m == |run| <= 254 && k <= |Encode(rest)| && e == [m + 1] + run + Encode(rest)
    ensures DecodeLenient(e[..m + 1 + k]) == run + Separator(m + 1, k > 0) + DecodeLenient(Encode(rest)[..k])
  {
    hide Encode, DecodeLenient;
    assert e[..m + 1 + k] == [m + 1] + run + Encode(rest)[..k];
    WholeGroup(m + 1, run, Encode(rest)[..k]);
  }

  lemma BrokenGroup(code: byte, run: seq<byte>, n: nat)
    requires code == |run| + 1 && n <= |run|
    ensures DecodeLenient([code] + run[..n]) == run[..n]
  {
    var s := [code] + run[..n];
    assert s[1..] == run[..n];
    if n == |run| {
      assert s[1..code] == run && s[code..] == [];
      LenientGroup(s, code);
      LenientNil();
    }
  }

  /**
   An encoding that breaks off: the lenient decoder gives the beginning of the data, one byte less than it
   was handed, and one less again for each group of 254 at most.
   */
  lemma {:induction false} LenientBrokenOff(data: seq<byte>, n: nat)
    requires n <= |Encode(data)|
    ensures var out := DecodeLenient(Encode(data)[..n]); out <= data && |out| + 1 + n / 255 >= n
    decreases |data|
  {
    hide EncodeFrom, DecodeLenient, FirstRun;
    EncodeHead(data);
    var m := FirstRun(data);
    var e, run := Encode(data), data[..m];
    if n == 0 {
      LenientNil();
    } else if n <= m + 1 && n < |e| {
      BrokenGroup(m + 1, run, n - 1);
      assert e[..n] == [m + 1] + run[..n - 1];
    } else if m == |data| < 254 {
      BrokenGroup(m + 1, run, n - 1);
      assert e[..n] == [m + 1] + run[..n - 1];
    } else {
      var rest := if m == 254 then data[m..] else data[m + 1..];
      var k := n - m - 1;
      LenientBrokenOff(rest, k);
      BrokenRest(e, m, run, rest, k);
      EncodeZeroFree([], rest);
      var out := DecodeLenient(Encode(rest)[..k]);
      assert data == run + Separator(m + 1, true) + rest;
      hide ZeroFree;
      assert m == 254 ==> n / 255 == k / 255 + 1;
      assert n / 255 >= k / 255;
    }
  }
}
