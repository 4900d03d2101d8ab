/**
 Bytes, the bits inside them, and the few sequence helpers every protocol layer shares.

 A byte is an integer in 0..255, the way Python sees one.  Where a layer works on the bits of a
 byte (the CRCs and the stream cipher) it goes through `ToBits`/`FromBits`, which are proved to be
 inverse to each other.
 */
module Bytes {
  type byte = x: int | 0 <= x < 256

  datatype Option<+T> = None | Some(value: T)

  // ---- bits ----

  function Pow2(n: nat): (p: nat)
    ensures p > 0
  {
    if n == 0 then 1 else 2 * Pow2(n - 1)
  }

  function ShiftIn(v: bv8, bit: bool): bv8 {
    (v << 1) | (if bit then 1 else 0)
  }

  function ShiftOut(v: bv8): bv8 {
    v >> 1
  }

  predicate LowBit(v: bv8) {
    v & 1 == 1
  }

  /** The low `n` bits of `b` as a bit vector, built from the most significant bit down. */
  function ToBitsN(n: nat, b: nat): bv8
    decreases n
  {
    if n == 0 then 0 else ShiftIn(ToBitsN(n - 1, b / 2), b % 2 == 1)
  }

  function FromBitsN(n: nat, v: bv8): (b: nat)
    ensures b < Pow2(n)
    decreases n
  {
    if n == 0 then 0 else 2 * FromBitsN(n - 1, ShiftOut(v)) + (if LowBit(v) then 1 else 0)
  }

  function ToBits(b: byte): bv8 {
    ToBitsN(8, b)
  }

  lemma Pow2Of8()
    ensures Pow2(8) == 256
  {
    assert Pow2(4) == 16;
    assert Pow2(6) == 64;
  }

  function FromBits(v: bv8): byte {
    assert Pow2(8) == 256 by { Pow2Of8(); }
    FromBitsN(8, v)
  }

  /** All ones in the low `n` bits. */
  function Mask(n: nat): bv8 {
    if n == 0 then 0 else (Mask(n - 1) << 1) | 1
  }

  /** Only the low `n` bits are set. */
  predicate WithinLow(n: nat, v: bv8) {
    v & !Mask(n) == 0
  }

  lemma MaskTopClear(n: nat)
    requires n <= 7
    ensures Mask(n) & 0x80 == 0
  {
    assert Mask(0) == 0;
    assert Mask(1) == 1;
    assert Mask(2) == 3;
    assert Mask(3) == 7;
    assert Mask(4) == 15;
    assert Mask(5) == 31;
    assert Mask(6) == 63;
    assert Mask(7) == 127;
  }

  lemma ShiftInBits(v: bv8, m: bv8, bit: bool)
    requires v & !m == 0 && m & 0x80 == 0
    ensures ShiftIn(v, bit) & !((m << 1) | 1) == 0
    ensures ShiftOut(ShiftIn(v, bit)) == v && LowBit(ShiftIn(v, bit)) == bit
  {
  }

  lemma ShiftInFits(n: nat, v: bv8, bit: bool)
    requires n <= 7 && WithinLow(n, v)
    ensures WithinLow(n + 1, ShiftIn(v, bit))
    ensures ShiftOut(ShiftIn(v, bit)) == v && LowBit(ShiftIn(v, bit)) == bit
  {
    hide ShiftIn, ShiftOut, LowBit;
    MaskTopClear(n);
    ShiftInBits(v, Mask(n), bit);
  }

  lemma ShiftOutBits(v: bv8, m: bv8)
    requires v & !((m << 1) | 1) == 0 && m & 0x80 == 0
    ensures ShiftOut(v) & !m == 0
    ensures ShiftIn(ShiftOut(v), LowBit(v)) == v
  {
  }

  lemma ShiftOutFits(n: nat, v: bv8)
    requires n <= 7 && WithinLow(n + 1, v)
    ensures WithinLow(n, ShiftOut(v))
    ensures ShiftIn(ShiftOut(v), LowBit(v)) == v
  {
    hide ShiftIn, ShiftOut, LowBit;
    MaskTopClear(n);
    ShiftOutBits(v, Mask(n));
  }

  lemma ZeroFits(v: bv8)
    ensures WithinLow(0, v) <==> v == 0
    ensures WithinLow(8, v)
  {
    assert Mask(4) == 15;
    assert Mask(6) == 63;
    assert Mask(8) == 255;
  }

  lemma {:induction false} ToBitsFits(n: nat, b: nat)
    requires n <= 8
    ensures WithinLow(n, ToBitsN(n, b))
  {
    hide WithinLow, ShiftIn;
    if n == 0 {
      ZeroFits(0);
    } else {
      ToBitsFits(n - 1, b / 2);
      ShiftInFits(n - 1, ToBitsN(n - 1, b / 2), b % 2 == 1);
    }
  }

  lemma {:induction false} FromToBitsN(n: nat, b: nat)
    requires n <= 8 && b < Pow2(n)
    ensures FromBitsN(n, ToBitsN(n, b)) == b
  {
    hide WithinLow, ShiftIn, ShiftOut, LowBit;
    if n > 0 {
      FromToBitsN(n - 1, b / 2);
      ToBitsFits(n - 1, b / 2);
      ShiftInFits(n - 1, ToBitsN(n - 1, b / 2), b % 2 == 1);
    }
  }

  lemma FromBitsStep(n: nat, v: bv8)
    requires n > 0
    ensures FromBitsN(n, v) / 2 == FromBitsN(n - 1, ShiftOut(v))
    ensures FromBitsN(n, v) % 2 == 1 <==> LowBit(v)
  {
    hide ShiftOut, LowBit;
    var t := FromBitsN(n - 1, ShiftOut(v));
    assert FromBitsN(n, v) == 2 * t + (if LowBit(v) then 1 else 0);
  }

  lemma {:induction false} ToFromBitsN(n: nat, v: bv8)
    requires n <= 8 && WithinLow(n, v)
    ensures ToBitsN(n, FromBitsN(n, v)) == v
  {
    hide WithinLow, ShiftIn, ShiftOut, LowBit;
    if n == 0 {
      ZeroFits(v);
    } else {
      ShiftOutFits(n - 1, v);
      ToFromBitsN(n - 1, ShiftOut(v));
      FromBitsStep(n, v);
      hide FromBitsN;
    }
  }

  lemma FromToBits(b: byte)
    ensures FromBits(ToBits(b)) == b
  {
    Pow2Of8();
    FromToBitsN(8, b);
  }

  lemma ToFromBits(v: bv8)
    ensures ToBits(FromBits(v)) == v
  {
    ZeroFits(v);
    hide WithinLow;
    ToFromBitsN(8, v);
  }

  /** Python's `^` on the low `n` bits of two numbers, one bit after the other. */
  function XorN(n: nat, a: nat, b: nat): (r: nat)
    ensures r < Pow2(n)
  {
    if n == 0 then 0 else (if a % 2 == b % 2 then 0 else 1) + 2 * XorN(n - 1, a / 2, b / 2)
  }

  function Xor(a: byte, b: byte): byte {
    assert Pow2(8) == 256 by { Pow2Of8(); }
    XorN(8, a, b)
  }

  lemma {:induction false} XorNTwice(n: nat, a: nat, k: nat)
    requires a < Pow2(n)
    ensures XorN(n, XorN(n, a, k), k) == a
  {
    if n > 0 {
      XorNTwice(n - 1, a / 2, k / 2);
      var x := XorN(n - 1, a / 2, k / 2);
      assert XorN(n, a, k) == (if a % 2 == k % 2 then 0 else 1) + 2 * x;
      assert XorN(n, a, k) / 2 == x;
    }
  }

  lemma XorTwice(a: byte, k: byte)
    ensures Xor(Xor(a, k), k) == a
  {
    Pow2Of8();
    XorNTwice(8, a, k);
  }

  lemma ShiftedXor(v: bv8, w: bv8)
    ensures ((v ^ w) << 1) | 0 == ((v << 1) | 0) ^ ((w << 1) | 0) == ((v << 1) | 1) ^ ((w << 1) | 1)
    ensures ((v ^ w) << 1) | 1 == ((v << 1) | 1) ^ ((w << 1) | 0) == ((v << 1) | 0) ^ ((w << 1) | 1)
  {
  }

  function XorBits(v: bv8, w: bv8): bv8 {
    v ^ w
  }

  lemma ShiftInXor(v: bv8, w: bv8, p: bool, q: bool)
    ensures ShiftIn(XorBits(v, w), p != q) == XorBits(ShiftIn(v, p), ShiftIn(w, q))
  {
    ShiftedXor(v, w);
    if p && q {
    } else if p {
    } else if q {
    } else {
    }
  }

  lemma XorNStep(n: nat, a: nat, b: nat)
    requires n > 0
    ensures XorN(n, a, b) / 2 == XorN(n - 1, a / 2, b / 2)
    ensures (XorN(n, a, b) % 2 == 1) == ((a % 2 == 1) != (b % 2 == 1))
  {
    var x := XorN(n - 1, a / 2, b / 2);
    assert XorN(n, a, b) == (if a % 2 == b % 2 then 0 else 1) + 2 * x;
  }

  lemma NoneXor()
    ensures XorBits(0, 0) == 0
  {
  }

  lemma {:induction false} XorNBits(n: nat, a: nat, b: nat)
    ensures ToBitsN(n, XorN(n, a, b)) == XorBits(ToBitsN(n, a), ToBitsN(n, b))
  {
    hide ShiftIn, XorBits;
    if n == 0 {
      NoneXor();
    } else {
      XorNBits(n - 1, a / 2, b / 2);
      XorNStep(n, a, b);
      hide XorN;
      ShiftInXor(ToBitsN(n - 1, a / 2), ToBitsN(n - 1, b / 2), a % 2 == 1, b % 2 == 1);
    }
  }

  /** `Xor` is the machine's exclusive or. */
  lemma XorIsXor(a: byte, b: byte)
    ensures ToBits(Xor(a, b)) == ToBits(a) ^ ToBits(b)
  {
    XorNBits(8, a, b);
  }

  lemma BitStep(n: nat, b: nat)
    requires 0 < n <= 8
    ensures ToBitsN(n, b) & 1 == 1 <==> b % 2 == 1
    ensures ToBitsN(n, b) >> 1 == ToBitsN(n - 1, b / 2)
  {
    ToBitsFits(n - 1, b / 2);
    ShiftInFits(n - 1, ToBitsN(n - 1, b / 2), b % 2 == 1);
    hide ShiftIn, WithinLow;
  }

  lemma ShiftsAdd(v: bv8)
    ensures (v >> 1) >> 1 == v >> 2 && (v >> 2) >> 1 == v >> 3 && (v >> 3) >> 1 == v >> 4 && (v >> 4) >> 1 == v >> 5
    ensures (v >> 5) >> 1 == v >> 6 && (v >> 6) >> 1 == v >> 7
  {
  }

  lemma Halvings(b: nat)
    ensures b / 2 / 2 == b / 4 && b / 4 / 2 == b / 8 && b / 8 / 2 == b / 16 && b / 16 / 2 == b / 32
    ensures b / 32 / 2 == b / 64 && b / 64 / 2 == b / 128
  {
  }

  /** The bits of a byte are those of the number: bit i counts 2 to the i. */
  lemma BitsOfByte(b: byte)
    ensures ToBits(b) & 1 == 1 <==> b % 2 == 1
    ensures (ToBits(b) >> 1) & 1 == 1 <==> b / 2 % 2 == 1
    ensures (ToBits(b) >> 2) & 1 == 1 <==> b / 4 % 2 == 1
    ensures (ToBits(b) >> 3) & 1 == 1 <==> b / 8 % 2 == 1
    ensures (ToBits(b) >> 4) & 1 == 1 <==> b / 16 % 2 == 1
    ensures (ToBits(b) >> 5) & 1 == 1 <==> b / 32 % 2 == 1
    ensures (ToBits(b) >> 6) & 1 == 1 <==> b / 64 % 2 == 1
    ensures (ToBits(b) >> 7) & 1 == 1 <==> b / 128 % 2 == 1
  {
    BitStep(8, b);
    BitStep(7, b / 2);
    BitStep(6, b / 2 / 2);
    BitStep(5, b / 2 / 2 / 2);
    BitStep(4, b / 2 / 2 / 2 / 2);
    BitStep(3, b / 2 / 2 / 2 / 2 / 2);
    BitStep(2, b / 2 / 2 / 2 / 2 / 2 / 2);
    BitStep(1, b / 2 / 2 / 2 / 2 / 2 / 2 / 2);
    hide ToBitsN;
    ShiftsAdd(ToBits(b));
    Halvings(b);
  }

  // ---- sequences ----

  function Flatten<T>(parts: seq<seq<T>>): seq<T> {
    if parts == [] then [] else parts[0] + Flatten(parts[1..])
  }

  lemma {:induction false} FlattenConcat<T>(a: seq<seq<T>>, b: seq<seq<T>>)
    ensures Flatten(a + b) == Flatten(a) + Flatten(b)
  {
    if a == [] {
      assert a + b == b;
    } else {
      assert (a + b)[1..] == a[1..] + b;
      FlattenConcat(a[1..], b);
    }
  }

  lemma FlattenSnoc<T>(a: seq<seq<T>>, x: seq<T>)
    ensures Flatten(a + [x]) == Flatten(a) + x
  {
    FlattenConcat(a, [x]);
    assert Flatten([x]) == x + Flatten([]);
  }

  // ---- the last of a row of writes ----

  /** Nothing is written from position `from` on. */
  predicate NoneFrom<V>(writes: seq<Option<V>>, from: nat) {
    forall i :: from <= i < |writes| ==> writes[i].None?
  }

  /** `v` is what the last write wrote, or the initial value if there was none. */
  predicate LastWins<V(==)>(writes: seq<Option<V>>, initial: V, v: V) {
    || (NoneFrom(writes, 0) && v == initial)
    || exists i :: 0 <= i < |writes| && writes[i] == Some(v) && NoneFrom(writes, i + 1)
  }

  lemma NoneFromTail<V>(writes: seq<Option<V>>, from: nat)
    requires writes != []
    ensures NoneFrom(writes[1..], from) <==> NoneFrom(writes, from + 1)
  {
    if NoneFrom(writes[1..], from) {
      assert forall i :: from + 1 <= i < |writes| ==> writes[i] == writes[1..][i - 1];
    }
  }

  lemma NothingFirst<V>(writes: seq<Option<V>>)
    requires writes != []
    ensures writes[0].None? && NoneFrom(writes, 1) ==> NoneFrom(writes, 0)
  {
  }

  /** The first write, then the others. */
  lemma LastWinsStep<V>(writes: seq<Option<V>>, initial: V, v: V)
    requires writes != []
    requires LastWins(writes[1..], match writes[0] case Some(x) => x case None => initial, v)
    ensures LastWins(writes, initial, v)
  {
    hide NoneFrom;
    var rest := writes[1..];
    NoneFromTail(writes, 0);
    if NoneFrom(rest, 0) && v == match writes[0] case Some(x) => x case None => initial {
      NothingFirst(writes);
    } else {
      var i :| 0 <= i < |rest| && rest[i] == Some(v) && NoneFrom(rest, i + 1);
      NoneFromTail(writes, i + 1);
      assert writes[i + 1] == Some(v);
    }
  }
}
