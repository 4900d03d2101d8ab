/**
 The two 16-bit cyclic redundancy checks of the wire protocols.

 `GeberitCrc` is the byte-wise form that guards Mera messages (`gatt-probe.py`, `CrcMessage.py`);
 `Kermit` is the bit-reflected form that guards Alba frames (`AriendiSecurity.py`).  Both are shown
 to be the same bit-serial division by x^16 + x^12 + x^5 + 1, and that form carries the
 error-detection theorems.
 */
module Crc {
  import opened Bytes

  /** The 16-bit register of either check. */
  type Word = bv16

  // ---- arithmetic modulo 2: the facts that look at bits ----

  function Add(a: Word, b: Word): Word {
    a ^ b
  }

  predicate High(c: Word) {
    c & 0x8000 != 0
  }

  function Double(c: Word): Word {
    c << 1
  }

  function Reduced(c: Word): Word {
    (c << 1) ^ 0x1021
  }

  /** One zero bit goes in on the right; if a one falls out on the left the divisor is subtracted. */
  function Shift(c: Word): Word {
    if High(c) then Reduced(c) else Double(c)
  }

  function Half(c: Word): Word {
    c >> 1
  }

  function Top(bit: bool): Word {
    if bit then 0x8000 else 0
  }

  lemma AddAssoc(x: Word, y: Word, z: Word)
    ensures Add(Add(x, y), z) == Add(x, Add(y, z))
  {
  }

  lemma AddComm(x: Word, y: Word)
    ensures Add(x, y) == Add(y, x)
  {
  }

  lemma AddFour(a: Word, b: Word, c: Word, d: Word)
    ensures Add(Add(a, b), Add(c, d)) == Add(Add(a, c), Add(b, d))
  {
    hide Add;
    AddAssoc(a, b, Add(c, d));
    AddAssoc(b, c, d);
    AddComm(b, c);
    AddAssoc(c, b, d);
    AddAssoc(a, c, Add(b, d));
  }

  lemma AddSelf(x: Word)
    ensures Add(x, x) == 0
  {
  }

  lemma AddZero(x: Word)
    ensures Add(x, 0) == x
  {
  }

  /** Adding the same word to two words keeps them apart. */
  lemma AddInjective(x: Word, y: Word, z: Word)
    requires Add(x, z) == Add(y, z) || Add(z, x) == Add(z, y)
    ensures x == y
  {
  }

  lemma ShiftInjective(c: Word, d: Word)
    requires Shift(c) == Shift(d)
    ensures c == d
  {
    if High(c) {
      if High(d) {
      } else {
      }
    } else if High(d) {
    } else {
    }
  }

  lemma AddHigh(a: Word, b: Word)
    ensures High(Add(a, b)) == (High(a) != High(b))
  {
  }

  lemma AddDoubles(a: Word, b: Word)
    ensures Add(Double(a), Double(b)) == Double(Add(a, b))
  {
  }

  lemma ReducedIsAdd(c: Word)
    ensures Reduced(c) == Add(Double(c), 0x1021)
  {
  }

  lemma AddReduced(a: Word, b: Word)
    ensures Add(Reduced(a), Reduced(b)) == Double(Add(a, b))
  {
    hide Add, Double, Reduced;
    ReducedIsAdd(a);
    ReducedIsAdd(b);
    AddFour(Double(a), 0x1021, Double(b), 0x1021);
    AddSelf(0x1021);
    AddZero(Add(Double(a), Double(b)));
    AddDoubles(a, b);
  }

  lemma AddOneReduced(a: Word, b: Word)
    ensures Add(Reduced(a), Double(b)) == Reduced(Add(a, b))
    ensures Add(Double(a), Reduced(b)) == Reduced(Add(a, b))
  {
    hide Add, Double, Reduced;
    ReducedIsAdd(a);
    ReducedIsAdd(b);
    ReducedIsAdd(Add(a, b));
    AddDoubles(a, b);
    AddAssoc(Double(a), Double(b), 0x1021);
    AddAssoc(Double(a), 0x1021, Double(b));
    AddComm(0x1021, Double(b));
  }

  lemma ShiftLinear(a: Word, b: Word)
    ensures Shift(Add(a, b)) == Add(Shift(a), Shift(b))
  {
    hide Add, High, Double, Reduced;
    AddHigh(a, b);
    AddDoubles(a, b);
    AddReduced(a, b);
    AddOneReduced(a, b);
  }

  /** Ones in the low `k` bits. */
  function Low(k: nat): bv16 {
    if k == 0 then 0 else (Low(k - 1) << 1) | 1
  }

  predicate LowClear(a: Word, k: nat) {
    a & Low(k) == 0
  }

  lemma LowTopClear(k: nat)
    requires k <= 15
    ensures Low(k) & 0x8000 == 0
  {
    assert Low(0) == 0;
    assert Low(1) == 0x1;
    assert Low(2) == 0x3;
    assert Low(3) == 0x7;
    assert Low(4) == 0xF;
    assert Low(5) == 0x1F;
    assert Low(6) == 0x3F;
    assert Low(7) == 0x7F;
    assert Low(8) == 0xFF;
    assert Low(9) == 0x1FF;
    assert Low(10) == 0x3FF;
    assert Low(11) == 0x7FF;
    assert Low(12) == 0xFFF;
    assert Low(13) == 0x1FFF;
    assert Low(14) == 0x3FFF;
    assert Low(15) == 0x7FFF;
  }

  lemma ClearBits(a: bv16, m: bv16, bit: bool)
    requires a & ((m << 1) | 1) == 0 && m & 0x8000 == 0
    ensures Add(Top(bit), Half(a)) & m == 0
    ensures Shift(Half(a)) == a
  {
  }

  lemma ZeroClear(k: nat)
    ensures LowClear(0, k)
  {
  }

  /** A word with `k + 1` zero bits at the bottom survives being halved. */
  lemma ClearStep(a: Word, k: nat, bit: bool)
    requires k <= 15 && LowClear(a, k + 1)
    ensures LowClear(Add(Top(bit), Half(a)), k)
    ensures Shift(Half(a)) == a
  {
    hide Add, Top, Half, Shift;
    LowTopClear(k);
    ClearBits(a, Low(k), bit);
  }

  lemma TopOfHalf(p: bool, q: bool, x: Word, y: Word)
    requires Add(Top(p), Half(x)) == Add(Top(q), Half(y))
    ensures p == q && Half(x) == Half(y)
  {
  }

  // ---- bit-serial division ----

  function Divide(c: Word, bits: seq<bool>): Word
    decreases |bits|
  {
    if bits == [] then c else Divide(Shift(Add(c, Top(bits[0]))), bits[1..])
  }

  lemma {:induction false} DivideConcat(c: Word, a: seq<bool>, b: seq<bool>)
    ensures Divide(c, a + b) == Divide(Divide(c, a), b)
    decreases |a|
  {
    hide Add, Shift, Top;
    if a == [] {
      assert a + b == b;
    } else {
      assert (a + b)[1..] == a[1..] + b;
      DivideConcat(Shift(Add(c, Top(a[0]))), a[1..], b);
    }
  }

  lemma {:induction false} DivideInjective(c: Word, d: Word, bits: seq<bool>)
    requires Divide(c, bits) == Divide(d, bits)
    ensures c == d
    decreases |bits|
  {
    hide Add, Shift, Top;
    if bits != [] {
      var x, y := Add(c, Top(bits[0])), Add(d, Top(bits[0]));
      DivideInjective(Shift(x), Shift(y), bits[1..]);
      ShiftInjective(x, y);
      AddInjective(c, d, Top(bits[0]));
    }
  }

  function Shifts(n: nat, c: Word): Word {
    if n == 0 then c else Shifts(n - 1, Shift(c))
  }

  lemma {:induction false} ShiftsLinear(n: nat, a: Word, b: Word)
    ensures Shifts(n, Add(a, b)) == Add(Shifts(n, a), Shifts(n, b))
  {
    hide Add, Shift;
    if n > 0 {
      ShiftLinear(a, b);
      ShiftsLinear(n - 1, Shift(a), Shift(b));
    }
  }

  lemma {:induction false} ShiftsInjective(n: nat, c: Word, d: Word)
    requires Shifts(n, c) == Shifts(n, d)
    ensures c == d
  {
    hide Shift;
    if n > 0 {
      ShiftsInjective(n - 1, Shift(c), Shift(d));
      ShiftInjective(c, d);
    }
  }

  // ---- up to 16 bits can be added to the register first and shifted out afterwards ----

  /** At most 16 bits written from the top of a word downwards. */
  function Align(bits: seq<bool>): Word {
    if bits == [] then 0 else Add(Top(bits[0]), Half(Align(bits[1..])))
  }

  lemma {:induction false} AlignClear(bits: seq<bool>)
    requires |bits| <= 16
    ensures LowClear(Align(bits), 16 - |bits|)
  {
    hide LowClear, Add, Half, Top;
    if bits == [] {
      ZeroClear(16);
    } else {
      AlignClear(bits[1..]);
      ClearStep(Align(bits[1..]), 16 - |bits|, bits[0]);
    }
  }

  lemma {:induction false} DivideIsShifts(c: Word, bits: seq<bool>)
    requires |bits| <= 16
    ensures Divide(c, bits) == Shifts(|bits|, Add(c, Align(bits)))
    decreases |bits|
  {
    hide LowClear, Add, Half, Top, Shift;
    if bits == [] {
      AddZero(c);
    } else {
      var t, a := Top(bits[0]), Align(bits[1..]);
      DivideIsShifts(Shift(Add(c, t)), bits[1..]);
      AlignClear(bits[1..]);
      ClearStep(a, 16 - |bits|, bits[0]);
      ShiftLinear(Add(c, t), Half(a));
      AddAssoc(c, t, Half(a));
    }
  }

  lemma {:induction false} AlignInjective(v: seq<bool>, w: seq<bool>)
    requires |v| == |w| <= 16 && Align(v) == Align(w)
    ensures v == w
  {
    hide LowClear, Add, Half, Top, Shift;
    if v != [] {
      var a, b := Align(v[1..]), Align(w[1..]);
      TopOfHalf(v[0], w[0], a, b);
      AlignClear(v[1..]);
      AlignClear(w[1..]);
      ClearStep(a, 16 - |v|, true);
      ClearStep(b, 16 - |v|, true);
      AlignInjective(v[1..], w[1..]);
      assert v == [v[0]] + v[1..] && w == [w[0]] + w[1..];
    }
  }

  // ---- error detection ----

  /** A burst of at most 16 bits anywhere in a message of any length always changes the remainder. */
  lemma BurstDetected(c: Word, before: seq<bool>, v: seq<bool>, w: seq<bool>, after: seq<bool>)
    requires |v| == |w| <= 16 && v != w
    ensures Divide(c, before + v + after) != Divide(c, before + w + after)
  {
    hide Divide, Add, Align, Shifts;
    DivideConcat(c, before + v, after);
    DivideConcat(c, before, v);
    DivideConcat(c, before + w, after);
    DivideConcat(c, before, w);
    var s := Divide(c, before);
    if Divide(c, before + v + after) == Divide(c, before + w + after) {
      DivideInjective(Divide(s, v), Divide(s, w), after);
      DivideIsShifts(s, v);
      DivideIsShifts(s, w);
      ShiftsInjective(|v|, Add(s, Align(v)), Add(s, Align(w)));
      AddInjective(Align(v), Align(w), s);
      AlignInjective(v, w);
    }
  }

  /** True when an odd number of the bits are ones. */
  function Odd(bits: seq<bool>): bool {
    if bits == [] then false else bits[0] != Odd(bits[1..])
  }

  /** The parity of the top `n` bits of a word. */
  function OddTop(n: nat, c: Word): bool {
    if n == 0 then false else High(c) != OddTop(n - 1, Double(c))
  }

  function OddWord(c: Word): bool {
    OddTop(16, c)
  }

  lemma {:induction false} OddTopAdd(n: nat, a: Word, b: Word)
    ensures OddTop(n, Add(a, b)) == (OddTop(n, a) != OddTop(n, b))
  {
    hide Add, High, Double;
    if n > 0 {
      AddHigh(a, b);
      AddDoubles(a, b);
      OddTopAdd(n - 1, Double(a), Double(b));
    }
  }

  function Doubles(n: nat, c: Word): Word {
    if n == 0 then c else Doubles(n - 1, Double(c))
  }

  lemma {:induction false} OddTopSnoc(n: nat, c: Word)
    ensures OddTop(n + 1, c) == (OddTop(n, c) != High(Doubles(n, c)))
  {
    hide High, Double;
    if n > 0 {
      OddTopSnoc(n - 1, Double(c));
    }
  }

  function Double4(c: Word): Word {
    Double(Double(Double(Double(c))))
  }

  lemma Doubles4(n: nat, c: Word)
    ensures Doubles(n + 4, c) == Doubles(n, Double4(c))
  {
    hide Double;
    assert Doubles(n + 4, c) == Doubles(n + 2, Double(Double(c)));
  }

  lemma DoubledAway(c: Word)
    ensures Double4(Double4(Double4(Double4(c)))) == 0
  {
  }

  lemma OddDouble(c: Word)
    ensures OddWord(Double(c)) == (OddWord(c) != High(c))
  {
    hide Double, Double4;
    Doubles4(12, c);
    Doubles4(8, Double4(c));
    Doubles4(4, Double4(Double4(c)));
    Doubles4(0, Double4(Double4(Double4(c))));
    DoubledAway(c);
    assert Doubles(15, Double(c)) == Doubles(16, c) == 0;
    assert !High(0);
    OddTopSnoc(15, Double(c));
  }

  lemma OddDivisor()
    ensures OddWord(0x1021) && OddWord(0x8000) && !OddWord(0)
  {
    assert OddTop(4, 0x1000) && !OddTop(4, 0) && OddTop(12, 0x0210) == OddTop(10, 0x0840);
  }

  /** The divisor has an even number of terms, so a division step keeps the register's parity. */
  lemma OddShift(c: Word)
    ensures OddWord(Shift(c)) == OddWord(c)
  {
    hide Add, High, Double, Reduced, OddTop;
    OddDouble(c);
    OddDivisor();
    ReducedIsAdd(c);
    OddTopAdd(16, Double(c), 0x1021);
  }

  lemma OddAddTop(c: Word, bit: bool)
    ensures OddWord(Add(c, Top(bit))) == (OddWord(c) != bit)
  {
    hide Add, OddTop;
    OddTopAdd(16, c, Top(bit));
    OddDivisor();
  }

  lemma {:induction false} OddDivide(c: Word, bits: seq<bool>)
    ensures OddWord(Divide(c, bits)) == (OddWord(c) != Odd(bits))
    decreases |bits|
  {
    hide OddWord, Shift, Top, Add;
    if bits != [] {
      OddAddTop(c, bits[0]);
      OddShift(Add(c, Top(bits[0])));
      OddDivide(Shift(Add(c, Top(bits[0]))), bits[1..]);
    }
  }

  /** In how many positions two messages of equal length differ. */
  function Distance(v: seq<bool>, w: seq<bool>): nat
    requires |v| == |w|
  {
    if v == [] then 0 else (if v[0] == w[0] then 0 else 1) + Distance(v[1..], w[1..])
  }

  lemma {:induction false} OddDistance(v: seq<bool>, w: seq<bool>)
    requires |v| == |w|
    ensures (Distance(v, w) % 2 == 1) == (Odd(v) != Odd(w))
  {
    if v != [] {
      OddDistance(v[1..], w[1..]);
    }
  }

  /** An odd number of wrong bits, wherever they are, always changes the remainder. */
  lemma OddErrorsDetected(c: Word, v: seq<bool>, w: seq<bool>)
    requires |v| == |w| && Distance(v, w) % 2 == 1
    ensures Divide(c, v) != Divide(c, w)
  {
    hide OddWord, Divide;
    OddDistance(v, w);
    OddDivide(c, v);
    OddDivide(c, w);
  }

  // ---- bytes as bits ----

  /** A byte's bits, most significant first. */
  function BitsOf(v: bv8): (bits: seq<bool>)
    ensures |bits| == 8
  {
    [v & 0x80 != 0, v & 0x40 != 0, v & 0x20 != 0, v & 0x10 != 0,
     v & 0x08 != 0, v & 0x04 != 0, v & 0x02 != 0, v & 0x01 != 0]
  }

  /** In which order a check takes the bits of each byte. */
  datatype BitOrder = HighFirst | LowFirst

  function Ordered(v: bv8, o: BitOrder): (bits: seq<bool>)
    ensures |bits| == 8
  {
    var b := BitsOf(v);
    if o == HighFirst then b else [b[7], b[6], b[5], b[4], b[3], b[2], b[1], b[0]]
  }

  function Message(data: seq<byte>, o: BitOrder): seq<bool> {
    if data == [] then [] else Ordered(ToBits(data[0]), o) + Message(data[1..], o)
  }

  lemma {:induction false} MessageConcat(a: seq<byte>, b: seq<byte>, o: BitOrder)
    ensures Message(a + b, o) == Message(a, o) + Message(b, o)
  {
    hide Ordered, ToBits;
    if a == [] {
      assert a + b == b;
    } else {
      assert (a + b)[1..] == a[1..] + b;
      MessageConcat(a[1..], b, o);
    }
  }

  lemma {:induction false} MessageLength(a: seq<byte>, o: BitOrder)
    ensures |Message(a, o)| == 8 * |a|
  {
    hide Ordered, ToBits;
    if a != [] {
      MessageLength(a[1..], o);
    }
  }

  lemma SameBits(v: bv8, w: bv8)
    requires (v & 0x80 != 0) == (w & 0x80 != 0) && (v & 0x40 != 0) == (w & 0x40 != 0)
    requires (v & 0x20 != 0) == (w & 0x20 != 0) && (v & 0x10 != 0) == (w & 0x10 != 0)
    requires (v & 0x08 != 0) == (w & 0x08 != 0) && (v & 0x04 != 0) == (w & 0x04 != 0)
    requires (v & 0x02 != 0) == (w & 0x02 != 0) && (v & 0x01 != 0) == (w & 0x01 != 0)
    ensures v == w
  {
  }

  lemma BitsOfInjective(v: bv8, w: bv8)
    requires BitsOf(v) == BitsOf(w)
    ensures v == w
  {
    var a, b := BitsOf(v), BitsOf(w);
    assert a[0] == b[0] && a[1] == b[1] && a[2] == b[2] && a[3] == b[3];
    assert a[4] == b[4] && a[5] == b[5] && a[6] == b[6] && a[7] == b[7];
    SameBits(v, w);
  }

  lemma SameEight<T>(p: seq<T>, q: seq<T>)
    requires |p| == |q| == 8
    requires p[0] == q[0] && p[1] == q[1] && p[2] == q[2] && p[3] == q[3]
    requires p[4] == q[4] && p[5] == q[5] && p[6] == q[6] && p[7] == q[7]
    ensures p == q
  {
  }

  lemma OrderedInjective(v: bv8, w: bv8, o: BitOrder)
    requires Ordered(v, o) == Ordered(w, o)
    ensures v == w
  {
    hide BitsOf;
    var a, b := Ordered(v, o), Ordered(w, o);
    assert a[0] == b[0] && a[1] == b[1] && a[2] == b[2] && a[3] == b[3];
    assert a[4] == b[4] && a[5] == b[5] && a[6] == b[6] && a[7] == b[7];
    SameEight(BitsOf(v), BitsOf(w));
    BitsOfInjective(v, w);
  }

  lemma {:induction false} MessageInjective(a: seq<byte>, b: seq<byte>, o: BitOrder)
    requires |a| == |b| && Message(a, o) == Message(b, o)
    ensures a == b
  {
    hide Ordered, ToBits;
    if a != [] {
      var x, y := Ordered(ToBits(a[0]), o), Ordered(ToBits(b[0]), o);
      assert x == Message(a, o)[..8] == Message(b, o)[..8] == y;
      assert Message(a[1..], o) == Message(a, o)[8..] == Message(b, o)[8..] == Message(b[1..], o);
      OrderedInjective(ToBits(a[0]), ToBits(b[0]), o);
      FromToBits(a[0]);
      FromToBits(b[0]);
      MessageInjective(a[1..], b[1..], o);
      assert a == [a[0]] + a[1..] && b == [b[0]] + b[1..];
    }
  }

  /** What the two theorems on errors say about byte strings, whatever the order of the bits. */
  lemma AdjacentBytesDetected(c: Word, o: BitOrder, before: seq<byte>, v: seq<byte>, w: seq<byte>, after: seq<byte>)
    requires |v| == |w| <= 2 && v != w
    ensures Divide(c, Message(before + v + after, o)) != Divide(c, Message(before + w + after, o))
  {
    hide Divide, Message;
    MessageConcat(before + v, after, o);
    MessageConcat(before, v, o);
    MessageConcat(before + w, after, o);
    MessageConcat(before, w, o);
    MessageLength(v, o);
    MessageLength(w, o);
    if Message(v, o) == Message(w, o) {
      MessageInjective(v, w, o);
    }
    BurstDetected(c, Message(before, o), Message(v, o), Message(w, o), Message(after, o));
  }

  // ---- the byte-wise Mera form ----

  const GEBERIT_INIT: Word := 4660

  function Down4(c: Word): Word { (c & 0xFF) >> 4 }
  function Up12(c: Word): Word { (c << 8) << 4 }
  function Up5(c: Word): Word { ((c & 0xFF) << 4) << 1 }

  /** The three shift-and-add lines of `_crc16`. */
  function Fold1(c: Word): Word { Add(c, Down4(c)) }
  function Fold2(c: Word): Word { Add(c, Up12(c)) }
  function Fold3(c: Word): Word { Add(c, Up5(c)) }

  function Swapped(c: bv16): bv16 {
    ((c << 8) & 0xFF00) | ((c >> 8) & 0x00FF)
  }

  /** One byte of `_crc16`: swap the halves, add the byte, fold three times. */
  function GeberitByte(crc: Word, b: bv8): Word {
    Fold3(Fold2(Fold1(Add(Swapped(crc), b as bv16))))
  }

  function GeberitFrom(crc: Word, data: seq<byte>): Word
    decreases |data|
  {
    if data == [] then crc else GeberitFrom(GeberitByte(crc, ToBits(data[0])), data[1..])
  }

  function GeberitCrc(data: seq<byte>): Word {
    GeberitFrom(GEBERIT_INIT, data)
  }

  method ComputeGeberitCrc(data: seq<byte>) returns (crc: Word)
    ensures crc == GeberitCrc(data)
  {
    hide GeberitByte;
    crc := 4660;
    assert data[0..] == data;
    for i := 0 to |data|
      invariant GeberitFrom(crc, data[i..]) == GeberitCrc(data)
    {
      assert data[i..][1..] == data[i + 1..];
      crc := GeberitByte(crc, ToBits(data[i]));
    }
  }

  lemma Down4Linear(a: Word, b: Word)
    ensures Down4(Add(a, b)) == Add(Down4(a), Down4(b))
  {
  }

  lemma Up12Linear(a: Word, b: Word)
    ensures Up12(Add(a, b)) == Add(Up12(a), Up12(b))
  {
  }

  lemma Up5Linear(a: Word, b: Word)
    ensures Up5(Add(a, b)) == Add(Up5(a), Up5(b))
  {
  }

  lemma Fold1Linear(a: Word, b: Word)
    ensures Fold1(Add(a, b)) == Add(Fold1(a), Fold1(b))
  {
    hide Add, Down4;
    Down4Linear(a, b);
    AddFour(a, b, Down4(a), Down4(b));
  }

  lemma Fold2Linear(a: Word, b: Word)
    ensures Fold2(Add(a, b)) == Add(Fold2(a), Fold2(b))
  {
    hide Add, Up12;
    Up12Linear(a, b);
    AddFour(a, b, Up12(a), Up12(b));
  }

  lemma Fold3Linear(a: Word, b: Word)
    ensures Fold3(Add(a, b)) == Add(Fold3(a), Fold3(b))
  {
    hide Add, Up5;
    Up5Linear(a, b);
    AddFour(a, b, Up5(a), Up5(b));
  }

  function Shift8(x: Word): Word {
    Shift(Shift(Shift(Shift(Shift(Shift(Shift(Shift(x))))))))
  }

  /** On a low byte the three folds do what eight division steps do from the top. */
  lemma FoldsOfLowByte(x: Word)
    requires x & 0xFF00 == 0
    ensures Fold3(Fold2(Fold1(x))) == Shift8(x << 8)
  {
  }

  lemma FoldsOfHighByte(x: Word)
    requires x & 0x00FF == 0
    ensures Fold3(Fold2(Fold1(x))) == x
  {
  }

  lemma ShiftsOfLowByte(x: Word)
    requires x & 0xFF00 == 0
    ensures Shift8(x) == x << 8
  {
  }

  lemma ShiftsTwice(n: nat, c: Word)
    ensures Shifts(n + 2, c) == Shifts(n, Shift(Shift(c)))
  {
  }

  lemma Shifts8(c: Word)
    ensures Shifts(8, c) == Shift8(c)
  {
    hide Shift;
    var c2 := Shift(Shift(c));
    var c4 := Shift(Shift(c2));
    var c6 := Shift(Shift(c4));
    ShiftsTwice(6, c);
    ShiftsTwice(4, c2);
    ShiftsTwice(2, c4);
    ShiftsTwice(0, c6);
  }

  function Up8(c: Word): Word { c << 8 }
  function LowByte(c: Word): Word { c & 0xFF }
  function HighByte(c: Word): Word { c >> 8 }
  function Incoming(c: Word, v: Word): Word { Add(HighByte(c), v) }

  lemma LowByteIsLow(crc: Word)
    ensures LowByte(crc) & 0xFF00 == 0
  {
  }

  lemma IncomingIsLow(crc: Word, v: Word)
    requires v & 0xFF00 == 0
    ensures Incoming(crc, v) & 0xFF00 == 0
  {
  }

  lemma SwappedHalves(crc: Word)
    ensures Swapped(crc) == Add(Up8(LowByte(crc)), HighByte(crc))
  {
  }

  lemma SplitSwapped(crc: Word, v: Word)
    ensures Add(Swapped(crc), v) == Add(Up8(LowByte(crc)), Incoming(crc, v))
  {
    hide Add, Up8, LowByte, HighByte, Swapped;
    SwappedHalves(crc);
    AddAssoc(Up8(LowByte(crc)), HighByte(crc), v);
  }

  lemma SplitRaised(crc: Word, v: Word)
    requires v & 0xFF00 == 0
    ensures Add(crc, Up8(v)) == Add(LowByte(crc), Up8(Incoming(crc, v)))
  {
  }

  lemma FoldedHalves(l: Word, x: Word)
    requires l & 0xFF00 == 0 && x & 0xFF00 == 0
    ensures Fold3(Fold2(Fold1(Add(Up8(l), x)))) == Shifts(8, Add(l, Up8(x)))
  {
    FoldsOfHighByte(l << 8);
    FoldsOfLowByte(x);
    ShiftsOfLowByte(l);
    var h, r := Up8(l), Up8(x);
    hide Shifts, Shift8, Add, Fold1, Fold2, Fold3, Swapped;
    Shifts8(l);
    Shifts8(r);
    ShiftsLinear(8, l, r);
    Fold1Linear(h, x);
    Fold2Linear(Fold1(h), Fold1(x));
    Fold3Linear(Fold2(Fold1(h)), Fold2(Fold1(x)));
  }

  lemma WidenedByte(b: bv8)
    ensures (b as Word) & 0xFF00 == 0
  {
  }

  function Raised(b: bv8): Word {
    Up8(b as Word)
  }

  lemma GeberitByteIsShifts(crc: Word, b: bv8)
    ensures GeberitByte(crc, b) == Shifts(8, Add(crc, Raised(b)))
  {
    hide Shifts, Add, Fold1, Fold2, Fold3, Swapped, Up8, LowByte, Incoming;
    WidenedByte(b);
    LowByteIsLow(crc);
    IncomingIsLow(crc, b as Word);
    SplitSwapped(crc, b as Word);
    SplitRaised(crc, b as Word);
    FoldedHalves(LowByte(crc), Incoming(crc, b as Word));
  }

  function Align8(p: bool, q: bool, r: bool, s: bool, t: bool, u: bool, v: bool, w: bool): Word {
    Add(Top(p), Half(Add(Top(q), Half(Add(Top(r), Half(Add(Top(s), Half(
    Add(Top(t), Half(Add(Top(u), Half(Add(Top(v), Half(Add(Top(w), Half(0))))))))))))))))
  }

  lemma AlignTwo(p: bool, q: bool, rest: seq<bool>)
    ensures Align([p, q] + rest) == Add(Top(p), Half(Add(Top(q), Half(Align(rest)))))
  {
    hide Add, Top, Half;
    assert ([p, q] + rest)[1..] == [q] + rest;
    assert ([q] + rest)[1..] == rest;
  }

  lemma AlignNone()
    ensures Align([]) == 0
  {
  }

  lemma AlignIsAlign8(p: bool, q: bool, r: bool, s: bool, t: bool, u: bool, v: bool, w: bool)
    ensures Align([p, q, r, s, t, u, v, w]) == Align8(p, q, r, s, t, u, v, w)
  {
    hide Add, Top, Half, Align;
    var last := [v, w] + [];
    var half := [t, u] + last;
    var most := [r, s] + half;
    AlignNone();
    AlignTwo(v, w, []);
    AlignTwo(t, u, last);
    AlignTwo(r, s, half);
    AlignTwo(p, q, most);
    assert [p, q, r, s, t, u, v, w] == [p, q] + most;
  }

  lemma Align8Byte(b: bv8)
    ensures Align8(b & 0x80 != 0, b & 0x40 != 0, b & 0x20 != 0, b & 0x10 != 0,
                   b & 0x08 != 0, b & 0x04 != 0, b & 0x02 != 0, b & 0x01 != 0) == Raised(b)
  {
  }

  lemma AlignByte(b: bv8)
    ensures Align(BitsOf(b)) == Raised(b)
  {
    hide Align, Align8, Raised;
    AlignIsAlign8(b & 0x80 != 0, b & 0x40 != 0, b & 0x20 != 0, b & 0x10 != 0,
                  b & 0x08 != 0, b & 0x04 != 0, b & 0x02 != 0, b & 0x01 != 0);
    Align8Byte(b);
  }

  /** The byte-wise update is eight steps of the bit-serial division. */
  lemma GeberitByteIsDivision(crc: Word, b: bv8)
    ensures GeberitByte(crc, b) == Divide(crc, BitsOf(b))
  {
    hide GeberitByte, Divide, Align, BitsOf, Shifts, Raised, Add;
    GeberitByteIsShifts(crc, b);
    DivideIsShifts(crc, BitsOf(b));
    AlignByte(b);
  }

  lemma {:induction false} GeberitIsDivision(crc: Word, data: seq<byte>)
    ensures GeberitFrom(crc, data) == Divide(crc, Message(data, HighFirst))
    decreases |data|
  {
    hide GeberitByte, BitsOf, Shift, Add, Top;
    if data != [] {
      var b := ToBits(data[0]);
      GeberitByteIsDivision(crc, b);
      DivideConcat(crc, BitsOf(b), Message(data[1..], HighFirst));
      GeberitIsDivision(GeberitByte(crc, b), data[1..]);
    }
  }

  /** The check of a message, from its start value on. */
  lemma GeberitCrcIsDivision(data: seq<byte>)
    ensures GeberitCrc(data) == Divide(0x1234, Message(data, HighFirst))
  {
    GeberitIsDivision(0x1234, data);
    hide GeberitFrom, Divide, Message;
  }

  /** For each byte the update is a bijection of the register. */
  lemma GeberitByteInjective(c: Word, d: Word, b: bv8)
    requires GeberitByte(c, b) == GeberitByte(d, b)
    ensures c == d
  {
    hide GeberitByte, Divide;
    GeberitByteIsDivision(c, b);
    GeberitByteIsDivision(d, b);
    DivideInjective(c, d, BitsOf(b));
  }

  /** Two messages that differ only inside two adjacent bytes never have the same CRC. */
  lemma GeberitDetectsAdjacentBytes(before: seq<byte>, v: seq<byte>, w: seq<byte>, after: seq<byte>)
    requires |v| == |w| <= 2 && v != w
    ensures GeberitCrc(before + v + after) != GeberitCrc(before + w + after)
  {
    hide Divide, Message, GeberitFrom;
    GeberitIsDivision(GEBERIT_INIT, before + v + after);
    GeberitIsDivision(GEBERIT_INIT, before + w + after);
    AdjacentBytesDetected(GEBERIT_INIT, HighFirst, before, v, w, after);
  }

  /** Two messages of equal length an odd number of bits apart never have the same CRC. */
  lemma GeberitDetectsOddErrors(v: seq<byte>, w: seq<byte>)
    requires |Message(v, HighFirst)| == |Message(w, HighFirst)|
    requires Distance(Message(v, HighFirst), Message(w, HighFirst)) % 2 == 1
    ensures GeberitCrc(v) != GeberitCrc(w)
  {
    hide Divide, Message, GeberitFrom;
    GeberitIsDivision(GEBERIT_INIT, v);
    GeberitIsDivision(GEBERIT_INIT, w);
    OddErrorsDetected(GEBERIT_INIT, Message(v, HighFirst), Message(w, HighFirst));
  }

  // ---- the reflected Alba form ----

  function KermitBit(c: Word): Word {
    if c & 1 == 1 then (c >> 1) ^ 0x8408 else c >> 1
  }

  function KermitBits(n: nat, c: Word): Word {
    if n == 0 then c else KermitBits(n - 1, KermitBit(c))
  }

  function KermitFrom(crc: Word, data: seq<byte>): Word
    decreases |data|
  {
    if data == [] then crc else KermitFrom(KermitBits(8, Add(crc, ToBits(data[0]) as Word)), data[1..])
  }

  function Kermit(data: seq<byte>): Word {
    KermitFrom(0, data)
  }

  method ComputeKermit(data: seq<byte>) returns (crc: Word)
    ensures crc == Kermit(data)
  {
    hide KermitBit;
    crc := 0;
    assert data[0..] == data;
    for i := 0 to |data|
      invariant KermitFrom(crc, data[i..]) == Kermit(data)
    {
      assert data[i..][1..] == data[i + 1..];
      crc := Add(crc, ToBits(data[i]) as Word);
      ghost var start := crc;
      for j := 0 to 8
        invariant KermitBits(8 - j, crc) == KermitBits(8, start)
      {
        crc := KermitBit(crc);
      }
    }
  }

  function Low8(c: Word): bv8 { (c & 0xFF) as bv8 }
  function High8(c: Word): bv8 { (c >> 8) as bv8 }

  /** The two bytes in which a frame carries its check: low byte first. */
  function KermitBytes(data: seq<byte>): (r: seq<byte>)
    ensures |r| == 2
  {
    [FromBits(Low8(Kermit(data))), FromBits(High8(Kermit(data)))]
  }

  lemma HalvesInjective(c: Word, d: Word)
    requires Low8(c) == Low8(d) && High8(c) == High8(d)
    ensures c == d
  {
  }

  lemma KermitBytesInjective(a: seq<byte>, b: seq<byte>)
    requires KermitBytes(a) == KermitBytes(b)
    ensures Kermit(a) == Kermit(b)
  {
    hide Kermit, FromBits, ToBits, Low8, High8;
    assert KermitBytes(a)[0] == KermitBytes(b)[0] && KermitBytes(a)[1] == KermitBytes(b)[1];
    ToFromBits(Low8(Kermit(a)));
    ToFromBits(Low8(Kermit(b)));
    ToFromBits(High8(Kermit(a)));
    ToFromBits(High8(Kermit(b)));
    HalvesInjective(Kermit(a), Kermit(b));
  }

  /** A word read from the other end. */
  function Mirror(c: Word): Word {
    var d := ((c & 0xAAAA) >> 1) | ((c & 0x5555) << 1);
    var e := ((d & 0xCCCC) >> 2) | ((d & 0x3333) << 2);
    var f := ((e & 0xF0F0) >> 4) | ((e & 0x0F0F) << 4);
    (f >> 8) | (f << 8)
  }

  lemma MirrorHigh(c: Word)
    ensures High(Mirror(c)) == (c & 1 == 1)
  {
  }

  lemma MirrorAdd(a: Word, b: Word)
    ensures Mirror(Add(a, b)) == Add(Mirror(a), Mirror(b))
  {
  }

  lemma MirrorHalfLow(c: Word)
    requires c & 0xFF00 == 0
    ensures Mirror(Half(c)) == Double(Mirror(c))
  {
  }

  lemma MirrorHalfHigh(c: Word)
    requires c & 0x00FF == 0
    ensures Mirror(Half(c)) == Double(Mirror(c))
  {
  }

  lemma HalfAdd(a: Word, b: Word)
    ensures Half(Add(a, b)) == Add(Half(a), Half(b))
  {
  }

  lemma TwoBytes(c: Word)
    ensures Add(c & 0x00FF, c & 0xFF00) == c
    ensures (c & 0x00FF) & 0xFF00 == 0 && (c & 0xFF00) & 0x00FF == 0
  {
  }

  lemma MirrorHalf(c: Word)
    ensures Mirror(Half(c)) == Double(Mirror(c))
  {
    var low, high := c & 0x00FF, c & 0xFF00;
    TwoBytes(c);
    MirrorHalfLow(low);
    MirrorHalfHigh(high);
    hide Mirror, Half, Double, Add;
    HalfAdd(low, high);
    MirrorAdd(low, high);
    MirrorAdd(Half(low), Half(high));
    AddDoubles(Mirror(low), Mirror(high));
  }

  lemma MirrorDivisor()
    ensures Mirror(0x8408) == 0x1021 && Mirror(0) == 0
  {
  }

  function KermitReduced(c: Word): Word {
    Add(Half(c), 0x8408)
  }

  lemma KermitBitCases(c: Word)
    ensures KermitBit(c) == if c & 1 == 1 then KermitReduced(c) else Half(c)
  {
  }

  lemma MirrorBit(c: Word)
    ensures Mirror(KermitBit(c)) == Shift(Mirror(c))
  {
    hide Mirror, KermitBit, Add, Half, Double, High, Reduced;
    KermitBitCases(c);
    MirrorHigh(c);
    MirrorHalf(c);
    MirrorAdd(Half(c), 0x8408);
    MirrorDivisor();
    ReducedIsAdd(Mirror(c));
  }

  lemma {:induction false} MirrorBits(n: nat, c: Word)
    ensures Mirror(KermitBits(n, c)) == Shifts(n, Mirror(c))
  {
    hide Mirror, KermitBit, Shift;
    if n > 0 {
      MirrorBit(c);
      MirrorBits(n - 1, KermitBit(c));
    }
  }

  lemma Align8Mirrored(b: bv8)
    ensures Align8(b & 0x01 != 0, b & 0x02 != 0, b & 0x04 != 0, b & 0x08 != 0,
                   b & 0x10 != 0, b & 0x20 != 0, b & 0x40 != 0, b & 0x80 != 0) == Mirror(b as Word)
  {
  }

  lemma AlignMirroredByte(b: bv8)
    ensures Align(Ordered(b, LowFirst)) == Mirror(b as Word)
  {
    hide Align, Align8, Mirror;
    AlignIsAlign8(b & 0x01 != 0, b & 0x02 != 0, b & 0x04 != 0, b & 0x08 != 0,
                  b & 0x10 != 0, b & 0x20 != 0, b & 0x40 != 0, b & 0x80 != 0);
    Align8Mirrored(b);
  }

  lemma KermitByteIsDivision(crc: Word, b: bv8)
    ensures Mirror(KermitBits(8, Add(crc, b as Word))) == Divide(Mirror(crc), Ordered(b, LowFirst))
  {
    hide Mirror, KermitBits, Add, Divide, Align, Shifts, Ordered;
    MirrorBits(8, Add(crc, b as Word));
    MirrorAdd(crc, b as Word);
    AlignMirroredByte(b);
    DivideIsShifts(Mirror(crc), Ordered(b, LowFirst));
  }

  /** The reflected check is the mirror image of the same division, fed the low bit first. */
  lemma {:induction false} KermitIsDivision(crc: Word, data: seq<byte>)
    ensures Mirror(KermitFrom(crc, data)) == Divide(Mirror(crc), Message(data, LowFirst))
    decreases |data|
  {
    hide Mirror, KermitBits, Add, Ordered, Shift, Top;
    if data != [] {
      var b := ToBits(data[0]);
      var next := KermitBits(8, Add(crc, b as Word));
      KermitByteIsDivision(crc, b);
      DivideConcat(Mirror(crc), Ordered(b, LowFirst), Message(data[1..], LowFirst));
      KermitIsDivision(next, data[1..]);
    }
  }

  lemma KermitDetectsAdjacentBytes(before: seq<byte>, v: seq<byte>, w: seq<byte>, after: seq<byte>)
    requires |v| == |w| <= 2 && v != w
    ensures Kermit(before + v + after) != Kermit(before + w + after)
    ensures KermitBytes(before + v + after) != KermitBytes(before + w + after)
  {
    hide Divide, Message, KermitFrom, Mirror, KermitBytes;
    KermitIsDivision(0, before + v + after);
    KermitIsDivision(0, before + w + after);
    AdjacentBytesDetected(Mirror(0), LowFirst, before, v, w, after);
    if KermitBytes(before + v + after) == KermitBytes(before + w + after) {
      KermitBytesInjective(before + v + after, before + w + after);
    }
  }

  lemma KermitDetectsOddErrors(v: seq<byte>, w: seq<byte>)
    requires |Message(v, LowFirst)| == |Message(w, LowFirst)|
    requires Distance(Message(v, LowFirst), Message(w, LowFirst)) % 2 == 1
    ensures Kermit(v) != Kermit(w) && KermitBytes(v) != KermitBytes(w)
  {
    hide Divide, Message, KermitFrom, Mirror, KermitBytes;
    KermitIsDivision(0, v);
    KermitIsDivision(0, w);
    OddErrorsDetected(Mirror(0), Message(v, LowFirst), Message(w, LowFirst));
    if KermitBytes(v) == KermitBytes(w) {
      KermitBytesInjective(v, w);
    }
  }

  // ---- the parity of a word and of its bytes ----

  lemma {:induction false} OddConcat(a: seq<bool>, b: seq<bool>)
    ensures Odd(a + b) == (Odd(a) != Odd(b))
  {
    if a == [] {
      assert a + b == b;
    } else {
      assert (a + b)[1..] == a[1..] + b;
      OddConcat(a[1..], b);
    }
  }

  lemma {:induction false} OddShifts(n: nat, c: Word)
    ensures OddWord(Shifts(n, c)) == OddWord(c)
  {
    hide OddWord, Shift;
    if n > 0 {
      OddShift(c);
      OddShifts(n - 1, Shift(c));
    }
  }

  lemma AddNothing(c: Word)
    ensures Add(0, c) == c
  {
  }

  /** The parity of a byte's bits is that of the byte at the top of a word. */
  lemma OddOrdered(b: bv8)
    ensures Odd(Ordered(b, HighFirst)) == OddWord(Raised(b))
  {
    hide OddWord, Divide, Shifts, Align, Add, Odd, BitsOf, Raised;
    assert Ordered(b, HighFirst) == BitsOf(b);
    OddDivide(0, BitsOf(b));
    DivideIsShifts(0, BitsOf(b));
    AlignByte(b);
    AddNothing(Raised(b));
    OddShifts(8, Add(0, Align(BitsOf(b))));
    OddDivisor();
  }

  lemma LowEight(c: Word)
    requires c & 0xFF00 == 0
    ensures Double4(Double4(c)) == Up8(c)
    ensures !High(c) && !High(Double(c)) && !High(Double(Double(c))) && !High(Double(Double(Double(c))))
    ensures var d := Double4(c);
            !High(d) && !High(Double(d)) && !High(Double(Double(d))) && !High(Double(Double(Double(d))))
  {
  }

  lemma OddFour(c: Word)
    requires !High(c) && !High(Double(c)) && !High(Double(Double(c))) && !High(Double(Double(Double(c))))
    ensures OddWord(Double4(c)) == OddWord(c)
  {
    hide OddWord, Double, High;
    OddDouble(c);
    OddDouble(Double(c));
    OddDouble(Double(Double(c)));
    OddDouble(Double(Double(Double(c))));
  }

  lemma HighLow(c: Word)
    ensures Add(Raised(High8(c)), Low8(c) as Word) == c && (Low8(c) as Word) & 0xFF00 == 0
  {
  }

  lemma OddAdd(a: Word, b: Word)
    ensures OddWord(Add(a, b)) == (OddWord(a) != OddWord(b))
  {
    OddTopAdd(16, a, b);
  }

  /** The parity of the two bytes of a word, high byte first, is that of the word. */
  lemma OddBytes(c: Word)
    ensures Odd(Message([FromBits(High8(c)), FromBits(Low8(c))], HighFirst)) == OddWord(c)
  {
    var h, l := High8(c), Low8(c);
    hide OddWord, Odd, Ordered, FromBits, ToBits;
    ToFromBits(h);
    ToFromBits(l);
    assert [FromBits(h), FromBits(l)][1..] == [FromBits(l)] && [FromBits(l)][1..] == [];
    assert Message([FromBits(l)], HighFirst) == Ordered(l, HighFirst) + Message([], HighFirst);
    assert Message([FromBits(h), FromBits(l)], HighFirst) == Ordered(h, HighFirst) + Ordered(l, HighFirst);
    OddConcat(Ordered(h, HighFirst), Ordered(l, HighFirst));
    OddOrdered(h);
    OddOrdered(l);
    HighLow(c);
    LowEight(l as Word);
    OddFour(l as Word);
    OddFour(Double4(l as Word));
    OddAdd(Raised(h), l as Word);
  }

  // ---- the check together with what it checks ----

  lemma LowZeros(c: Word)
    requires c & 0xFF == 0
    ensures KermitBit(c) == c >> 1 && KermitBit(c >> 1) == c >> 2 && KermitBit(c >> 2) == c >> 3
    ensures KermitBit(c >> 3) == c >> 4 && KermitBit(c >> 4) == c >> 5 && KermitBit(c >> 5) == c >> 6
    ensures KermitBit(c >> 6) == c >> 7 && KermitBit(c >> 7) == c >> 8
  {
  }

  lemma EightZeros(c: Word)
    requires c & 0xFF == 0
    ensures KermitBits(8, c) == c >> 8
  {
    LowZeros(c);
    hide KermitBit;
    assert KermitBits(8, c) == KermitBits(7, c >> 1) == KermitBits(6, c >> 2) == KermitBits(5, c >> 3);
    assert KermitBits(5, c >> 3) == KermitBits(4, c >> 4) == KermitBits(3, c >> 5) == KermitBits(2, c >> 6);
    assert KermitBits(2, c >> 6) == KermitBits(1, c >> 7) == KermitBits(0, c >> 8);
  }

  lemma OwnByte(c: Word)
    ensures Add(c, Low8(c) as Word) & 0xFF == 0 && Add(c, Low8(c) as Word) >> 8 == High8(c) as Word
    ensures Add(High8(c) as Word, High8(c) as Word) == 0
  {
  }

  lemma {:induction false} KermitConcat(c: Word, a: seq<byte>, b: seq<byte>)
    ensures KermitFrom(c, a + b) == KermitFrom(KermitFrom(c, a), b)
    decreases |a|
  {
    hide KermitBits, Add, ToBits;
    if a == [] {
      assert a + b == b;
    } else {
      assert (a + b)[1..] == a[1..] + b;
      KermitConcat(KermitBits(8, Add(c, ToBits(a[0]) as Word)), a[1..], b);
    }
  }

  lemma KermitTwo(c: Word, x: byte, y: byte)
    ensures KermitFrom(c, [x, y])
         == KermitBits(8, Add(KermitBits(8, Add(c, ToBits(x) as Word)), ToBits(y) as Word))
  {
    hide KermitBits, Add, ToBits;
    assert [x, y][1..] == [y] && [y][1..] == [];
    assert KermitFrom(KermitBits(8, Add(c, ToBits(x) as Word)), [y])
        == KermitFrom(KermitBits(8, Add(KermitBits(8, Add(c, ToBits(x) as Word)), ToBits(y) as Word)), []);
  }

  /** A check fed to its own register leaves nothing. */
  lemma OwnCheck(c: Word)
    ensures KermitFrom(c, [FromBits(Low8(c)), FromBits(High8(c))]) == 0
  {
    ToFromBits(Low8(c));
    ToFromBits(High8(c));
    KermitTwo(c, FromBits(Low8(c)), FromBits(High8(c)));
    OwnByte(c);
    EightZeros(Add(c, Low8(c) as Word));
    EightZeros(0);
    hide KermitBits, Add, FromBits, ToBits, Low8, High8;
  }

  /** A string ends in its own check exactly if the division of the whole leaves no remainder. */
  lemma CheckedIffDivides(body: seq<byte>, check: seq<byte>)
    requires |check| == 2
    ensures check == KermitBytes(body) <==> Kermit(body + check) == 0
  {
    hide KermitFrom, ToBits, FromBits, Low8, High8;
    KermitConcat(0, body, KermitBytes(body));
    OwnCheck(Kermit(body));
    assert KermitBytes(body) == [FromBits(Low8(Kermit(body))), FromBits(High8(Kermit(body)))];
    assert Kermit(body + KermitBytes(body)) == 0;
    hide KermitBytes, Kermit;
    if check != KermitBytes(body) {
      KermitDetectsAdjacentBytes(body, check, KermitBytes(body), []);
      assert body + check + [] == body + check && body + KermitBytes(body) + [] == body + KermitBytes(body);
    }
  }

  lemma MirrorZero(c: Word)
    ensures Mirror(c) == 0 <==> c == 0
  {
  }

  /** The remainder and the mirrored one are zero together. */
  lemma KermitZero(data: seq<byte>)
    ensures Kermit(data) == 0 <==> Divide(0, Message(data, LowFirst)) == 0
  {
    hide KermitFrom, Divide, Message;
    KermitIsDivision(0, data);
    MirrorZero(Kermit(data));
  }
}
