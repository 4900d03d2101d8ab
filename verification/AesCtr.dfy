/**
 The counter-mode stream cipher of the Alba link, with the block cipher left abstract.

 `Keystream` is the stream of section 6.5 of NIST SP 800-38A: block k is the encryption of the
 nonce with k added to its last four bytes, modulo 2^32.  The class keeps a counter block, the
 current keystream block and a position in it, and is shown to XOR with exactly that stream.
 */
module AesCtr {
  import opened Bytes

  type Block = s: seq<byte> | |s| == 16 witness [0, 0, 0, 0, 0, 0, 0, 0, 0, 0, 0, 0, 0, 0, 0, 0]

  /** A keyed block cipher and the nonce it starts from. */
  datatype Cipher = Cipher(encrypt: Block -> Block, nonce: Block)

  // ---- the last four bytes as a big-endian number ----

  const WRAP := 0x1_0000_0000

  function Word32(n: nat): (s: seq<byte>)
    requires n < WRAP
    ensures |s| == 4
  {
    var high := n / 256 / 256;
    [high / 256, high % 256, n / 256 % 256, n % 256]
  }

  function Value32(s: seq<byte>): (n: nat)
    requires |s| == 4
    ensures n < WRAP
  {
    (((s[0] as int) * 256 + s[1]) * 256 + s[2]) * 256 + s[3]
  }

  lemma ValueOfWord(n: nat)
    requires n < WRAP
    ensures Value32(Word32(n)) == n
  {
    var low := n / 256;
    var high := low / 256;
    assert high == high / 256 * 256 + high % 256;
    assert low == high * 256 + low % 256;
    assert n == low * 256 + n % 256;
  }

  lemma SplitLow(high: nat, low: byte)
    ensures (high * 256 + low) / 256 == high && (high * 256 + low) % 256 == low
  {
  }

  lemma WordOfValue(s: seq<byte>)
    requires |s| == 4
    ensures Word32(Value32(s)) == s
  {
    SplitLow(s[0], s[1]);
    SplitLow((s[0] as int) * 256 + s[1], s[2]);
    SplitLow(((s[0] as int) * 256 + s[1]) * 256 + s[2], s[3]);
  }

  // ---- the keystream ----

  /** The counter block for keystream block `k`. */
  function CounterAt(nonce: Block, k: nat): Block {
    nonce[..12] + Word32((Value32(nonce[12..]) + k) % WRAP)
  }

  function Keystream(c: Cipher, j: nat): byte {
    (c.encrypt(CounterAt(c.nonce, j / 16)))[j % 16]
  }

  /** The bytes of `data`, XORed with the keystream from position `at` on. */
  function Apply(c: Cipher, at: nat, data: seq<byte>): (r: seq<byte>)
    ensures |r| == |data|
    decreases |data|
  {
    if data == [] then [] else [Xor(data[0], Keystream(c, at))] + Apply(c, at + 1, data[1..])
  }

  /** Applying the same stretch of keystream twice gives the data back. */
  lemma {:induction false} ApplyTwice(c: Cipher, at: nat, data: seq<byte>)
    ensures Apply(c, at, Apply(c, at, data)) == data
    decreases |data|
  {
    hide Xor, Keystream;
    if data != [] {
      XorTwice(data[0], Keystream(c, at));
      ApplyTwice(c, at + 1, data[1..]);
      assert Apply(c, at, data)[1..] == Apply(c, at + 1, data[1..]);
      assert [data[0]] + data[1..] == data;
    }
  }

  /** Cutting the data into consecutive pieces does not change the result. */
  lemma {:induction false} ApplyConcat(c: Cipher, at: nat, a: seq<byte>, b: seq<byte>)
    ensures Apply(c, at, a + b) == Apply(c, at, a) + Apply(c, at + |a|, b)
    decreases |a|
  {
    hide Xor, Keystream;
    if a == [] {
      assert a + b == b;
    } else {
      assert (a + b)[1..] == a[1..] + b;
      ApplyConcat(c, at + 1, a[1..], b);
    }
  }

  lemma {:induction false} ApplyIndex(c: Cipher, at: nat, data: seq<byte>, i: nat)
    requires i < |data|
    ensures Apply(c, at, data)[i] == Xor(data[i], Keystream(c, at + i))
    decreases |data|
  {
    hide Xor, Keystream;
    if i > 0 {
      ApplyIndex(c, at + 1, data[1..], i - 1);
    }
  }

  /** A 32-bit number, high byte first. */
  lemma BigEndian(n: nat)
    requires n < WRAP
    ensures Word32(n) == [n / 0x100_0000, n / 0x1_0000 % 256, n / 0x100 % 256, n % 256]
  {
  }

  lemma KeystreamIs(c: Cipher, j: nat)
    ensures Keystream(c, j) == c.encrypt(c.nonce[..12] + Word32((Value32(c.nonce[12..]) + j / 16) % WRAP))[j % 16]
  {
  }

  lemma NonceNumber(n: Block)
    ensures Value32(n[12..]) == (n[12] as int) * 0x100_0000 + (n[13] as int) * 0x1_0000 + (n[14] as int) * 0x100 + n[15]
  {
  }

  /**
   What the cipher computes, byte by byte: the exclusive or with byte (at + i) % 16 of the encryption
   of a counter block, the nonce with (at + i) / 16 added to the big-endian number in its last four
   bytes.
   */
  lemma ApplyAt(c: Cipher, at: nat, data: seq<byte>, i: nat)
    requires i < |data|
    ensures var n := c.nonce;
            var start: nat := (n[12] as int) * 0x100_0000 + (n[13] as int) * 0x1_0000 + (n[14] as int) * 0x100 + n[15];
            var count := (start + (at + i) / 16) % 0x1_0000_0000;
            var block: Block := [n[0], n[1], n[2], n[3], n[4], n[5], n[6], n[7], n[8], n[9], n[10], n[11],
                                 count / 0x100_0000, count / 0x1_0000 % 256, count / 0x100 % 256, count % 256];
            ToBits(Apply(c, at, data)[i]) == ToBits(data[i]) ^ ToBits(c.encrypt(block)[(at + i) % 16])
  {
    var n := c.nonce;
    hide Xor, Keystream, Word32, ToBits;
    ApplyIndex(c, at, data, i);
    XorIsXor(data[i], Keystream(c, at + i));
    NonceNumber(n);
    var count := (Value32(n[12..]) + (at + i) / 16) % WRAP;
    BigEndian(count);
    var block: Block := [n[0], n[1], n[2], n[3], n[4], n[5], n[6], n[7], n[8], n[9], n[10], n[11],
                         count / 0x100_0000, count / 0x1_0000 % 256, count / 0x100 % 256, count % 256];
    assert n[..12] + Word32(count) == block;
    KeystreamIs(c, at + i);
  }

  /** The 32-bit counter at the end of a block goes up by one and wraps around. */
  function Increment(b: Block): Block {
    b[..12] + Word32((Value32(b[12..]) + 1) % WRAP)
  }

  lemma CounterStep(nonce: Block, k: nat)
    ensures CounterAt(nonce, k + 1) == Increment(CounterAt(nonce, k))
  {
    hide Word32, Value32;
    var v := (Value32(nonce[12..]) + k) % WRAP;
    var b := CounterAt(nonce, k);
    assert b[12..] == Word32(v) && b[..12] == nonce[..12];
    ValueOfWord(v);
    assert (v + 1) % WRAP == (Value32(nonce[12..]) + (k + 1)) % WRAP;
  }

  lemma CounterStart(nonce: Block)
    ensures CounterAt(nonce, 0) == nonce
  {
    hide Word32, Value32;
    WordOfValue(nonce[12..]);
    assert nonce[..12] + nonce[12..] == nonce;
  }

  lemma ApplySnoc(c: Cipher, at: nat, a: seq<byte>, b: byte)
    ensures Apply(c, at, a + [b]) == Apply(c, at, a) + [Xor(b, Keystream(c, at + |a|))]
  {
    hide Xor, Keystream;
    ApplyConcat(c, at, a, [b]);
    assert Apply(c, at + |a|, [b]) == [Xor(b, Keystream(c, at + |a|))] + Apply(c, at + |a| + 1, []);
  }

  lemma StreamPosition(blocks: nat, pos: nat)
    requires blocks >= 1 && pos < 16
    ensures (16 * (blocks - 1) + pos) / 16 == blocks - 1 && (16 * (blocks - 1) + pos) % 16 == pos
  {
  }

  // ---- the cipher object ----

  class AesCtrState {
    const encrypt: Block -> Block
    ghost const nonce: Block
    var counter: Block
    var ks: Block
    var pos: nat
    ghost var blocks: nat

    ghost predicate Valid()
      reads this
    {
      && blocks >= 1 && pos <= 16
      && counter == CounterAt(nonce, blocks)
      && ks == encrypt(CounterAt(nonce, blocks - 1))
    }

    ghost function Key(): Cipher {
      Cipher(encrypt, nonce)
    }

    /** How many keystream bytes have been used. */
    ghost function Offset(): nat
      reads this
      requires Valid()
    {
      16 * (blocks - 1) + pos
    }

    constructor (encrypt: Block -> Block, nonce2: Block)
      ensures Valid() && Key() == Cipher(encrypt, nonce2) && Offset() == 0
    {
      this.encrypt := encrypt;
      this.nonce := nonce2;
      ks := encrypt(nonce2);
      pos := 0;
      counter := Increment(nonce2);
      blocks := 1;
      new;
      CounterStart(nonce2);
      CounterStep(nonce2, 0);
    }

    method NextBlock()
      requires Valid() && pos == 16
      modifies this
      ensures Valid() && Offset() == old(Offset()) && pos == 0
    {
      hide CounterAt, Increment;
      ks := encrypt(counter);
      pos := 0;
      CounterStep(nonce, blocks);
      counter := Increment(counter);
      blocks := blocks + 1;
    }

    /** The next keystream byte, moving on to the next block when the current one is used up. */
    method NextByte() returns (k: byte)
      requires Valid()
      modifies this
      ensures Valid() && Offset() == old(Offset()) + 1
      ensures k == Keystream(Key(), old(Offset()))
    {
      if pos >= 16 {
        NextBlock();
      }
      StreamPosition(blocks, pos);
      k := ks[pos];
      pos := pos + 1;
    }

    /** Encrypts or decrypts the next bytes of the stream. */
    method Process(data: seq<byte>) returns (result: seq<byte>)
      requires Valid()
      modifies this
      ensures Valid() && Offset() == old(Offset()) + |data|
      ensures result == Apply(Key(), old(Offset()), data)
    {
      hide Xor, Keystream, Valid, Offset;
      ghost var start := Offset();
      result := [];
      for i := 0 to |data|
        invariant Valid() && Offset() == start + i
        invariant result == Apply(Key(), start, data[..i])
      {
        var k := NextByte();
        ApplySnoc(Key(), start, data[..i], data[i]);
        assert data[..i + 1] == data[..i] + [data[i]];
        result := result + [Xor(data[i], k)];
      }
      assert data[..|data|] == data;
    }
  }
}
