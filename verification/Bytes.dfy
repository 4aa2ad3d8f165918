/** Bytes as the wire sees them, and the big-endian integers built from them. */
module Bytes {

  /** `uint8_t`. The bit operations of the program are written as arithmetic on
      its value: `b & 0x80` is set when `b / 128 == 1`, `b & 0x7F` is `b % 128`,
      `b & 0x0F` is `b % 16`, and `^` and `|` are `Xor` and `Or` below. */
  newtype byte = x: int | 0 <= x < 256

  /** A byte buffer: `std::vector<uint8_t>`, `std::string`, `QByteArray`, `Uint8Array`. */
  type Buf = seq<byte>

  const U16: nat := 0x1_0000
  const U32: nat := 0x1_0000_0000
  const U64: nat := 0x1_0000_0000_0000_0000

  /** 256 to the power `k`. */
  function Pow256(k: nat): (r: nat)
    ensures r > 0
  {
    if k == 0 then 1 else 256 * Pow256(k - 1)
  }

  /** The low `k` bytes of `v`, most significant first. */
  function Put(v: nat, k: nat): (r: Buf)
    ensures |r| == k
  {
    if k == 0 then [] else Put(v / 256, k - 1) + [(v % 256) as byte]
  }

  /** The number that `p` spells, most significant byte first. */
  function Get(p: Buf): nat {
    if p == [] then 0 else Get(p[..|p| - 1]) * 256 + p[|p| - 1] as int
  }

  /** Reading back a value that fits its width gives that value. */
  lemma {:induction false} GetPut(v: nat, k: nat)
    requires v < Pow256(k)
    ensures Get(Put(v, k)) == v
  {
    if k > 0 {
      GetPut(v / 256, k - 1);
      assert Put(v, k)[..k - 1] == Put(v / 256, k - 1);
    }
  }

  /** Putting back what was read gives the same bytes, and a read value fits its width. */
  lemma {:induction false} PutGet(p: Buf)
    ensures Get(p) < Pow256(|p|)
    ensures Put(Get(p), |p|) == p
  {
    if p != [] {
      PutGet(p[..|p| - 1]);
      var last := p[|p| - 1];
      assert Get(p) / 256 == Get(p[..|p| - 1]);
      assert Get(p) % 256 == last as int;
      assert p == p[..|p| - 1] + [last];
    }
  }

  /** The widths used on the wire. */
  lemma Widths()
    ensures Pow256(1) == 256 && Pow256(2) == U16 && Pow256(4) == U32 && Pow256(8) == U64
  {
    assert Pow256(2) == 256 * Pow256(1);
    assert Pow256(3) == 256 * Pow256(2);
    assert Pow256(4) == 256 * Pow256(3);
    assert Pow256(5) == 256 * Pow256(4);
    assert Pow256(6) == 256 * Pow256(5);
    assert Pow256(7) == 256 * Pow256(6);
    assert Pow256(8) == 256 * Pow256(7);
  }

  /** One more byte read by a loop that shifts an accumulator left by eight bits. */
  lemma GetStep(p: Buf, k: nat)
    requires k < |p|
    ensures Get(p[..k + 1]) == Get(p[..k]) * 256 + p[k] as int
  {
    assert p[..k + 1][..k] == p[..k];
  }

  /** Four bytes spell a number most significant byte first. */
  lemma BigEndian(p: Buf)
    requires |p| == 4
    ensures Get(p) == p[0] as nat * 0x100_0000 + p[1] as nat * 0x1_0000 + p[2] as nat * 0x100 + p[3] as nat
  {
    assert p[..3][..2][..1][..0] == [];
    assert Get(p[..3][..2][..1]) == p[0] as nat;
    assert Get(p[..3][..2]) == p[0] as nat * 256 + p[1] as nat;
    assert Get(p[..3]) == (p[0] as nat * 256 + p[1] as nat) * 256 + p[2] as nat;
  }

  lemma BigEndian2(p: Buf)
    requires |p| == 2
    ensures Get(p) == p[0] as nat * 256 + p[1] as nat
  {
    assert p[..1][..0] == [];
    assert Get(p[..1]) == p[0] as nat;
  }

  /** Eight bytes spell two numbers of four, the first the more significant. */
  lemma EightBytes(p: Buf)
    requires |p| == 8
    ensures Get(p) == Get(p[..4]) * 0x1_0000_0000 + Get(p[4..])
  {
    var q := p[4..];
    assert p[..5] == p[..4] + [p[4]] && p[..6] == p[..4] + [p[4], p[5]];
    GetStep(p, 4);
    GetStep(p, 5);
    GetStep(p, 6);
    GetStep(p, 7);
    assert p[..8] == p;
    BigEndian(q);
  }

  /** `v` shifted right by `k` whole bytes. */
  function Shift(v: nat, k: nat): nat {
    if k == 0 then v else Shift(v, k - 1) / 256
  }

  /** One more byte written by a loop that shifts the value right by `k` bytes and keeps the low one. */
  lemma PutStep(v: nat, width: nat, k: nat)
    requires k < width
    ensures Put(Shift(v, k), width - k) == Put(Shift(v, k + 1), width - k - 1) + [(Shift(v, k) % 256) as byte]
  {
  }

  /** The loop that appends a 64-bit number, high byte first. */
  method AppendU64(front: Buf, v: nat) returns (r: Buf)
    ensures r == front + Put(v, 8)
  {
    r := front;
    var s := 8;
    while s > 0
      invariant 0 <= s <= 8
      invariant r == front + Put(Shift(v, s), 8 - s)
    {
      s := s - 1;
      PutStep(v, 8, s);
      r := r + [(Shift(v, s) % 256) as byte];
    }
  }

  // ---- bitwise operators --------------------------------------------------

  /** Bit by bit, the `n` low bits of the exclusive or. */
  function XorBits(a: nat, b: nat, n: nat): (r: nat) {
    if n == 0 then 0 else 2 * XorBits(a / 2, b / 2, n - 1) + (a % 2 + b % 2) % 2
  }

  /** Bit by bit, the `n` low bits of the inclusive or. */
  function OrBits(a: nat, b: nat, n: nat): (r: nat) {
    if n == 0 then 0 else 2 * OrBits(a / 2, b / 2, n - 1) + (if a % 2 + b % 2 == 0 then 0 else 1)
  }

  function Pow2(n: nat): (r: nat)
    ensures r > 0
  {
    if n == 0 then 1 else 2 * Pow2(n - 1)
  }

  lemma {:induction false} BitsBound(a: nat, b: nat, n: nat)
    ensures XorBits(a, b, n) < Pow2(n) && OrBits(a, b, n) < Pow2(n)
  {
    if n > 0 { BitsBound(a / 2, b / 2, n - 1); }
  }

  /** One bit, flipped twice by the same bit. */
  lemma BitTwice(p: nat, q: nat)
    requires p < 2 && q < 2
    ensures ((p + q) % 2 + q) % 2 == p
  {
  }

  /** One step of the exclusive or, for a number given by its low bit and the rest. */
  lemma XorStep(high: nat, bit: nat, b: nat, n: nat)
    requires bit < 2 && n > 0
    ensures XorBits(2 * high + bit, b, n) == 2 * XorBits(high, b / 2, n - 1) + (bit + b % 2) % 2
  {
    HalfAndBit(high, bit);
  }

  lemma {:induction false} XorBitsTwice(a: nat, b: nat, n: nat)
    requires a < Pow2(n)
    ensures XorBits(XorBits(a, b, n), b, n) == a
    decreases n
  {
    if n > 0 {
      var high, bit := XorBits(a / 2, b / 2, n - 1), (a % 2 + b % 2) % 2;
      XorBitsTwice(a / 2, b / 2, n - 1);
      assert XorBits(a, b, n) == 2 * high + bit;
      hide XorBits;
      XorStep(high, bit, b, n);
      BitTwice(a % 2, b % 2);
    }
  }

  lemma HalfAndBit(high: nat, bit: nat)
    requires bit < 2
    ensures (2 * high + bit) / 2 == high && (2 * high + bit) % 2 == bit
  {
  }

  lemma {:induction false} XorBitsZero(a: nat, b: nat, n: nat)
    requires a < Pow2(n) && b < Pow2(n)
    ensures XorBits(a, b, n) == 0 <==> a == b
  {
    if n > 0 { XorBitsZero(a / 2, b / 2, n - 1); }
  }

  lemma {:induction false} OrBitsZero(a: nat, b: nat, n: nat)
    requires a < Pow2(n) && b < Pow2(n)
    ensures OrBits(a, b, n) == 0 <==> a == 0 && b == 0
  {
    if n > 0 { OrBitsZero(a / 2, b / 2, n - 1); }
  }

  lemma EightBits()
    ensures Pow2(8) == 256
  {
    assert Pow2(4) == 16;
    assert Pow2(8) == 2 * 2 * 2 * 2 * Pow2(4);
  }

  function Xor(a: byte, b: byte): byte {
    EightBits();
    BitsBound(a as nat, b as nat, 8);
    XorBits(a as nat, b as nat, 8) as byte
  }

  function Or(a: byte, b: byte): byte {
    EightBits();
    BitsBound(a as nat, b as nat, 8);
    OrBits(a as nat, b as nat, 8) as byte
  }

  /** Exclusive or with the same byte twice changes nothing. */
  lemma XorTwice(a: byte, b: byte)
    ensures Xor(Xor(a, b), b) == a
  {
    EightBits();
    XorBitsTwice(a as nat, b as nat, 8);
  }

  /** Exclusive or is zero exactly on equal bytes. */
  lemma XorZero(a: byte, b: byte)
    ensures Xor(a, b) == 0 <==> a == b
  {
    EightBits();
    XorBitsZero(a as nat, b as nat, 8);
  }

  /** The `i`-th bit of a number. */
  function Bit(n: nat, i: nat): bool {
    if i == 0 then n % 2 == 1 else Bit(n / 2, i - 1)
  }

  lemma {:induction false} XorBitsBit(a: nat, b: nat, n: nat, i: nat)
    requires i < n
    ensures Bit(XorBits(a, b, n), i) <==> Bit(a, i) != Bit(b, i)
    decreases n
  {
    var high, bit := XorBits(a / 2, b / 2, n - 1), (a % 2 + b % 2) % 2;
    HalfAndBit(high, bit);
    assert XorBits(a, b, n) == 2 * high + bit;
    if i > 0 { XorBitsBit(a / 2, b / 2, n - 1, i - 1); }
  }

  /** Exclusive or, bit by bit. */
  lemma XorIsBitwise(a: byte, b: byte, i: nat)
    requires i < 8
    ensures Bit(Xor(a, b) as nat, i) <==> Bit(a as nat, i) != Bit(b as nat, i)
  {
    EightBits();
    BitsBound(a as nat, b as nat, 8);
    XorBitsBit(a as nat, b as nat, 8, i);
  }

  /** One bit of an exclusive or worked out by hand: `a` and `b` end in the bits `p` and `q`. */
  lemma XorUp(a: nat, p: nat, b: nat, q: nat, n: nat, r: nat)
    requires p < 2 && q < 2 && XorBits(a, b, n) == r
    ensures XorBits(2 * a + p, 2 * b + q, n + 1) == 2 * r + (if p == q then 0 else 1)
  {
    HalfAndBit(a, p);
    HalfAndBit(b, q);
  }

  /** An exclusive or that has been worked out. */
  lemma XorIs(a: byte, b: byte, c: byte)
    requires XorBits(a as nat, b as nat, 8) == c as nat
    ensures Xor(a, b) == c
  {
  }

  /** Inclusive or is zero exactly when both sides are. */
  lemma OrZero(a: byte, b: byte)
    ensures Or(a, b) == 0 <==> a == 0 && b == 0
  {
    EightBits();
    OrBitsZero(a as nat, b as nat, 8);
  }

  /** All the buffers of a list, joined in order. */
  function Flatten(bs: seq<Buf>): Buf {
    if bs == [] then [] else bs[0] + Flatten(bs[1..])
  }

  lemma {:induction false} FlattenAppend(a: seq<Buf>, b: seq<Buf>)
    ensures Flatten(a + b) == Flatten(a) + Flatten(b)
  {
    if a == [] {
      assert a + b == b;
    } else {
      assert (a + b)[1..] == a[1..] + b;
      FlattenAppend(a[1..], b);
    }
  }
}
