/** SHA-1 (FIPS 180-4): the functions of the standard, and the in-place loops of
    the program proved to compute them. */
module Sha1 {
  import opened Bytes

  type Word = bv32

  // ---- the standard ---------------------------------------------------------

  /** Section 4.1.1. */
  function Ch(x: Word, y: Word, z: Word): Word { (x & y) ^ (!x & z) }

  function Parity(x: Word, y: Word, z: Word): Word { x ^ y ^ z }

  function Maj(x: Word, y: Word, z: Word): Word { (x & y) ^ (x & z) ^ (y & z) }

  function F(t: nat, x: Word, y: Word, z: Word): Word {
    if t < 20 then Ch(x, y, z) else if 40 <= t < 60 then Maj(x, y, z) else Parity(x, y, z)
  }

  /** Section 3.2: rotation to the left, by the amounts the standard uses. */
  function Rotl1(x: Word): Word { x.RotateLeft(1) }

  function Rotl5(x: Word): Word { x.RotateLeft(5) }

  function Rotl30(x: Word): Word { x.RotateLeft(30) }

  function Xor4(p: Word, q: Word, r: Word, s: Word): Word { p ^ q ^ r ^ s }

  /** Addition modulo 2 to the 32. */
  function Plus(x: Word, y: Word): Word { x + y }

  function Sum5(p: Word, q: Word, r: Word, s: Word, t: Word): Word { p + q + r + s + t }

  /** Section 4.2.1. */
  function K(t: nat): Word {
    if t < 20 then 0x5A827999 else if t < 40 then 0x6ED9EBA1 else if t < 60 then 0x8F1BBCDC else 0xCA62C1D6
  }

  /** A 64-byte block as sixteen words. */
  type Block = m: seq<Word> | |m| == 16 witness seq(16, i => 0 as bv32)

  /** Section 6.1.2, step 1: the message schedule. */
  function W(m: Block, t: nat): Word {
    if t < 16 then m[t] else Rotl1(Xor4(W(m, t - 3), W(m, t - 8), W(m, t - 14), W(m, t - 16)))
  }

  /** The working variables, and the chaining value. */
  datatype Hash = Hash(a: Word, b: Word, c: Word, d: Word, e: Word)

  /** Section 5.3.1. */
  const H0 := Hash(0x67452301, 0xEFCDAB89, 0x98BADCFE, 0x10325476, 0xC3D2E1F0)

  /** Section 6.1.2, step 3: the working variables after `t` rounds. */
  function Rounds(h: Hash, m: Block, t: nat): Hash {
    if t == 0 then h
    else
      var s := Rounds(h, m, t - 1);
      Hash(Sum5(Rotl5(s.a), F(t - 1, s.b, s.c, s.d), s.e, K(t - 1), W(m, t - 1)), s.a, Rotl30(s.b), s.c, s.d)
  }

  /** Section 6.1.2, step 4: one block absorbed. */
  function Absorb(h: Hash, m: Block): Hash {
    var s := Rounds(h, m, 80);
    Hash(Plus(h.a, s.a), Plus(h.b, s.b), Plus(h.c, s.c), Plus(h.d, s.d), Plus(h.e, s.e))
  }

  /** Four bytes as a word, the most significant first. */
  function WordAt(p: Buf, i: nat): Word
    requires i + 4 <= |p|
  {
    ((p[i] as bv32) << 24) | ((p[i + 1] as bv32) << 16) | ((p[i + 2] as bv32) << 8) | (p[i + 3] as bv32)
  }

  function BlockAt(p: Buf, off: nat): Block
    requires off + 64 <= |p|
  {
    seq(16, i requires 0 <= i < 16 => WordAt(p, off + i * 4))
  }

  /** All whole blocks of `p` from `off` on, absorbed in order. */
  function AbsorbAll(h: Hash, p: Buf, off: nat): Hash
    decreases |p| - off
  {
    if off + 64 <= |p| then AbsorbAll(Absorb(h, BlockAt(p, off)), p, off + 64) else h
  }

  function Zeros(n: nat): (r: Buf)
    ensures |r| == n
  {
    seq(n, i => 0 as byte)
  }

  /** How many zero bytes bring `len` and one more byte to 56 modulo 64. */
  function PadZeros(len: nat): nat {
    if len % 64 < 56 then 55 - len % 64 else 119 - len % 64
  }

  /** Section 5.1.1: a one bit, zeros up to 56 bytes modulo 64, and the length in bits as 64 bits. */
  function Pad(data: Buf): Buf {
    data + [0x80] + Zeros(PadZeros(|data|)) + Put(|data| * 8 % U64, 8)
  }

  function WordBytes(w: Word): Buf {
    [((w >> 24) & 0xFF) as byte, ((w >> 16) & 0xFF) as byte, ((w >> 8) & 0xFF) as byte, (w & 0xFF) as byte]
  }

  /** The digest: the chaining value after the padded message, as twenty bytes. */
  function Digest(data: Buf): (d: Buf)
    ensures |d| == 20
  {
    var h := AbsorbAll(H0, Pad(data), 0);
    WordBytes(h.a) + WordBytes(h.b) + WordBytes(h.c) + WordBytes(h.d) + WordBytes(h.e)
  }

  // ---- padding ---------------------------------------------------------------

  /** The padded message is the shortest whole number of blocks that holds the
      message, the one bit and the length. */
  lemma PadIsShortest(data: Buf)
    ensures |Pad(data)| % 64 == 0
    ensures |data| + 9 <= |Pad(data)| < |data| + 9 + 64
  {
    assert |Pad(data)| == |data| + 9 + PadZeros(|data|);
    PadStops(|data|, PadZeros(|data|));
    var n := |data| + 1 + PadZeros(|data|);
    assert n == n / 64 * 64 + 56;
    WholeBlocks(n / 64 + 1, n + 8);
  }

  lemma WholeBlocks(blocks: nat, n: nat)
    requires n == blocks * 64
    ensures n % 64 == 0
  {
  }

  lemma PadStops(len: nat, n: nat)
    requires n <= PadZeros(len)
    ensures (len + 1 + n) % 64 == 56 <==> n == PadZeros(len)
  {
    var q, r := len / 64, len % 64;
    assert len + 1 + n == 64 * q + (r + 1 + n);
    assert (len + 1 + n) % 64 == (r + 1 + n) % 64;
  }

  /** No two messages whose length in bits fits 64 bits have the same padding. */
  lemma PadIsInjective(x: Buf, y: Buf)
    requires |x| < 0x2000_0000_0000_0000 && |y| < 0x2000_0000_0000_0000
    requires Pad(x) == Pad(y)
    ensures x == y
  {
    PadTail(x);
    PadTail(y);
    Widths();
    GetPut(|x| * 8, 8);
    GetPut(|y| * 8, 8);
    assert x == Pad(x)[..|x|] && y == Pad(y)[..|y|];
  }

  lemma PadTail(x: Buf)
    requires |x| < 0x2000_0000_0000_0000
    ensures |Pad(x)| >= 8 && Pad(x)[|Pad(x)| - 8..] == Put(|x| * 8, 8)
  {
    assert |x| * 8 % U64 == |x| * 8;
  }

  // ---- the loops of the program -----------------------------------------------

  /** The rotations of the program: two shifts and an or. */
  function Rol1(v: Word): Word { (v << 1) | (v >> 31) }

  function Rol5(v: Word): Word { (v << 5) | (v >> 27) }

  function Rol30(v: Word): Word { (v << 30) | (v >> 2) }

  /** Ch and Maj as the program writes them, with ors. */
  function ChOr(b: Word, c: Word, d: Word): Word { (b & c) | (!b & d) }

  function MajOr(b: Word, c: Word, d: Word): Word { (b & c) | (b & d) | (c & d) }

  lemma RolIsRotl(v: Word)
    ensures Rol1(v) == Rotl1(v) && Rol5(v) == Rotl5(v) && Rol30(v) == Rotl30(v)
  {
  }

  lemma ChOrIsCh(x: Word, y: Word, z: Word)
    ensures ChOr(x, y, z) == Ch(x, y, z)
  {
    assert (x & y) | (!x & z) == (x & y) ^ (!x & z) by { ChWithOr(x, y, z); }
  }

  lemma ChWithOr(x: Word, y: Word, z: Word)
    ensures (x & y) | (!x & z) == (x & y) ^ (!x & z)
  {
  }

  lemma MajOrIsMaj(x: Word, y: Word, z: Word)
    ensures MajOr(x, y, z) == Maj(x, y, z)
  {
    assert (x & y) | (x & z) | (y & z) == (x & y) ^ (x & z) ^ (y & z) by { MajWithOr(x, y, z); }
  }

  lemma MajWithOr(x: Word, y: Word, z: Word)
    ensures (x & y) | (x & z) | (y & z) == (x & y) ^ (x & z) ^ (y & z)
  {
  }

  /** The first two loops over `w`: the sixteen words of the block, then the schedule. */
  method Schedule(msg: Buf, off: nat) returns (w: array<Word>)
    requires off + 64 <= |msg|
    ensures fresh(w) && w.Length == 80
    ensures forall t :: 0 <= t < 80 ==> w[t] == W(BlockAt(msg, off), t)
  {
    hide Rol1, Rotl1, Xor4, WordAt;
    w := new Word[80];
    ghost var m := BlockAt(msg, off);
    for i := 0 to 16
      invariant forall t :: 0 <= t < i ==> w[t] == W(m, t)
    {
      w[i] := WordAt(msg, off + i * 4);
    }
    for i := 16 to 80
      invariant forall t :: 0 <= t < i ==> w[t] == W(m, t)
    {
      var v := Xor4(w[i - 3], w[i - 8], w[i - 14], w[i - 16]);
      RolIsRotl(v);
      w[i] := Rol1(v);
    }
  }

  /** The choice of function and constant inside the loop over the rounds. */
  method RoundParts(i: nat, b: Word, c: Word, d: Word) returns (f: Word, k: Word)
    requires i < 80
    ensures f == F(i, b, c, d) && k == K(i)
  {
    hide Ch, Maj, Parity, ChOr, MajOr;
    ChOrIsCh(b, c, d);
    MajOrIsMaj(b, c, d);
    if i < 20 {
      f := ChOr(b, c, d);
      k := 0x5A827999;
    } else if i < 40 {
      f := Parity(b, c, d);
      k := 0x6ED9EBA1;
    } else if i < 60 {
      f := MajOr(b, c, d);
      k := 0x8F1BBCDC;
    } else {
      f := Parity(b, c, d);
      k := 0xCA62C1D6;
    }
  }

  /** The loop over the eighty rounds. */
  method RunRounds(h: Hash, w: array<Word>, ghost m: Block) returns (s: Hash)
    requires w.Length == 80
    requires forall t :: 0 <= t < 80 ==> w[t] == W(m, t)
    ensures s == Rounds(h, m, 80)
  {
    hide F, K, W, Sum5, Rol5, Rotl5, Rol30, Rotl30;
    var a, b, c, d, e := h.a, h.b, h.c, h.d, h.e;
    for i := 0 to 80
      invariant Hash(a, b, c, d, e) == Rounds(h, m, i)
    {
      var f, k := RoundParts(i, b, c, d);
      RolIsRotl(a);
      RolIsRotl(b);
      var tmp := Sum5(Rol5(a), f, e, k, w[i]);
      e := d;
      d := c;
      c := Rol30(b);
      b := a;
      a := tmp;
    }
    s := Hash(a, b, c, d, e);
  }

  /** The padding loops. */
  method PadMessage(data: Buf) returns (msg: Buf)
    ensures msg == Pad(data)
  {
    hide PadZeros;
    var bitLen := |data| * 8 % U64;
    msg := data + [0x80];
    ghost var n := 0;
    PadStops(|data|, 0);
    while |msg| % 64 != 56
      invariant n <= PadZeros(|data|)
      invariant msg == data + [0x80] + Zeros(n)
      invariant |msg| % 64 == 56 <==> n == PadZeros(|data|)
      decreases PadZeros(|data|) - n
    {
      msg := msg + [0];
      n := n + 1;
      PadStops(|data|, n);
    }
    msg := AppendU64(msg, bitLen);
  }

  /** The whole of `sha1`. */
  method ComputeSha1(data: Buf) returns (out: Buf)
    ensures out == Digest(data)
  {
    hide Rounds, W, BlockAt, Pad, WordBytes, Plus;
    var h := H0;
    var msg := PadMessage(data);
    var off := 0;
    PadIsShortest(data);
    while off < |msg|
      invariant off <= |msg| && off % 64 == 0 && |msg| % 64 == 0
      invariant AbsorbAll(h, msg, off) == AbsorbAll(H0, msg, 0)
    {
      var w := Schedule(msg, off);
      var s := RunRounds(h, w, BlockAt(msg, off));
      h := Hash(Plus(h.a, s.a), Plus(h.b, s.b), Plus(h.c, s.c), Plus(h.d, s.d), Plus(h.e, s.e));
      off := off + 64;
    }
    out := WordBytes(h.a) + WordBytes(h.b) + WordBytes(h.c) + WordBytes(h.d) + WordBytes(h.e);
  }
}
