/** Base64 with padding (section 4 of RFC 4648). */
module Base64 {
  import opened Bytes
  import opened Wrappers

  const PAD: byte := 61

  /** The alphabet: the character of a six-bit value. */
  function Symbol(v: nat): (c: byte)
    requires v < 64
    ensures c != PAD
  {
    if v < 26 then (65 + v) as byte
    else if v < 52 then (71 + v) as byte
    else if v < 62 then (v - 4) as byte
    else if v == 62 then 43
    else 47
  }

  /** The six-bit value of a character. */
  function Value(c: byte): (v: Option<nat>)
    ensures v.Some? ==> v.value < 64
  {
    if 65 <= c <= 90 then Some(c as nat - 65)
    else if 97 <= c <= 122 then Some(c as nat - 71)
    else if 48 <= c <= 57 then Some(c as nat + 4)
    else if c == 43 then Some(62)
    else if c == 47 then Some(63)
    else None
  }

  lemma ValueOfSymbol(v: nat)
    requires v < 64
    ensures Value(Symbol(v)) == Some(v)
  {
  }

  /** Three bytes as one number of 24 bits. */
  function Group(a: byte, b: byte, c: byte): (n: nat)
    ensures n < 0x100_0000
  {
    (a as nat * 256 + b as nat) * 256 + c as nat
  }

  /** The six bits of `n` that lie `k` times six places up: `(n >> 6 * k) & 0x3F`. */
  function Sextet(n: nat, k: nat): (v: nat)
    ensures v < 64
    decreases k
  {
    if k == 0 then n % 64 else Sextet(n / 64, k - 1)
  }

  /** Four six-bit values as one number of 24 bits. */
  function Join(v0: nat, v1: nat, v2: nat, v3: nat): nat { ((v0 * 64 + v1) * 64 + v2) * 64 + v3 }

  lemma SextetStep(n: nat, k: nat)
    ensures Sextet(n, 0) == n % 64 && Sextet(n, k + 1) == Sextet(n / 64, k)
  {
  }

  lemma SextetsJoin(n: nat)
    requires n < 0x100_0000
    ensures Join(Sextet(n, 3), Sextet(n, 2), Sextet(n, 1), Sextet(n, 0)) == n
  {
    hide Sextet;
    var n1 := n / 64;
    var n2 := n1 / 64;
    var n3 := n2 / 64;
    SextetStep(n, 0);
    SextetStep(n, 1);
    SextetStep(n, 2);
    SextetStep(n1, 0);
    SextetStep(n1, 1);
    SextetStep(n2, 0);
    SextetStep(n3, 0);
    assert n == n1 * 64 + n % 64 && n1 == n2 * 64 + n1 % 64 && n2 == n3 * 64 + n2 % 64;
    assert n3 % 64 == n3;
  }

  /** The three bytes of a number of 24 bits. */
  function Octets(n: nat): (r: Buf)
    requires n < 0x100_0000
    ensures |r| == 3
  {
    [(n / 256 / 256) as byte, (n / 256 % 256) as byte, (n % 256) as byte]
  }

  lemma OctetsOfGroup(a: byte, b: byte, c: byte)
    ensures Octets(Group(a, b, c)) == [a, b, c]
  {
    var n := Group(a, b, c);
    assert n / 256 == a as nat * 256 + b as nat && n % 256 == c as nat;
  }

  /** The character for the `k`-th six bits of `n`. */
  function Char(n: nat, k: nat): byte { Symbol(Sextet(n, k)) }

  /** The encoding, three bytes at a time. */
  function Encode(data: Buf): Buf {
    if |data| == 0 then []
    else if |data| == 1 then
      var n := Group(data[0], 0, 0);
      [Char(n, 3), Char(n, 2), PAD, PAD]
    else if |data| == 2 then
      var n := Group(data[0], data[1], 0);
      [Char(n, 3), Char(n, 2), Char(n, 1), PAD]
    else
      var n := Group(data[0], data[1], data[2]);
      [Char(n, 3), Char(n, 2), Char(n, 1), Char(n, 0)] + Encode(data[3..])
  }

  /** One quantum of four characters: three bytes, or two or one before padding at the end. */
  function DecodeQuantum(q: Buf, last: bool): Option<Buf>
    requires |q| == 4
  {
    var v0, v1, v2, v3 := Value(q[0]), Value(q[1]), Value(q[2]), Value(q[3]);
    if v0.None? || v1.None? then None
    else if v2.Some? && v3.Some? then Some(Octets(Join(v0.value, v1.value, v2.value, v3.value)))
    else if last && v2.Some? && q[3] == PAD then Some(Octets(Join(v0.value, v1.value, v2.value, 0))[..2])
    else if last && q[2] == PAD && q[3] == PAD then Some(Octets(Join(v0.value, v1.value, 0, 0))[..1])
    else None
  }

  /** The decoding, four characters at a time. */
  function Decode(s: Buf): Option<Buf> {
    if s == [] then Some([])
    else if |s| < 4 then None
    else
      match (DecodeQuantum(s[..4], |s| == 4), Decode(s[4..]))
      case (Some(a), Some(b)) => Some(a + b)
      case _ => None
  }

  lemma CharValue(n: nat, k: nat)
    ensures Value(Char(n, k)) == Some(Sextet(n, k))
  {
    ValueOfSymbol(Sextet(n, k));
  }

  lemma CharsOf(n: nat)
    requires n < 0x100_0000
    ensures var v0, v1, v2, v3 := Value(Char(n, 3)), Value(Char(n, 2)), Value(Char(n, 1)), Value(Char(n, 0));
            && v0.Some? && v1.Some? && v2.Some? && v3.Some?
            && Join(v0.value, v1.value, v2.value, v3.value) == n
            && (n % 64 == 0 ==> v3.value == 0)
            && (n % 0x1000 == 0 ==> v2.value == 0)
  {
    hide Value, Char, Join, Sextet;
    CharValue(n, 3);
    CharValue(n, 2);
    CharValue(n, 1);
    CharValue(n, 0);
    SextetsJoin(n);
    LowSextets(n);
  }

  lemma LowSextets(n: nat)
    ensures n % 64 == 0 ==> Sextet(n, 0) == 0
    ensures n % 0x1000 == 0 ==> Sextet(n, 1) == 0
  {
    assert Sextet(n, 1) == Sextet(n / 64, 0);
    if n % 0x1000 == 0 {
      assert n == n / 0x1000 * 64 * 64;
      assert n / 64 == n / 0x1000 * 64;
    }
  }

  lemma QuantumOfThree(a: byte, b: byte, c: byte, last: bool)
    ensures var n := Group(a, b, c);
            DecodeQuantum([Char(n, 3), Char(n, 2), Char(n, 1), Char(n, 0)], last) == Some([a, b, c])
  {
    hide Value, Char, Join, Octets, Group;
    CharsOf(Group(a, b, c));
    OctetsOfGroup(a, b, c);
  }

  lemma QuantumOfTwo(a: byte, b: byte)
    ensures var n := Group(a, b, 0);
            DecodeQuantum([Char(n, 3), Char(n, 2), Char(n, 1), PAD], true) == Some([a, b])
  {
    GroupLow(a, b);
    assert Value(PAD).None?;
    hide Value, Char, Join, Octets, Group;
    CharsOf(Group(a, b, 0));
    OctetsOfGroup(a, b, 0);
    assert [a, b, 0][..2] == [a, b];
  }

  lemma QuantumOfOne(a: byte)
    ensures var n := Group(a, 0, 0);
            DecodeQuantum([Char(n, 3), Char(n, 2), PAD, PAD], true) == Some([a])
  {
    GroupLow(a, 0);
    assert Value(PAD).None?;
    hide Value, Char, Join, Octets, Group;
    CharsOf(Group(a, 0, 0));
    OctetsOfGroup(a, 0, 0);
    assert [a, 0, 0][..1] == [a];
  }

  lemma GroupLow(a: byte, b: byte)
    ensures Group(a, b, 0) % 64 == 0
    ensures b == 0 ==> Group(a, b, 0) % 0x1000 == 0
  {
    assert Group(a, b, 0) == (a as nat * 256 + b as nat) * 4 * 64;
    assert Group(a, 0, 0) == a as nat * 16 * 0x1000;
  }

  /** Four characters for every three bytes, rounded up. */
  lemma {:induction false} EncodeLength(data: Buf)
    ensures |Encode(data)| == (|data| + 2) / 3 * 4
    decreases |data|
  {
    if |data| >= 3 {
      EncodeLength(data[3..]);
      assert (|data| + 2) / 3 == (|data| - 3 + 2) / 3 + 1;
    }
  }

  /** Decoding inverts encoding for every length; so no two inputs share an encoding. */
  lemma {:induction false} DecodeEncode(data: Buf)
    ensures Decode(Encode(data)) == Some(data)
    decreases |data|
  {
    hide DecodeQuantum, Char, Group;
    var s := Encode(data);
    if |data| == 1 {
      QuantumOfOne(data[0]);
      assert s[..4] == s && data == [data[0]] + [];
    } else if |data| == 2 {
      QuantumOfTwo(data[0], data[1]);
      assert s[..4] == s && data == [data[0], data[1]] + [];
    } else if |data| >= 3 {
      QuantumOfThree(data[0], data[1], data[2], |s| == 4);
      DecodeEncode(data[3..]);
      var n := Group(data[0], data[1], data[2]);
      assert s[..4] == [Char(n, 3), Char(n, 2), Char(n, 1), Char(n, 0)];
      assert s[4..] == Encode(data[3..]);
      assert data == [data[0], data[1], data[2]] + data[3..];
    }
  }

  /** Base64 has no blanks and no control characters. */
  lemma {:induction false} EncodePrintable(data: Buf)
    ensures forall c :: c in Encode(data) ==> c > 32
    decreases |data|
  {
    hide Sextet, Group;
    if |data| >= 3 { EncodePrintable(data[3..]); }
  }

  /** The encoder, in the loop of the program. */
  method Base64Encode(data: Buf) returns (out: Buf)
    ensures out == Encode(data)
  {
    out := [];
    var i := 0;
    while i + 3 <= |data|
      invariant i <= |data|
      invariant out + Encode(data[i..]) == Encode(data)
    {
      var n := Group(data[i], data[i + 1], data[i + 2]);
      var four := [Char(n, 3), Char(n, 2), Char(n, 1), Char(n, 0)];
      assert data[i..][3..] == data[i + 3..];
      assert Encode(data[i..]) == four + Encode(data[i + 3..]);
      assert (out + four) + Encode(data[i + 3..]) == out + (four + Encode(data[i + 3..]));
      out := out + four;
      i := i + 3;
    }
    if |data| - i == 1 {
      var n := Group(data[i], 0, 0);
      out := out + [Char(n, 3), Char(n, 2), PAD, PAD];
    } else if |data| - i == 2 {
      var n := Group(data[i], data[i + 1], 0);
      out := out + [Char(n, 3), Char(n, 2), Char(n, 1), PAD];
    }
  }
}
