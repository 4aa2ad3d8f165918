/** Searching in byte strings. */
module Text {
  import opened Bytes
  import opened Wrappers

  const COLON: byte := 58

  /** The bytes of a string literal of the program. */
  function Ascii(s: string): (r: Buf)
    ensures |r| == |s|
  {
    seq(|s|, i requires 0 <= i < |s| => (s[i] as int % 256) as byte)
  }

  /** `needle` stands at position `i` of `hay`. */
  predicate At(hay: Buf, needle: Buf, i: int) {
    0 <= i <= |hay| - |needle| && hay[i..i + |needle|] == needle
  }

  /** `std::string::find`: the first place at or after `from` where `needle` stands. */
  function Find(hay: Buf, needle: Buf, from: nat): (r: Option<nat>)
    ensures r.Some? ==> from <= r.value && At(hay, needle, r.value)
    ensures r.Some? ==> forall j :: from <= j < r.value ==> !At(hay, needle, j)
    ensures r.None? ==> forall j :: from <= j ==> !At(hay, needle, j)
    decreases |hay| - from
  {
    if from + |needle| > |hay| then None
    else if hay[from..from + |needle|] == needle then Some(from)
    else Find(hay, needle, from + 1)
  }

  /** The first match is the only answer `find` can give. */
  lemma FindIs(hay: Buf, needle: Buf, from: nat, i: nat)
    requires from <= i && At(hay, needle, i)
    requires forall j :: from <= j < i ==> !At(hay, needle, j)
    ensures Find(hay, needle, from) == Some(i)
  {
  }

  /** A match is found again, at the same place, when text is appended. */
  lemma AtAppend(hay: Buf, needle: Buf, more: Buf, i: int)
    requires i <= |hay| - |needle|
    ensures At(hay + more, needle, i) <==> At(hay, needle, i)
  {
    if 0 <= i {
      assert (hay + more)[i..i + |needle|] == hay[i..i + |needle|];
    }
  }

  /** A search passes over a front in which the needle does not begin. */
  lemma FindShift(text: Buf, rest: Buf, needle: Buf, n: nat)
    requires forall j: nat :: j < n ==> !At(text, needle, j)
    requires forall j: nat {:trigger At(rest, needle, j)} :: At(rest, needle, j) <==> At(text, needle, n + j)
    ensures Find(text, needle, 0) == match Find(rest, needle, 0) case Some(i) => Some(n + i) case None => None
  {
    hide At, Find;
    forall j: nat | n <= j
      ensures At(text, needle, j) <==> At(rest, needle, j - n)
    {
      assert At(rest, needle, j - n) <==> At(text, needle, n + (j - n));
    }
    var later := Find(rest, needle, 0);
    if later.Some? {
      FindIs(text, needle, 0, n + later.value);
    }
  }
}
