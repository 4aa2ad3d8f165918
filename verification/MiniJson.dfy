/** The small JSON helpers: escaping a string, and finding a value by its key. */
module MiniJson {
  import opened Bytes
  import opened Wrappers
  import opened Text

  const QUOTE: byte := 34
  const BACKSLASH: byte := 92

  predicate Lossy(c: byte) { c < 32 && c != 9 && c != 10 && c != 13 }

  /** What one character becomes inside quotes. */
  function EscapeByte(c: byte): Buf {
    if c == QUOTE || c == BACKSLASH then [BACKSLASH, c]
    else if c == 10 then [BACKSLASH, 110]
    else if c == 13 then [BACKSLASH, 114]
    else if c == 9 then [BACKSLASH, 116]
    else if c < 32 then [32]
    else [c]
  }

  function Escape(s: Buf): Buf {
    if s == [] then [] else EscapeByte(s[0]) + Escape(s[1..])
  }

  /** `escape`, appending to a string. */
  method EscapeString(s: Buf) returns (o: Buf)
    ensures o == Escape(s)
  {
    o := [];
    for i := 0 to |s|
      invariant o + Escape(s[i..]) == Escape(s)
    {
      assert s[i..][1..] == s[i + 1..];
      assert (o + EscapeByte(s[i])) + Escape(s[i + 1..]) == o + (EscapeByte(s[i]) + Escape(s[i + 1..]));
      o := o + EscapeByte(s[i]);
    }
  }

  /** What an escaped character stands for. */
  function Unescaped(c: byte): byte {
    if c == 110 then 10 else if c == 114 then 13 else if c == 116 then 9 else c
  }

  /** The first place at or after `c` that is neither a space nor a tab. */
  function SkipBlanks(j: Buf, c: nat): (r: nat)
    requires c <= |j|
    ensures c <= r <= |j|
    decreases |j| - c
  {
    if c < |j| && (j[c] == 32 || j[c] == 9) then SkipBlanks(j, c + 1) else c
  }

  function Quoted(key: Buf): Buf { [QUOTE] + key + [QUOTE] }

  /** Where the value of `key` begins: after the first place the quoted key stands, the next colon, and blanks. */
  function ValuePos(j: Buf, key: Buf): (r: Option<nat>)
    ensures r.Some? ==> r.value <= |j|
  {
    match Find(j, Quoted(key), 0)
    case None => None
    case Some(k) =>
      match Find(j, [COLON], k + |Quoted(key)|)
      case None => None
      case Some(c) => Some(SkipBlanks(j, c + 1))
  }

  /** The string whose text begins at `p`, up to its closing quote; nothing if it is not terminated. */
  function Scan(j: Buf, p: nat): Option<Buf>
    decreases |j| - p
  {
    if p >= |j| then None
    else if j[p] == QUOTE then Some([])
    else
      var two := j[p] == BACKSLASH && p + 1 < |j|;
      match Scan(j, if two then p + 2 else p + 1)
      case None => None
      case Some(s) => Some([if two then Unescaped(j[p + 1]) else j[p]] + s)
  }

  /** One turn of the scanner. */
  lemma ScanStep(j: Buf, p: nat)
    ensures p >= |j| ==> Scan(j, p) == None
    ensures p < |j| && j[p] == QUOTE ==> Scan(j, p) == Some([])
    ensures p < |j| && j[p] != QUOTE ==>
              var two := j[p] == BACKSLASH && p + 1 < |j|;
              var rest := Scan(j, if two then p + 2 else p + 1);
              && Scan(j, p).Some? == rest.Some?
              && (rest.Some? ==> Scan(j, p).value == [if two then Unescaped(j[p + 1]) else j[p]] + rest.value)
  {
  }

  /** The string value of `key`, if there is one. */
  function GetString(j: Buf, key: Buf): Option<Buf> {
    match ValuePos(j, key)
    case None => None
    case Some(p) => if p >= |j| || j[p] != QUOTE then None else Scan(j, p + 1)
  }

  /** `valuePos`. */
  method FindValue(j: Buf, key: Buf) returns (r: Option<nat>)
    ensures r == ValuePos(j, key)
  {
    var needle := [QUOTE] + key + [QUOTE];
    var k := Find(j, needle, 0);
    if k.None? { return None; }
    var colon := Find(j, [COLON], k.value + |needle|);
    if colon.None? { return None; }
    var c := colon.value + 1;
    while c < |j| && (j[c] == 32 || j[c] == 9)
      invariant c <= |j| && SkipBlanks(j, c) == SkipBlanks(j, colon.value + 1)
    {
      c := c + 1;
    }
    return Some(c);
  }

  /** `getString`; the second result is the value when the first is true. */
  method ReadString(j: Buf, key: Buf) returns (ok: bool, out: Buf)
    ensures ok == GetString(j, key).Some?
    ensures ok ==> out == GetString(j, key).value
  {
    hide Scan, ValuePos;
    out := [];
    var start := FindValue(j, key);
    if start.None? || start.value >= |j| || j[start.value] != QUOTE { return false, out; }
    var p := start.value + 1;
    var s: Buf := [];
    while p < |j| && j[p] != QUOTE
      invariant p <= |j|
      invariant Scan(j, p).Some? == Scan(j, start.value + 1).Some?
      invariant Scan(j, p).Some? ==> s + Scan(j, p).value == Scan(j, start.value + 1).value
    {
      ScanStep(j, p);
      if j[p] == BACKSLASH && p + 1 < |j| {
        s := s + [Unescaped(j[p + 1])];
        p := p + 2;
      } else {
        s := s + [j[p]];
        p := p + 1;
      }
    }
    ScanStep(j, p);
    if p >= |j| { return false, out; }
    return true, s;
  }

  /** The boolean value of `key`, if it is written out as true or false. */
  function GetBool(j: Buf, key: Buf): Option<bool> {
    match ValuePos(j, key)
    case None => None
    case Some(p) =>
      if Ascii("true") <= j[p..] then Some(true)
      else if Ascii("false") <= j[p..] then Some(false)
      else None
  }

  // ---- the round trip -----------------------------------------------------------

  /** A string after one trip through `escape` and the scanner: control characters
      other than newline, return and tab have become spaces. */
  function Soften(s: Buf): (r: Buf)
    ensures |r| == |s|
  {
    seq(|s|, i requires 0 <= i < |s| => SoftByte(s[i]))
  }

  function SoftByte(c: byte): byte { if Lossy(c) then 32 else c }

  predicate Clean(s: Buf) { forall c :: c in s ==> !Lossy(c) }

  /** Scanning the escape of one character, when the rest is known. */
  lemma ScanOne(j: Buf, p: nat, c: byte, rest: Buf)
    requires p + |EscapeByte(c)| <= |j| && j[p..p + |EscapeByte(c)|] == EscapeByte(c)
    requires Scan(j, p + |EscapeByte(c)|) == Some(rest)
    ensures Scan(j, p) == Some([SoftByte(c)] + rest)
  {
    var e := EscapeByte(c);
    assert j[p] == e[0] by { assert j[p..p + |e|][0] == j[p]; }
    if |e| == 2 { assert j[p + 1] == e[1] by { assert j[p..p + |e|][1] == j[p + 1]; } }
  }

  lemma SoftenCons(c: byte, s: Buf)
    ensures Soften([c] + s) == [SoftByte(c)] + Soften(s)
  {
  }

  /** The scanner undoes `escape`, wherever in a text the escaped string stands. */
  lemma {:induction false} ScanEscape(front: Buf, s: Buf, tail: Buf)
    ensures Scan(front + Escape(s) + [QUOTE] + tail, |front|) == Some(Soften(s))
    decreases |s|
  {
    hide Scan, EscapeByte, SoftByte, Soften;
    var j := front + Escape(s) + [QUOTE] + tail;
    if s == [] {
      assert j[|front|] == QUOTE;
      ScanStep(j, |front|);
      assert Soften(s) == [];
    } else {
      var e := EscapeByte(s[0]);
      ScanEscape(front + e, s[1..], tail);
      assert j == (front + e) + Escape(s[1..]) + [QUOTE] + tail;
      assert j[|front|..|front| + |e|] == e;
      ScanOne(j, |front|, s[0], Soften(s[1..]));
      assert s == [s[0]] + s[1..];
      SoftenCons(s[0], s[1..]);
    }
  }

  /** The trip loses nothing exactly when there is nothing to lose. */
  lemma SoftenIff(s: Buf)
    ensures Soften(s) == s <==> Clean(s)
  {
    if Soften(s) == s {
      forall c | c in s
        ensures !Lossy(c)
      {
        var i :| 0 <= i < |s| && s[i] == c;
        assert Soften(s)[i] == s[i];
      }
    }
  }

  // ---- escapes, by their letters ------------------------------------------------

  /** How section 7 of RFC 8259 writes the byte `c` inside quotes: as itself, or by a
      backslash and one more character. */
  predicate Spells(unit: Buf, c: byte) {
    || (unit == [c] && c >= 32 && c != 34 && c != 92)
    || (unit == [92, c] && (c == 34 || c == 92 || c == 47))
    || (unit == [92, 110] && c == 10)
    || (unit == [92, 114] && c == 13)
    || (unit == [92, 116] && c == 9)
  }

  /** The scanner reads every such spelling of a string, whoever wrote it. */
  lemma {:induction false} SpellingRead(front: Buf, units: seq<Buf>, s: Buf, tail: Buf)
    requires |units| == |s| && forall k :: 0 <= k < |s| ==> Spells(units[k], s[k])
    ensures Scan(front + Flatten(units) + [QUOTE] + tail, |front|) == Some(s)
    decreases |s|
  {
    hide Scan;
    var j := front + Flatten(units) + [QUOTE] + tail;
    ScanStep(j, |front|);
    if s == [] {
      assert j[|front|] == QUOTE;
    } else {
      var u := units[0];
      assert Spells(u, s[0]);
      SpellingRead(front + u, units[1..], s[1..], tail);
      assert j == (front + u) + Flatten(units[1..]) + [QUOTE] + tail;
      assert j[|front|] == u[0];
      if |u| == 2 { assert j[|front| + 1] == u[1]; }
      assert s == [s[0]] + s[1..];
    }
  }

  /** And `escape` writes one: each byte as itself, but control characters other than
      newline, return and tab as a space. */
  lemma {:induction false} EscapeSpells(s: Buf) returns (units: seq<Buf>)
    ensures Escape(s) == Flatten(units) && |units| == |s|
    ensures forall k :: 0 <= k < |s| ==>
              Spells(units[k], if s[k] < 32 && s[k] != 10 && s[k] != 13 && s[k] != 9 then 32 else s[k])
  {
    if s == [] {
      units := [];
    } else {
      var rest := EscapeSpells(s[1..]);
      units := [EscapeByte(s[0])] + rest;
      assert units[1..] == rest;
    }
  }

  /** A key, its colon and an escaped string, as the terminal writes them. */
  function Field(key: Buf, s: Buf): Buf { Quoted(key) + [COLON] + [QUOTE] + Escape(s) + [QUOTE] }

  /** A key and its value as any client may write them: other text than a colon before
      the colon, spaces and tabs after it. */
  function Written(key: Buf, gap: Buf, blanks: Buf, value: Buf): Buf { Quoted(key) + gap + [COLON] + blanks + value }

  predicate Spacing(gap: Buf, blanks: Buf) { COLON !in gap && forall c :: c in blanks ==> c == 32 || c == 9 }

  lemma {:induction false} BlanksSkipped(j: Buf, c: nat, n: nat)
    requires c + n <= |j| && (forall i :: c <= i < c + n ==> j[i] == 32 || j[i] == 9)
    requires c + n < |j| ==> j[c + n] != 32 && j[c + n] != 9
    ensures SkipBlanks(j, c) == c + n
    decreases n
  {
    if n > 0 { BlanksSkipped(j, c + 1, n - 1); }
  }

  /** A value is found after the first place its quoted key stands, its colon and the blanks. */
  lemma ValueFound(front: Buf, key: Buf, gap: Buf, blanks: Buf, value: Buf)
    requires Spacing(gap, blanks) && (value == [] || (value[0] != 32 && value[0] != 9))
    requires Find(front + Written(key, gap, blanks, value), Quoted(key), 0) == Some(|front|)
    ensures var j, p := front + Written(key, gap, blanks, value), |front + Quoted(key) + gap| + 1 + |blanks|;
            ValuePos(j, key) == Some(p) && p <= |j| && j[p..] == value
  {
    hide Quoted, Find, At;
    var j, k := front + Written(key, gap, blanks, value), |front| + |Quoted(key)|;
    var colon := k + |gap|;
    forall i | k <= i < colon
      ensures !At(j, [COLON], i)
    {
      assert j[i] == gap[i - k];
      OneAt(j, COLON, i);
    }
    assert j[colon] == COLON;
    OneAt(j, COLON, colon);
    FindIs(j, [COLON], k, colon);
    var n := |blanks|;
    forall i | colon + 1 <= i < colon + 1 + n
      ensures j[i] == 32 || j[i] == 9
    {
      assert j[i] == blanks[i - colon - 1] && blanks[i - colon - 1] in blanks;
    }
    assert j[colon + 1 + n..] == value;
    if value != [] { assert j[colon + 1 + n] == value[0]; }
    BlanksSkipped(j, colon + 1, n);
  }

  lemma PlaceOf(front: Buf, key: Buf, gap: Buf, blanks: Buf, value: Buf) returns (p: nat)
    requires Spacing(gap, blanks) && (value == [] || (value[0] != 32 && value[0] != 9))
    requires Find(front + Written(key, gap, blanks, value), Quoted(key), 0) == Some(|front|)
    ensures var j := front + Written(key, gap, blanks, value); ValuePos(j, key) == Some(p) && p <= |j| && j[p..] == value
  {
    hide Quoted, Find, ValuePos, Written, Spacing;
    ValueFound(front, key, gap, blanks, value);
    p := |front + Quoted(key) + gap| + 1 + |blanks|;
  }

  lemma OneAt(j: Buf, c: byte, i: nat)
    ensures At(j, [c], i) <==> i < |j| && j[i] == c
  {
    if i < |j| { assert j[i..i + 1] == [j[i]]; }
  }

  lemma ScanFrom(j: Buf, p: nat, s: Buf, tail: Buf)
    requires p <= |j| && j[p..] == [QUOTE] + Escape(s) + [QUOTE] + tail
    ensures p < |j| && j[p] == QUOTE && Scan(j, p + 1) == Some(Soften(s))
  {
    hide Escape, Scan, Soften;
    var rest := Escape(s) + [QUOTE] + tail;
    assert j[p..] == [QUOTE] + rest;
    assert j[p] == j[p..][0];
    assert j[p + 1..] == j[p..][1..] == rest;
    Regroup(j, p + 1, Escape(s), tail);
    ScanEscape(j[..p + 1], s, tail);
  }

  lemma Regroup(j: Buf, n: nat, a: Buf, tail: Buf)
    requires n <= |j| && j[n..] == a + [QUOTE] + tail
    ensures j == j[..n] + a + [QUOTE] + tail
  {
    var front := j[..n];
    assert j == front + j[n..];
    assert front + (a + [QUOTE] + tail) == front + a + [QUOTE] + tail;
  }

  lemma StartsQuoted(s: Buf, tail: Buf)
    ensures var value := [QUOTE] + Escape(s) + [QUOTE] + tail; value != [] && value[0] == QUOTE
  {
    hide Escape;
  }

  lemma ReadAt(j: Buf, key: Buf, p: nat, s: Buf, tail: Buf)
    requires ValuePos(j, key) == Some(p) && p <= |j| && j[p..] == [QUOTE] + Escape(s) + [QUOTE] + tail
    ensures GetString(j, key) == Some(Soften(s))
  {
    hide Escape, Scan, ValuePos, Soften;
    ScanFrom(j, p, s, tail);
  }

  /** The string round trip: a string written under a key is read back, softened, from any
      text in which the quoted key stands nowhere before it, however it is spaced. */
  lemma WrittenStringRead(front: Buf, key: Buf, gap: Buf, blanks: Buf, s: Buf, tail: Buf)
    requires Spacing(gap, blanks)
    requires var value := [QUOTE] + Escape(s) + [QUOTE] + tail;
             Find(front + Written(key, gap, blanks, value), Quoted(key), 0) == Some(|front|)
    ensures var value := [QUOTE] + Escape(s) + [QUOTE] + tail;
            GetString(front + Written(key, gap, blanks, value), key) == Some(Soften(s))
  {
    hide Escape, GetString, Quoted, Find, ValuePos, Soften, Written, Spacing;
    var value := [QUOTE] + Escape(s) + [QUOTE] + tail;
    StartsQuoted(s, tail);
    var p := PlaceOf(front, key, gap, blanks, value);
    ReadAt(front + Written(key, gap, blanks, value), key, p, s, tail);
  }

  /** A truth value written under a key is read back, and nothing else is taken for one. */
  lemma WrittenBoolRead(front: Buf, key: Buf, gap: Buf, blanks: Buf, value: Buf)
    requires Spacing(gap, blanks) && (value == [] || (value[0] != 32 && value[0] != 9))
    requires Find(front + Written(key, gap, blanks, value), Quoted(key), 0) == Some(|front|)
    ensures var got := GetBool(front + Written(key, gap, blanks, value), key);
            && (got == Some(true) <==> [116, 114, 117, 101] <= value)
            && (got == Some(false) <==> [102, 97, 108, 115, 101] <= value)
  {
    hide Quoted, Find, ValuePos, Written, Spacing, GetBool;
    var p := PlaceOf(front, key, gap, blanks, value);
    BoolAt(front + Written(key, gap, blanks, value), key, p);
  }

  lemma BoolAt(j: Buf, key: Buf, p: nat)
    requires ValuePos(j, key) == Some(p) && p <= |j|
    ensures GetBool(j, key) == Some(true) <==> [116, 114, 117, 101] <= j[p..]
    ensures GetBool(j, key) == Some(false) <==> [102, 97, 108, 115, 101] <= j[p..]
  {
    hide ValuePos;
    TruthText();
    hide Ascii;
    var value := j[p..];
    if [116, 114, 117, 101] <= value { assert value[0] == 116; }
    if [102, 97, 108, 115, 101] <= value { assert value[0] == 102; }
  }

  lemma TruthText()
    ensures Ascii("true") == [116, 114, 117, 101] && Ascii("false") == [102, 97, 108, 115, 101]
  {
  }

  /** Without its quoted key a value is absent. */
  lemma AbsentRead(j: Buf, key: Buf)
    requires Find(j, Quoted(key), 0).None?
    ensures GetString(j, key) == None && GetBool(j, key) == None
  {
  }

  /** The same for a field as the terminal writes it. */
  lemma FieldRoundTrip(front: Buf, key: Buf, s: Buf, tail: Buf)
    requires Find(front + Field(key, s) + tail, Quoted(key), 0) == Some(|front|)
    ensures GetString(front + Field(key, s) + tail, key) == Some(Soften(s))
  {
    hide Escape, GetString, Quoted, Find, Soften;
    var value := [QUOTE] + Escape(s) + [QUOTE] + tail;
    assert front + Field(key, s) + tail == front + Written(key, [], [], value);
    WrittenStringRead(front, key, [], [], s, tail);
  }
}
