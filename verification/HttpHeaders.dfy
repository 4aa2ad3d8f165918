/** Looking up a header in the block of an HTTP request. */
module HttpHeaders {
  import opened Bytes
  import opened Wrappers
  import opened Text

  const CR: byte := 13
  const LF: byte := 10
  const CRLF: Buf := [CR, LF]

  function LowerByte(c: byte): byte { if 65 <= c <= 90 then c + 32 else c }

  /** `std::tolower` on every byte. */
  function Lower(s: Buf): (r: Buf)
    ensures |r| == |s|
  {
    seq(|s|, i requires 0 <= i < |s| => LowerByte(s[i]))
  }

  predicate Blank(c: byte) { c == 32 || c == 9 }

  /** `find_first_not_of(" \t", from)`. */
  function FirstNotBlank(s: Buf, from: nat): (r: Option<nat>)
    ensures r.Some? ==> from <= r.value < |s| && !Blank(s[r.value]) && forall j :: from <= j < r.value ==> Blank(s[j])
    ensures r.None? ==> forall j :: from <= j < |s| ==> Blank(s[j])
    decreases |s| - from
  {
    if from >= |s| then None else if !Blank(s[from]) then Some(from) else FirstNotBlank(s, from + 1)
  }

  /** `find_last_not_of(" \t", last)`. */
  function LastNotBlank(s: Buf, last: nat): (r: Option<nat>)
    requires last < |s|
    ensures r.Some? ==> r.value <= last && !Blank(s[r.value]) && forall j :: r.value < j <= last ==> Blank(s[j])
    ensures r.None? ==> forall j :: 0 <= j <= last ==> Blank(s[j])
    decreases last
  {
    if !Blank(s[last]) then Some(last) else if last == 0 then None else LastNotBlank(s, last - 1)
  }

  /** Where the value of the header begins in the block, just after its colon. */
  function ValueStart(block: Buf, name: Buf): Option<nat> {
    var lower, key := Lower(block), Lower(name);
    var found := if key + [COLON] <= lower then Some(0) else Find(lower, CRLF + key + [COLON], 0);
    match found
    case None => None
    case Some(i) => Some((if i != 0 then i + 2 else 0) + |key| + 1)
  }

  /** The text from `pos` to the end of its line, without blanks at either end. */
  function LineValue(block: Buf, pos: nat): Buf {
    var end := match Find(block, CRLF, pos) case Some(e) => e case None => |block|;
    match FirstNotBlank(block, pos)
    case None => []
    case Some(a) =>
      if a >= end then []
      else
        match LastNotBlank(block, end - 1)
        case None => []
        case Some(b) => if a <= b then block[a..b + 1] else []
  }

  /** `headerValue`: the value of the first header of that name, or nothing. */
  function HeaderValue(block: Buf, name: Buf): Buf {
    match ValueStart(block, name)
    case None => []
    case Some(pos) => LineValue(block, pos)
  }

  // ---- what it means -----------------------------------------------------------

  /** A block cut into lines at every CRLF; the line ends are dropped. */
  function Lines(block: Buf): seq<Buf>
    decreases |block|
  {
    match Find(block, CRLF, 0)
    case None => [block]
    case Some(i) => [block[..i]] + Lines(block[i + 2..])
  }

  function Trim(s: Buf): Buf {
    if s == [] then []
    else if Blank(s[0]) then Trim(s[1..])
    else if Blank(s[|s| - 1]) then Trim(s[..|s| - 1])
    else s
  }

  /** The line begins with the name, whatever the case of its letters, and a colon. */
  predicate Names(line: Buf, name: Buf) { Lower(name) + [COLON] <= Lower(line) }

  /** The value of the first line that begins with the name and a colon. */
  function Lookup(lines: seq<Buf>, name: Buf): Buf {
    if lines == [] then []
    else if Names(lines[0], name) then Trim(lines[0][|name| + 1..])
    else Lookup(lines[1..], name)
  }

  /** A name as the program looks for: on one line, not empty, no blank at its end. */
  predicate ProperName(name: Buf) { name != [] && CR !in name && !Blank(name[|name| - 1]) }

  /** Where the first line that begins with the name starts. */
  function LineOf(block: Buf, name: Buf): Option<nat>
    decreases |block|
  {
    if Names(block, name) then Some(0)
    else
      match Find(block, CRLF, 0)
      case None => None
      case Some(i) =>
        match LineOf(block[i + 2..], name)
        case None => None
        case Some(j) => Some(i + 2 + j)
  }

  // ---- line ends --------------------------------------------------------------------

  lemma LowerCr(s: Buf, i: nat)
    requires i < |s|
    ensures Lower(s)[i] == CR <==> s[i] == CR
    ensures Lower(s)[i] == LF <==> s[i] == LF
  {
  }

  lemma AtCrlf(s: Buf, i: nat)
    ensures At(s, CRLF, i) <==> i + 2 <= |s| && s[i] == CR && s[i + 1] == LF
  {
    if i + 2 <= |s| { assert s[i..i + 2] == [s[i], s[i + 1]]; }
  }

  lemma LowerCrlf(s: Buf, i: nat)
    ensures At(Lower(s), CRLF, i) <==> At(s, CRLF, i)
  {
    hide Lower;
    AtCrlf(s, i);
    AtCrlf(Lower(s), i);
    if i + 2 <= |s| {
      LowerCr(s, i);
      LowerCr(s, i + 1);
    }
  }

  lemma LowerTake(s: Buf, n: nat)
    requires n <= |s|
    ensures Lower(s)[..n] == Lower(s[..n])
  {
  }

  lemma LowerDrop(s: Buf, n: nat)
    requires n <= |s|
    ensures Lower(s)[n..] == Lower(s[n..])
  {
  }

  /** The first line end of a text, in small letters too. */
  lemma FirstLine(block: Buf, i: nat)
    requires Find(block, CRLF, 0) == Some(i)
    ensures i + 2 <= |block| && At(Lower(block), CRLF, i)
    ensures forall j: nat :: j < i ==> !At(Lower(block), CRLF, j)
  {
    AtCrlf(block, i);
    hide Lower, At;
    LowerCrlf(block, i);
    forall j: nat | j < i
      ensures !At(Lower(block), CRLF, j)
    {
      LowerCrlf(block, j);
    }
  }

  /** What begins with a line end and then `k` is found at the first line end, if `k` follows it, or later. */
  lemma FindPastLine(text: Buf, i: nat, needle: Buf, k: Buf)
    requires i + 2 <= |text| && At(text, CRLF, i) && (forall j: nat :: j < i ==> !At(text, CRLF, j))
    requires needle == CRLF + k
    ensures var here, later := Find(text, needle, 0), Find(text[i + 2..], needle, 0);
            if k <= text[i + 2..] then here == Some(i)
            else if later.Some? then here == Some(i + 2 + later.value)
            else here.None?
  {
    hide Find;
    var rest := text[i + 2..];
    forall j: nat | j < i + 2
      ensures At(text, needle, j) <==> j == i && k <= rest
    {
      AtLineEnd(text, i, needle, k, j);
    }
    if k <= rest {
      FindIs(text, needle, 0, i);
    } else {
      forall j: nat
        ensures At(rest, needle, j) <==> At(text, needle, i + 2 + j)
      {
        AtTail(text, i + 2, needle, j);
      }
      FindShift(text, rest, needle, i + 2);
    }
  }

  lemma AtTail(text: Buf, n: nat, needle: Buf, j: nat)
    requires n <= |text|
    ensures At(text[n..], needle, j) <==> At(text, needle, n + j)
  {
    if j + |needle| <= |text| - n { assert text[n..][j..j + |needle|] == text[n + j..n + j + |needle|]; }
  }

  lemma AtLineEnd(text: Buf, i: nat, needle: Buf, k: Buf, j: nat)
    requires i + 2 <= |text| && At(text, CRLF, i) && (forall m: nat :: m < i ==> !At(text, CRLF, m))
    requires needle == CRLF + k && j < i + 2
    ensures At(text, needle, j) <==> j == i && k <= text[i + 2..]
  {
    AtCrlf(text, i);
    AtCrlf(text, j);
    if j + |needle| <= |text| {
      var here := text[j..j + |needle|];
      assert here[..2] == text[j..j + 2];
      assert here[2..] == text[j + 2..][..|k|];
      if At(text, needle, j) { assert here[..2] == CRLF; }
      if j == i && k <= text[i + 2..] { assert here == here[..2] + here[2..]; }
    }
  }

  /** Where `find` sees the needle, seen by lines. */
  lemma {:induction false} FindIsLineOf(block: Buf, name: Buf)
    requires !Names(block, name)
    ensures var found, at := Find(Lower(block), CRLF + Lower(name) + [COLON], 0), LineOf(block, name);
            if at.Some? then at.value >= 2 && found == Some(at.value - 2) else found.None?
    decreases |block|
  {
    hide At, Find, Lower;
    var k, needle, text := Lower(name) + [COLON], CRLF + Lower(name) + [COLON], Lower(block);
    assert needle == CRLF + k;
    var first := Find(block, CRLF, 0);
    if first.None? {
      NoLineEnd(block, needle, k);
    } else {
      var i := first.value;
      FirstLine(block, i);
      LowerDrop(block, i + 2);
      FindPastLine(text, i, needle, k);
      if !Names(block[i + 2..], name) { FindIsLineOf(block[i + 2..], name); }
    }
  }

  lemma NoLineEnd(block: Buf, needle: Buf, k: Buf)
    requires Find(block, CRLF, 0).None? && needle == CRLF + k
    ensures Find(Lower(block), needle, 0).None?
  {
    hide Lower;
    var text := Lower(block);
    if Find(text, needle, 0).Some? {
      var j := Find(text, needle, 0).value;
      assert text[j..j + 2] == text[j..j + |needle|][..2] == CRLF;
      LowerCrlf(block, j);
    }
  }

  // ---- values ---------------------------------------------------------------------------

  lemma {:induction false} TrimIs(s: Buf, a: nat, b: nat)
    requires a <= b < |s| && !Blank(s[a]) && !Blank(s[b])
    requires forall j :: 0 <= j < a || b < j < |s| ==> Blank(s[j])
    ensures Trim(s) == s[a..b + 1]
    decreases |s|
  {
    if a > 0 {
      TrimIs(s[1..], a - 1, b - 1);
    } else if b < |s| - 1 {
      TrimIs(s[..|s| - 1], a, b);
    }
  }

  lemma {:induction false} TrimBlank(s: Buf)
    requires forall c :: c in s ==> Blank(c)
    ensures Trim(s) == []
  {
    if s != [] { TrimBlank(s[1..]); }
  }

  lemma SliceAt(block: Buf, pos: nat, end: nat)
    requires pos <= end <= |block|
    ensures forall j :: 0 <= j < end - pos ==> block[pos..end][j] == block[pos + j]
  {
  }

  /** Where a line ends that goes on at `pos`. */
  function EndOf(block: Buf, pos: nat): (e: nat)
    ensures pos <= |block| ==> pos <= e <= |block|
  {
    match Find(block, CRLF, pos) case Some(e) => e case None => |block|
  }

  /** The part of a text between two places, trimmed as the lookup trims it. */
  lemma SliceIsTrim(block: Buf, pos: nat, end: nat)
    requires pos <= end <= |block| && (end < |block| ==> !Blank(block[end]))
    ensures var a := FirstNotBlank(block, pos);
            && (a.None? || a.value >= end ==> Trim(block[pos..end]) == [])
            && (a.Some? && a.value < end ==>
                  var b := LastNotBlank(block, end - 1);
                  b.Some? && a.value <= b.value < end && Trim(block[pos..end]) == block[a.value..b.value + 1])
  {
    hide Blank, Trim, FirstNotBlank, LastNotBlank;
    var raw, first := block[pos..end], FirstNotBlank(block, pos);
    SliceAt(block, pos, end);
    if first.None? || first.value >= end {
      TrimBlank(raw);
    } else {
      var a, b := first.value, LastNotBlank(block, end - 1).value;
      TrimIs(raw, a - pos, b - pos);
      assert block[a..b + 1] == raw[a - pos..b + 1 - pos];
    }
  }

  /** The value read from a place is the rest of its line, trimmed. */
  lemma LineValueIsTrim(block: Buf, pos: nat)
    requires pos <= |block|
    ensures LineValue(block, pos) == Trim(block[pos..EndOf(block, pos)])
  {
    hide Trim, FirstNotBlank, LastNotBlank, Find, At;
    var end := EndOf(block, pos);
    if end < |block| { AtCrlf(block, end); }
    SliceIsTrim(block, pos, end);
  }

  /** A search that starts in a suffix is a search of the suffix. */
  lemma EndOfTail(block: Buf, n: nat, pos: nat)
    requires n + pos <= |block|
    ensures EndOf(block, n + pos) == n + EndOf(block[n..], pos)
  {
    hide At, Find;
    forall j: nat
      ensures At(block[n..], CRLF, j) <==> At(block, CRLF, n + j)
    {
      AtTail(block, n, CRLF, j);
    }
    var there := Find(block[n..], CRLF, pos);
    forall j | n + pos <= j && At(block, CRLF, j)
      ensures there.Some? && n + there.value <= j
    {
      assert At(block[n..], CRLF, j - n) <==> At(block, CRLF, n + (j - n));
    }
    if there.Some? { FindIs(block, CRLF, n + pos, n + there.value); }
  }

  /** No line ends within a name and its colon. */
  lemma NoEndInName(block: Buf, name: Buf, j: nat)
    requires CR !in name && Names(block, name) && j <= |name|
    ensures !At(block, CRLF, j)
  {
    var k := Lower(name) + [COLON];
    hide Lower;
    AtCrlf(block, j);
    LowerCr(block, j);
    assert Lower(block)[j] == k[j];
    if j < |name| { LowerCr(name, j); }
  }

  /** Places with no line end between them are in one line. */
  lemma SameEnd(block: Buf, a: nat, b: nat)
    requires a <= b <= |block| && forall j :: a <= j < b ==> !At(block, CRLF, j)
    ensures EndOf(block, a) == EndOf(block, b) >= b
  {
    hide At, Find;
    var first := Find(block, CRLF, a);
    if first.Some? { FindIs(block, CRLF, b, first.value); }
  }

  /** The place after the name and its colon is in the same line as the name. */
  lemma NameInLine(block: Buf, name: Buf, j: nat)
    requires CR !in name && Names(block, name) && j <= |name| + 1
    ensures |name| + 1 <= EndOf(block, j) == EndOf(block, |name| + 1)
  {
    hide EndOf, Find, At, Lower;
    forall i: nat | i <= |name|
      ensures !At(block, CRLF, i)
    {
      NoEndInName(block, name, i);
    }
    SameEnd(block, j, |name| + 1);
  }

  /** The first line names the header exactly when the text does. */
  lemma FirstLineNames(block: Buf, name: Buf)
    requires CR !in name
    ensures Names(block[..EndOf(block, 0)], name) <==> Names(block, name)
  {
    var end := EndOf(block, 0);
    hide Find;
    LowerTake(block, end);
    if Names(block, name) { NameInLine(block, name, 0); }
  }

  lemma LineValueOfTail(block: Buf, n: nat, pos: nat)
    requires n + pos <= |block|
    ensures LineValue(block, n + pos) == LineValue(block[n..], pos)
  {
    hide LineValue, EndOf, Trim;
    EndOfTail(block, n, pos);
    LineValueIsTrim(block, n + pos);
    LineValueIsTrim(block[n..], pos);
    assert block[n + pos..EndOf(block, n + pos)] == block[n..][pos..EndOf(block[n..], pos)];
  }

  lemma LinesAre(block: Buf)
    ensures var first := Find(block, CRLF, 0);
            && (first.Some? ==> first.value + 2 <= |block|)
            && Lines(block) == [block[..EndOf(block, 0)]] + (if first.None? then [] else Lines(block[first.value + 2..]))
  {
    hide Find;
    assert block[..|block|] == block;
    if Find(block, CRLF, 0).Some? { AtCrlf(block, Find(block, CRLF, 0).value); }
  }

  lemma LookupCons(line: Buf, rest: seq<Buf>, name: Buf)
    ensures Names(line, name) ==> |name| + 1 <= |line| && Lookup([line] + rest, name) == Trim(line[|name| + 1..])
    ensures !Names(line, name) ==> Lookup([line] + rest, name) == Lookup(rest, name)
  {
    hide Trim;
    assert ([line] + rest)[1..] == rest;
  }

  /** The lookup at the first line. */
  lemma LookupFirst(block: Buf, name: Buf)
    requires CR !in name
    ensures Names(block, name) ==>
              |name| + 1 <= |block| && Lookup(Lines(block), name) == LineValue(block, |name| + 1)
    ensures !Names(block, name) ==>
              var first := Find(block, CRLF, 0);
              Lookup(Lines(block), name) == if first.None? then [] else Lookup(Lines(block[first.value + 2..]), name)
  {
    hide Find, LineValue, Trim, Names, Lines, EndOf;
    var end, first := EndOf(block, 0), Find(block, CRLF, 0);
    var line := block[..end];
    LinesAre(block);
    FirstLineNames(block, name);
    LookupCons(line, if first.None? then [] else Lines(block[first.value + 2..]), name);
    if Names(block, name) {
      NameInLine(block, name, 0);
      LineValueIsTrim(block, |name| + 1);
      assert line[|name| + 1..] == block[|name| + 1..end];
    }
  }

  lemma {:induction false} LookupIsLineValue(block: Buf, name: Buf)
    requires CR !in name
    ensures var at := LineOf(block, name);
            && (at.Some? ==> at.value + |name| + 1 <= |block|)
            && Lookup(Lines(block), name) == if at.Some? then LineValue(block, at.value + |name| + 1) else []
    decreases |block|
  {
    hide At, Find, LineValue, Lookup, Lines, Names;
    LookupFirst(block, name);
    var first := Find(block, CRLF, 0);
    if !Names(block, name) && first.Some? {
      FirstLine(block, first.value);
      var n := first.value + 2;
      LookupIsLineValue(block[n..], name);
      var at := LineOf(block[n..], name);
      if at.Some? { LineValueOfTail(block, n, at.value + |name| + 1); }
    }
  }

  // ---- the lookup, for every block --------------------------------------------------------

  /** The one case in which the lookup goes wrong: the very first line is empty and the second is the header. */
  predicate StartsWithHeaderAfterEmptyLine(block: Buf, name: Buf) {
    CRLF + Lower(name) + [COLON] <= Lower(block)
  }

  lemma EmptyLineIsFirst(block: Buf, name: Buf)
    requires StartsWithHeaderAfterEmptyLine(block, name)
    ensures CRLF <= block
  {
    hide Lower;
    var k := CRLF + Lower(name) + [COLON];
    assert Lower(block)[0] == k[0] && Lower(block)[1] == k[1];
    LowerCr(block, 0);
    LowerCr(block, 1);
  }

  lemma TrimmedLength(block: Buf, pos: nat, n: nat)
    requires pos + n <= EndOf(block, pos) && n > 0 && pos <= |block|
    requires EndOf(block, pos + n) == EndOf(block, pos)
    requires !Blank(block[pos]) && !Blank(block[pos + n - 1])
    ensures |LineValue(block, pos)| > |LineValue(block, pos + n)|
  {
    hide Find;
  }

  /** Where the value is read, in terms of lines. */
  lemma ValueStartIs(block: Buf, name: Buf)
    requires ProperName(name)
    ensures var at := LineOf(block, name);
            ValueStart(block, name)
            == if at.None? then None
               else if StartsWithHeaderAfterEmptyLine(block, name) then Some(|name| + 1)
               else Some(at.value + |name| + 1)
  {
    hide Find, Lower, LineOf;
    var needle := CRLF + Lower(name) + [COLON];
    NamesIsFirst(block, name);
    if StartsWithHeaderAfterEmptyLine(block, name) {
      EmptyLineNames(block, name);
      assert At(Lower(block), needle, 0);
      FindIs(Lower(block), needle, 0, 0);
    } else if !Names(block, name) {
      FindIsLineOf(block, name);
      assert !At(Lower(block), needle, 0);
    }
  }

  lemma NamesIsFirst(block: Buf, name: Buf)
    ensures Names(block, name) ==> LineOf(block, name) == Some(0)
  {
  }

  /** For every block and every name: the lookup returns the trimmed value of the first
      line that begins with the name and a colon, whatever the case of the letters, and
      nothing if there is no such line - so text inside other values, or in the request
      line, never masquerades as the header - if and only if the block does not begin
      with an empty line and then that header. */
  lemma HeaderValueIff(block: Buf, name: Buf)
    requires ProperName(name)
    ensures HeaderValue(block, name) == Lookup(Lines(block), name)
            <==> !StartsWithHeaderAfterEmptyLine(block, name)
  {
    hide LineValue, Lookup, Lines, LineOf, ValueStart, StartsWithHeaderAfterEmptyLine;
    LookupIsLineValue(block, name);
    ValueStartIs(block, name);
    if StartsWithHeaderAfterEmptyLine(block, name) { EmptyLineFirst(block, name); }
  }

  lemma EmptyLineFirst(block: Buf, name: Buf)
    requires ProperName(name) && StartsWithHeaderAfterEmptyLine(block, name)
    ensures !Names(block, name) && LineOf(block, name) == Some(2)
    ensures |LineValue(block, |name| + 1)| > |LineValue(block, |name| + 3)|
  {
    hide EndOf, LineValue, Find, At;
    var n, rest := |name|, block[2..];
    EmptyLineNames(block, name);
    EndOfTail(block, 2, n - 1);
    EndOfTail(block, 2, n + 1);
    NameInLine(rest, name, n - 1);
    TrimmedLength(block, n + 1, 2);
  }

  lemma EmptyLineNames(block: Buf, name: Buf)
    requires ProperName(name) && StartsWithHeaderAfterEmptyLine(block, name)
    ensures |block| >= |name| + 3 && Names(block[2..], name) && !Names(block, name)
    ensures !Blank(block[|name| + 1]) && !Blank(block[|name| + 2])
    ensures LineOf(block, name) == Some(2)
  {
    hide Lower, Find;
    var k, n, lower := CRLF + Lower(name) + [COLON], |name|, Lower(block);
    LowerDrop(block, 2);
    assert k[2..] == Lower(name) + [COLON] && k[2..] <= lower[2..];
    assert lower[0] == k[0] && lower[1] == k[1] && lower[n + 1] == k[n + 1] && lower[n + 2] == k[n + 2];
    LowerCr(block, 0);
    LowerCr(block, 1);
    LowerBlank(block, n + 1);
    LowerBlank(block, n + 2);
    LowerBlank(name, n - 1);
    LowerCr(name, 0);
    assert (Lower(name) + [COLON])[0] == Lower(name)[0];
    AtCrlf(block, 0);
    FindIs(block, CRLF, 0, 0);
  }

  lemma LowerBlank(s: Buf, i: nat)
    requires i < |s|
    ensures Blank(Lower(s)[i]) <==> Blank(s[i])
  {
  }

  // ---- a header as a peer writes it -----------------------------------------------------

  /** Small letters are those of ASCII, and only they have a capital. */
  lemma LowerIff(a: byte, b: byte)
    ensures LowerByte(a) == LowerByte(b) <==> a == b || (65 <= a <= 90 && b == a + 32) || (65 <= b <= 90 && a == b + 32)
  {
  }

  /** The same letters, capital or small. */
  predicate SameLetters(a: Buf, b: Buf) {
    && |a| == |b|
    && forall i :: 0 <= i < |a| ==>
         a[i] == b[i] || (65 <= a[i] <= 90 && b[i] == a[i] + 32) || (65 <= b[i] <= 90 && a[i] == b[i] + 32)
  }

  lemma SameLower(a: Buf, b: Buf)
    requires SameLetters(a, b)
    ensures Lower(a) == Lower(b)
  {
    forall i | 0 <= i < |a|
      ensures LowerByte(a[i]) == LowerByte(b[i])
    {
      LowerIff(a[i], b[i]);
    }
  }

  predicate AllBlank(s: Buf) { forall c :: c in s ==> c == 32 || c == 9 }

  /** A text without blanks at its ends. */
  predicate Tight(s: Buf) { s != [] && s[0] != 32 && s[0] != 9 && s[|s| - 1] != 32 && s[|s| - 1] != 9 }

  lemma TrimmedOf(pre: Buf, value: Buf, post: Buf)
    requires AllBlank(pre) && AllBlank(post) && Tight(value)
    ensures Trim(pre + value + post) == value
  {
    hide Trim;
    var s, a := pre + value + post, |pre|;
    var b := a + |value| - 1;
    assert s[a] == value[0] && s[b] == value[|value| - 1];
    forall j | 0 <= j < a || b < j < |s|
      ensures Blank(s[j])
    {
      if j < a {
        assert s[j] == pre[j] && pre[j] in pre;
      } else {
        assert s[j] == post[j - b - 1] && post[j - b - 1] in post;
      }
    }
    TrimIs(s, a, b);
    assert s[a..b + 1] == value;
  }

  lemma {:induction false} LinesAppend(a: Buf, b: Buf)
    ensures Lines(a + CRLF + b) == Lines(a) + Lines(b)
    decreases |a|
  {
    hide At, Find;
    var t := a + CRLF + b;
    var first := Find(a, CRLF, 0);
    if first.None? {
      EndsHere(a, b);
      assert t[..|a|] == a && t[|a| + 2..] == b;
    } else {
      var i := first.value;
      FirstLine(a, i);
      EndsEarlier(a, b, i);
      LinesAppend(a[i + 2..], b);
      assert t[i + 2..] == a[i + 2..] + CRLF + b && t[..i] == a[..i];
      assert [a[..i]] + (Lines(a[i + 2..]) + Lines(b)) == ([a[..i]] + Lines(a[i + 2..])) + Lines(b);
    }
  }

  lemma EndsHere(a: Buf, b: Buf)
    requires Find(a, CRLF, 0).None?
    ensures Find(a + CRLF + b, CRLF, 0) == Some(|a|)
  {
    hide Find;
    var t := a + CRLF + b;
    forall j: nat | j < |a|
      ensures !At(t, CRLF, j)
    {
      AtCrlf(t, j);
      AtCrlf(a, j);
    }
    AtCrlf(t, |a|);
    FindIs(t, CRLF, 0, |a|);
  }

  lemma EndsEarlier(a: Buf, b: Buf, i: nat)
    requires Find(a, CRLF, 0) == Some(i)
    ensures Find(a + CRLF + b, CRLF, 0) == Some(i)
  {
    hide Find;
    var t := a + CRLF + b;
    AtCrlf(a, i);
    AtCrlf(t, i);
    forall j: nat | j < i
      ensures !At(t, CRLF, j)
    {
      AtCrlf(t, j);
      AtCrlf(a, j);
    }
    FindIs(t, CRLF, 0, i);
  }

  lemma {:induction false} LookupSkips(before: seq<Buf>, rest: seq<Buf>, name: Buf)
    requires forall l :: l in before ==> !Names(l, name)
    ensures Lookup(before + rest, name) == Lookup(rest, name)
    decreases |before|
  {
    hide Names;
    if before == [] {
      assert before + rest == rest;
    } else {
      assert before[0] in before;
      assert (before + rest)[1..] == before[1..] + rest;
      LookupSkips(before[1..], rest, name);
    }
  }

  lemma OneLineOnly(s: Buf)
    requires CR !in s
    ensures Lines(s) == [s]
  {
    if Find(s, CRLF, 0).Some? { AtCrlf(s, Find(s, CRLF, 0).value); }
  }

  /** A header is found: a line that spells the name in any letters, with a colon, blanks
      and its value, after lines that do not begin with the name, is looked up as that value. */
  lemma HeaderFound(before: Buf, spelled: Buf, pre: Buf, value: Buf, post: Buf, after: Buf, name: Buf)
    requires ProperName(name) && SameLetters(spelled, name) && AllBlank(pre) && AllBlank(post) && Tight(value)
    requires CR !in spelled && CR !in value && before != [] && before[0] != CR
    requires forall l :: l in Lines(before) ==> !Names(l, name)
    ensures HeaderValue(before + CRLF + ((spelled + [58] + (pre + value + post)) + CRLF + after), name) == value
  {
    hide HeaderValue, Trim, SameLetters, Names, StartsWithHeaderAfterEmptyLine;
    var raw := pre + value + post;
    var line := spelled + [58] + raw;
    var block := before + CRLF + (line + CRLF + after);
    assert CR !in line;
    LinesAppend(before, line + CRLF + after);
    LinesAppend(line, after);
    OneLineOnly(line);
    NamedLine(spelled, raw, name);
    hide Lines;
    HeaderValueIff(block, name);
    if StartsWithHeaderAfterEmptyLine(block, name) { EmptyLineIsFirst(block, name); assert false; }
    LookupSkips(Lines(before), [line] + Lines(after), name);
    LookupCons(line, Lines(after), name);
    assert line[|name| + 1..] == raw;
    TrimmedOf(pre, value, post);
  }

  lemma NamedLine(spelled: Buf, raw: Buf, name: Buf)
    requires SameLetters(spelled, name)
    ensures Names(spelled + [58] + raw, name) && |spelled| == |name|
  {
    hide Lower;
    SameLower(spelled, name);
    var line := spelled + [58] + raw;
    LowerParts(spelled, [58], raw);
    assert Lower([58]) == [58] by { LowerColon(); }
  }

  lemma LowerParts(a: Buf, b: Buf, c: Buf)
    ensures Lower(a + b + c) == Lower(a) + Lower(b) + Lower(c)
  {
  }

  lemma LowerColon()
    ensures Lower([58]) == [58]
  {
  }
}
