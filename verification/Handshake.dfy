/** The HTTP upgrade that opens a WebSocket connection: reading the request up to
    the blank line, and looking up a header in it. */
module Handshake {
  import opened Bytes
  import opened Wrappers
  import opened Text
  import opened HttpHeaders
  import opened WebSocketStream

  const BLANK_LINE: Buf := [CR, LF, CR, LF]

  /** The flood guard, and the size of one read. */
  const HEADER_LIMIT: nat := 16 * 1024
  const READ_SIZE: nat := 2048

  // ---- what the socket is going to answer ------------------------------------

  /** One read of at most `cap` bytes, against the answers still to come. */
  function NextRead(script: seq<SocketRead>, cap: nat): (r: (SocketRead, seq<SocketRead>))
    requires cap > 0
    ensures PossibleRead(r.0) && (r.0.Data? ==> |r.0.bytes| <= cap)
    ensures script != [] ==> Size(r.1) < Size(script)
    ensures script == [] ==> r == (Fail(Eagain), [])
  {
    if script == [] then (Fail(Eagain), [])
    else if !script[0].Data? then (script[0], script[1..])
    else
      var bytes := script[0].bytes;
      if bytes == [] then (Fail(Eagain), script[1..])
      else if |bytes| <= cap then (script[0], script[1..])
      else
        var left := [Data(bytes[cap..])] + script[1..];
        assert left[1..] == script[1..];
        (Data(bytes[..cap]), left)
  }

  /** How much a script still holds: one for each answer and one for each byte. */
  function Size(script: seq<SocketRead>): nat {
    if script == [] then 0
    else 1 + (if script[0].Data? then |script[0].bytes| else 0) + Size(script[1..])
  }

  /** A peer that sends bytes and stays: reads bring bytes or are interrupted. */
  predicate Undisturbed(script: seq<SocketRead>) {
    forall i :: 0 <= i < |script| ==>
      (script[i].Data? && script[i].bytes != []) || script[i] == Fail(Eintr)
  }

  /** The same, except that a read may also find nothing yet. */
  predicate Patient(script: seq<SocketRead>) {
    forall i :: 0 <= i < |script| ==>
      (script[i].Data? && script[i].bytes != []) || script[i] == Fail(Eintr) || script[i] == Fail(Eagain)
  }

  /** All the bytes a script brings. */
  function Stream(script: seq<SocketRead>): Buf {
    if script == [] then []
    else (if script[0].Data? then script[0].bytes else []) + Stream(script[1..])
  }

  lemma StreamCons(ev: SocketRead, left: seq<SocketRead>)
    ensures Stream([ev] + left) == (if ev.Data? then ev.bytes else []) + Stream(left)
  {
    assert ([ev] + left)[1..] == left;
  }

  lemma {:induction false} StreamAppend(a: seq<SocketRead>, b: seq<SocketRead>)
    ensures Stream(a + b) == Stream(a) + Stream(b)
  {
    if a == [] {
      assert a + b == b;
    } else {
      assert (a + b)[1..] == a[1..] + b;
      StreamAppend(a[1..], b);
    }
  }

  /** A read of a long piece takes its front and leaves the rest for the next one. */
  lemma NextOfLong(bytes: Buf, more: seq<SocketRead>, cap: nat)
    requires |bytes| > cap > 0
    ensures NextRead([Data(bytes)] + more, cap) == (Data(bytes[..cap]), [Data(bytes[cap..])] + more)
  {
    assert ([Data(bytes)] + more)[1..] == more;
  }

  lemma LongStream(bytes: Buf, more: seq<SocketRead>, cap: nat)
    requires |bytes| > cap
    ensures Stream([Data(bytes)] + more) == bytes[..cap] + Stream([Data(bytes[cap..])] + more)
  {
    StreamCons(Data(bytes), more);
    StreamCons(Data(bytes[cap..]), more);
    var front, back, rest := bytes[..cap], bytes[cap..], Stream(more);
    assert bytes == front + back;
    assert (front + back) + rest == front + (back + rest);
  }

  /** One read of such a peer takes bytes off the front of its stream, or none. */
  lemma NextUndisturbed(script: seq<SocketRead>, cap: nat)
    requires Patient(script) && script != [] && cap > 0
    ensures var (ev, left) := NextRead(script, cap);
            && Patient(left)
            && (ev.Data? || ev == Fail(Eintr) || ev == Fail(Eagain))
            && (Undisturbed(script) ==> Undisturbed(left) && ev != Fail(Eagain))
            && Stream(script) == (if ev.Data? then ev.bytes else []) + Stream(left)
  {
    hide Stream;
    var first, more := script[0], script[1..];
    assert script == [first] + more;
    StreamCons(first, more);
    if first.Data? && |first.bytes| > cap {
      NextOfLong(first.bytes, more, cap);
      LongStream(first.bytes, more, cap);
    }
  }

  // ---- reading the request ------------------------------------------------------

  /** The read loop of `handshake`: the request once the blank line is in, and the answers not used. */
  function ReadRequest(req: Buf, script: seq<SocketRead>): (r: (Option<Buf>, seq<SocketRead>))
    ensures r.0.Some? ==> Find(r.0.value, BLANK_LINE, 0).Some?
    decreases Size(script)
  {
    if Find(req, BLANK_LINE, 0).Some? then (Some(req), script)
    else if |req| > HEADER_LIMIT then (None, script)
    else if script == [] then (None, [])
    else
      var (ev, left) := NextRead(script, READ_SIZE);
      match ev
      case Data(bytes) => ReadRequest(req + bytes, left)
      case Eof => (None, left)
      case Fail(e) => if e == Eintr then ReadRequest(req, left) else (None, left)
  }

  /** How many reads of the loop bring bytes. */
  function DataReads(req: Buf, script: seq<SocketRead>): nat
    decreases Size(script)
  {
    if Find(req, BLANK_LINE, 0).Some? || |req| > HEADER_LIMIT || script == [] then 0
    else
      var (ev, left) := NextRead(script, READ_SIZE);
      match ev
      case Data(bytes) => 1 + DataReads(req + bytes, left)
      case Eof => 0
      case Fail(e) => if e == Eintr then DataReads(req, left) else 0
  }

  /** One turn of the read loop. */
  lemma ReadOne(req: Buf, script: seq<SocketRead>)
    ensures Find(req, BLANK_LINE, 0).Some? ==> ReadRequest(req, script) == (Some(req), script)
    ensures Find(req, BLANK_LINE, 0).None? ==>
              var (ev, left) := NextRead(script, READ_SIZE);
              && (|req| > HEADER_LIMIT ==> ReadRequest(req, script) == (None, script))
              && (|req| <= HEADER_LIMIT && script == [] ==> ReadRequest(req, script) == (None, []))
              && (|req| <= HEADER_LIMIT && script != [] ==>
                    ReadRequest(req, script) == (
                      if ev.Data? then ReadRequest(req + ev.bytes, left)
                      else if ev == Fail(Eintr) then ReadRequest(req, left)
                      else (None, left)))
    ensures Find(req, BLANK_LINE, 0).Some? || |req| > HEADER_LIMIT || script == [] ==> DataReads(req, script) == 0
    ensures Find(req, BLANK_LINE, 0).None? && |req| <= HEADER_LIMIT && script != [] ==>
              var (ev, left) := NextRead(script, READ_SIZE);
              DataReads(req, script) == (
                if ev.Data? then 1 + DataReads(req + ev.bytes, left)
                else if ev == Fail(Eintr) then DataReads(req, left)
                else 0)
  {
  }

  /** Where the blank line of a stream ends, if there is one. */
  function HeadersEnd(t: Buf): Option<nat> {
    match Find(t, BLANK_LINE, 0)
    case Some(i) => Some(i + 4)
    case None => None
  }

  /** A prefix too short to hold the first blank line does not hold any. */
  lemma BlankLineLater(req: Buf, more: Buf)
    ensures HeadersEnd(req).Some? ==> HeadersEnd(req + more) == HeadersEnd(req)
    ensures HeadersEnd(req + more).Some? && HeadersEnd(req + more).value <= |req| ==>
              HeadersEnd(req) == HeadersEnd(req + more)
  {
    forall j: nat | j <= |req| - 4
      ensures At(req + more, BLANK_LINE, j) <==> At(req, BLANK_LINE, j)
    {
      AtAppend(req, BLANK_LINE, more, j);
    }
    if HeadersEnd(req).Some? {
      FindIs(req + more, BLANK_LINE, 0, HeadersEnd(req).value - 4);
    }
  }

  /** When the blank line ends within the limit (give or take the byte that the
      guard tolerates), the loop stops with it however the stream is cut; what it
      has read and what is still unread together are the whole stream. */
  lemma {:induction false} RequestRead(req: Buf, script: seq<SocketRead>)
    requires Undisturbed(script)
    requires var end := HeadersEnd(req + Stream(script)); end.Some? && end.value <= HEADER_LIMIT + 1
    ensures var (got, left) := ReadRequest(req, script);
            && got.Some? && Undisturbed(left)
            && got.value + Stream(left) == req + Stream(script)
            && HeadersEnd(got.value) == HeadersEnd(req + Stream(script))
    decreases Size(script)
  {
    BlankLineLater(req, Stream(script));
    if HeadersEnd(req).None? {
      assert req + [] == req;
      NextUndisturbed(script, READ_SIZE);
      var (ev, left) := NextRead(script, READ_SIZE);
      if ev.Data? {
        assert (req + ev.bytes) + Stream(left) == req + Stream(script);
        RequestRead(req + ev.bytes, left);
      } else {
        assert Stream(left) == Stream(script);
        RequestRead(req, left);
      }
    }
  }

  /** When no blank line ends within the limit and one more read, the loop gives up, however the stream is cut. */
  lemma {:induction false} RequestRefused(req: Buf, script: seq<SocketRead>)
    requires Undisturbed(script)
    requires |req| <= HEADER_LIMIT + READ_SIZE
    requires var end := HeadersEnd(req + Stream(script)); end.None? || end.value > HEADER_LIMIT + READ_SIZE
    ensures ReadRequest(req, script).0.None?
    decreases Size(script)
  {
    BlankLineLater(req, Stream(script));
    if |req| <= HEADER_LIMIT && script != [] {
      NextUndisturbed(script, READ_SIZE);
      var (ev, left) := NextRead(script, READ_SIZE);
      if ev.Data? {
        assert (req + ev.bytes) + Stream(left) == req + Stream(script);
        RequestRefused(req + ev.bytes, left);
      } else {
        assert Stream(left) == Stream(script);
        RequestRefused(req, left);
      }
    }
  }

  lemma NoBlankLineYet(t: Buf, n: nat)
    requires HeadersEnd(t).Some? && n < HeadersEnd(t).value && n <= |t|
    ensures HeadersEnd(t[..n]).None?
  {
    assert t == t[..n] + t[n..];
    BlankLineLater(t[..n], t[n..]);
  }

  /** Eight full reads bring the loop to the limit, if no blank line comes before it. */
  lemma {:induction false} ToTheLimit(t: Buf, m: nat, k: nat, more: seq<SocketRead>)
    requires HEADER_LIMIT < m <= |t| && k <= 8
    requires HeadersEnd(t).Some? && HeadersEnd(t).value > HEADER_LIMIT
    ensures ReadRequest(t[..k * READ_SIZE], [Data(t[k * READ_SIZE..m])] + more)
            == ReadRequest(t[..HEADER_LIMIT], [Data(t[HEADER_LIMIT..m])] + more)
    decreases 8 - k
  {
    if k < 8 {
      var a, b := k * READ_SIZE, (k + 1) * READ_SIZE;
      NoBlankLineYet(t, a);
      NextOfLong(t[a..m], more, READ_SIZE);
      assert t[a..m][..READ_SIZE] == t[a..b];
      assert t[a..m][READ_SIZE..] == t[b..m];
      assert t[..a] + t[a..b] == t[..b];
      ToTheLimit(t, m, k + 1, more);
    }
  }

  /** In between, the cut decides: read in full steps the request is seen, read
      with one step ending just past the limit it is refused. */
  lemma CutDecides(t: Buf)
    requires HeadersEnd(t).Some? && HEADER_LIMIT + 1 < HeadersEnd(t).value <= HEADER_LIMIT + READ_SIZE
    ensures var all := [Data(t)];
            Undisturbed(all) && Stream(all) == t && ReadRequest([], all).0.Some?
    ensures var cut := [Data(t[..HEADER_LIMIT + 1]), Data(t[HEADER_LIMIT + 1..])];
            Undisturbed(cut) && Stream(cut) == t && ReadRequest([], cut).0.None?
  {
    var all, cut := [Data(t)], [Data(t[..HEADER_LIMIT + 1]), Data(t[HEADER_LIMIT + 1..])];
    SeenInFullSteps(t);
    RefusedPastTheLimit(t);
    assert all[1..] == [] && Stream(all) == t + [];
    assert cut[1..][1..] == [];
    assert Stream(cut[1..]) == t[HEADER_LIMIT + 1..] + [];
    assert t[..HEADER_LIMIT + 1] + t[HEADER_LIMIT + 1..] == t;
  }

  lemma SeenInFullSteps(t: Buf)
    requires HeadersEnd(t).Some? && HEADER_LIMIT + 1 < HeadersEnd(t).value <= HEADER_LIMIT + READ_SIZE
    ensures ReadRequest([], [Data(t)]).0.Some?
  {
    ToTheLimit(t, |t|, 0, []);
    assert t[0..|t|] == t && t[..0] == [] && [Data(t)] + [] == [Data(t)];
    LastStep(t, |t|, []);
  }

  /** At the limit one more read is made; `n` bytes are then in. */
  lemma LastStep(t: Buf, m: nat, more: seq<SocketRead>)
    requires HEADER_LIMIT < m <= |t|
    requires HeadersEnd(t).Some? && HeadersEnd(t).value > HEADER_LIMIT
    ensures var n := if m - HEADER_LIMIT <= READ_SIZE then m else HEADER_LIMIT + READ_SIZE;
            ReadRequest(t[..HEADER_LIMIT], [Data(t[HEADER_LIMIT..m])] + more).0.Some? <==> HeadersEnd(t).value <= n
  {
    var n := if m - HEADER_LIMIT <= READ_SIZE then m else HEADER_LIMIT + READ_SIZE;
    var script := [Data(t[HEADER_LIMIT..m])] + more;
    NoBlankLineYet(t, HEADER_LIMIT);
    var (ev, left) := NextRead(script, READ_SIZE);
    assert ev == Data(t[HEADER_LIMIT..n]) by { assert t[HEADER_LIMIT..m][..n - HEADER_LIMIT] == t[HEADER_LIMIT..n]; }
    assert t[..HEADER_LIMIT] + t[HEADER_LIMIT..n] == t[..n];
    if HeadersEnd(t).value <= n {
      assert t == t[..n] + t[n..];
      BlankLineLater(t[..n], t[n..]);
    } else {
      NoBlankLineYet(t, n);
    }
  }

  lemma RefusedPastTheLimit(t: Buf)
    requires HeadersEnd(t).Some? && HEADER_LIMIT + 1 < HeadersEnd(t).value
    ensures ReadRequest([], [Data(t[..HEADER_LIMIT + 1]), Data(t[HEADER_LIMIT + 1..])]).0.None?
  {
    var m := HEADER_LIMIT + 1;
    var more := [Data(t[m..])];
    ToTheLimit(t, m, 0, more);
    assert t[0..m] == t[..m] && t[..0] == [];
    assert [Data(t[..m])] + more == [Data(t[..m]), Data(t[m..])];
    LastStep(t, m, more);
  }

  /** The request is accepted for reading on every cut of a stream exactly when its
      blank line ends within 16385 bytes. */
  lemma AlwaysReadIff(t: Buf)
    ensures (forall script :: Undisturbed(script) && Stream(script) == t ==> ReadRequest([], script).0.Some?)
            <==> HeadersEnd(t).Some? && HeadersEnd(t).value <= 16385
  {
    if HeadersEnd(t).Some? && HeadersEnd(t).value <= HEADER_LIMIT + 1 {
      forall script | Undisturbed(script) && Stream(script) == t
        ensures ReadRequest([], script).0.Some?
      {
        assert [] + Stream(script) == t;
        RequestRead([], script);
      }
    } else if HeadersEnd(t).Some? && HeadersEnd(t).value <= HEADER_LIMIT + READ_SIZE {
      CutDecides(t);
      var cut := [Data(t[..HEADER_LIMIT + 1]), Data(t[HEADER_LIMIT + 1..])];
      assert Undisturbed(cut) && Stream(cut) == t;
    } else {
      var script := if t == [] then [] else [Data(t)];
      assert Stream(script) == t by { if t != [] { assert script[1..] == [] && t + [] == t; } }
      assert [] + Stream(script) == t;
      RequestRefused([], script);
      assert Undisturbed(script);
    }
  }

  /** The handshake splits the stream without loss: the header block it examines is
      the stream up to the blank line, and what follows the blank line in the request
      together with what is still unread is the rest of the stream. */
  lemma RequestSplitsStream(script: seq<SocketRead>)
    requires Undisturbed(script)
    requires HeadersEnd(Stream(script)).Some? && HeadersEnd(Stream(script)).value <= HEADER_LIMIT + 1
    ensures var (got, left) := ReadRequest([], script);
            var end := HeadersEnd(Stream(script)).value;
            && got.Some? && HeadersEnd(got.value) == Some(end) && end <= |got.value|
            && got.value[..end - 2] == Stream(script)[..end - 2]
            && got.value[end..] + Stream(left) == Stream(script)[end..]
  {
    hide ReadRequest, Stream, Undisturbed;
    var t := Stream(script);
    assert [] + t == t;
    RequestRead([], script);
    var (got, left) := ReadRequest([], script);
    EndWithin(got.value);
    hide HeadersEnd;
    SplitAt(got.value, Stream(left), t, HeadersEnd(t).value);
  }

  lemma EndWithin(t: Buf)
    requires HeadersEnd(t).Some?
    ensures 4 <= HeadersEnd(t).value <= |t|
  {
  }

  lemma SplitAt(a: Buf, b: Buf, t: Buf, n: nat)
    requires a + b == t && 2 <= n <= |a|
    ensures a[..n - 2] == t[..n - 2] && a[n..] + b == t[n..]
  {
  }

  /** A peer that ends, fails or falls silent before its blank line is refused. */
  lemma {:induction false} BrokenOffRefused(req: Buf, script: seq<SocketRead>, ev: SocketRead, later: seq<SocketRead>)
    requires Undisturbed(script) && HeadersEnd(req + Stream(script)).None?
    requires ev.Eof? || ev == Fail(Eagain) || ev == Fail(OtherErrno)
    ensures ReadRequest(req, script + ([ev] + later)).0.None?
    decreases Size(script)
  {
    hide Find, Stream;
    BlankLineLater(req, Stream(script));
    assert ([ev] + later)[1..] == later;
    if script == [] {
      assert script + ([ev] + later) == [ev] + later;
    } else {
      NextUndisturbed(script, READ_SIZE);
      NextOfMore(script, [ev] + later, READ_SIZE);
      var (got, left) := NextRead(script, READ_SIZE);
      if got.Data? { assert (req + got.bytes) + Stream(left) == req + Stream(script); }
      assert [] + Stream(left) == Stream(left);
      if |req| <= HEADER_LIMIT {
        BrokenOffRefused(if got.Data? then req + got.bytes else req, left, ev, later);
      }
    }
  }

  // ---- how long a slow peer can take -------------------------------------------------------

  lemma {:induction false} DataReadsBound(req: Buf, script: seq<SocketRead>)
    ensures |req| <= HEADER_LIMIT + 1 ==> |req| + DataReads(req, script) <= HEADER_LIMIT + 1
    ensures |req| > HEADER_LIMIT ==> DataReads(req, script) == 0
    decreases Size(script)
  {
    hide Find;
    if Find(req, BLANK_LINE, 0).None? && |req| <= HEADER_LIMIT && script != [] {
      var (ev, left) := NextRead(script, READ_SIZE);
      DataReadsBound(if ev.Data? then req + ev.bytes else req, left);
    }
  }

  /** A stream that comes one byte at a time. */
  function Trickle(t: Buf): seq<SocketRead> { seq(|t|, i requires 0 <= i < |t| => Data([t[i]])) }

  lemma {:induction false} TrickleReads(t: Buf, k: nat)
    requires |t| == HEADER_LIMIT + 1 && CR !in t && k <= |t|
    ensures DataReads(t[..k], Trickle(t)[k..]) == HEADER_LIMIT + 1 - k
    decreases |t| - k
  {
    hide Trickle, Find;
    assert |Trickle(t)| == |t| by { TrickleAt(t, 0); }
    if k <= HEADER_LIMIT {
      var script := Trickle(t)[k..];
      TrickleAt(t, k);
      assert script[0] == Data([t[k]]) && script[1..] == Trickle(t)[k + 1..];
      EndHasCr(t[..k]);
      assert t[..k] + [t[k]] == t[..k + 1];
      TrickleReads(t, k + 1);
    }
  }

  lemma TrickleAt(t: Buf, k: nat)
    ensures |Trickle(t)| == |t| && (k < |t| ==> Trickle(t)[k] == Data([t[k]]))
  {
  }

  lemma EndHasCr(t: Buf)
    ensures Find(t, BLANK_LINE, 0).Some? ==> CR in t
  {
    if Find(t, BLANK_LINE, 0).Some? {
      var i := Find(t, BLANK_LINE, 0).value;
      assert t[i] == t[i..i + 4][0];
    }
  }

  /** The flood guard is the only bound on how often a slow peer is waited for: 16385
      reads that bring bytes, and no smaller number, are enough for every peer. */
  lemma ReadsBoundedIff(n: nat)
    ensures (forall script :: Undisturbed(script) ==> DataReads([], script) <= n) <==> n >= 16385
  {
    hide DataReads;
    if n >= HEADER_LIMIT + 1 {
      forall script | Undisturbed(script)
        ensures DataReads([], script) <= n
      {
        DataReadsBound([], script);
      }
    } else {
      var t: Buf := seq(HEADER_LIMIT + 1, i => 65);
      TrickleReads(t, 0);
      assert t[..0] == [] && Trickle(t)[0..] == Trickle(t);
      assert Undisturbed(Trickle(t));
      assert DataReads([], Trickle(t)) > n;
    }
  }

  // ---- the upgrade as a whole ---------------------------------------------------------

  const KEY_HEADER: Buf := Ascii("Sec-WebSocket-Key")

  /** The part of a request that is examined for headers: up to and including the last header's line end. */
  function HeaderBlock(req: Buf): Buf
    requires HeadersEnd(req).Some?
  {
    req[..HeadersEnd(req).value - 2]
  }

  lemma KeyHeaderIsProper()
    ensures ProperName(KEY_HEADER)
  {
    forall i | 0 <= i < |KEY_HEADER|
      ensures KEY_HEADER[i] != CR
    {
      assert KEY_HEADER[i] as int == "Sec-WebSocket-Key"[i] as int % 256;
    }
    assert KEY_HEADER[16] == 'y' as byte;
  }

  /** The key looked for is the one on the first line that names it, unless the request begins with a line end. */
  lemma KeyIsLookedUp(req: Buf)
    requires HeadersEnd(req).Some? && !(CRLF <= HeaderBlock(req))
    ensures HeaderValue(HeaderBlock(req), KEY_HEADER) == Lookup(Lines(HeaderBlock(req)), KEY_HEADER)
  {
    hide HeaderValue, Lookup, Lines, Lower, Find, StartsWithHeaderAfterEmptyLine;
    KeyHeaderIsProper();
    var block := HeaderBlock(req);
    HeaderValueIff(block, KEY_HEADER);
    if StartsWithHeaderAfterEmptyLine(block, KEY_HEADER) { EmptyLineIsFirst(block, KEY_HEADER); }
  }

  /** A request that ends with its blank line and has no other. */
  predicate EndsWithBlankLine(request: Buf) {
    && |request| >= 4 && request[|request| - 4..] == [13, 10, 13, 10]
    && forall i :: 0 <= i < |request| - 4 ==> !At(request, [13, 10, 13, 10], i)
  }

  lemma WholeRequest(request: Buf)
    requires EndsWithBlankLine(request)
    ensures HeadersEnd(request) == Some(|request|) && HeaderBlock(request) == request[..|request| - 2]
  {
    var end := |request| - 4;
    assert BLANK_LINE == [13, 10, 13, 10] && request[end..end + 4] == BLANK_LINE;
    FindIs(request, BLANK_LINE, 0, end);
  }

  lemma KeyHeaderText()
    ensures KEY_HEADER == [83, 101, 99, 45, 87, 101, 98, 83, 111, 99, 107, 101, 116, 45, 75, 101, 121]
  {
  }

  /** The key of a request as any client may write it: on a line of its own that spells the
      header's name in upper or lower case, with blanks around the key, after lines that do
      not begin with that name and before any others. */
  lemma KeyFound(before: Buf, spelled: Buf, pre: Buf, key: Buf, post: Buf, after: Buf)
    requires var name := [83, 101, 99, 45, 87, 101, 98, 83, 111, 99, 107, 101, 116, 45, 75, 101, 121];
             && SameLetters(spelled, name) && CR !in spelled
             && before != [] && before[0] != CR && forall l :: l in Lines(before) ==> !Names(l, name)
    requires AllBlank(pre) && AllBlank(post) && Tight(key) && CR !in key
    requires EndsWithBlankLine(before + CRLF + ((spelled + [58] + (pre + key + post)) + CRLF + after) + CRLF)
    ensures var request := before + CRLF + ((spelled + [58] + (pre + key + post)) + CRLF + after) + CRLF;
            HeadersEnd(request) == Some(|request|) && HeaderValue(HeaderBlock(request), KEY_HEADER) == key
  {
    hide HeaderValue, Lines, Names, SameLetters, AllBlank, Tight, EndsWithBlankLine, HeadersEnd, HeaderBlock;
    KeyHeaderText();
    KeyHeaderIsProper();
    var block := before + CRLF + ((spelled + [58] + (pre + key + post)) + CRLF + after);
    WholeRequest(block + CRLF);
    assert (block + CRLF)[..|block + CRLF| - 2] == block;
    HeaderFound(before, spelled, pre, key, post, after, KEY_HEADER);
  }

  /** What an accepted request comes to: the client's key, the bytes that came after
      the blank line, and the answers of the socket not used yet. */
  datatype Upgrade = Upgrade(key: Buf, early: Buf, left: seq<SocketRead>)

  /** The request as read; refused if it is not read to its blank line or has no key. */
  function UpgradeOf(script: seq<SocketRead>): Option<Upgrade> {
    var (got, left) := ReadRequest([], script);
    if got.None? then None
    else
      var key := HeaderValue(HeaderBlock(got.value), KEY_HEADER);
      if key == [] then None else Some(Upgrade(key, got.value[HeadersEnd(got.value).value..], left))
  }

  /** Answers that come after those the loop uses are left for later. */
  lemma {:induction false} ReadOnlyWhatIsNeeded(req: Buf, script: seq<SocketRead>, later: seq<SocketRead>)
    requires ReadRequest(req, script).0.Some?
    ensures var (got, left) := ReadRequest(req, script); ReadRequest(req, script + later) == (got, left + later)
    decreases Size(script)
  {
    hide Find;
    if Find(req, BLANK_LINE, 0).None? {
      var (ev, left) := NextRead(script, READ_SIZE);
      NextOfMore(script, later, READ_SIZE);
      ReadOnlyWhatIsNeeded(if ev.Data? then req + ev.bytes else req, left, later);
    }
  }

  lemma NextOfMore(script: seq<SocketRead>, later: seq<SocketRead>, cap: nat)
    requires script != [] && cap > 0
    ensures var (ev, left) := NextRead(script, cap); NextRead(script + later, cap) == (ev, left + later)
  {
    assert (script + later)[0] == script[0] && (script + later)[1..] == script[1..] + later;
    if script[0].Data? && |script[0].bytes| > cap {
      var back := [Data(script[0].bytes[cap..])];
      assert back + (script[1..] + later) == (back + script[1..]) + later;
    }
  }

  /** A request that ends with its blank line, within the limit, followed by other
      bytes: however the stream is cut, the upgrade is accepted if and only if the
      request carries a key, and the bytes kept and the bytes unread are what followed.
      Only while the request comes in must the peer not be waited for in vain. */
  lemma UpgradeSplitsStream(first: seq<SocketRead>, later: seq<SocketRead>, request: Buf, wire: Buf)
    requires Undisturbed(first) && Patient(later) && |request| <= |Stream(first)|
    requires Stream(first) + Stream(later) == request + wire
    requires HeadersEnd(request) == Some(|request|) && |request| <= 16385
    ensures var key, up := HeaderValue(HeaderBlock(request), KEY_HEADER), UpgradeOf(first + later);
            && (up.Some? <==> key != [])
            && (up.Some? ==>
                  && up.value.key == key && Patient(up.value.left)
                  && up.value.early + Stream(up.value.left) == wire)
  {
    hide ReadRequest, Stream, HeaderValue, Find;
    var t, rest := Stream(first), Stream(first)[|request|..];
    assert t[..|request|] == (request + wire)[..|request|] == request;
    assert t == request + rest && rest + Stream(later) == wire by {
      assert (request + wire)[|request|..] == wire;
    }
    BlankLineLater(request, rest);
    RequestSplitsStream(first);
    assert [] + t == t;
    RequestRead([], first);
    EndWithin(request);
    var (got, left) := ReadRequest([], first);
    ReadOnlyWhatIsNeeded([], first, later);
    StreamAppend(left, later);
    assert HeaderBlock(got.value) == t[..|request| - 2] == HeaderBlock(request);
    var early := got.value[|request|..];
    assert early + Stream(left) == rest;
    assert early + (Stream(left) + Stream(later)) == rest + Stream(later);
  }
}
