/** What the mobile client saves, for every order in which chunks can arrive. */
module MobileDownload {
  import opened Bytes
  import opened Wrappers
  import opened Protocol
  import opened FileTransfer
  import opened Mobile
  import opened WebSocketProto

  /** What can arrive while a file is being fetched: one of its chunks, the answer
      that there is no such file, or a payload that is about something else. */
  datatype Arrival = Part(idx: nat) | Gone | Other(payload: Buf)

  predicate Possible(a: Arrival, name: Buf, file: Buf) {
    match a
    case Part(idx) => idx < Pieces(file)
    case Gone => true
    case Other(p) => ParseFileData(p).None? || ParseFileData(p).value.name != name
  }

  function PayloadOf(a: Arrival, name: Buf, file: Buf): Buf
    requires Possible(a, name, file)
  {
    match a
    case Part(idx) => ChunkPayload(ChunkAt(name, file, idx))
    case Gone => ChunkPayload(NothingChunk(name))
    case Other(p) => p
  }

  /** The reference: the indices seen since the last copy was completed (or the file
      reported gone), and the copies completed. */
  datatype Progress = Progress(seen: set<nat>, copies: nat)

  predicate Complete(seen: set<nat>, file: Buf) {
    forall i :: 0 <= i < Pieces(file) ==> i in seen
  }

  /** A copy is completed at the first moment all indices have been seen. */
  function Advance(p: Progress, a: Arrival, file: Buf): Progress {
    match a
    case Part(idx) =>
      if Complete(p.seen + {idx}, file) then Progress({}, p.copies + 1) else Progress(p.seen + {idx}, p.copies)
    case Gone => Progress({}, p.copies)
    case Other(_) => p
  }

  function AdvanceAll(p: Progress, arrivals: seq<Arrival>, file: Buf): Progress
    decreases |arrivals|
  {
    if arrivals == [] then p else AdvanceAll(Advance(p, arrivals[0], file), arrivals[1..], file)
  }

  function ReceiveAll(st: Store, arrivals: seq<Arrival>, name: Buf, file: Buf): (r: Store)
    requires Valid(st) && forall a :: a in arrivals ==> Possible(a, name, file)
    ensures Valid(r)
    decreases |arrivals|
  {
    if arrivals == [] then st
    else
      assert arrivals[0] in arrivals;
      ReceiveAll(OnFileData(st, PayloadOf(arrivals[0], name, file)), arrivals[1..], name, file)
  }

  function Copies(file: Buf, n: nat): seq<Buf> { seq(n, i => file) }

  /** The parts held are exactly the pieces seen. */
  ghost predicate Holds(d: Download, seen: set<nat>, file: Buf) {
    && d.total == Pieces(file)
    && d.received == |d.parts| == |seen|
    && Distinct(d.parts)
    && (forall i: nat {:trigger Lookup(d.parts, i)} :: Lookup(d.parts, i).Some? <==> i in seen)
    && (forall i: nat {:trigger Lookup(d.parts, i)} ::
          i in seen ==> i < Pieces(file) && Lookup(d.parts, i) == Some(Piece(file, i)))
  }

  /** The store agrees with the reference. */
  ghost predicate Tracks(st: Store, p: Progress, name: Buf, file: Buf, before: seq<Buf>) {
    && Valid(st)
    && ContentsOf(st.saved, name) == before + Copies(file, p.copies)
    && (if p.seen == {} then name !in st.downloads
        else name in st.downloads && Holds(st.downloads[name], p.seen, file) && !Complete(p.seen, file))
  }

  // ---- counting indices ---------------------------------------------------------

  function Below(n: nat): (r: set<nat>)
    ensures forall i: nat :: i in r <==> i < n
    ensures |r| == n
  {
    if n == 0 then {} else Below(n - 1) + {n - 1}
  }

  lemma SubsetSize(a: set<nat>, b: set<nat>)
    requires a <= b
    ensures |a| <= |b| && (|a| == |b| ==> a == b)
  {
    assert b == a + (b - a);
    if |a| == |b| { assert |b - a| == 0; }
  }

  /** Counting indices is enough to know that all have been seen. */
  lemma CountIsComplete(seen: set<nat>, file: Buf)
    requires forall i :: i in seen ==> i < Pieces(file)
    ensures |seen| >= Pieces(file) <==> Complete(seen, file)
  {
    var all := Below(Pieces(file));
    assert seen <= all;
    SubsetSize(seen, all);
    if Complete(seen, file) {
      forall i | i in all
        ensures i in seen
      {
        assert 0 <= i < Pieces(file);
      }
      assert seen == all;
    }
    if |seen| >= Pieces(file) {
      assert seen == all;
      forall i | 0 <= i < Pieces(file)
        ensures i in seen
      {
        var n: nat := i;
        assert n in all;
      }
    }
  }

  // ---- one arrival -----------------------------------------------------------------

  lemma HoldsMore(d: Download, seen: set<nat>, file: Buf, c: Chunk)
    requires Holds(d, seen, file) && c.idx < Pieces(file) && c.bytes == Piece(file, c.idx)
    ensures Holds(WithChunk(d, c), seen + {c.idx}, file)
  {
    if Lookup(d.parts, c.idx).Some? {
      assert seen + {c.idx} == seen;
    } else {
      OneMoreDistinct(d.parts, c.idx, c.bytes);
      assert c.idx !in seen;
      hide Lookup, Distinct, Piece, Pieces;
      forall i: nat
        ensures Lookup(d.parts + [(c.idx, c.bytes)], i) == if i == c.idx then Some(c.bytes) else Lookup(d.parts, i)
      {
        LookupMore(d.parts, c.idx, c.bytes, i);
      }
      var more := d.parts + [(c.idx, c.bytes)];
      assert WithChunk(d, c) == Download(d.total, more, d.received + 1);
      assert |seen + {c.idx}| == |seen| + 1;
      assert forall i: nat {:trigger Lookup(more, i)} :: Lookup(more, i).Some? <==> i in seen + {c.idx};
      forall i: nat | i in seen + {c.idx}
        ensures i < Pieces(file) && Lookup(more, i) == Some(Piece(file, i))
      {
        if i != c.idx { assert Lookup(d.parts, i).Some?; }
      }
    }
  }

  lemma {:induction false} GatherIsJoined(d: Download, seen: set<nat>, file: Buf, n: nat)
    requires Holds(d, seen, file) && Complete(seen, file) && n <= Pieces(file)
    ensures Gather(d.parts, n) == Joined(file, n)
  {
    hide Lookup, Distinct;
    if n > 0 { GatherIsJoined(d, seen, file, n - 1); }
  }

  lemma MergedIsFile(d: Download, seen: set<nat>, file: Buf)
    requires Holds(d, seen, file) && Complete(seen, file)
    ensures Merged(d.parts, d.total) == file
  {
    GatherIsJoined(d, seen, file, Pieces(file));
    JoinedIsFile(file);
    GatherFits(d.parts, d.total);
    hide Lookup, Distinct, Gather, SumLen;
    assert file + [] == file;
  }

  lemma PartTracks(st: Store, p: Progress, idx: nat, name: Buf, file: Buf, before: seq<Buf>)
    requires Tracks(st, p, name, file, before) && Sendable(name, file) && idx < Pieces(file)
    ensures Tracks(OnFileData(st, ChunkPayload(ChunkAt(name, file, idx))), Advance(p, Part(idx), file), name, file, before)
  {
    hide ParseFileData, ChunkPayload, Merged, Lookup, Distinct, Piece, ContentsOf;
    var c := ChunkAt(name, file, idx);
    ChunkIsSmall(name, file, idx);
    ChunkRoundTrip(c);
    TotalIsPieces(file);
    var d0 := if name in st.downloads then st.downloads[name] else Download(Pieces(file), [], 0);
    if p.seen == {} { EmptyHolds(file); }
    var d, seen := WithChunk(d0, c), p.seen + {idx};
    HoldsMore(d0, p.seen, file, c);
    assert forall i :: i in seen ==> i < Pieces(file) by { SeenBelow(d, seen, file); }
    CountIsComplete(seen, file);
    if Complete(seen, file) {
      MergedIsFile(d, seen, file);
      ContentsMore(st.saved, name, file, name);
      assert before + Copies(file, p.copies) + [file] == before + Copies(file, p.copies + 1);
    }
  }

  lemma SeenBelow(d: Download, seen: set<nat>, file: Buf)
    requires Holds(d, seen, file)
    ensures forall i :: i in seen ==> i < Pieces(file)
  {
    forall i | i in seen
      ensures i < Pieces(file)
    {
      assert Lookup(d.parts, i).Some?;
    }
  }

  lemma EmptyHolds(file: Buf)
    ensures Holds(Download(Pieces(file), [], 0), {}, file)
  {
  }

  lemma GoneTracks(st: Store, p: Progress, name: Buf, file: Buf, before: seq<Buf>)
    requires Tracks(st, p, name, file, before) && |name| <= 255
    ensures Tracks(OnFileData(st, ChunkPayload(NothingChunk(name))), Advance(p, Gone, file), name, file, before)
  {
    hide ParseFileData, ChunkPayload, Merged, Lookup, Distinct, ContentsOf;
    ChunkRoundTrip(NothingChunk(name));
  }

  lemma OtherTracks(st: Store, p: Progress, payload: Buf, name: Buf, file: Buf, before: seq<Buf>)
    requires Tracks(st, p, name, file, before) && Possible(Other(payload), name, file)
    ensures Tracks(OnFileData(st, payload), p, name, file, before)
  {
    hide ParseFileData, Merged, Lookup, Distinct, ContentsOf, Holds;
    var c := ParseFileData(payload);
    if c.Some? && c.value.total != 0 {
      var d0 := if c.value.name in st.downloads then st.downloads[c.value.name] else Download(c.value.total, [], 0);
      var d := WithChunk(d0, c.value);
      if d.received >= d.total {
        assert Valid(OnFileData(st, payload));
        var after := OnFileData(st, payload).saved;
        var bytes := after[|after| - 1].1;
        assert after == st.saved + [(c.value.name, bytes)];
        ContentsMore(st.saved, c.value.name, bytes, name);
      }
    }
  }

  lemma ArrivalTracks(st: Store, p: Progress, a: Arrival, name: Buf, file: Buf, before: seq<Buf>)
    requires Tracks(st, p, name, file, before) && Sendable(name, file) && Possible(a, name, file)
    ensures Tracks(OnFileData(st, PayloadOf(a, name, file)), Advance(p, a, file), name, file, before)
  {
    hide Tracks;
    match a
    case Part(idx) => PartTracks(st, p, idx, name, file, before);
    case Gone => GoneTracks(st, p, name, file, before);
    case Other(payload) => OtherTracks(st, p, payload, name, file, before);
  }

  lemma {:induction false} ArrivalsTrack(st: Store, p: Progress, arrivals: seq<Arrival>, name: Buf, file: Buf,
                                         before: seq<Buf>)
    requires Tracks(st, p, name, file, before) && Sendable(name, file)
    requires forall a :: a in arrivals ==> Possible(a, name, file)
    ensures Tracks(ReceiveAll(st, arrivals, name, file), AdvanceAll(p, arrivals, file), name, file, before)
    decreases |arrivals|
  {
    hide Possible, OnFileData, Advance;
    if arrivals != [] {
      assert arrivals[0] in arrivals;
      assert Valid(st);
      ArrivalTracks(st, p, arrivals[0], name, file, before);
      ArrivalsTrack(OnFileData(st, PayloadOf(arrivals[0], name, file)), Advance(p, arrivals[0], file), arrivals[1..],
                    name, file, before);
    }
  }

  /** Mobile download: for every file and every sequence of arrivals, in any order,
      with repeats, with chunks of other files and with "no such file" answers in
      between, the copies saved under the name are exactly as many as the reference
      has completed, each completed at the first moment all indices had been seen,
      and each is the file, byte for byte. */
  lemma DownloadIsExact(st: Store, arrivals: seq<Arrival>, name: Buf, file: Buf)
    requires Valid(st) && name !in st.downloads && Sendable(name, file)
    requires forall a :: a in arrivals ==> Possible(a, name, file)
    ensures ContentsOf(ReceiveAll(st, arrivals, name, file).saved, name)
            == ContentsOf(st.saved, name) + Copies(file, AdvanceAll(Progress({}, 0), arrivals, file).copies)
  {
    hide ReceiveAll, ContentsOf, AdvanceAll, Possible;
    var before := ContentsOf(st.saved, name);
    assert before + Copies(file, 0) == before;
    ArrivalsTrack(st, Progress({}, 0), arrivals, name, file, before);
  }

  // ---- the first copy -------------------------------------------------------------

  /** The indices among some arrivals. */
  function Indices(arrivals: seq<Arrival>): set<nat> {
    if arrivals == [] then {}
    else
      var last := arrivals[|arrivals| - 1];
      Indices(arrivals[..|arrivals| - 1]) + (if last.Part? then {last.idx} else {})
  }

  lemma {:induction false} AdvanceMore(p: Progress, arrivals: seq<Arrival>, a: Arrival, file: Buf)
    ensures AdvanceAll(p, arrivals + [a], file) == Advance(AdvanceAll(p, arrivals, file), a, file)
    decreases |arrivals|
  {
    hide Advance;
    if arrivals == [] {
      assert (arrivals + [a])[1..] == [];
    } else {
      assert (arrivals + [a])[1..] == arrivals[1..] + [a];
      AdvanceMore(Advance(p, arrivals[0], file), arrivals[1..], a, file);
    }
  }

  /** While some index is still missing the reference has completed nothing; the
      arrival that supplies the last one completes the first copy. */
  lemma {:induction false} FirstCopy(arrivals: seq<Arrival>, file: Buf)
    requires forall a :: a in arrivals ==> !a.Gone?
    requires file != []
    ensures !Complete(Indices(arrivals), file) ==>
              AdvanceAll(Progress({}, 0), arrivals, file) == Progress(Indices(arrivals), 0)
    ensures arrivals != [] && !Complete(Indices(arrivals[..|arrivals| - 1]), file) ==>
              Complete(Indices(arrivals), file) ==>
              AdvanceAll(Progress({}, 0), arrivals, file) == Progress({}, 1)
    decreases |arrivals|
  {
    if arrivals != [] {
      var front, a := arrivals[..|arrivals| - 1], arrivals[|arrivals| - 1];
      assert a in arrivals;
      assert arrivals == front + [a];
      FirstCopy(front, file);
      AdvanceMore(Progress({}, 0), front, a, file);
      if Complete(Indices(front), file) { assert Complete(Indices(arrivals), file); }
    }
  }

  /** The same on the store, in the absence of "no such file" answers: while an index is
      missing nothing is saved under the name, and the arrival that supplies the last one
      saves exactly the file, once. */
  lemma SavedWhenComplete(st: Store, arrivals: seq<Arrival>, name: Buf, file: Buf)
    requires Valid(st) && name !in st.downloads && Sendable(name, file)
    requires forall a :: a in arrivals ==> Possible(a, name, file) && !a.Gone?
    ensures var before, after := ContentsOf(st.saved, name), ContentsOf(ReceiveAll(st, arrivals, name, file).saved, name);
            var now := Complete(Indices(arrivals), file);
            && (!now ==> after == before)
            && (arrivals != [] && !Complete(Indices(arrivals[..|arrivals| - 1]), file) && now ==> after == before + [file])
  {
    hide ReceiveAll, ContentsOf, AdvanceAll, Possible, Indices;
    DownloadIsExact(st, arrivals, name, file);
    if file != [] {
      FirstCopy(arrivals, file);
    } else {
      assert forall seen :: Complete(seen, file);
    }
  }

  // ---- which files are saved at all ---------------------------------------------------

  /** Every chunk that `sendFile` sends for the file is among the arrivals. */
  predicate AllCame(arrivals: seq<Arrival>, name: Buf, file: Buf)
    requires forall a :: a in arrivals ==> Possible(a, name, file)
  {
    forall c :: c in Chunks(name, file) ==> exists a :: a in arrivals && PayloadOf(a, name, file) == ChunkPayload(c)
  }

  /** A payload that carries a chunk of the file can only have arrived as that chunk. */
  lemma OnlyThatChunk(a: Arrival, name: Buf, file: Buf, idx: nat)
    requires Sendable(name, file) && Possible(a, name, file) && idx < Pieces(file)
    requires PayloadOf(a, name, file) == ChunkPayload(ChunkAt(name, file, idx))
    ensures a == Part(idx)
  {
    hide ParseFileData, ChunkPayload, Piece, Pieces;
    ChunkIsSmall(name, file, idx);
    ChunkRoundTrip(ChunkAt(name, file, idx));
    ChunkRoundTrip(NothingChunk(name));
    TotalIsPieces(file);
    if a.Part? {
      ChunkIsSmall(name, file, a.idx);
      ChunkRoundTrip(ChunkAt(name, file, a.idx));
    }
  }

  lemma {:induction false} InIndices(arrivals: seq<Arrival>, idx: nat)
    requires Part(idx) in arrivals
    ensures idx in Indices(arrivals)
    decreases |arrivals|
  {
    var front, last := arrivals[..|arrivals| - 1], arrivals[|arrivals| - 1];
    assert arrivals == front + [last];
    if last != Part(idx) { InIndices(front, idx); }
  }

  /** When all chunks of a file have come, so have all its indices; for an empty file, the answer "no such file". */
  lemma AllCameIs(arrivals: seq<Arrival>, name: Buf, file: Buf)
    requires Sendable(name, file)
    requires forall a :: a in arrivals ==> Possible(a, name, file)
    requires AllCame(arrivals, name, file)
    ensures if file == [] then Gone in arrivals else Complete(Indices(arrivals), file)
  {
    hide ChunkPayload, ParseFileData, Piece, Indices;
    TotalIsPieces(file);
    JoinedIsFile(file);
    if file == [] {
      assert NothingChunk(name) in Chunks(name, file);
      var a :| a in arrivals && PayloadOf(a, name, file) == ChunkPayload(NothingChunk(name));
      ChunkRoundTrip(NothingChunk(name));
    } else {
      forall i | 0 <= i < Pieces(file)
        ensures i in Indices(arrivals)
      {
        assert ChunkAt(name, file, i) == Chunks(name, file)[i];
        var a :| a in arrivals && PayloadOf(a, name, file) == ChunkPayload(ChunkAt(name, file, i));
        OnlyThatChunk(a, name, file, i);
        InIndices(arrivals, i);
      }
    }
  }

  /** Once every index has come, at least one copy has been completed. */
  lemma {:induction false} SomeCopy(arrivals: seq<Arrival>, file: Buf)
    requires forall a :: a in arrivals ==> !a.Gone?
    requires file != [] && Complete(Indices(arrivals), file)
    ensures AdvanceAll(Progress({}, 0), arrivals, file).copies >= 1
    decreases |arrivals|
  {
    hide Complete, AdvanceAll;
    assert arrivals != [] by { MissingAtFirst(file); }
    var front, a := arrivals[..|arrivals| - 1], arrivals[|arrivals| - 1];
    assert arrivals == front + [a];
    if Complete(Indices(front), file) {
      SomeCopy(front, file);
      AdvanceMore(Progress({}, 0), front, a, file);
    } else {
      FirstCopy(arrivals, file);
    }
  }

  lemma MissingAtFirst(file: Buf)
    requires file != []
    ensures !Complete(Indices([]), file)
  {
    assert 0 !in Indices([]);
  }

  /** For an empty file no copy is ever completed: the terminal has only the answer "no such file" for it. */
  lemma {:induction false} NoCopy(arrivals: seq<Arrival>, name: Buf)
    requires forall a :: a in arrivals ==> Possible(a, name, [])
    ensures AdvanceAll(Progress({}, 0), arrivals, []) == Progress({}, 0)
    decreases |arrivals|
  {
    if arrivals != [] {
      assert arrivals[0] in arrivals;
      assert Pieces([]) == 0;
      NoCopy(arrivals[1..], name);
    }
  }

  /** Every "no such file" is reported. */
  lemma {:induction false} GoneIsReported(st: Store, arrivals: seq<Arrival>, name: Buf, file: Buf)
    requires Valid(st) && |name| <= 255
    requires forall a :: a in arrivals ==> Possible(a, name, file)
    ensures var r := ReceiveAll(st, arrivals, name, file);
            st.missing <= r.missing && (Gone in arrivals ==> name in r.missing[|st.missing|..])
    decreases |arrivals|
  {
    hide ParseFileData, ChunkPayload, Possible, Merged;
    if arrivals != [] {
      assert arrivals[0] in arrivals;
      var next := OnFileData(st, PayloadOf(arrivals[0], name, file));
      GoneIsReported(next, arrivals[1..], name, file);
      var r := ReceiveAll(next, arrivals[1..], name, file);
      assert r == ReceiveAll(st, arrivals, name, file);
      if arrivals[0] == Gone {
        ChunkRoundTrip(NothingChunk(name));
        assert next.missing == st.missing + [name];
        assert r.missing[|st.missing|] == name;
      }
      if Gone in arrivals[1..] {
        var k :| 0 <= k < |r.missing[|next.missing|..]| && r.missing[|next.missing|..][k] == name;
        assert r.missing[|next.missing| + k] == name;
      }
    }
  }

  /** What the client saves, decided by the file alone: let every chunk that the
      terminal sends for a file arrive, in any order, with repeats and among the chunks
      of other files. The client saves it if and only if it is not empty; an empty
      one is reported as missing instead. */
  lemma SavedIff(st: Store, arrivals: seq<Arrival>, name: Buf, file: Buf)
    requires Valid(st) && name !in st.downloads && Sendable(name, file)
    requires forall a :: a in arrivals ==> Possible(a, name, file)
    requires AllCame(arrivals, name, file) && (Gone in arrivals ==> file == [])
    ensures var r := ReceiveAll(st, arrivals, name, file);
            && (|ContentsOf(r.saved, name)| > |ContentsOf(st.saved, name)| <==> file != [])
            && st.missing <= r.missing
            && (file == [] ==> name in r.missing[|st.missing|..])
  {
    hide ReceiveAll, ContentsOf, AdvanceAll, Possible, AllCame, Indices, Complete;
    DownloadIsExact(st, arrivals, name, file);
    AllCameIs(arrivals, name, file);
    GoneIsReported(st, arrivals, name, file);
    if file == [] {
      NoCopy(arrivals, name);
    } else {
      SomeCopy(arrivals, file);
    }
  }

  /** What a chunk does to a download in progress: its total stays that of the first chunk,
      a part that is there is kept as it is, and a new part is added once. */
  lemma PartsAreKept(st: Store, payload: Buf, i: nat)
    requires Valid(st) && ParseFileData(payload).Some?
    requires var c := ParseFileData(payload).value;
             c.total != 0 && c.name in st.downloads && c.name in OnFileData(st, payload).downloads
    ensures var c := ParseFileData(payload).value;
            var was, now := st.downloads[c.name], OnFileData(st, payload).downloads[c.name];
            && now.total == was.total
            && (Lookup(was.parts, i).Some? ==> Lookup(now.parts, i) == Lookup(was.parts, i))
            && (Lookup(was.parts, i).None? ==> Lookup(now.parts, i) == if i == c.idx then Some(c.bytes) else None)
            && now.received == was.received + (if Lookup(was.parts, c.idx).None? then 1 else 0)
  {
    hide ParseFileData, Merged, Lookup;
    var c := ParseFileData(payload).value;
    LookupMore(st.downloads[c.name].parts, c.idx, c.bytes, i);
  }

  // ---- from the terminal's message to the client's handler -------------------------

  /** `onMessage`, as far as downloads go: one whole SEC1 message in one WebSocket message. */
  function OnMessage(st: Store, data: Buf): Store
    requires Valid(st)
  {
    match DecodeHeader(data)
    case None => st
    case Some(h) =>
      var end := HEADER_SIZE + h.length;
      if h.typ != FILE_DATA then st
      else OnFileData(st, if end <= |data| then data[HEADER_SIZE..end] else data[HEADER_SIZE..])
  }

  /** A chunk that the terminal sends as one binary frame reaches the download logic unchanged. */
  lemma ChunkReachesClient(st: Store, name: Buf, file: Buf, idx: nat, tail: Buf)
    requires Valid(st) && Sendable(name, file) && idx < Pieces(file)
    ensures var msg := Build(ChunkMsg(ChunkAt(name, file, idx)));
            && Decode(Encoded(OP_BINARY, msg) + tail, MAX_PAYLOAD, false)
               == Ok(Frame(OP_BINARY, true, msg), |Encoded(OP_BINARY, msg)|)
            && OnMessage(st, msg) == OnFileData(st, ChunkPayload(ChunkAt(name, file, idx)))
  {
    hide Build, Decode, Encoded, DecodeHeader, OnFileData, ChunkPayload;
    var m := ChunkMsg(ChunkAt(name, file, idx));
    ChunkIsSmall(name, file, idx);
    BuildParts(m, []);
    HeaderRoundTrip(m, []);
    assert Build(m) + [] == Build(m);
    ServerFrameRoundTrip(OP_BINARY, Build(m), tail);
  }
}
