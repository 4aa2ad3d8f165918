/** The PC client: cutting the TCP stream into messages, and reassembling downloads
    in the order in which their chunks arrive. */
module PcClient {
  import opened Bytes
  import opened Protocol
  import opened Sec1
  import opened Streaming
  import opened FileTransfer
  import opened SessionStream

  datatype Download = Download(total: nat, received: nat, bytes: Buf)

  /** Running downloads by name, every `fileDownloaded` signal, and every message
      ever passed to `handleMessage`, in order. */
  datatype Pc = Pc(downloads: map<Buf, Download>, emitted: seq<(Buf, Buf)>, handled: seq<Msg>)

  /** `handleFileData`. */
  function HandleFileData(s: Pc, payload: Buf): Pc {
    match ParseFileData(payload)
    case None => s
    case Some(c) =>
      if c.total == 0 then s.(downloads := s.downloads - {c.name}, emitted := s.emitted + [(c.name, [])])
      else
        var d0 := if c.name in s.downloads then s.downloads[c.name] else Download(0, 0, []);
        var d := Download(if d0.total == 0 then c.total else d0.total, d0.received + 1, d0.bytes + c.bytes);
        if d.received >= d.total then s.(downloads := s.downloads - {c.name}, emitted := s.emitted + [(c.name, d.bytes)])
        else s.(downloads := s.downloads[c.name := d])
  }

  /** `handleMessage`; of its effects only those on downloads are looked into. */
  function HandleMsg(s: Pc, m: Msg): Pc {
    var t := s.(handled := s.handled + [m]);
    if m.typ == FILE_DATA then HandleFileData(t, m.payload) else t
  }

  function HandleAll(s: Pc, ms: seq<Msg>): Pc
    decreases |ms|
  {
    if ms == [] then s else HandleAll(HandleMsg(s, ms[0]), ms[1..])
  }

  /** One turn of the loop in `processBuffer`. */
  function PcNext(s: Pc, buf: Buf): Next<Pc> {
    match FrontOf(buf, PC_CAP)
    case Partial => Wait
    case BadMagic => Halt(s, 0)
    case Oversize => Halt(s, 0)
    case Whole(m, used) => Go(HandleMsg(s, m), used)
  }

  lemma PcIncremental()
    ensures Incremental(PcNext)
  {
    hide FrontOf, HandleMsg;
    forall s, a: Buf, b: Buf | !PcNext(s, a).Wait?
      ensures PcNext(s, a + b) == PcNext(s, a)
    {
      FrontStable(a, b, PC_CAP);
    }
  }

  ghost function Process(s: Pc, buf: Buf): Outcome<Pc> {
    PcIncremental();
    Run(PcNext, s, buf)
  }

  lemma ProcessOne(s: Pc, buf: Buf)
    ensures var f := FrontOf(buf, PC_CAP);
            && (f.Partial? ==> Process(s, buf) == Outcome(s, buf, false))
            && (f.BadMagic? || f.Oversize? ==> Process(s, buf) == Outcome(s, buf, true))
            && (f.Whole? ==> Process(s, buf) == Process(HandleMsg(s, f.m), buf[f.used..]))
  {
    hide FrontOf, HandleMsg;
    PcIncremental();
    assert buf[0..] == buf;
  }

  lemma HandledOne(s: Pc, m: Msg)
    ensures HandleMsg(s, m).handled == s.handled + [m]
  {
  }

  lemma {:induction false} AllHandled(s: Pc, ms: seq<Msg>)
    ensures HandleAll(s, ms).handled == s.handled + ms
    decreases |ms|
  {
    hide HandleMsg;
    if ms == [] {
      assert s.handled + [] == s.handled;
    } else {
      HandledOne(s, ms[0]);
      AllHandled(HandleMsg(s, ms[0]), ms[1..]);
      assert (s.handled + [ms[0]]) + ms[1..] == s.handled + ms;
    }
  }

  /** The loop passes every whole message of the stream to `handleMessage`, in order
      and once each, and gives up exactly on a bad magic or an oversize header. */
  lemma {:induction false} ProcessIsBatch(s: Pc, buf: Buf)
    ensures Process(s, buf).s == HandleAll(s, Messages(buf, PC_CAP))
    ensures Process(s, buf).s.handled == s.handled + Messages(buf, PC_CAP)
    ensures Process(s, buf).halted <==> Stops(buf, PC_CAP)
    decreases |buf|
  {
    hide FrontOf, HandleMsg, Process, Stops;
    AllHandled(s, Messages(buf, PC_CAP));
    ProcessOne(s, buf);
    StopsIff(buf, PC_CAP);
    var f := FrontOf(buf, PC_CAP);
    if f.Whole? {
      StopsIff(buf[f.used..], PC_CAP);
      ProcessIsBatch(HandleMsg(s, f.m), buf[f.used..]);
      assert ([f.m] + Messages(buf[f.used..], PC_CAP))[1..] == Messages(buf[f.used..], PC_CAP);
    }
  }

  /** The client reading a stream piece by piece. */
  ghost function ReadAll(s: Pc, pieces: seq<Buf>): Outcome<Pc> {
    PcIncremental();
    Feed(PcNext, Outcome(s, [], false), pieces)
  }

  lemma NoFront()
    ensures FrontOf([], PC_CAP).Partial?
  {
  }

  /** However TCP cuts the stream, also one that ends in a bad magic or an oversize
      header, the messages handled and the verdict are those of the bytes. */
  lemma ReadsAnyCut(s: Pc, pieces: seq<Buf>)
    ensures var o, whole := ReadAll(s, pieces), Flatten(pieces);
            && o.s == HandleAll(s, Messages(whole, 0x400_0000))
            && o.s.handled == s.handled + Messages(whole, 0x400_0000)
            && (o.halted <==> Stops(whole, 0x400_0000))
  {
    hide FrontOf, Messages, Stops, HandleAll, HandleMsg;
    PcIncremental();
    assert FrontOf([], PC_CAP).Partial? by { NoFront(); }
    assert [] + Flatten(pieces) == Flatten(pieces);
    FeedIsRun(PcNext, s, [], pieces);
    ProcessIsBatch(s, Flatten(pieces));
  }

  /** The terminal behind an open gate and the PC client dispatch the same messages
      and come to the same verdict, however each of them gets the stream cut, on
      every stream without an oversize message for the terminal. */
  lemma SameMessagesAsTerminal(token: Buf, pc: Pc, terminalCut: seq<Buf>, pcCut: seq<Buf>)
    requires Flatten(terminalCut) == Flatten(pcCut)
    requires var t := Leftover(Flatten(pcCut), TERMINAL_CAP); MagicRight(t) ==> Announced(t) <= TERMINAL_CAP
    ensures var t, p := ReceiveFrom(Sess(token, true, []), terminalCut), ReadAll(pc, pcCut);
            && p.s.handled == pc.handled + t.s.handled
            && p.s == HandleAll(pc, t.s.handled)
            && p.halted == t.halted
  {
    hide FrontOf, Messages, After, ParseFrom, ReadAll, ReceiveFrom, HandleAll, Stops, Leftover;
    var buf := Flatten(pcCut);
    StopsIff(buf, TERMINAL_CAP);
    StopsIff(buf, PC_CAP);
    AnyCutFrom(Sess(token, true, []), terminalCut);
    OpenGate(Sess(token, true, []), buf);
    ReadsAnyCut(pc, pcCut);
    CapsAgree(buf, TERMINAL_CAP, PC_CAP);
    assert [] + Messages(buf, TERMINAL_CAP) == Messages(buf, TERMINAL_CAP);
  }

  /** What a chunk does to the download of its name, in progress or new: the total is that of
      the first chunk, the bytes are appended, and when as many chunks have come as that
      total says the file is announced and forgotten. Other downloads are left alone. */
  lemma ChunkAdvances(s: Pc, payload: Buf)
    requires ParseFileData(payload).Some? && ParseFileData(payload).value.total != 0
    requires forall n :: n in s.downloads ==> s.downloads[n].total != 0
    ensures var c, r := ParseFileData(payload).value, HandleFileData(s, payload);
            var was := if c.name in s.downloads then s.downloads[c.name] else Download(c.total, 0, []);
            && (was.received + 1 < was.total ==>
                  && c.name in r.downloads && r.emitted == s.emitted
                  && r.downloads[c.name] == Download(was.total, was.received + 1, was.bytes + c.bytes))
            && (was.received + 1 >= was.total ==>
                  c.name !in r.downloads && r.emitted == s.emitted + [(c.name, was.bytes + c.bytes)])
            && (forall n :: n != c.name ==> (n in r.downloads <==> n in s.downloads))
            && (forall n :: n != c.name && n in s.downloads ==> r.downloads[n] == s.downloads[n])
  {
    hide ParseFileData;
    assert [] + ParseFileData(payload).value.bytes == ParseFileData(payload).value.bytes;
  }

  // ---- the client object ---------------------------------------------------------

  class TcpClient {
    var rx: Buf
    var downloads: map<Buf, Download>
    var emitted: seq<(Buf, Buf)>

    /** Every message passed to `HandleMessage`, in order. */
    var handled: seq<Msg>
    var aborted: bool

    constructor ()
      ensures State() == Outcome(Pc(map[], [], []), [], false)
    {
      rx, downloads, emitted, handled, aborted := [], map[], [], [], false;
    }

    function State(): Outcome<Pc>
      reads this
    {
      Outcome(Pc(downloads, emitted, handled), rx, aborted)
    }

    /** New bytes from the socket. */
    method OnReadyRead(bytes: Buf)
      requires !aborted
      modifies this
      ensures var o := Process(old(State()).s, old(rx) + bytes);
              State().s == o.s && aborted == o.halted && (!aborted ==> rx == o.rest)
    {
      rx := rx + bytes;
      ProcessBuffer();
    }

    method ProcessBuffer()
      requires !aborted
      modifies this
      ensures var o := Process(old(State()).s, old(rx));
              State().s == o.s && aborted == o.halted && (!aborted ==> rx == o.rest)
    {
      hide FrontOf, HandleFileData, Process;
      var off := 0;
      ghost var whole := Process(State().s, rx);
      assert rx[0..] == rx;
      while true
        invariant off <= |rx| && rx == old(rx) && !aborted
        invariant whole == Process(State().s, rx[off..])
        decreases |rx| - off
      {
        var f := FrontOf(rx[off..], PC_CAP);
        ProcessOne(State().s, rx[off..]);
        if f.Partial? { break; }
        if f.BadMagic? || f.Oversize? {
          aborted := true;
          return;
        }
        assert rx[off..][f.used..] == rx[off + f.used..];
        HandleMessage(f.m);
        off := off + f.used;
      }
      if off > 0 { rx := rx[off..]; }
    }

    /** The switch over message types. */
    method HandleMessage(m: Msg)
      modifies this`downloads, this`emitted, this`handled
      ensures State().s == HandleMsg(old(State()).s, m)
    {
      hide HandleFileData;
      handled := handled + [m];
      if m.typ == FILE_DATA { ReceiveFileData(m.payload); }
    }

    method ReceiveFileData(payload: Buf)
      modifies this`downloads, this`emitted
      ensures State().s == HandleFileData(old(State()).s, payload)
    {
      hide ParseFileData;
      ghost var was := downloads;
      var chunk := ParseFileData(payload);
      if chunk.None? { return; }
      var c := chunk.value;
      if c.total == 0 {
        emitted := emitted + [(c.name, [])];
        downloads := downloads - {c.name};
        return;
      }
      var d := if c.name in downloads then downloads[c.name] else Download(0, 0, []);
      if d.total == 0 { d := d.(total := c.total); }
      d := d.(bytes := d.bytes + c.bytes);
      d := d.(received := d.received + 1);
      downloads := downloads[c.name := d];
      if d.received >= d.total {
        emitted := emitted + [(c.name, d.bytes)];
        assert downloads - {c.name} == was - {c.name};
        downloads := downloads - {c.name};
      }
    }
  }

  // ---- downloads ---------------------------------------------------------------

  /** A message is a chunk of the file of this name. */
  predicate Concerns(m: Msg, name: Buf) {
    m.typ == FILE_DATA && ParseFileData(m.payload).Some? && ParseFileData(m.payload).value.name == name
  }

  /** The chunks for one name among some messages. */
  function About(ms: seq<Msg>, name: Buf): seq<Msg> {
    if ms == [] then [] else (if Concerns(ms[0], name) then [ms[0]] else []) + About(ms[1..], name)
  }

  /** The messages that `sendFile` sends for a file. */
  function FileMsgs(name: Buf, file: Buf): seq<Msg> {
    var cs := Chunks(name, file);
    seq(|cs|, i requires 0 <= i < |cs| => ChunkMsg(cs[i]))
  }

  /** After `k` chunks: nothing yet, or exactly the first `k` pieces joined. */
  predicate Halfway(s: Pc, name: Buf, file: Buf, k: nat)
    requires k <= Pieces(file)
  {
    if k == 0 then name !in s.downloads
    else name in s.downloads && s.downloads[name] == Download(Pieces(file), k, Joined(file, k))
  }

  /** A message that is not about a name changes nothing about it. */
  lemma Unconcerned(s: Pc, m: Msg, name: Buf)
    requires !Concerns(m, name)
    ensures var r := HandleMsg(s, m);
            && ContentsOf(r.emitted, name) == ContentsOf(s.emitted, name)
            && (name in r.downloads <==> name in s.downloads)
            && (name in s.downloads ==> r.downloads[name] == s.downloads[name])
  {
    hide ParseFileData, ContentsOf;
    var r := HandleMsg(s, m);
    if |r.emitted| > |s.emitted| {
      var (other, bytes) := r.emitted[|s.emitted|];
      assert r.emitted == s.emitted + [(other, bytes)];
      ContentsMore(s.emitted, other, bytes, name);
    }
  }

  lemma {:induction false} AllUnconcerned(s: Pc, ms: seq<Msg>, name: Buf)
    requires About(ms, name) == []
    ensures ContentsOf(HandleAll(s, ms).emitted, name) == ContentsOf(s.emitted, name)
    ensures name in HandleAll(s, ms).downloads <==> name in s.downloads
    decreases |ms|
  {
    hide Concerns, HandleMsg, ContentsOf;
    if ms != [] {
      Unconcerned(s, ms[0], name);
      AllUnconcerned(HandleMsg(s, ms[0]), ms[1..], name);
    }
  }

  /** The next chunk in order advances the download, and the last one completes it. */
  lemma NextChunk(s: Pc, name: Buf, file: Buf, k: nat)
    requires Sendable(name, file) && k < Pieces(file) && Halfway(s, name, file, k)
    ensures var r := HandleMsg(s, ChunkMsg(ChunkAt(name, file, k)));
            && Concerns(ChunkMsg(ChunkAt(name, file, k)), name)
            && (k + 1 < Pieces(file) ==> Halfway(r, name, file, k + 1) && r.emitted == s.emitted)
            && (k + 1 == Pieces(file) ==> name !in r.downloads && r.emitted == s.emitted + [(name, file)])
  {
    hide ParseFileData, ChunkPayload, Piece, Pieces, Total;
    ChunkIsSmall(name, file, k);
    ChunkRoundTrip(ChunkAt(name, file, k));
    JoinedIsFile(file);
    TotalIsPieces(file);
    assert k == 0 ==> Joined(file, 0) == [] && Joined(file, 1) == [] + Piece(file, 0);
  }

  lemma {:induction false} RestOfFile(s: Pc, ms: seq<Msg>, name: Buf, file: Buf, k: nat)
    requires Sendable(name, file) && k < Pieces(file) && Halfway(s, name, file, k)
    requires Pieces(file) == |FileMsgs(name, file)| && About(ms, name) == FileMsgs(name, file)[k..]
    requires forall i :: 0 <= i < Pieces(file) ==> FileMsgs(name, file)[i] == ChunkMsg(ChunkAt(name, file, i))
    ensures ContentsOf(HandleAll(s, ms).emitted, name) == ContentsOf(s.emitted, name) + [file]
    ensures name !in HandleAll(s, ms).downloads
    decreases |ms|
  {
    hide Concerns, HandleMsg, ContentsOf, Pieces, FileMsgs, ChunkMsg, ChunkAt;
    var all := FileMsgs(name, file);
    assert ms != [] by { assert |all[k..]| > 0; }
    var m, s' := ms[0], HandleMsg(s, ms[0]);
    if Concerns(m, name) {
      assert m == About(ms, name)[0] == all[k];
      assert About(ms[1..], name) == About(ms, name)[1..] == all[k + 1..];
      NextChunk(s, name, file, k);
      if k + 1 < Pieces(file) {
        RestOfFile(s', ms[1..], name, file, k + 1);
      } else {
        ContentsMore(s.emitted, name, file, name);
        AllUnconcerned(s', ms[1..], name);
      }
    } else {
      assert About(ms[1..], name) == About(ms, name);
      Unconcerned(s, m, name);
      RestOfFile(s', ms[1..], name, file, k);
    }
  }

  lemma {:induction false} NothingFile(s: Pc, ms: seq<Msg>, name: Buf)
    requires |name| <= 255 && name !in s.downloads && About(ms, name) == [ChunkMsg(NothingChunk(name))]
    ensures ContentsOf(HandleAll(s, ms).emitted, name) == ContentsOf(s.emitted, name) + [[]]
    ensures name !in HandleAll(s, ms).downloads
    decreases |ms|
  {
    hide ParseFileData, ChunkPayload, ContentsOf;
    var m, s' := ms[0], HandleMsg(s, ms[0]);
    if Concerns(m, name) {
      assert m == About(ms, name)[0];
      assert About(ms[1..], name) == About(ms, name)[1..] == [];
      ChunkRoundTrip(NothingChunk(name));
      ContentsMore(s.emitted, name, [], name);
      AllUnconcerned(s', ms[1..], name);
    } else {
      assert About(ms[1..], name) == About(ms, name);
      Unconcerned(s, m, name);
      NothingFile(s', ms[1..], name);
    }
  }

  lemma FileMsgsAre(name: Buf, file: Buf)
    requires Sendable(name, file)
    ensures file == [] ==> FileMsgs(name, file) == [ChunkMsg(NothingChunk(name))]
    ensures file != [] ==>
              && |FileMsgs(name, file)| == Pieces(file) > 0
              && forall i :: 0 <= i < Pieces(file) ==> FileMsgs(name, file)[i] == ChunkMsg(ChunkAt(name, file, i))
  {
    hide ChunkMsg, ChunkAt;
    JoinedIsFile(file);
    TotalIsPieces(file);
  }

  /** In whatever company the chunks of a file arrive, as long as they arrive in
      order, the file is announced exactly once, byte for byte; an empty file too. */
  lemma FileIsEmittedOnce(s: Pc, ms: seq<Msg>, name: Buf, file: Buf)
    requires Sendable(name, file) && name !in s.downloads
    requires About(ms, name) == FileMsgs(name, file)
    ensures ContentsOf(HandleAll(s, ms).emitted, name) == ContentsOf(s.emitted, name) + [file]
    ensures name !in HandleAll(s, ms).downloads
  {
    hide ContentsOf, HandleAll, About, FileMsgs;
    FileMsgsAre(name, file);
    if file == [] {
      NothingFile(s, ms, name);
    } else {
      assert FileMsgs(name, file)[0..] == FileMsgs(name, file);
      RestOfFile(s, ms, name, file, 0);
    }
  }

  /** PC download, from the socket up: whatever messages the terminal sends around
      the chunks of a file (video frames, file lists, other downloads), and however
      TCP cuts the bytes, the client announces the file exactly once, under its name
      and byte for byte, and reports no protocol error. */
  lemma DownloadOverTcp(s: Pc, pieces: seq<Buf>, ms: seq<Msg>, name: Buf, file: Buf)
    requires Flatten(pieces) == BuildAll(ms)
    requires forall m :: m in ms ==> Representable(m) && |m.payload| <= PC_CAP
    requires Sendable(name, file) && name !in s.downloads
    requires About(ms, name) == FileMsgs(name, file)
    ensures var o := ReadAll(s, pieces);
            && ContentsOf(o.s.emitted, name) == ContentsOf(s.emitted, name) + [file]
            && !o.halted
  {
    hide Messages, After, HandleAll, ContentsOf, About, FileMsgs, BuildAll, ReadAll, Stops;
    ReadsAnyCut(s, pieces);
    StopsIff(BuildAll(ms), PC_CAP);
    MessagesBuilt(ms, PC_CAP);
    FileIsEmittedOnce(s, ms, name, file);
  }
}
