/** The connection object: the HTTP upgrade, de-framing what comes in and framing
    what goes out, proved against the pure model of `WebSocketStream` and `Handshake`. */
module WebSocketConn {
  import opened Bytes
  import opened Wrappers
  import opened Text
  import opened WebSocketProto
  import opened WebSocketStream
  import opened Handshake
  import HttpHeaders
  import AcceptKey
  import Base64
  import Sha1

  /** The byte stream below the connection. What the peer and the kernel will do is
      fixed in advance and unknown: the answers to reads, whether each write
      succeeds, and whether the transport's own handshake does. */
  class ByteStream {
    var script: seq<SocketRead>
    var results: seq<bool>
    var written: seq<Buf>

    /** How many reads have brought bytes. */
    ghost var arrived: nat
    const ready: bool

    constructor (ready: bool, script: seq<SocketRead>, results: seq<bool>)
      ensures this.ready == ready && this.script == script && this.results == results && written == []
      ensures arrived == 0
    {
      this.ready, this.script, this.results, written, arrived := ready, script, results, [], 0;
    }

    method Read(cap: nat) returns (ev: SocketRead)
      requires cap > 0
      modifies this`script, this`arrived
      ensures (ev, script) == NextRead(old(script), cap)
      ensures arrived == old(arrived) + (if ev.Data? then 1 else 0)
    {
      var (e, left) := NextRead(script, cap);
      ev := e;
      script := left;
      if ev.Data? { arrived := arrived + 1; }
    }

    method WriteAll(data: Buf) returns (ok: bool)
      modifies this`written, this`results
      ensures written == old(written) + [data]
      ensures ok == (old(results) == [] || old(results)[0])
    {
      written := written + [data];
      ok := results == [] || results[0];
      results := if results == [] then [] else results[1..];
    }
  }

  /** The bytes of control frames. */
  function WireOf(rs: seq<Frame>): seq<Buf>
    requires forall r :: r in rs ==> |r.payload| < U64
  {
    seq(|rs|, i requires 0 <= i < |rs| => assert rs[i] in rs; Encoded(rs[i].opcode, rs[i].payload))
  }

  predicate AllShort(rs: seq<Frame>) {
    forall r :: r in rs ==> |r.payload| <= 125
  }

  lemma DrainIsShort(s: Inbound, buf: Buf)
    requires AllShort(s.replies)
    ensures AllShort(Drain(s, buf).s.replies)
  {
    hide Drain, Frames, Answers;
    DrainIsBatch(s, buf);
    AnswersAreLegal(buf);
    var answers := Answers(Frames(buf));
    forall r | r in answers
      ensures |r.payload| <= 125
    {
      var i :| 0 <= i < |answers| && answers[i] == r;
    }
  }

  function ResponseHead(): Buf {
    Ascii("HTTP/1.1 101 Switching Protocols\r\n") + Ascii("Upgrade: websocket\r\n") + Ascii("Connection: Upgrade\r\n")
    + Ascii("Sec-WebSocket-Accept: ")
  }

  function Response(key: Buf): Buf { ResponseHead() + AcceptKey.Accept(key) + BLANK_LINE }

  const ACCEPT_HEADER: Buf := Ascii("Sec-WebSocket-Accept")

  lemma ResponseLines()
    ensures Ascii("HTTP/1.1 101 Switching Protocols\r\n") == Ascii("HTTP/1.1 101 Switching Protocols") + HttpHeaders.CRLF
    ensures Ascii("Upgrade: websocket\r\n") == Ascii("Upgrade: websocket") + HttpHeaders.CRLF
    ensures Ascii("Connection: Upgrade\r\n") == Ascii("Connection: Upgrade") + HttpHeaders.CRLF
    ensures Ascii("Sec-WebSocket-Accept: ") == ACCEPT_HEADER + [58] + [32]
  {
  }

  lemma LettersOnly(s: string)
    requires forall i :: 0 <= i < |s| ==> ' ' <= s[i] <= '~'
    ensures forall i :: 0 <= i < |s| ==> 32 <= Ascii(s)[i] <= 126
    ensures 13 !in Ascii(s)
  {
  }

  lemma NotNamed(line: Buf)
    requires line != [] && (line[0] == 72 || line[0] == 85 || line[0] == 67)
    ensures !HttpHeaders.Names(line, ACCEPT_HEADER)
  {
    var name := ACCEPT_HEADER;
    assert (HttpHeaders.Lower(name) + [58])[0] == HttpHeaders.LowerByte(name[0]) == 115;
    assert HttpHeaders.Lower(line)[0] == HttpHeaders.LowerByte(line[0]) != 115;
  }

  lemma HeaderAfterThree(l0: Buf, l1: Buf, l2: Buf, name: Buf, value: Buf)
    requires 13 !in l0 && 13 !in l1 && 13 !in l2 && l0 != []
    requires !HttpHeaders.Names(l0, name) && !HttpHeaders.Names(l1, name) && !HttpHeaders.Names(l2, name)
    requires HttpHeaders.ProperName(name) && 13 !in value && HttpHeaders.Tight(value)
    ensures var crlf := HttpHeaders.CRLF;
            var line := name + [58] + ([32] + value + []);
            HttpHeaders.HeaderValue((l0 + crlf + (l1 + crlf + l2)) + crlf + (line + crlf + []), name) == value
  {
    hide HttpHeaders.HeaderValue, HttpHeaders.Lines, HttpHeaders.Names, HttpHeaders.Tight;
    var crlf := HttpHeaders.CRLF;
    var before := l0 + crlf + (l1 + crlf + l2);
    HttpHeaders.LinesAppend(l0, l1 + crlf + l2);
    HttpHeaders.LinesAppend(l1, l2);
    HttpHeaders.OneLineOnly(l0);
    HttpHeaders.OneLineOnly(l1);
    HttpHeaders.OneLineOnly(l2);
    assert HttpHeaders.Lines(before) == [l0, l1, l2];
    assert before[0] == l0[0];
    HttpHeaders.HeaderFound(before, name, [32], value, [], [], name);
  }

  lemma HeadParts()
    ensures var l0, l1 := Ascii("HTTP/1.1 101 Switching Protocols"), Ascii("Upgrade: websocket");
            var l2 := Ascii("Connection: Upgrade");
            && 13 !in l0 && 13 !in l1 && 13 !in l2 && l0 != [] && l1 != [] && l2 != []
            && l0[0] == 72 && l1[0] == 85 && l2[0] == 67
            && ResponseHead() == (l0 + HttpHeaders.CRLF) + (l1 + HttpHeaders.CRLF) + (l2 + HttpHeaders.CRLF)
                                 + (ACCEPT_HEADER + [58] + [32])
  {
    LettersOnly("HTTP/1.1 101 Switching Protocols");
    LettersOnly("Upgrade: websocket");
    LettersOnly("Connection: Upgrade");
    ResponseLines();
  }

  lemma AcceptHeaderIsProper()
    ensures HttpHeaders.ProperName(ACCEPT_HEADER)
  {
    LettersOnly("Sec-WebSocket-Accept");
    assert ACCEPT_HEADER[19] == 116;
  }

  /** A client that looks the accept value up in the response, as the terminal looks up
      the key, finds it. */
  lemma ClientFindsAccept(key: Buf)
    ensures |Response(key)| >= 2
    ensures HttpHeaders.HeaderValue(Response(key)[..|Response(key)| - 2], ACCEPT_HEADER) == AcceptKey.Accept(key)
  {
    var l0, l1 := Ascii("HTTP/1.1 101 Switching Protocols"), Ascii("Upgrade: websocket");
    var l2 := Ascii("Connection: Upgrade");
    HeadParts();
    hide Ascii, ResponseHead, Response, AcceptKey.Accept, HttpHeaders.HeaderValue, HttpHeaders.Names,
         HttpHeaders.ProperName, HttpHeaders.Tight;
    AcceptIsPrintable(key);
    AcceptHeaderIsProper();
    NotNamed(l0);
    NotNamed(l1);
    NotNamed(l2);
    HeaderAfterThree(l0, l1, l2, ACCEPT_HEADER, AcceptKey.Accept(key));
    ResponseIs(key, l0, l1, l2, ACCEPT_HEADER, AcceptKey.Accept(key));
  }

  lemma AcceptIsPrintable(key: Buf)
    ensures var a := AcceptKey.Accept(key); |a| == 28 && 13 !in a && HttpHeaders.Tight(a)
  {
    hide Base64.Encode, Sha1.Digest;
    AcceptKey.AcceptIsDigest(key);
    Base64.EncodePrintable(Sha1.Digest(key + AcceptKey.GUID));
    var a := AcceptKey.Accept(key);
    assert a[0] in a && a[|a| - 1] in a;
  }

  lemma ResponseIs(key: Buf, l0: Buf, l1: Buf, l2: Buf, name: Buf, accept: Buf)
    requires var crlf := HttpHeaders.CRLF;
             ResponseHead() == (l0 + crlf) + (l1 + crlf) + (l2 + crlf) + (name + [58] + [32])
    requires accept == AcceptKey.Accept(key)
    ensures var crlf := HttpHeaders.CRLF;
            var r := Response(key);
            && |r| >= 2
            && r[..|r| - 2] == (l0 + crlf + (l1 + crlf + l2)) + crlf + ((name + [58] + ([32] + accept + [])) + crlf + [])
  {
    hide ResponseHead, AcceptKey.Accept;
    var crlf, r := HttpHeaders.CRLF, Response(key);
    assert r == ResponseHead() + accept + (crlf + crlf);
    assert r[..|r| - 2] == ResponseHead() + accept + crlf;
  }

  class WebSocketConn {
    const stream: ByteStream
    var closed: bool
    var rx: Buf
    var app: Buf

    constructor (stream: ByteStream)
      ensures this.stream == stream && State() == Conn([], [], false)
    {
      this.stream := stream;
      closed, rx, app := false, [], [];
    }

    function State(): Conn
      reads this
    {
      Conn(rx, app, closed)
    }

    /** The read loop of the upgrade. */
    method ReadUpgradeRequest() returns (got: Option<Buf>)
      modifies stream`script, stream`arrived
      ensures (got, stream.script) == ReadRequest([], old(stream.script))
      ensures stream.arrived == old(stream.arrived) + DataReads([], old(stream.script))
      ensures got.Some? ==> HeadersEnd(got.value).Some?
    {
      hide ReadRequest, DataReads, NextRead, Size, Find;
      var req: Buf := [];
      while Find(req, BLANK_LINE, 0).None?
        invariant ReadRequest(req, stream.script) == ReadRequest([], old(stream.script))
        invariant stream.arrived + DataReads(req, stream.script) == old(stream.arrived) + DataReads([], old(stream.script))
        decreases Size(stream.script)
      {
        ReadOne(req, stream.script);
        if |req| > HEADER_LIMIT { return None; }
        if stream.script == [] {
          var none := stream.Read(READ_SIZE);
          return None;
        }
        var ev := stream.Read(READ_SIZE);
        match ev {
          case Data(bytes) => req := req + bytes;
          case Eof => return None;
          case Fail(e) => if e != Eintr { return None; }
        }
      }
      ReadOne(req, stream.script);
      return Some(req);
    }

    /** The upgrade: the request is read up to its blank line, refused without a key,
        and answered; bytes that came after the blank line are kept for later. */
    method DoHandshake() returns (ok: bool)
      modifies this`rx, stream
      ensures !stream.ready ==> !ok && rx == old(rx) && stream.written == old(stream.written)
      ensures stream.ready ==>
                var up := UpgradeOf(old(stream.script));
                && stream.script == ReadRequest([], old(stream.script)).1
                && (up.None? ==> !ok && rx == old(rx) && stream.written == old(stream.written))
                && (up.Some? ==>
                      && rx == old(rx) + up.value.early
                      && stream.written == old(stream.written) + [Response(up.value.key)]
                      && ok == (old(stream.results) == [] || old(stream.results)[0]))
      ensures stream.ready ==> stream.arrived == old(stream.arrived) + DataReads([], old(stream.script))
    {
      hide ReadRequest, HttpHeaders.HeaderValue, AcceptKey.Accept, ResponseHead;
      if !stream.ready { return false; }
      var got := ReadUpgradeRequest();
      if got.None? { return false; }
      var req := got.value;
      var bodyStart := Find(req, BLANK_LINE, 0).value + 4;
      var headerBlock := req[..bodyStart - 2];
      var key := HttpHeaders.HeaderValue(headerBlock, KEY_HEADER);
      if key == [] { return false; }
      if bodyStart < |req| { rx := rx + req[bodyStart..]; }
      assert rx == old(rx) + req[bodyStart..];
      var accept := AcceptKey.AcceptKey(key);
      ok := stream.WriteAll(ResponseHead() + accept + BLANK_LINE);
    }

    /** Hands bytes to the caller; asks the socket only when nothing is pending. The
        socket's answer is the next one of its script. */
    method RecvInto(buf: array<byte>, cap: nat) returns (n: int, errno: Option<Errno>)
      requires cap <= buf.Length
      modifies this`rx, this`app, this`closed, stream, buf
      ensures var (ev, left) := NextRead(old(stream.script), 8192);
              var (c, r, sent) := Recv(old(State()), ev, cap);
              && State() == c
              && stream.script == (if AsksSocket(old(State())) then left else old(stream.script))
              && AllShort(sent) && stream.written == old(stream.written) + WireOf(sent)
              && (r.Got? ==> n == |r.bytes| <= cap && buf[..n] == r.bytes && errno == None)
              && (r.End? ==> n == 0 && errno == None)
              && (r.Err? ==> n == -1 && errno == Some(r.errno))
    {
      if app != [] {
        n := Copy(buf, cap);
        return n, None;
      }
      if closed { return 0, None; }
      var ev := stream.Read(8192);
      match ev {
        case Eof => return 0, None;
        case Fail(e) => return -1, Some(e);
        case Data(bytes) => rx := rx + bytes;
      }
      DrainFrames();
      if app != [] {
        n := Copy(buf, cap);
        return n, None;
      }
      if closed { return 0, None; }
      return -1, Some(Eagain);
    }

    /** Moves up to `cap` pending bytes into `buf`. */
    method Copy(buf: array<byte>, cap: nat) returns (n: nat)
      requires app != [] && cap <= buf.Length
      modifies this`app, buf
      ensures n <= cap && n <= buf.Length
      ensures (State(), Got(buf[..n])) == Serve(old(State()), cap)
    {
      n := if cap < |app| then cap else |app|;
      for i := 0 to n
        invariant app == old(app) && n <= |app|
        invariant buf[..i] == app[..i]
      {
        buf[i] := app[i];
      }
      app := app[n..];
    }

    /** Takes every whole frame out of `rx`: data to `app`, answers to the stream. */
    method DrainFrames()
      requires !closed
      modifies this`rx, this`app, this`closed, stream`written, stream`results
      ensures var o := Drain(Inbound(old(app), []), old(rx));
              && State() == Conn(o.rest, o.s.app, o.halted)
              && AllShort(o.s.replies) && stream.written == old(stream.written) + WireOf(o.s.replies)
    {
      hide Drain, Decode, Frames, Encoded;
      var off := 0;
      ghost var s := Inbound(app, []);
      ghost var whole := Drain(s, rx);
      DrainIsShort(s, rx);
      assert rx[0..] == rx;
      assert stream.written == old(stream.written) + WireOf([]);
      while true
        invariant off <= |rx| && rx == old(rx)
        invariant app == s.app && AllShort(s.replies)
        invariant stream.written == old(stream.written) + WireOf(s.replies)
        invariant if closed then whole.s == s && whole.halted && whole.rest == rx[off..] else whole == Drain(s, rx[off..])
        decreases |rx| - off, !closed
      {
        if closed { break; }
        var r := DecodeFrame(rx[off..], MAX_PAYLOAD, true);
        DrainOne(s, rx[off..]);
        if r.NeedMore? { break; }
        if r.Error? { closed := true; break; }
        ControlFramesAreShort(rx[off..], MAX_PAYLOAD, true);
        assert rx[off..][r.consumed..] == rx[off + r.consumed..];
        off := off + r.consumed;
        var f := r.frame;
        s := Handle(s, f);
        if IsData(f.opcode) {
          app := app + f.payload;
        } else if f.opcode == OP_PING {
          var sent := SendControl(OP_PONG, f.payload);
        } else if f.opcode == OP_CLOSE {
          var sent := SendControl(OP_CLOSE, f.payload);
          closed := true;
        }
      }
      if off > 0 { rx := rx[off..]; }
    }

    /** One whole message, as one binary frame. */
    method Send(data: Buf) returns (ok: bool)
      requires |data| < U64
      modifies stream`written, stream`results
      ensures stream.written == old(stream.written) + [Encoded(2, data)]
      ensures ok == (old(stream.results) == [] || old(stream.results)[0])
    {
      var frame := EncodeFrame([], OP_BINARY, data);
      assert frame == Encoded(OP_BINARY, data);
      ok := stream.WriteAll(frame);
    }

    method SendControl(opcode: byte, data: Buf) returns (ok: bool)
      requires |data| < U64
      modifies stream`written, stream`results
      ensures stream.written == old(stream.written) + [Encoded(opcode, data)]
    {
      var frame := EncodeFrame([], opcode, data);
      assert frame == Encoded(opcode, data);
      ok := stream.WriteAll(frame);
    }
  }
}
