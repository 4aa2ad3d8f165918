# A verified model of the terminal's protocol stack

The S5P6818 face-tracking terminal talks to its clients in SEC1, a framed binary
protocol carried over TCP or over WebSocket. This project models, in Dafny, the code
that carries, cuts, guards and answers those messages, and the state machines that
the messages drive, and proves what the code promises.

The stack is modelled layer by layer, in the form the source has: objects that
update their fields are classes, loops are loops, and each method is proved against a
function of its old state and its inputs. Theorems about whole runs are lemmas about
those functions, for all inputs, all ways of cutting a stream and all interleavings. What
goes over the wire is also stated in plain numbers - opcodes, offsets, magic bytes,
message types, keys of JSON bodies - so that no result rests on a definition it shares
with the code it is about.

| file | what it models |
|---|---|
| `Bytes.dfy`, `Wrappers.dfy`, `Text.dfy` | bytes, big-endian integers, exclusive and inclusive or, searching |
| `Streaming.dfy` | the shape all drain loops share, and the theorem that cuts do not matter |
| `WebSocketProto.dfy` | RFC 6455 frames: the grammar, the decoder, both encoders |
| `HttpHeaders.dfy`, `Handshake.dfy` | header lookup, and reading and splitting the HTTP upgrade |
| `Sha1.dfy`, `Base64.dfy`, `AcceptKey.dfy`, `AcceptExample.dfy` | the answer to the WebSocket key, and the RFC's example of one worked out |
| `WebSocketStream.dfy`, `WebSocketConn.dfy` | de-framing: the pure model with its run theorems, and the connection object |
| `PollDriven.dfy` | the connection under a loop that reads only when `poll` says so |
| `Protocol.dfy`, `Sec1.dfy` | SEC1 headers and payload layouts; cutting a stream into messages |
| `MiniJson.dfy`, `Auth.dfy` | JSON strings and the shared-token gate |
| `SessionStream.dfy`, `SessionLoop.dfy`, `ClientSession.dfy` | the client session: parsing behind the gate, the poll loop, the object |
| `SessionRuns.dfy`, `MessageEffects.dfy` | whole runs of the session loop over many reads; what each message makes it do |
| `EndToEnd.dfy`, `WholeConnection.dfy` | both layers stacked; a whole connection from the first byte of its socket |
| `FileTransfer.dfy`, `Mobile.dfy`, `MobileDownload.dfy`, `PcClient.dfy` | sending a file, and its two reassemblies |
| `Tracker.dfy`, `Business.dfy` | the pan and tilt tracker; sessions that push commands, interleaved with the loop that applies them |
| `Registry.dfy` | the session registry and the accept loops that share it |

Sockets, clocks and other threads enter as scripts: a byte stream answers reads from a
sequence that is fixed but unknown, a poll loop is given the clock readings and poll
results it will see, and concurrent code is a sequence of atomic steps. Every theorem
is for all scripts. Buffers are byte sequences, names are byte strings, angles are
real numbers. Integers are unbounded except where the width matters: lengths on the
wire, the chunk count, the bit length in SHA-1 and the frame counter.

## Where the code does less than its comments say

Each is stated as a lemma with the exact condition under which the promise holds.

- Frames that arrive together with the upgrade request are decoded only after a later
  read; with none, they are lost (`EarlyFrameLost`, `AllDeliveredIff`).
- When a client falls silent, bytes that its last read completed beyond what one call
  hands out stay in the connection, because `poll` cannot see them (`StallsIff`); this
  happens to every frame longer than one buffer that is the last thing sent
  (`LongFrameStalls`).
- So a client that falls silent has had all its messages handled if and only if they end
  within what was carried before the last read and one buffer more, which is nothing when
  every frame came in the reads that brought the request (`FromTheFirstByte`).
- A client without a token is said not to sit on a slot for more than five seconds
  (`terminal/src/net/ClientSession.cpp:22-24`). That clock starts after the upgrade. The
  upgrade waits for up to 16385 reads that bring bytes, and no fewer suffice for every
  peer (`ReadsBoundedIff`), each bounded by the socket's time-out alone.
- The header lookup is right if and only if the block does not begin with an empty line
  and then the header (`HeaderValueIff`).
- An upgrade request is accepted on every cut of the stream exactly when its blank
  line ends within 16385 bytes; up to 2047 bytes later the cut decides (`AlwaysReadIff`,
  `CutDecides`).
- `maxClients` is said to cap all transports together (`terminal/src/main.cpp:111-113`).
  With `k` accept loops the registry can reach `maxClients + k - 1` entries, never
  more, so the cap is exact only for one loop (`CapHoldsIff`).
- A client that sends the configured token, escaped, is let in if and only if the token
  has no control character other than newline, return and tab (`OwnTokenAuthorizedIff`,
  `LossyTokenNeverAuthorized`).
- Once all chunks of a file have come, the mobile client saves it if and only if it is
  not empty (`SavedIff`); the PC client also announces an empty one (`FileIsEmittedOnce`).

## Model

| member | source | states |
|---|---|---|
| Streaming.RunSplit | terminal/src/net/WebSocketConn.cpp:126-158 | draining a buffer, appending bytes and draining again gives the same state, leftover and verdict as draining everything at once |
| Streaming.FeedIsRun | terminal/src/net/ClientSession.cpp:102-137 | a loop that reads piece by piece ends in the state of one that reads the whole stream, for every cut |
| Streaming.CutsDoNotMatter | pc-client/src/net/TcpClient.cpp:177-203 | two cuts of one stream cannot be told apart |
| WebSocketProto.DecodeStable | terminal/src/net/WebSocketProto.h:154-197 | a frame or an error stays the same whatever bytes follow |
| WebSocketProto.DecodePrefixFree | terminal/src/net/WebSocketProto.h:154-197 | every proper prefix of an accepted frame asks for more |
| WebSocketProto.DecodeIffGrammar | terminal/src/net/WebSocketProto.h:154-197 | the decoder accepts exactly the buffers that begin with an acceptable frame of the RFC's grammar, and reports that frame and its length |
| WebSocketProto.DecodeSerialize | terminal/src/net/WebSocketProto.h:154-197 | every acceptable frame, in any length form, masked or not, minimal or not, is read back |
| WebSocketProto.SerializeDecode | terminal/src/net/WebSocketProto.h:154-197 | what is accepted is, byte for byte, the serialisation of an acceptable frame |
| WebSocketProto.ErrorMeansHopeless | terminal/src/net/WebSocketProto.h:174-181 | after an error no continuation could have been an acceptable frame |
| WebSocketProto.ControlFramesAreShort | terminal/src/net/WebSocketProto.h:174-178 | an accepted control frame has FIN set and at most 125 bytes |
| WebSocketProto.UniqueDecoding | terminal/src/net/WebSocketProto.h:154-197 | a concatenation of frames can be read in one way only |
| WebSocketProto.MaskedTwice | terminal/src/net/WebSocketProto.h:189-191 | masking is its own inverse for every key |
| Bytes.XorIsBitwise | terminal/src/net/WebSocketProto.h:189-191 | the exclusive or of two bytes differs exactly in the bits in which they differ |
| WebSocketProto.EncodeFrame | terminal/src/net/WebSocketProto.h:122-137 | the encoder appends the grammar's whole, unmasked, minimal frame |
| WebSocketProto.DecodeFrame | terminal/src/net/WebSocketProto.h:154-197 | the decoding loops compute the decoder the lemmas are about |
| WebSocketProto.VerdictInBytes | terminal/src/net/WebSocketProto.h:154-187 | error, acceptance or waiting, told by the bytes: length field, FIN, opcode number and mask bit |
| WebSocketProto.FrameInBytes | terminal/src/net/WebSocketProto.h:154-197 | FIN and opcode are those of the first byte, and each payload byte is the wire's byte, exclusive-or'ed with one of the four mask bytes in turn |
| WebSocketProto.MaskedExample | terminal/src/net/WebSocketProto.h:189-191 | the masked example of section 5.7 of RFC 6455 decodes to its text |
| WebSocketProto.EncodedBytes | terminal/src/net/WebSocketProto.h:122-137 | a frame sent is 0x80 and the opcode, the shortest length form, and the payload as it is |
| WebSocketProto.ServerFrameRoundTrip | terminal/src/net/WebSocketProto.h:122-137 | a decoder that does not ask for masks inverts the encoder, for data up to 16 MiB and control frames up to 125 bytes |
| WebSocketProto.ClientFrameRoundTrip | tools/test_ws_conn.cpp:38-60 | the terminal's decoder inverts the masked client encoder for every key and length form |
| HttpHeaders.HeaderValueIff | terminal/src/net/WebSocketConn.cpp:16-47 | for every block the lookup returns the trimmed value of the first line that begins with the name and a colon, whatever the case, so text inside other lines never masquerades as it, if and only if the block does not begin with an empty line and then that header |
| HttpHeaders.HeaderFound | terminal/src/net/WebSocketConn.cpp:16-47 | a header spelled in any letters, with blanks around its value, is found after any lines that do not begin with its name |
| Handshake.RequestRead | terminal/src/net/WebSocketConn.cpp:56-70 | with the blank line within the limit, every cut ends with the request read and no byte lost |
| Handshake.RequestRefused | terminal/src/net/WebSocketConn.cpp:60-64 | with no blank line within the limit and one more read, every cut ends in refusal |
| Handshake.CutDecides | terminal/src/net/WebSocketConn.cpp:60-66 | in between, one cut is accepted and another refused |
| Handshake.AlwaysReadIff | terminal/src/net/WebSocketConn.cpp:56-70 | every cut is accepted if and only if the blank line ends within 16385 bytes |
| Handshake.BrokenOffRefused | terminal/src/net/WebSocketConn.cpp:65-69 | a peer that ends, fails or falls silent before its blank line is refused |
| Handshake.RequestSplitsStream | terminal/src/net/WebSocketConn.cpp:72-83 | the header block is the stream up to the blank line, and the kept bytes followed by the unread ones are the rest of the stream |
| Handshake.UpgradeSplitsStream | terminal/src/net/WebSocketConn.cpp:56-83 | on every cut the upgrade is accepted if and only if the request carries a key, and kept and unread bytes are exactly what followed the request, whatever the peer does later |
| Handshake.ReadsBoundedIff | terminal/src/net/WebSocketConn.cpp:59-70 | 16385 reads that bring bytes, and no smaller number, are enough for every peer |
| Handshake.KeyIsLookedUp | terminal/src/net/WebSocketConn.cpp:75-76 | the key is the trimmed value of the first line that names it |
| Handshake.KeyFound | terminal/src/net/WebSocketConn.cpp:72-76 | in any request that ends with its only blank line, a key line spelled in upper or lower case, with blanks around the key, is found behind any lines that do not begin with that name |
| Base64.DecodeEncode | terminal/src/net/WebSocketProto.h:74-101 | an RFC 4648 decoder inverts the encoder for every length |
| Base64.EncodeLength | terminal/src/net/WebSocketProto.h:78-99 | four characters for every three bytes, rounded up |
| Base64.Base64Encode | terminal/src/net/WebSocketProto.h:74-101 | the encoding loop computes that encoding |
| Sha1.PadIsShortest | terminal/src/net/WebSocketProto.h:29-36 | the padded message is the shortest whole number of blocks that fits |
| Sha1.PadIsInjective | terminal/src/net/WebSocketProto.h:29-36 | different messages under 2^61 bytes have different paddings |
| Sha1.PadMessage | terminal/src/net/WebSocketProto.h:31-36 | the padding loops compute the padding of FIPS 180-4 |
| Sha1.Schedule | terminal/src/net/WebSocketProto.h:39-47 | the loops over `w` compute the message schedule of FIPS 180-4 |
| Sha1.RunRounds | terminal/src/net/WebSocketProto.h:49-58 | the in-place loop computes the eighty rounds of FIPS 180-4 |
| Sha1.ComputeSha1 | terminal/src/net/WebSocketProto.h:23-71 | the whole computes the digest of FIPS 180-4 |
| AcceptKey.AcceptKey | terminal/src/net/WebSocketProto.h:104-108 | the accept value is base64 of SHA-1 of the key and the GUID |
| AcceptKey.AcceptIsDigest | terminal/src/net/WebSocketProto.h:104-108 | it is always 28 characters and decodes to the digest |
| AcceptKey.KeysArePaddedApart | terminal/src/net/WebSocketProto.h:104-108 | keys that give the same padded message are equal |
| AcceptExample.AcceptExample | terminal/src/net/WebSocketProto.h:23-108 | the key of section 1.3 of RFC 6455 gets the accept value given there |
| WebSocketStream.DrainIsBatch | terminal/src/net/WebSocketConn.cpp:126-158 | the drain loop produces the data payloads in order, one pong per ping in order, then at most one close echo |
| WebSocketStream.AnswersAreLegal | terminal/src/net/WebSocketConn.cpp:143-152 | every control frame sent is whole and short, and nothing follows a close |
| WebSocketStream.CallRefines | terminal/src/net/WebSocketConn.cpp:97-124 | every call of `recv` keeps delivered and pending bytes, answers, raw buffer and closed flag equal to those of the batch reading |
| WebSocketStream.RunIsBatch | terminal/src/net/WebSocketConn.cpp:97-158 | in every run delivery and answers are prefixes of the batch reading; after a read they are the whole of it, and the raw buffer holds no whole frame unless closed |
| WebSocketStream.PendingIsServed | terminal/src/net/WebSocketConn.cpp:98-104 | pending bytes are served without touching the socket, at least one per call |
| WebSocketStream.AllDeliveredIff | terminal/src/net/WebSocketConn.cpp:82-123 | a run with nothing pending has delivered everything if and only if the socket answered some call with bytes, or the early bytes held no data |
| WebSocketStream.EarlyFrameLost | terminal/src/net/WebSocketConn.cpp:107-109 | a concrete frame that came with the request and is never delivered |
| PollDriven.StallsIff | terminal/src/net/ClientSession.cpp:70-82 | with `recv` called only when the socket is readable, a silent peer's bytes are delivered up to exactly one buffer beyond what was carried before the last answer; so all are delivered if and only if that answer completed no more than one buffer |
| PollDriven.LongFrameStalls | terminal/src/net/WebSocketConn.cpp:97-124 | however a frame longer than one buffer is cut, when its end is the last thing that comes only the first buffer of it is delivered |
| PollDriven.EndReportedIff | terminal/src/net/WebSocketConn.cpp:97-124 | `recv` reports the end exactly when nothing is left to hand out and the stream or the socket has ended |
| PollDriven.ErrorReportedIff | terminal/src/net/WebSocketConn.cpp:97-124 | it reports an error exactly when nothing is left and the socket reports it, or the bytes that came carry nothing yet |
| WebSocketConn.WebSocketConn.DoHandshake | terminal/src/net/WebSocketConn.cpp:51-95 | the object reads, refuses, keeps early bytes and answers as the pure upgrade does, with as many reads |
| WebSocketConn.ClientFindsAccept | terminal/src/net/WebSocketConn.cpp:85-91 | a client that looks the accept value up in the response finds it |
| WebSocketConn.WebSocketConn.RecvInto | terminal/src/net/WebSocketConn.cpp:97-124 | the object's `recv` is one call of the pure model: new state, bytes, return value, error code and frames written |
| WebSocketConn.WebSocketConn.DrainFrames | terminal/src/net/WebSocketConn.cpp:126-158 | the object's loop leaves the state and writes the frames of the drain |
| WebSocketConn.WebSocketConn.Send | terminal/src/net/WebSocketConn.cpp:160-164 | one message becomes exactly one binary frame |
| Protocol.HeaderRoundTrip | terminal/src/net/Protocol.h:81-102 | a header is read back from any message built, whatever follows |
| Protocol.BuiltFront | terminal/src/net/Protocol.h:92-102 | a message built begins with the bytes 53 45 43 31, then type and flags in two bytes each, and holds its payload from the thirteenth byte on |
| Protocol.VideoRoundTrip | terminal/src/net/Protocol.h:111-122 | a video payload is read back with all its fields |
| Protocol.VideoInBytes | mobile-client/src/protocol.ts:84-96 | what a video payload holds, told by its bytes |
| Protocol.ChunkRoundTrip | mobile-client/src/protocol.ts:99-112 | a file chunk is read back with index, total, name and bytes |
| Protocol.ChunkInBytes | pc-client/src/net/TcpClient.cpp:254-265 | what a file chunk holds, told by its bytes |
| Protocol.PutU32 | terminal/src/net/Protocol.h:55-60 | four shifted and cut bytes are the big-endian number that `Get` reads back |
| Bytes.AppendU64 | terminal/src/net/Protocol.h:61-64 | the shifting loop appends the eight big-endian bytes |
| Protocol.BuildVideoFrame | terminal/src/net/Protocol.h:111-122 | the byte writes produce the message that the two round trips read back |
| Protocol.GetU64 | terminal/src/net/Protocol.h:74-78 | the shifting loop reads the big-endian number |
| Sec1.FrontStable | terminal/src/net/ClientSession.cpp:105-115 | more bytes never change what is at the front of a buffer |
| Sec1.FrontInBytes | terminal/src/net/ClientSession.cpp:105-117 | what is at the front of a buffer, told by its bytes: wrong magic, too long, unfinished, or whole with its type, flags and payload |
| Sec1.StreamSplits | terminal/src/net/ClientSession.cpp:105-137 | every stream is its whole messages, built again, and the bytes left over |
| Sec1.TailDecides | pc-client/src/net/TcpClient.cpp:183-197 | after messages within the cap, a tail is refused for its magic, refused for its length, or waited for, as its bytes say |
| Sec1.MessagesBuilt | terminal/src/net/ClientSession.cpp:105-135 | a stream of messages within the cap is read back whole and in order |
| Sec1.CapsAgree | pc-client/src/net/TcpClient.cpp:183-201 | readers with different caps see the same messages and ending on every stream without an oversize message for the stricter one |
| MiniJson.EscapeString | terminal/src/net/MiniJson.h:14-30 | the escaping loop computes the escape |
| MiniJson.ReadString | terminal/src/net/MiniJson.h:62-84 | the scanning loop returns exactly the string value, or false |
| MiniJson.ScanEscape | terminal/src/net/MiniJson.h:62-84 | the scanner undoes the escape, up to control characters that became spaces |
| MiniJson.SpellingRead | terminal/src/net/MiniJson.h:62-84 | every spelling of a string by RFC 8259's own escapes for quote, slash, backslash, newline, return and tab is read back, whoever wrote it |
| MiniJson.EscapeSpells | terminal/src/net/MiniJson.h:14-30 | what is escaped is such a spelling, of the same string with control characters other than newline, return and tab as spaces |
| MiniJson.SoftenIff | terminal/src/net/MiniJson.h:24-27 | the trip loses nothing if and only if there is no such character |
| MiniJson.WrittenStringRead | terminal/src/net/MiniJson.h:33-84 | a string is read back, however it is spaced, from any text in which its quoted key does not stand earlier |
| MiniJson.WrittenBoolRead | terminal/src/net/MiniJson.h:33-60 | a truth value is read as true or false exactly when that is what is written |
| MiniJson.FieldRoundTrip | terminal/src/net/MiniJson.h:33-84 | the same for a field as the terminal writes it |
| Auth.ConstantTimeEqual | terminal/src/net/Auth.h:22-32 | the accumulated comparison is exactly equality, for all lengths |
| Auth.HelloAuthorized | terminal/src/net/Auth.h:37-41 | a HELLO is authorised exactly when its token, or the empty string, is the expected one |
| Auth.HelloAuthorizedIff | terminal/src/net/Auth.h:34-41 | a HELLO with an escaped token is authorised if and only if the softened token is the expected one |
| Auth.OwnTokenAuthorizedIff | terminal/src/net/Auth.h:34-41 | a client that sends exactly the expected token, escaped, is authorised if and only if the token has no lossy character |
| Auth.LossyTokenNeverAuthorized | terminal/src/net/Auth.h:34-41 | an expected token with a lossy character is matched by no token in an escaped field |
| Auth.MissingToken | terminal/src/net/Auth.h:34-41 | without a token in it a HELLO is authorised if and only if none is required |
| SessionStream.OpenGate | terminal/src/net/ClientSession.cpp:104-137 | behind an open gate every whole message is handled in order, and the loop stops exactly when the bytes left over begin with a header of wrong magic or of a length over the cap |
| SessionStream.ClosedGate | terminal/src/net/ClientSession.cpp:118-132 | the first message decides: an authorised HELLO lets everything through, itself included; anything else ends the session with nothing handled |
| SessionStream.AnyCut | terminal/src/net/ClientSession.cpp:94-138 | what a session handles and whether it stops depends only on the bytes, for every cut |
| SessionStream.MessagesOverTcp | terminal/src/net/ClientSession.cpp:94-138 | over plain TCP a client's messages are handled exactly, in order, once each |
| EndToEnd.StepInStep | terminal/src/net/ClientSession.cpp:56-138 | every turn of the session loop over a connection keeps the messages handled and the bytes kept those of parsing all delivered bytes |
| EndToEnd.TrafficDecoded | terminal/src/net/WebSocketConn.cpp:126-158 | the terminal decodes exactly the frames a client sent, whatever follows them |
| EndToEnd.FragmentsDelivered | terminal/src/net/WebSocketConn.cpp:126-158 | fragments (opcodes 0, 1, 2) are delivered joined, each ping (9) is answered by a pong (10), and pongs and reserved opcodes (3 to 7, 11 to 15) contribute nothing |
| EndToEnd.ViolationEndsTraffic | terminal/src/net/WebSocketConn.cpp:133-134 | a payload over 16 MiB, a control frame that is not whole or not short, or a frame without a mask ends the connection without an answer |
| EndToEnd.CloseEndsTraffic | terminal/src/net/WebSocketConn.cpp:149-157 | a close (8) is echoed once with its payload, after the pongs, and nothing after it is looked at |
| EndToEnd.AllMessagesHandled | terminal/src/net/ClientSession.cpp:56-138 | end to end over WebSocket: once the bytes are read and the buffers empty, the session loop has handled exactly the client's messages and answered every ping, and it still runs unless something outside the client's bytes went wrong |
| EndToEnd.OnlyPrefixesHandled | terminal/src/net/ClientSession.cpp:56-138 | at every moment of every run the messages handled are a prefix of the client's |
| WholeConnection.PollStackRuns | terminal/src/net/ClientSession.cpp:56-83 | the session loop over a client's stream does not end, its connection is that of the poll loop, and enough readable turns take every answer |
| WholeConnection.FromTheFirstByte | terminal/src/net/ClientSession.cpp:34-138 | from the first socket byte, for every cut and with `recv` called only when the socket is readable: when the client falls silent the session is alive and has handled exactly the messages whole in the part of the stream that reached it, so all of them if and only if that part is all; every ping has been answered unless all frames came with the request |
| SessionLoop.NothingBeforeHello | terminal/src/net/ClientSession.cpp:56-87 | with a token configured, nothing at all happens in any run before a HELLO carrying it, and that HELLO is handled first |
| SessionLoop.TurnGated | terminal/src/net/ClientSession.cpp:104-135 | every turn keeps the gate, and an open gate stays open |
| SessionLoop.WrongFirstMessage | terminal/src/net/ClientSession.cpp:118-129 | any other first message ends the session with nothing done |
| SessionLoop.WaitsAtMostFiveSeconds | terminal/src/net/ClientSession.cpp:56-60 | in every run a session loop still waiting for its HELLO has done nothing and has never read a clock more than five seconds past its start, which follows the upgrade |
| SessionLoop.FramesAreFresh | terminal/src/net/ClientSession.cpp:83-86 | for any interleaving with fewer than 2^32 publishes, frames sent are published ones in strictly increasing order, and tries to send are an interval apart |
| SessionLoop.PushInOrder | terminal/src/net/ClientSession.cpp:202-211 | sending the latest frame keeps that order |
| SessionLoop.LatestIsShown | terminal/src/net/ClientSession.cpp:83-86 | in every run, a turn that finds the next frame due and a picture in the hub leaves that picture the last one sent |
| SessionLoop.VisionThread.Capture | terminal/src/app/VisionThread.cpp:56-64 | frames are numbered from zero, modulo 2^32, and published in that order |
| SessionLoop.FrameHub.Publish | terminal/src/core/FrameHub.h:29-32 | the hub shows the last frame published |
| SessionRuns.HandlesAnyCut | terminal/src/net/ClientSession.cpp:56-138 | over whole runs, however the reads cut the bytes, the messages handled are those the gate admits of all bytes read, and the loop has ended exactly when the bytes left over must be refused or the first message does not open the gate |
| SessionRuns.IdleTurn | terminal/src/net/ClientSession.cpp:71-83 | a turn whose poll was interrupted, or a quiet one before the gate is open, changes nothing |
| SessionRuns.LastTurnIff | terminal/src/net/ClientSession.cpp:56-87 | a turn is the last exactly on a stop, a time-out, a failed poll, a hang-up, the end or an error of `recv`, bytes that stop the parser, or a frame that is not taken |
| MessageEffects.ServoEffect | terminal/src/net/ClientSession.cpp:144-156 | a servo command is absolute if and only if its mode is "abs", else a step |
| MessageEffects.ModeEffect | terminal/src/net/ClientSession.cpp:157-165 | a mode command switches tracking off for false and on otherwise |
| MessageEffects.FileGetEffect | terminal/src/net/ClientSession.cpp:169-173 | the file named in the body is sent, and none without a name |
| MessageEffects.FileDeleteEffect | terminal/src/net/ClientSession.cpp:174-182 | the file named in the body is deleted, and none without a name |
| MessageEffects.OtherEffects | terminal/src/net/ClientSession.cpp:166-199 | a list request is answered, a snapshot is taken only of a picture and then listed, and no other message does anything |
| MessageEffects.EffectsFollow | terminal/src/net/ClientSession.cpp:46-200 | in every run, but for the frames it sends, a session does exactly what the messages it has handled make it do, in their order |
| ClientSession.ClientSession.HandleMessage | terminal/src/net/ClientSession.cpp:140-200 | a message has exactly the effects of the switch, with its defaults and with a snapshot only when the hub holds a picture |
| ClientSession.ClientSession.Admit | terminal/src/net/ClientSession.cpp:118-132 | a message passes exactly when the gate is open or the message opens it |
| ClientSession.ClientSession.DispatchBuffered | terminal/src/net/ClientSession.cpp:104-137 | the object's loop leaves gate, buffer, log and verdict of the parse behind the gate |
| ClientSession.ClientSession.ReadAndDispatch | terminal/src/net/ClientSession.cpp:94-138 | one `recv`'s bytes, end or error leave the state and verdict of the pure read |
| ClientSession.ClientSession.SendFrameIfNew | terminal/src/net/ClientSession.cpp:202-211 | a frame is sent exactly when there is one, it is encoded, and it is not the last one sent |
| ClientSession.ClientSession.TakeTurn | terminal/src/net/ClientSession.cpp:56-87 | one turn of the loop is one turn of the pure model |
| ClientSession.ClientSession.Run | terminal/src/net/ClientSession.cpp:34-92 | without a handshake nothing is sent or done; with one, one HELLO that says whether a token is wanted, then log and gate of the pure model's run, so that undisturbed it handles what the gate admits of all bytes read; either way the connection is closed and the session finished |
| ClientSession.GreetingTells | terminal/src/net/ClientSession.cpp:46-49 | a client that reads the terminal's HELLO learns whether a token is wanted |
| FileTransfer.SendFile | terminal/src/net/ClientSession.cpp:231-270 | the messages sent are the file's chunks in order up to the first refused, or the one empty chunk, or none for an overlong name |
| FileTransfer.FileOnTheWire | terminal/src/net/ClientSession.cpp:231-270 | the k-th message, told by its bytes: type 0x0033, the index, how many 32 KiB parts the file has, the name, and exactly that part of the file |
| FileTransfer.JoinedIsFile | terminal/src/net/ClientSession.cpp:244-268 | the chunks joined are the file |
| Mobile.MobileStore.ReceiveFileData | mobile-client/src/stores/terminal.ts:168-203 | the object's handler is the pure step on downloads, saved files and errors |
| Mobile.Merge | mobile-client/src/stores/terminal.ts:186-199 | measuring, allocating and filling give the parts in index order, padded to the length of all parts |
| Mobile.GatherFits | mobile-client/src/stores/terminal.ts:187-199 | the parts gathered never exceed the buffer, and fill it when every index is below the total |
| MobileDownload.DownloadIsExact | mobile-client/src/stores/terminal.ts:168-203 | for every sequence of arrivals, with repeats, other files and not-found answers, the copies saved are exactly those completed, each when its last index arrives, each equal to the file |
| MobileDownload.FirstCopy | mobile-client/src/stores/terminal.ts:182-186 | nothing is completed while an index is missing, and the arrival that supplies the last completes the first copy |
| MobileDownload.SavedWhenComplete | mobile-client/src/stores/terminal.ts:182-200 | on the store: nothing is saved under the name while an index is missing, and exactly the file, once, when the last one arrives |
| MobileDownload.PartsAreKept | mobile-client/src/stores/terminal.ts:177-185 | the total is that of the first chunk, a part that is there is never replaced, and a new one is added once |
| MobileDownload.CountIsComplete | mobile-client/src/stores/terminal.ts:186 | counting distinct parts is enough to know that all have come |
| MobileDownload.SavedIff | mobile-client/src/stores/terminal.ts:168-203 | once every chunk that is sent for a file has come, in any order and company, the client has saved it if and only if it is not empty; an empty one is reported missing |
| MobileDownload.ChunkReachesClient | mobile-client/src/stores/terminal.ts:117-137 | a chunk sent as one binary frame reaches the download logic unchanged |
| PcClient.ProcessIsBatch | pc-client/src/net/TcpClient.cpp:177-203 | every whole message is passed to `handleMessage`, once and in order, and the loop gives up exactly when the bytes left over begin with a header of wrong magic or of a length over the cap |
| PcClient.ReadsAnyCut | pc-client/src/net/TcpClient.cpp:172-203 | the same for every cut of the stream, also one that ends in bad magic or oversize |
| PcClient.SameMessagesAsTerminal | pc-client/src/net/TcpClient.cpp:177-203 | the PC client and an authenticated session dispatch the same list and stop alike, each with its own cut of the stream, on every stream within the smaller cap |
| PcClient.TcpClient.ProcessBuffer | pc-client/src/net/TcpClient.cpp:177-203 | the object's loop leaves the state of the pure one, with every message handled recorded |
| PcClient.TcpClient.HandleMessage | pc-client/src/net/TcpClient.cpp:205-217 | the switch records the message and passes file chunks on |
| PcClient.TcpClient.ReceiveFileData | pc-client/src/net/TcpClient.cpp:254-279 | the object's handler is the pure step on downloads and signals |
| PcClient.ChunkAdvances | pc-client/src/net/TcpClient.cpp:267-278 | the total is that of the first chunk, bytes are appended, and the file is announced when as many chunks have come |
| PcClient.FileIsEmittedOnce | pc-client/src/net/TcpClient.cpp:254-279 | with its chunks in order among any other messages, a file is announced exactly once and byte for byte |
| PcClient.DownloadOverTcp | pc-client/src/net/TcpClient.cpp:172-203 | the same from the socket up, for every cut of the bytes |
| Tracker.PanTiltTracker.UpdateAuto | terminal/src/servo/PanTiltTracker.cpp:8-23 | the object's step is the clamped proportional step |
| Tracker.StaysInRange | terminal/src/servo/PanTiltTracker.cpp:8-33 | every run that starts in range stays in range |
| Tracker.AutoStepIsSmall | terminal/src/servo/PanTiltTracker.cpp:18-22 | an automatic step moves each axis by at most the step limit |
| Tracker.Trajectory | terminal/src/servo/PanTiltTracker.cpp:8-23 | under one snapshot, `n` updates equal one jump of `n` steps, clamped once |
| Tracker.LimitsReachedIff | terminal/src/servo/PanTiltTracker.cpp:18-22 | on each axis the limit is reached after `n` updates if and only if the steps cover the distance |
| Tracker.MovesIff | terminal/src/servo/PanTiltTracker.cpp:14-19 | the step is non-zero if and only if the error leaves the deadzone, when no factor is zero |
| Tracker.PanFollows | terminal/src/servo/PanTiltTracker.cpp:11-21 | direction and size of the pan's automatic step, in terms of the face's distance from the middle of the frame |
| Tracker.TiltFollows | terminal/src/servo/PanTiltTracker.cpp:12-22 | the same for the tilt |
| Tracker.OrdersObeyed | terminal/src/servo/PanTiltTracker.cpp:25-33 | a nudge is relative, a setting is not, each axis for itself, as near as its range allows |
| Business.CommandQueue.TryPop | terminal/src/core/CommandQueue.h:32-38 | the oldest command comes out, and false exactly when there is none |
| Business.AppliedInOrder | terminal/src/core/CommandQueue.h:26-38 | for every interleaving of sessions and loop, the commands applied followed by those queued are exactly the commands pushed, in order; at a decision exactly those pushed before the queue was last found empty have been applied |
| Business.BusinessThread.DrainCommands | terminal/src/app/BusinessThread.cpp:26-42 | whatever sessions push between pops, the object's drain is that run of the interleaved system, ending at a pop that finds the queue empty |
| Business.BusinessThread.TakeTurn | terminal/src/app/BusinessThread.cpp:24-49 | drain, pushes that come late, and decision of the object are that run of the interleaved system |
| Business.TracksIff | terminal/src/app/BusinessThread.cpp:19-54 | over all interleavings a decision is to track if and only if the last mode command applied switched tracking on and every servo command applied since then is at least the override time old, the commands applied being a prefix of those pushed, in order |
| Business.CommandDoes | terminal/src/app/BusinessThread.cpp:27-41 | what each command does when it is its turn: where the axes go, how long tracking is held off, and what a mode command leaves alone |
| Registry.ClientRegistry.ReapFinished | terminal/src/core/ClientRegistry.h:30-41 | exactly the finished sessions are joined and removed, order kept, count published |
| Registry.ClientRegistry.StopAll | terminal/src/core/ClientRegistry.h:43-49 | every remaining session is joined and the registry cleared |
| Registry.CapUnderInterleaving | terminal/src/net/TcpServer.cpp:97-141 | with `k` accept loops the registry never holds more than `maxClients + k - 1` entries, and the published count is always the number of entries |
| Registry.CapIsTight | terminal/src/net/TcpServer.cpp:107-140 | some interleaving reaches that bound, for every `k` and cap |
| Registry.CapHoldsIff | terminal/src/main.cpp:111-119 | `maxClients` is a cap in every run if and only if there is one accept loop |
| Registry.EveryThreadJoinedOnce | terminal/src/main.cpp:187-196 | after the accept loops have ended, `stopAll` leaves the registry empty and every session thread ever started joined exactly once; a second `stopAll` changes nothing |
| Registry.ReapRemovesFinished | terminal/src/core/ClientRegistry.h:30-41 | in every run a reap leaves exactly the sessions that have not ended, joins exactly those that have, and makes room for new ones |

## Left out

- Camera, framebuffer, window display, face detection and JPEG coding: opaque libraries.
- TLS and certificate pinning: foreign calls; a byte stream is a script of answers, whatever lies below it.
- PWM output and the status board's angle and frame-rate fields: stores without logic.
- The file manager: reading a file is a parameter of `SendFile`; its path check is a one-function claim.
- `getNumber`: `strtod` is library behaviour, so the angles of a servo command stay inside its body as `PushServo` carries it.
- The JSON of the terminal's answers other than its HELLO: text without a property beyond `escape`.
- Qt signals other than `fileDownloaded`, Qt re-entrancy, Vue state other than downloads, saved files and not-found errors; of a message that is not a file chunk the PC client's model keeps that it was handled.
- UTF-8 decoding of names: names are byte strings, so two names that decode to the same text count as different.
- IEEE rounding of angles: they are real numbers; the 64-bit range of the millisecond clock: unbounded.
- Partial writes: a buffer handed to `writeAll` is recorded whole; whether it succeeded is a separate answer.
- Promptness: how many turns of the poll loop pass before a byte is served.
- A timeout of `recv` inside the handshake is a failed read like any other.
