# Verified model of the WebSocket and Shadowsocks tunnel client

The client carries byte streams and datagrams to a proxy server inside WebSocket connections, over
HTTP/1.1, HTTP/2 (RFC 8441) or HTTP/3 (RFC 9220). This project models the parts of it that are written by hand
and proves what they promise. Four groups of modules follow four parts of the program.

**The wire stack.** `Varint` and `H3` model QUIC integers and DATA frames, `WSFrame` and `WSConn` RFC 6455
frames and messages, `CloseGate` the write side of a connection, `PrefixedInt`, `Qpack`, `QpackStatic` and
`H3Handshake` the header codec and the HTTP/3 handshake. `Transport` is what a framed connection is built on, a bare
stream or one inside DATA frames. `Pipeline` composes them. `Pipeline.ReadOverH3` builds the stack that the program
builds over HTTP/3 and reads it: however the server's frames are cut into DATA frames, the caller gets the payloads of
its binary messages in order, and all of them if it keeps reading. `Pipeline.SendOverH3` writes through the same
stack: the peer recovers every message whose write succeeded. At the bottom is `Streams.Stream`, which chooses chunk
sizes, short writes and failures freely, so each method is proved for every chunking. Whether the caller's context stays
live is an input of each read.

**HTTP/2 receive flow control.** `FlowControl` models peer and client exchanging DATA and WINDOW_UPDATE frames for any
window and any batch size, and `RawH2` the read and write loops and their relation to it. Progress is guaranteed
exactly when the batch, and the padding the peer may send, fit into the window. The client's batch is 65536 and its
window 65535, so `FlowControl.ThisClientStalls` shows a run that stops for good.

**The load balancer.** `Health` models one upstream's counters, intervals and round-trip average as a function of the
history of checks and reports; `Selection` scores and the order of candidates; `Balancer` the pool with its picks,
sticky choice, hysteresis and cooldowns, over every run; `ProbeScheduler` the in-flight flags and semaphores; `Standby`
and `AliveCheck` the ownership and the liveness check of warm connections.

**UDP sessions.** `UdpTable` is the table with its critical sections, `UdpSessions` every interleaving of them, and
`SocksAddr` the address parser and its keyed fast path.

Imperative code is modelled by classes and loops. Each such method is tied to a function of its input or of the
old state, and the results are lemmas about those functions. Concurrent protocols are state machines: a region under
one lock is one step, and a lemma over runs quantifies over all interleavings. Times are integers in nanoseconds with 0
for the zero time, and clocks, random draws, dial outcomes and probe results are inputs of the steps.

Where the code and its documentation disagree, the code is modelled:

- The repository's README promises liveness validation of a TCP standby before it is handed over (line 95). A framed
  connection answers pings and drops pongs inside its own Read and surfaces only text and binary messages, so the check
  never succeeds there (`AliveCheck.NeverAliveOverFrames`), and a standby that is alive is closed and redialled.
- The read loop is written to hand credit back in batches of 64 KiB (`internal/rfc8441_raw_h2.go` lines 457-470). With
  the default window of 65535 no update is sent while it runs (`FlowControl.OversizedBatch`).
- A header block that ends in an empty value without an exact entry in the static table does not decode, because a
  read of no bytes at the end of the input is an error. `Qpack.RoundTrip` gives the exact condition, and
  `QpackStatic.ConnectRoundTrip` shows that the client's own request is never of that kind.
- Upstreams are meant to be ranked by their round trips. Whole milliseconds are compared and 0 counts as unknown, so an
  upstream less than a millisecond away scores like one at 1000 ms (`Selection.SubMillisecondLoses`).
  `Selection.LongerScoresHigherIff` gives the exact condition under which the ranking follows the round trips.
- The repository's README documents `udp_max_flows` as a maximum (line 456). The table is compared with it before the
  dial and not again when the session is installed, so k concurrent creations can leave k - 1 sessions more
  (`UdpSessions.BoundReached`), and never more than that (`UdpSessions.TableBound`).
- Section 4.5.2 of RFC 9204 has a bit that tells the static from the dynamic table, and section 4.5.4 a never-index bit.
  The decoder takes every indexed line as static and refuses name references with the never-index bit
  (`Qpack.OtherForms`). A string that is cut off by the end of the block is filled up with zeros
  (`PrefixedInt.AnnouncedText`).
- Padding of DATA frames is never handed back, so a peer that pads can drain any window (`FlowControl.ProgressIff`).
- A cooldown never keeps a healthy upstream out: whatever makes it healthy also clears the cooldown
  (`Balancer.CooldownInvariant`), so the cooldown tests in the picks never decide anything.

## Model

| member | source | states |
|---|---|---|
| `Varint.RoundTrip` | internal/ws_h3.go:714-747 | reading an encoding followed by anything gives the value and exactly what followed, if and only if the value is below 2^62 |
| `Varint.DecodeBound` | internal/ws_h3.go:727-747 | a decoded value fits the bits left by the length tag |
| `Varint.Shortest` | internal/ws_h3.go:714-725 | no byte string that reads as v is shorter than the encoding of v |
| `Varint.DecodeMeaning` | internal/ws_h3.go:727-747 | what a byte string says by section 16 of RFC 9000: the two top bits are the logarithm of the length, the rest is the value, and it is short exactly when fewer bytes are left |
| `Varint.ReadVarint` | internal/ws_h3.go:727-747 | the two reads and the loop compute the decoder's value and leave exactly the rest, for every chunking, and fail exactly on short input |
| `H3.DeliverDataFrame` | internal/ws_h3.go:120-186 | one DATA frame in front adds exactly its payload to what is delivered if it is within 64 MiB, and is an error otherwise |
| `H3.DeliverFrame` | internal/ws_h3.go:120-159 | a frame of any type in front: beyond 64 MiB an error, of any type but 0 an error that leaves what follows, otherwise its payload is delivered |
| `H3.TruncatedFrame` | internal/ws_h3.go:128-158 | every proper part of a frame delivers nothing and reads as the end of the stream |
| `H3.DeliverChunks` | internal/ws_h3.go:120-186 | however a byte string is cut into DATA frames within the cap, the reader gets that byte string and then what follows |
| `H3.H3Stream.LoadFrame` | internal/ws_h3.go:128-158 | loads one frame through the shared or a fresh buffer; pending data is unchanged, or the error and what is left unread are those the frames prescribe |
| `H3.H3Stream.CopyOut` | internal/ws_h3.go:122-126 | hands out the front of the unread bytes and keeps the rest |
| `H3.H3Stream.Advance` | internal/ws_h3.go:121-159 | loads frames until there is something to hand out |
| `H3.H3Stream.Read` | internal/ws_h3.go:120-160 | each read returns the next bytes of what was pending and leaves the rest pending, so reuse of the frame buffer never overwrites unread bytes; a failed read had nothing pending, tells the cause, and the next one goes on behind the frame that made it fail |
| `H3.H3Stream.Write` | internal/ws_h3.go:161-186 | success puts exactly one whole DATA frame on the wire whatever the short writes; it fails only when the stream does, with 0 bytes reported and a prefix of the frame left on the wire, all of it if the flush failed |
| `Transport.Transport.Receive` | internal/ws_h2.go:131-136 | over a bare or an HTTP/3 stream: the next bytes in order, and failure only when nothing is pending |
| `Transport.Transport.Write` | internal/ws_h2.go:131-136 | a bare stream takes any prefix; over HTTP/3 all of it goes out in one DATA frame, or the write fails with 0 bytes reported |
| `WSFrame.MaskInvolution` | internal/ws_h2.go:346-350 | masking twice with one key restores the payload |
| `WSFrame.MaskInPlace` | internal/ws_h2.go:346-350 | the in-place XOR loop computes the mask |
| `WSFrame.MaskFlips` | internal/ws_h2.go:388-391 | each bit of a masked byte is the payload's, flipped exactly where the key byte at that position mod 4 has a one |
| `WSFrame.FrameHeader` | internal/ws_h2.go:355-386 | the header as section 5.2 of RFC 6455 draws it: FIN, zero bits, opcode, mask bit, and the length in 7 bits or in 2 or 8 big-endian bytes |
| `WSFrame.FramePayload` | internal/ws_h2.go:382-401 | an unmasked payload stands as it is; a masked one stands behind its key with the bits flipped where the key has ones |
| `WSFrame.WrongMasking` | internal/ws_h2.go:303-308 | a frame masked the other way than expected is refused |
| `WSFrame.TruncatedFrame` | internal/ws_h2.go:290-344 | every proper part of a frame is a short read |
| `WSFrame.LenRoundTrip` | internal/ws_h2.go:310-378 | the chosen length form, 7, 16 or 64 bits, stands for the payload length |
| `WSFrame.RoundTrip` | internal/ws_h2.go:290-401 | a frame followed by anything is read back with opcode, payload and FIN bit and exactly the rest, masked or not, if and only if the payload is within 64 MiB |
| `WSFrame.BufReader.Read` | internal/ws_h2.go:131-136 | buffered reading over either transport hands out the bytes in order and fails only at the end |
| `WSFrame.Take` | internal/ws_h2.go:314-344 | a full read gets exactly the next bytes for every chunking, or reports that too few are left |
| `WSFrame.ReadLength` | internal/ws_h2.go:310-328 | the 7-bit length, or the 2 or 8 bytes that extend it, for every chunking |
| `WSFrame.ReadFrame` | internal/ws_h2.go:290-353 | the reader agrees with the parser on every input: same frame and rest, or same error |
| `WSFrame.ReadBody` | internal/ws_h2.go:330-353 | the same for mask key and payload, with the size check between them |
| `WSFrame.BuildFrame` | internal/ws_h2.go:355-401 | the builder produces the encoding that the round trip is about |
| `CloseGate.CloseIsFinal` | internal/ws_h2.go:138-184 | over every sequence of write attempts, at most one close frame reaches the wire and nothing follows it, if and only if no caller pushes a close frame through the ordinary write path while the gate is open |
| `CloseGate.DataAfterClose` | internal/ws_h2.go:138-157 | two writes with which it fails: a close frame through the ordinary path, then a data frame that goes out behind it |
| `CloseGate.ClosedForGood` | internal/ws_h2.go:138-184 | after a close frame no later attempt changes anything |
| `CloseGate.NothingFollowsClose` | internal/ws_h2.go:159-184 | the wire after the first close is the wire for ever |
| `CloseGate.WireIsWholeFrames` | internal/ws_h2.go:138-157 | when no write fails, the wire is a concatenation of whole frames |
| `WSConn.OnlyDataSurfaces` | internal/ws_h2.go:186-224 | on every wire, Read surfaces only text and binary messages |
| `WSConn.FramedWSConn.WriteLoop` | internal/ws_h2.go:144-156 | short writes put the whole frame on the wire, in one DATA frame over HTTP/3, or the part before the stream failed |
| `WSConn.FramedWSConn.WriteRaw` | internal/ws_h2.go:138-157 | under the lock: fails exactly when the gate is shut or the stream fails, and otherwise the whole frame is out |
| `WSConn.FramedWSConn.Write` | internal/ws_h2.go:263-272 | the write side stays a run of the close gate; a write fails exactly when the caller gives up, the gate is shut or the stream fails, and otherwise the whole frame is out |
| `WSConn.FramedWSConn.SendClose` | internal/ws_h2.go:159-184 | shuts the gate, even when the close frame then fails to go out; the first call that succeeds has put the whole close frame on the wire, a later one succeeds without writing |
| `WSConn.FramedWSConn.Close` | internal/ws_h2.go:274-286 | attempts a close frame with the two-byte code and the reason, or an empty one for code 0 |
| `WSConn.FramedWSConn.HandleControl` | internal/ws_h2.go:199-212 | a ping makes one attempt at a pong of the same payload, a pong none, a close one attempt at the same close, and the stream is closed; while the context is live the attempt is made, and with the gate open and a sound stream its whole frame is out |
| `WSConn.FramedWSConn.Read` | internal/ws_h2.go:186-224 | over either transport the result, the bytes left and one attempt per reply in order are those of the frame rules; it is cancelled, or drops a reply, only if the caller's context is not live, and with the gate open and a sound stream every reply is on the wire |
| `WSConn.FramedWSConn.ReadFragmentedMessage` | internal/ws_h2.go:226-261 | the same in the middle of a fragmented message, with control frames in between, each answered as there |
| `Pipeline.TunnelFrame` | internal/ws_h2.go:186-261 | one frame in front of the bytes changes the byte stream as the frame rules say |
| `Pipeline.TunnelFrames` | internal/ws_h2.go:186-261 | legal frames contribute their binary payloads in order and leave the reader between messages |
| `Pipeline.Inbound` | internal/outline_tcp.go:123-140 | on the wire: for every cutting of the server's bytes into DATA frames, the stream amounts to exactly the binary payloads of its legal frames in order, pings and pongs anywhere, and then to what comes behind them |
| `Pipeline.RepliesFrames` | internal/ws_h2.go:186-261 | over legal frames the Reads attempt exactly one pong per ping, with its payload and in order, between messages and inside them, and then what the bytes behind call for |
| `Pipeline.InboundReplies` | internal/ws_h2.go:199-243 | the same through any cutting into DATA frames |
| `Pipeline.PongsArrive` | internal/ws_h2.go:199-243 | when those attempts are all on the wire, the peer that reads DATA frames and masked frames gets those pongs first |
| `Pipeline.ReadOverH3` | internal/ws_h3.go:379 | on the objects: a byte stream over a framed connection over an HTTP/3 stream, read with any buffer sizes, returns a prefix of those bytes, and all of them once a read has failed; with a live context it returns all of them as soon as more nonempty buffers are offered than there are bytes, and then, if the stream does not fail, the peer has got a pong for every ping, in order, and nothing else if nothing followed |
| `Pipeline.IllegalFrameEndsTunnel` | internal/ws_h2.go:206-261 | a close frame, or any frame that section 5.4 of RFC 6455 does not allow there, ends the stream whatever follows it |
| `Pipeline.ReceiveEncoded` | internal/ws_h2.go:290-401 | a receiver that expects masks gets every encoded message back in order, and then what follows |
| `Pipeline.Outbound` | internal/ws_h3.go:161-186 | on the wire: encoded messages in one DATA frame each, with any keys and followed by anything, are all recovered by DATA parsing and frame parsing, with type, payload and FIN |
| `Pipeline.SendAll` | internal/ws_h2.go:263-272 | messages written one after another: the attempts are completed writes of the first ones, and one more exactly when the stream failed |
| `Pipeline.SendOverH3` | internal/ws_h3.go:379 | on the objects: what a framed connection over an HTTP/3 stream puts on the wire gives the peer every message whose write succeeded, in order, and exactly all of them when the stream does not fail |
| `Pipeline.WireOfWrites` | internal/ws_h2.go:138-157 | after successful writes the wire is the concatenation of their encoded frames, each in its own DATA frame over HTTP/3 |
| `Pipeline.WSStreamConn.LoadMessage` | internal/outline_tcp.go:124-136 | fetching a message changes nothing of what remains to be read, or nothing remained, or a context that is not live was cancelled |
| `Pipeline.WSStreamConn.Read` | internal/outline_tcp.go:123-140 | returns the next bytes of the stream, at least one into a nonempty buffer, and keeps the rest; with a live context an error means none were left |
| `Pipeline.WSStreamConn.Write` | internal/outline_tcp.go:142-150 | one binary message per write, all of it on success and 0 bytes reported on failure |
| `Pipeline.ReadAll` | internal/outline_tcp.go:123-140 | reads of any sizes collect a prefix of the stream, and all of it once the stream has failed; with a live context every nonempty buffer brings at least a byte until then; every ping met has been answered |
| `PrefixedInt.RestMeaning` | internal/ws_h3_qpack_min.go:112-124 | the continuation bytes as section 5.1 of RFC 7541 has them: seven bits each, lowest first, the top bit set on all but the last |
| `PrefixedInt.IntMeaning` | internal/ws_h3_qpack_min.go:112-124 | a small value stands in the prefix; otherwise the prefix is full and the excess follows |
| `PrefixedInt.RestRoundTrip` | internal/ws_h3_qpack_min.go:112-152 | continuation bytes add w * 2^m on top of the value so far, without overflow below 2^63 |
| `PrefixedInt.IntRoundTrip` | internal/ws_h3_qpack_min.go:112-152 | for every prefix length and tag and every value below 2^63, decoding gives the value and exactly what followed |
| `PrefixedInt.TextRoundTrip` | internal/ws_h3_qpack_min.go:154-185 | a string reads back exactly, except that an empty one at the end of the input is an error |
| `PrefixedInt.TextDecodes` | internal/ws_h3_qpack_min.go:167-185 | with the Huffman bit the same bytes go through the Huffman decoder, and its error is the reader's |
| `PrefixedInt.AnnouncedText` | internal/ws_h3_qpack_min.go:167-185 | a string announced with n bytes panics when n cannot be allocated, fails at the end of the input, and is filled up with zeros when only part of it is left |
| `PrefixedInt.AppendPrefixedInt` | internal/ws_h3_qpack_min.go:112-124 | the loop appends the encoding |
| `PrefixedInt.ReadPrefixedIntWithFirst` | internal/ws_h3_qpack_min.go:134-152 | the loop computes the decoder's value in wrapping 64-bit arithmetic and consumes the same bytes |
| `Qpack.FindEntry` | internal/ws_h3_qpack_min.go:26-35 | the table search finds the first exact entry, or the first with the name |
| `Qpack.LineRoundTrip` | internal/ws_h3_qpack_min.go:22-110 | each of the three line forms is told apart by its first byte and delimits itself: the field and exactly the rest come back, unless the line is an empty written-out value at the end |
| `Qpack.LineForms` | internal/ws_h3_qpack_min.go:25-47 | the first bits are 11 for an entry of the table, 0101 for a name of the table, 00100 otherwise |
| `Qpack.OtherForms` | internal/ws_h3_qpack_min.go:65-107 | dynamic and never-indexed name references and all post-base forms are refused; the table bit of an indexed line and the never-index bit of a literal name are not looked at |
| `Qpack.RoundTrip` | internal/ws_h3_qpack_min.go:22-110 | decoding an encoded header list gives its last-wins map, if and only if the last field is not an empty value without an exact table entry |
| `Qpack.LastWinsMeaning` | internal/ws_h3_qpack_min.go:51-110 | in that map each name has the value of its last field, and no other name appears |
| `Qpack.AppendPrefixedText` | internal/ws_h3_qpack_min.go:154-157 | appends the string encoding |
| `Qpack.AppendLine` | internal/ws_h3_qpack_min.go:25-47 | appends the line encoding of one field |
| `Qpack.EncodeBlock` | internal/ws_h3_qpack_min.go:22-49 | the loops produce the block that the round trip is about |
| `Qpack.ReadPrefixedTextWithFirst` | internal/ws_h3_qpack_min.go:167-185 | the reader agrees with the string decoder, errors and panics included |
| `Qpack.ReadLine` | internal/ws_h3_qpack_min.go:61-107 | the reader agrees with the line decoder |
| `Qpack.DecodeBlock` | internal/ws_h3_qpack_min.go:51-110 | the decoding loop agrees with the block decoder on every input |
| `QpackStatic.EmptyValueFails` | internal/ws_h3_qpack_min.go:173-176 | a block on which it fails: one field named x with an empty value, over the client's own table |
| `QpackStatic.ConnectRoundTrip` | internal/ws_h3.go:499-505 | whatever the authority, path and origin, the client's request decodes to its fields |
| `H3Handshake.ResponseRoundTrip` | internal/ws_h3.go:507-531 | whatever frames precede it, the client gets the fields of the first HEADERS frame, last one winning, under the condition of the codec |
| `H3Handshake.AwaitEnds` | internal/ws_h3.go:511-522 | a frame that announces more than is left means no response, and a panic when it cannot be allocated |
| `H3Handshake.ReadFrame` | internal/ws_h3.go:511-522 | reads one frame for every chunking, or reports the end or an impossible length |
| `H3Handshake.ReadResponseHeaders` | internal/ws_h3.go:507-531 | the loop skips to the first HEADERS frame and decodes it, for every chunking |
| `H3Handshake.SettingsRoundTrip` | internal/ws_h3.go:590-618 | encoded settings are read back one by one up to the limit |
| `H3Handshake.ExtendedConnectDetected` | internal/ws_h3.go:590-618 | extended CONNECT counts as enabled exactly when the last such setting among the first 32 is 1 |
| `H3Handshake.ParseSettingsPayload` | internal/ws_h3.go:590-618 | the parsing loop computes what the settings say, also on malformed payloads |
| `FlowControl.Conservation` | internal/rfc8441_raw_h2.go:454-510 | in every run, for both windows: peer credit, data in flight, pending, updates on their way and padding add up to the window, and less than a batch is pending |
| `FlowControl.QuiescentCredit` | internal/rfc8441_raw_h2.go:454-510 | once all has arrived, both windows are the window minus pending and padding, at least W - B + 1 without padding |
| `FlowControl.LostIsPadding` | internal/rfc8441_raw_h2.go:492-497 | what is never handed back is exactly the padding that has arrived |
| `FlowControl.ProgressIff` | internal/rfc8441_raw_h2.go:454-510 | no run with at most k bytes of padding gets stuck if and only if the batch and k fit into the window together; without padding, if and only if the batch is no larger than the window |
| `FlowControl.OversizedBatch` | internal/rfc8441_raw_h2.go:454-510 | with a larger batch no update is sent while the reader runs and no run receives more than the window |
| `FlowControl.ThisClientStalls` | internal/rfc8441_raw_h2.go:26-29 | with this client's batch and window a run gets stuck, and at most 65535 bytes arrive before the reader stops |
| `RawH2.OnFrameAccounted` | internal/rfc8441_raw_h2.go:457-501 | a frame delivers its data; handed back plus pending stays equal to delivered, and no update is smaller than a batch |
| `RawH2.OnFrameIsReceive` | internal/rfc8441_raw_h2.go:487-501 | a DATA frame of the stream is one Receive step of the flow-control protocol: same pending count, same bytes delivered, same window updates |
| `RawH2.LoopFollowsProtocol` | internal/rfc8441_raw_h2.go:473-509 | in every run of that protocol, whatever the peer sends and is credited in between, the reader's side is the loop over the frames that carry the DATA consumed: same pending count, same bytes, and the updates credited or on their way are those it has written |
| `RawH2.OthersIgnored` | internal/rfc8441_raw_h2.go:487-509 | frames of other streams and other kinds change nothing in that loop |
| `RawH2.ConsumedMeaning` | internal/rfc8441_raw_h2.go:487-508 | the loop reads up to the first DATA frame with END_STREAM or RST_STREAM of stream 1, or GOAWAY |
| `RawH2.ExitIsStop` | internal/rfc8441_raw_h2.go:471 | and the forced flush on the way out is its Stop step |
| `RawH2.ReadLoop` | internal/rfc8441_raw_h2.go:454-510 | delivers the stream's data in order up to the frame that ends it; on exit every delivered byte has been handed back; each frame has had the effect that the protocol lemmas are about |
| `RawH2.WriteData` | internal/rfc8441_raw_h2.go:424-445 | the chunks on the wire are the data cut in order into 16 KiB pieces, all of it on success |
| `SocksAddr.ParseSocksAddrAt` | internal/socksaddr.go:14-50 | the stepwise parser agrees with the address grammar at every offset, errors included |
| `SocksAddr.AcceptsHeader` | internal/socksaddr.go:14-50 | every header of section 5 of RFC 1928, wherever it stands and whatever follows, is read as its host and port |
| `SocksAddr.AcceptsOnlyHeaders` | internal/socksaddr.go:14-50 | and what is accepted is such a header |
| `SocksAddr.ParseAddrKeyFromPlain` | internal/outline_udp_session.go:226-265 | accepts exactly what the plain parser accepts at offset 0, ends at the same place, and computes the key of the same host and port |
| `SocksAddr.KeyKeepsHeader` | internal/outline_udp_session.go:26-32 | the header bytes can be rebuilt from the key |
| `SocksAddr.KeysEqualIff` | internal/outline_udp_session.go:226-265 | two accepted packets get equal keys exactly when their headers are byte-equal |
| `UdpTable.UdpPortTable.Check` | internal/tun_udp_porttable.go:48-63 | a session that is found is returned with its time set to now and nothing else changed; otherwise the limit, or 4096, is reported exactly when the table is that full |
| `UdpTable.UdpPortTable.Install` | internal/tun_udp_porttable.go:85-97 | installs the session unless the key was taken meanwhile; the earlier session wins |
| `UdpTable.UdpPortTable.PruneSession` | internal/tun_udp_porttable.go:121-129 | removes and reports exactly the idle flows of a session |
| `UdpTable.UdpPortTable.GcOnce` | internal/tun_udp_porttable.go:100-142 | removes exactly the sessions idle beyond the timeout, prunes the rest, and returns each removed session once |
| `UdpSessions.TableBound` | internal/tun_udp_porttable.go:45-98 | with at most k creators in flight, and any lookups that hit or are refused besides, table and creators together never exceed limit - 1 + k, in every run |
| `UdpSessions.BoundReached` | internal/tun_udp_porttable.go:45-98 | for every k and every setting a run with k creators ends with exactly limit - 1 + k sessions in the table |
| `UdpSessions.SessionsOwned` | internal/tun_udp_porttable.go:45-142 | in every run each opened session is in exactly one place: the table under its own key, a creator, waiting to be closed, or closed once |
| `UdpSessions.NoClosedSessionInTable` | internal/tun_udp_porttable.go:85-142 | no closed session is in the table and none is closed twice |
| `UdpSessions.SessionLives` | internal/tun_udp_porttable.go:45-142 | over every run: exactly the sessions that no collection finds idle for longer than the timeout, or 60 s, stay in the table, with the time of their last lookup or packet; any other is waiting to be closed or closed once |
| `UdpSessions.LookupKeeps` | internal/tun_udp_porttable.go:48-52 | a session found by a lookup or a packet at t stays while collections come within the timeout of t, if no later lookup carries an earlier time |
| `UdpSessions.LateLookupLoses` | internal/tun_udp_porttable.go:46-52 | runs with times out of order, in which a collection within the timeout of t removes it: the clock is read before the lock is taken |
| `UdpSessions.IdleIsCollected` | internal/tun_udp_porttable.go:100-142 | one that is not used after t is gone for good, and closed or about to be, after a collection later than that |
| `UdpSessions.FlowsFollow` | internal/tun_native.go:378-465 | while a session stays, its flows are those used within the flow timeout, or 30 s, each with the time of its last packet |
| `UdpSessions.CreatorRemembers` | internal/tun_udp_porttable.go:45-83 | a creator dials for the key it was asked for, and its session counts as seen at that time |
| `UdpSessions.Installed` | internal/tun_udp_porttable.go:85-97 | that session goes into the table under its key, or the table is left alone and the duplicate is to be closed |
| `Health.ApplyJitter` | internal/util.go:5-16 | the result is within jitter of the duration and never negative for a non-negative one |
| `Health.JitterCovers` | internal/util.go:5-16 | every duration within jitter that is not negative is the result of one draw |
| `Health.MinDur` | internal/util.go:18-23 | the smaller of two durations |
| `Health.ApplyHCResult` | internal/lb.go:668-715 | the assignments, one after another, amount to the step of the history model |
| `Health.HealthRefinesHistory` | internal/lb.go:668-715 | after any history the counters are its trailing run lengths, and healthy holds exactly when a success run reached its threshold, or checks were disabled, with no later report and no later full failure run |
| `Health.LastCheckKept` | internal/lb.go:670 | the time of the last check is kept; reports and scheduling do not count as checks |
| `Health.LastRTTKept` | internal/lb.go:696 | the round trip of the last passed check is kept |
| `Health.FailingIsLastWord` | internal/lb.go:672-692 | an error is remembered exactly while a failure or report is the last thing heard |
| `Health.IntervalBounds` | internal/lb.go:685-753 | every result and report leaves the interval between minimum and maximum and the next check within jitter of it, never in the past |
| `Health.NextCheckSpread` | internal/lb.go:685-715 | and every time within jitter of the interval, except before now, is chosen by one draw |
| `Health.FailureInterval` | internal/lb.go:717-733 | a failed check that leaves the upstream up backs off from the minimum, one that finds it down or takes it down from the interval it had |
| `Health.SuccessInterval` | internal/lb.go:735-753 | a passed check lengthens the interval by a fifth and by the scaled round-trip average; the first two successes in a row start from at most the configured interval |
| `Health.PromptIntervals` | internal/lb.go:294-376 | the scheduler's start makes every upstream due at once, and a report asks for a check after the minimum interval |
| `Health.BackoffIsPower` | internal/lb.go:717-733 | with a whole factor k, n failed checks in a row multiply the interval n times by k, up to the maximum |
| `Health.DownRunGrows` | internal/lb.go:717-733 | while an upstream is down, n failed checks apply n back-off steps |
| `Health.BackoffNeverShrinks` | internal/lb.go:717-733 | with a factor of at least 1 a back-off step never shortens the interval |
| `Health.BackoffReachesMaxIff` | internal/lb.go:717-733 | back-off reaches the maximum interval if and only if it is there or its first step lengthens it after truncation |
| `Health.BackoffIsGeometric` | internal/lb.go:717-733 | and then n steps multiply the interval at least by ((factor + 1) / 2)^n until the maximum |
| `Health.SuccessNeverShrinks` | internal/lb.go:735-753 | from the third success on the interval never shrinks, and below the maximum it grows exactly when it is at least 5 ns or the round-trip term is at least 1 ns |
| `Health.SuccessRunReachesMax` | internal/lb.go:735-753 | a success run from an interval of at least 5 ns never shrinks it and reaches the maximum |
| `Health.PassedGain` | internal/lb.go:735-753 | each such check adds at least a fifth, up to the maximum |
| `Health.SuccessRunIsGeometric` | internal/lb.go:735-753 | so n checks multiply the interval at least by 1.1^n until the maximum |
| `Health.AverageWeighs` | internal/lb.go:697-701 | the average is (4 avg + rtt) / 5 rounded down, and the first round trip itself |
| `Health.AverageInHull` | internal/lb.go:696-701 | the round-trip average stays between the smallest and largest observed values, and is 0 before the first |
| `Selection.HeavierScoresLower` | internal/lb.go:276-279 | a heavier upstream never scores worse, and a weight that is not positive counts as 1 |
| `Selection.WorseScoresHigher` | internal/lb.go:259-279 | a longer known round trip, more failures, an error or an older check do not improve a score, when the two round trips keep their order in whole milliseconds |
| `Selection.LongerScoresHigherIff` | internal/lb.go:259-262 | with all else equal a longer known round trip scores no better if and only if the shorter one is at least 1 ms, or the longer one is under 1 ms or at least 1000 ms |
| `Selection.SubMillisecondLoses` | internal/lb.go:259-262 | an input on which it does: 0.999999 ms scores worse than 2 ms |
| `Selection.EligibleHasKey` | internal/lb.go:255-285 | with 64-bit durations and fewer than 10^15 failures in a row, every eligible upstream can be chosen |
| `Selection.IneligibleHasNoKey` | internal/lb.go:255-257 | and one that is down or cooling down never can |
| `Selection.SoundScore` | internal/lb.go:259-279 | a fresh and sound upstream of weight 1 scores its round trip in whole milliseconds |
| `Selection.UnknownScore` | internal/lb.go:259-262 | an unknown round trip scores as one second |
| `Selection.FailureCosts` | internal/lb.go:270 | one more failure scores exactly as 500 ms more of round trip |
| `Selection.ErrorCosts` | internal/lb.go:271-274 | and so does a remembered error |
| `Selection.StaleCosts` | internal/lb.go:264-268 | beyond two intervals without a check the whole age counts, 5 ms of it as 1 ms of round trip |
| `Selection.RecentIsFresh` | internal/lb.go:264-268 | up to then age changes nothing |
| `Selection.WeightsCompare` | internal/lb.go:276-279 | two upstreams compare as their scores at weight 1, each multiplied by the other's weight |
| `Selection.FailingLoses` | internal/lb.go:259-279 | so 10 ms with one failure and its error scores 1010, against 100 for a sound one at 100 ms |
| `Selection.TopUnique` | internal/lb.go:410-473 | the conditions on the list of the best n determine it |
| `Selection.TopLength` | internal/lb.go:410-473 | the list has length min(n, number of candidates) |
| `Selection.TopPrefix` | internal/lb.go:410-473 | a shorter list is a prefix of a longer one |
| `Selection.BestHeadsTop` | internal/lb.go:236-292 | the best candidate is the head of every such list, and there is none exactly when the list is empty |
| `Balancer.BestIsBest` | internal/lb.go:236-292 | the scan finds the candidate that precedes all others by score and pool position |
| `Balancer.CooldownInvariant` | internal/lb.go:361-408 | in every run, for both protocols, a healthy upstream has no cooldown |
| `Balancer.TestsAgree` | internal/lb.go:179-255 | so the strict test of the sticky path, the non-strict one of the candidate path and plain health agree |
| `Balancer.SideIsRun` | internal/lb.go:600-666 | in every run the health of each upstream and protocol is what its own history makes it |
| `Balancer.PickedIsUp` | internal/lb.go:168-234 | in every run whatever a pick returns is up by its own history |
| `Balancer.NoneMeansDown` | internal/lb.go:288-290 | and a pick fails only when every upstream is down |
| `Balancer.ReportedStaysOut` | internal/lb.go:361-408 | an upstream reported as failed is not picked until a check of it has passed or checks are disabled |
| `Balancer.Noninterference` | internal/lb.go:168-292 | removing every event of the other protocol from a run changes no pick of this one |
| `Balancer.SameEventsSameAnswers` | internal/lb.go:168-292 | two runs with the same events for one protocol give the same picks for it, whatever happens on the other |
| `Balancer.PickIsBest` | internal/lb.go:192-234 | UDP picks, and TCP picks without a usable current upstream, return the best candidate or none |
| `Balancer.SwitchIff` | internal/lb.go:178-227 | a TCP pick leaves a usable upstream for a different best candidate exactly when the sticky period is over and a round trip is unknown or at least the minimum is gained |
| `Balancer.StickyHolds` | internal/lb.go:178-190 | while the current upstream has no failure, every TCP pick of the sticky period returns it |
| `Balancer.PickSticks` | internal/lb.go:200-227 | a TCP pick outside a sticky period starts one, in which its choice is repeated |
| `Balancer.StickyEnds` | internal/lb.go:178-227 | and the period is over after exactly the configured time: the next TCP pick then follows the switching rule |
| `Balancer.ReportUnsticks` | internal/lb.go:381-386 | a TCP report of the current upstream ends its sticky period for good, even if it is usable again before |
| `Balancer.CooldownRuns` | internal/lb.go:361-408 | a report's cooldown ends the configured time after it, unless the upstream is up or reported again before |
| `Balancer.LoadBalancer.constructor` | internal/lb.go:77-90 | every upstream starts unhealthy, without cooldown, and none is current |
| `Balancer.LoadBalancer.Scan` | internal/lb.go:236-292 | the loop over the pool finds the best unused candidate and its round trip |
| `Balancer.LoadBalancer.PickByEndpoint` | internal/lb.go:168-234 | the pick and the new sticky state are those of the run model |
| `Balancer.LoadBalancer.PickTopN` | internal/lb.go:410-473 | the repeated scan returns the list of the best n: candidates in strict order, everything omitted after everything chosen |
| `Balancer.LoadBalancer.FinishCheck` | internal/lb.go:600-610 | a check's result changes one protocol of one upstream as the run model says, and keeps the cooldown invariant |
| `Balancer.LoadBalancer.ReportTCPFailure` | internal/lb.go:361-387 | after it no TCP pick, at any time, returns that upstream, and every UDP pick is what it was; nothing changes for no upstream |
| `Balancer.LoadBalancer.ReportUDPFailure` | internal/lb.go:389-408 | after it no UDP pick, at any time, returns that upstream, and every TCP pick is what it was |
| `ProbeScheduler.SchedulerSafe` | internal/lb.go:331-359 | in every run the probe channel holds one token per check between acquire and release and at most 2, the dial channel one per dialling check, and a target's flag is up exactly when one launched check has not cleared it |
| `ProbeScheduler.LimitersNeverBlockOrUnderflow` | internal/lb.go:755-793 | the dial limiter never makes a check wait and no release finds its channel empty |
| `ProbeScheduler.NoDuplicateChecks` | internal/lb.go:553-666 | two unfinished checks never share an upstream and protocol |
| `ProbeScheduler.DialsAtMostTwice` | internal/lb.go:553-666 | a check takes a dial slot at most twice, for the transport and for the quality probe |
| `ProbeScheduler.NeverStuck` | internal/lb.go:755-793 | once it has its probe slot a check always has a next step, whatever the others do |
| `Standby.ConnectionsOwned` | internal/warm_standby.go:52-240 | in every interleaving each dialled connection is in exactly one of one slot, one operation, one caller's hands, or closed once |
| `Standby.HandedOnce` | internal/warm_standby.go:52-105 | no connection is handed over twice or closed twice, and one that was handed over is neither closed nor kept |
| `Standby.OnlyInFlightEnsuresLeak` | internal/lb.go:488-505 | after the shutdown has swept the pool, a connection still in a slot was dialled by an ensure that was in the middle of its dial when the context was cancelled, and still was, or held the connection, when the sweep reached that slot |
| `Standby.LateDialLeaks` | internal/warm_standby.go:130-148 | a run in which that happens |
| `Standby.HandedOnlyIf` | internal/warm_standby.go:52-105 | a caller gets only a UDP standby, a TCP standby that has just passed the liveness check, or a fresh dial |
| `Standby.SlotFilledOnlyIf` | internal/warm_standby.go:141-148 | a slot is filled only when empty, by an ensure or keepalive that holds the connection |
| `Standby.DeadNeverReturns` | internal/warm_standby.go:78-222 | over every run: a connection that failed its liveness check, of a caller or of a keepalive, is in every later state closed once or about to be, so never in a slot and never handed over |
| `Standby.KeepaliveRestores` | internal/warm_standby.go:199-240 | a standby that passes its keepalive check waits, whatever happens meanwhile, for the step that restores it if its slot is free and gives it up if not |
| `Standby.KeepaliveTakes` | internal/warm_standby.go:199-213 | a keepalive takes the standby out of its slot for the check |
| `Standby.EnsureFills` | internal/warm_standby.go:129-148 | a connection that an ensure has dialled fills its slot if that is still free when it is put there, and is closed if not |
| `Standby.EnsureDecides` | internal/warm_standby.go:108-127 | an unhealthy upstream has its standby closed and its slot emptied; a healthy one is dialled exactly when its slot is empty |
| `Standby.AcquireServed` | internal/warm_standby.go:52-105 | a UDP standby is handed over at once, a TCP standby if it passes its check; if not it is closed and the caller's own dial decides, as without a standby |
| `AliveCheck.WsAliveCheck` | internal/warm_standby.go:16-38 | true exactly when the ping was written and the first pong precedes any close or error and is empty or echoes the ping; a pong is attempted for every ping met |
| `AliveCheck.SurfacesOnlyData` | internal/ws_h2.go:186-224 | no sequence of Reads of a framed connection surfaces a control frame |
| `AliveCheck.NeverAliveOverFrames` | internal/warm_standby.go:16-38 | so over a framed connection the check fails on every wire |
| `AliveCheck.Script` | internal/ws_h2.go:186-224 | what the Reads of a framed connection surface is what the wire holds, in order; with a live context only a failed Read cuts it short |
| `AliveCheck.AliveOverFrames` | internal/warm_standby.go:16-38 | the check's loop on a framed connection, over either transport: the ping is written first, everything surfaced is passed over until a Read fails, and the check never succeeds |

## Left out

- QUIC, TLS, TCP dialling, net/http, TUN handling: foreign code and I/O; a dial is an outcome chosen freely.
- Shadowsocks ciphers, HPACK and SHA-1 accept keys: library calls. The Huffman decoder is a parameter of the QPACK decoder, whose encoder never uses it.
- The fallback order between transports and the parsing of transport hints: a finite table of easy cases.
- Configuration, URL and host parsing, metrics, logging and the SOCKS5 relay loops: input, output and plumbing with little to prove. Their results are parameters, with thresholds of at least 1 and minimum at most maximum where a lemma says so.
- HTTP/2 send-side windows: the program stores but never consults them.
- Channel delivery and buffer pooling in the UDP session's read loop: closed-channel semantics and pooling would be the whole model.
- Floating-point rounding: scores, factors and averages are exact reals, truncated where the program converts to a duration.
- Overflow of 64-bit durations: durations are unbounded integers. The QPACK integer codec does wrap at 64 bits.
- Rendering IP addresses as text: the parsers keep the address bytes.
- A pick is one step: the program reads upstreams one at a time, so a report made during a pick may come too late for it.
- Balancer.StickyHolds: is about such picks; in the program a slow pick may overwrite a newer choice.
- Balancer.PickSticks: the same; two picks that overlap may each set the current upstream.
- The library readers: bufio.Reader and io.ReadFull hand out sequences; copying into the caller's slice is modelled for the HTTP/3 stream, the raw stream and the byte stream, where buffers are shared or kept.
- Identity of upstreams: they are positions in the pool, which never changes after construction. A health state is a record value, and clock readings within one locked region are one reading.
- Standby slots and probe counters: these are steps over values, because what matters is the interleaving; update in place is not modelled for them.
- WSConn.FramedWSConn.Close: the delayed close of the underlying stream is left out.
- H3Handshake.ParseSettingsPayload: the text it formats for the log is left out.
- Standby: a dial that begins after its context was cancelled is taken to fail, as a dial with a cancelled context does.
