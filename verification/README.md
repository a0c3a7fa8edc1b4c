# Verification of the streaming engine

This project models, in Dafny 4.11, the code that the AIS streaming plugin depends on to stay connected and to read
what it is sent: the WebSocket transport it streams through, the helpers of its opening handshake, the supervisor
that reconnects it, and the server side of the same library. `dafny verify dfyconfig.toml` verifies all of it.

## What is modelled

- **Frames and messages** (`Frames`, `Messages`, `Receiver`, `RoundTrip`): the frame format of section 5.2 of RFC
  6455, the cutting of messages into fragments, and the decoder as a function of the receive buffer. The main results
  are the round trip of whole message streams through masking, the three length forms, fragmentation and interleaved
  PING and PONG frames, and the invariance of decoding under any cutting of the octet stream into receives.
- **The transport** (`Transport`, `Control`, `ReceiveGate`): a class with the transport's own fields. The send buffer
  and the receive buffer are changed in place; the ready state, the pending close report and the wanted size are
  fields. The socket may take or give any number of octets, ask to wait, or fail; what it has to give is a fixed
  stream, and the transport counts what it has read of it. Every method is proved against the
  functions of `Receiver` and `Control`, up to the whole loop of poll and dispatch (`Run`).
- **Several threads on one connection** (`Wire`): sending threads under the write lock, control frames beside it, and
  partial writes, as a step relation.
- **Two transports** (`Exchange`): what one sends and what the other's callbacks are given.
- **Two sessions** (`Sessions`): what the first leaves to the second.
- **The closing handshake** (`Closing`): which closures survive the wire, and two endpoints as a step relation.
- **UTF-8** (`Utf8`): the table-driven automaton, exact with respect to section 4 of RFC 3629.
- **The accept key** (`Bits`, `Sha1`, `AcceptKey`, `Base64`): the unrolled SHA-1 on five rotating registers and a ring
  of sixteen words, against the algorithm of section 6.1 of RFC 3174; the key generator; base 64.
- **The supervisor** (`Supervisor`, `Backoff`): `Start`, `Stop` and `Restart` against the supervisor thread, as a step
  relation, and the pacing of reconnects.
- **The server** (`ServerGc`): accept thread, connection threads, the thread that joins them, and `stop()`.
- **Texts** (`Inet`, `Url`, `Pdu`, `Text`): addresses, URLs and field lists, printed and parsed.

The concurrent parts treat each access to a shared flag, and each region under a mutex, as one step, and their results
hold for every run of the step relation.

## Where the code differs from what one would expect

Each of these is stated as a theorem, with the exact condition.

- A failed poll ends the connection only if dispatching stopped for want of a header. With part of a payload, or a
  frame that is refused, at the front of the buffer, the failure is passed over (`Transport.WebSocketTransport.Dispatch`,
  `BreaksOff`).
- The wanted size is kept when the receive buffer is cleared. On the next session it can close the read gate while the
  header at the front is incomplete (`ReceiveGate.StaleWanted`). `Sessions.StartAgain` reaches such a state and
  `ReceiveGate.StaleWantedWedges` gives octets that shut the gate; it then stays shut until the transport is closed
  (`Sessions.StayWedged`).
- A frame that is refused is not consumed. Every later dispatch refuses it again, and a PING that is too long has its
  mask applied once more each time (`Receiver.SameAsWhole` compares such streams up to the repeated `close()` calls).
- The close callback can run more than once in one dispatch. On frames without a violation it runs once for every
  CLOSE frame, and at most once if and only if at most one CLOSE frame came; in state CLOSING it runs once for every
  CLOSE frame from the first with the recorded status on (`Closing.CloseReports`, `Closing.ReportsOnce`;
  `Closing.SecondCloseReportsAgain` is the instance of two frames).
- A new session begins with the buffers, the fragments and the wanted size of the last one, so octets that were left
  in the send buffer go out first (`Transport.WebSocketTransport.Connected`).
- A status code or reason that the peer does not accept comes back changed, so the answer is not recognised
  (`Closing.StatusRoundTrip` gives the closures that survive).
- A text or binary heartbeat, and a progress callback that stops a message, can leave the peer out of sequence
  (`Wire.OutOfTurn`).
- The branch of `Start` that joins an old thread is never taken (`Supervisor.OneSupervisor`).
- A second slash at the start of a URL's path is lost (`Url.UrlRoundTrip`).
- Names with a space or a newline are not read back from a field list (`Pdu.RoundTrip`).

## Model

| member | source | states |
|---|---|---|
| Frames.ParseEncodedHeader | third-party/IXWebSocket/ixwebsocket/IXWebSocketTransport.cpp:470-542 | the header written for any opcode, FIN flag, mask, key and payload length up to 2^63, in whichever of the three length forms, is read back as exactly those fields with the RSV bits clear |
| Frames.ParseHeaderStable | third-party/IXWebSocket/ixwebsocket/IXWebSocketTransport.cpp:470-542 | a header that is complete does not change when more octets arrive behind it |
| Frames.ExtendedLengthRoundTrip | third-party/IXWebSocket/ixwebsocket/IXWebSocketTransport.cpp:985-1022 | the 7-, 16- and 64-bit forms are used exactly for lengths below 126, below 65536 and above, and the extended length is read back |
| Frames.EightOctets | third-party/IXWebSocket/ixwebsocket/IXWebSocketTransport.cpp:1010-1022 | shifting and masking a 64-bit length gives its eight octets in network order |
| Bytes.MaskInvolutive | third-party/IXWebSocket/ixwebsocket/IXWebSocketTransport.cpp:422-440 | masking twice with one key gives the data back; section 5.3 of RFC 6455 |
| Messages.FragmentsConcatenate | third-party/IXWebSocket/ixwebsocket/IXWebSocketTransport.cpp:887-932 | the payloads of a message's frames, in order, are the message |
| Messages.Fragmentation | third-party/IXWebSocket/ixwebsocket/IXWebSocketTransport.cpp:877-933 | the frames of a message concatenate to it, only the first carries its opcode, only the last FIN, and none a payload above 65535 octets, so sending never needs the 64-bit length form; section 5.4 of RFC 6455 |
| Messages.FragmentSizes | third-party/IXWebSocket/ixwebsocket/IXWebSocketTransport.cpp:897-912 | every frame but the last is a whole chunk |
| Messages.InterpretMessage | third-party/IXWebSocket/ixwebsocket/IXWebSocketTransport.cpp:573-638 | a receiver between messages turns the frames of one message into that message, its kind, and one FRAGMENT event for each frame that is not final |
| Receiver.FrontOfEncoded | third-party/IXWebSocket/ixwebsocket/IXWebSocketTransport.cpp:470-563 | at the front of a buffer that begins with an encoded frame, under any mask, dispatching finds exactly that frame and its size |
| Receiver.FrontStable | third-party/IXWebSocket/ixwebsocket/IXWebSocketTransport.cpp:544-571 | what is at the front of the buffer, once whole or refused, does not change when more octets arrive |
| Receiver.DispatchEncoded | third-party/IXWebSocket/ixwebsocket/IXWebSocketTransport.cpp:467-746 | one dispatch of any concatenated frames consumes their unmasked contents in order, then goes on with what is behind them |
| Receiver.DispatchSplit | third-party/IXWebSocket/ixwebsocket/IXWebSocketTransport.cpp:467-746 | dispatching a buffer in two halves, the second after the first has been dispatched, is dispatching it whole, unless the first half ran into a frame that is refused |
| Receiver.DispatchSettles | third-party/IXWebSocket/ixwebsocket/IXWebSocketTransport.cpp:467-557 | after a dispatch no whole frame is left at the front of the buffer |
| Receiver.FeedDead | third-party/IXWebSocket/ixwebsocket/IXWebSocketTransport.cpp:484-571 | once a frame is refused, nothing but repeated close() calls ever happens again: no callback, no change of the fragment list or the message kind |
| Receiver.StreamingInvariance | third-party/IXWebSocket/ixwebsocket/IXWebSocketTransport.cpp:467-746 | for every octet stream and every cutting of it into receives with a dispatch after each: same callbacks, same fragment list, same message kind, and same buffer as one dispatch of the whole; on a stream that is refused somewhere, the same up to repeated close() calls |
| RoundTrip.InterpretTraffic | third-party/IXWebSocket/ixwebsocket/IXWebSocketTransport.cpp:573-663 | PING and PONG frames between fragments leave the decoding of the data frames alone, and the other way around |
| RoundTrip.FrameRoundTrip | third-party/IXWebSocket/ixwebsocket/IXWebSocketTransport.cpp:464-663 | frames of any messages, fragmented as sendData cuts them, under any masks and keys, with PING and PONG frames anywhere between: delivered are exactly the messages and FRAGMENT events in order, and exactly the control payloads and PONG replies in order; buffer and fragment list end empty. A text that is not UTF-8 is refused instead |
| RoundTrip.SentIsDelivered | third-party/IXWebSocket/ixwebsocket/IXWebSocketTransport.cpp:573-638 | when the text messages are valid UTF-8, the messages delivered are those sent |
| RoundTrip.StreamedFrames | third-party/IXWebSocket/ixwebsocket/IXWebSocketTransport.cpp:467-557 | for any prefix of a stream of frames, in any receives: the complete frames have been consumed once and in order, and the incomplete one is exactly what is in the buffer |
| Transport.WebSocketTransport.constructor | third-party/IXWebSocket/ixwebsocket/IXWebSocketTransport.cpp:61-84 | a fresh transport is closed, its buffers are empty and no size is wanted |
| Transport.WebSocketTransport.SetReadyState | third-party/IXWebSocket/ixwebsocket/IXWebSocketTransport.cpp:209-238 | the close callback runs with the pending code, reason, size and origin exactly when the state becomes CLOSED from another one, after which they are the defaults; it has run once for every session that is over |
| Transport.WebSocketTransport.AppendToSendBuffer | third-party/IXWebSocket/ixwebsocket/IXWebSocketTransport.cpp:410-429 | header and payload go to the end of the buffer, the payload masked in place if the transport masks |
| Transport.WebSocketTransport.WriteLength | third-party/IXWebSocket/ixwebsocket/IXWebSocketTransport.cpp:985-1022 | the second octet and the extended length, in the form the length needs |
| Transport.WebSocketTransport.MakeHeader | third-party/IXWebSocket/ixwebsocket/IXWebSocketTransport.cpp:966-1030 | the header of section 5.2 of RFC 6455, with the masking key if the transport masks |
| Transport.WebSocketTransport.SendOnSocket | third-party/IXWebSocket/ixwebsocket/IXWebSocketTransport.cpp:1069-1101 | whatever the socket takes: octets written and octets still buffered are together those appended; a failure closes the socket, and the transport unless it is closing |
| Transport.WebSocketTransport.SendFragment | third-party/IXWebSocket/ixwebsocket/IXWebSocketTransport.cpp:951-1037 | exactly one frame with this opcode, FIN flag and payload is appended |
| Transport.WebSocketTransport.SendFragments | third-party/IXWebSocket/ixwebsocket/IXWebSocketTransport.cpp:877-933 | a message is appended as its first k frames, all of them if neither socket nor progress callback stops it |
| Transport.WebSocketTransport.SendData | third-party/IXWebSocket/ixwebsocket/IXWebSocketTransport.cpp:835-948 | nothing is sent unless open or closing; otherwise the first k frames of the message are appended, all of them on success without a progress callback, and without a socket failure the state does not change |
| Transport.WebSocketTransport.SendMessage | third-party/IXWebSocket/ixwebsocket/IXWebSocket.cpp:536-578 | a message is sent only while the connection is open |
| Transport.WebSocketTransport.SendText | third-party/IXWebSocket/ixwebsocket/IXWebSocket.cpp:515-525 | a text is sent only if it is UTF-8; one that is not ends the connection with code 1007 |
| Transport.WebSocketTransport.SendPing | third-party/IXWebSocket/ixwebsocket/IXWebSocket.cpp:527-534 | a PING of at most 125 octets is sent as one message while the connection is open; a longer one is not |
| Transport.WebSocketTransport.FlushSendBuffer | third-party/IXWebSocket/ixwebsocket/IXWebSocketTransport.cpp:1246-1301 | on success the buffer is empty or cancellation was asked for; written and buffered octets stay those appended; a send timeout or an error closes the socket, and the transport unless it is closing |
| Transport.WebSocketTransport.SendCloseFrame | third-party/IXWebSocket/ixwebsocket/IXWebSocketTransport.cpp:1143-1164 | the payload is the code in two octets and the reason, or nothing for code 1005 |
| Transport.WebSocketTransport.CloseSocketAndSwitchToClosedState | third-party/IXWebSocket/ixwebsocket/IXWebSocketTransport.cpp:1178-1192 | the close callback runs with this code, reason, size and origin, unless the transport is closed already |
| Transport.WebSocketTransport.Close | third-party/IXWebSocket/ixwebsocket/IXWebSocketTransport.cpp:1194-1238 | in every state but CLOSING and CLOSED the closure is recorded, the state becomes CLOSING and one CLOSE frame with the code and the reason is sent; otherwise nothing changes |
| Transport.WebSocketTransport.DecodeStatus | third-party/IXWebSocket/ixwebsocket/IXWebSocketTransport.cpp:666-709 | code and reason of a CLOSE payload, with 1007 for a reason that is not UTF-8, 1002 for a code that must not be sent, and 1005 for a payload below two octets |
| Transport.WebSocketTransport.AnswerClose | third-party/IXWebSocket/ixwebsocket/IXWebSocketTransport.cpp:711-735 | while no closure is under way a CLOSE frame is answered and reported as remote; while one is, it completes it exactly if code and reason are the same |
| Transport.WebSocketTransport.ReadHeader | third-party/IXWebSocket/ixwebsocket/IXWebSocketTransport.cpp:470-542 | the header at the front of the buffer, or nothing while it is incomplete |
| Transport.WebSocketTransport.UnmaskReceiveBuffer | third-party/IXWebSocket/ixwebsocket/IXWebSocketTransport.cpp:431-440 | the payload at the front of the buffer is unmasked in place, and nothing else is changed |
| Transport.WebSocketTransport.GetMergedChunks | third-party/IXWebSocket/ixwebsocket/IXWebSocketTransport.cpp:772-789 | the fragments, one after the other |
| Transport.WebSocketTransport.EmitMessage | third-party/IXWebSocket/ixwebsocket/IXWebSocketTransport.cpp:791-825 | the message callback runs, except for a text that is not UTF-8, which ends the connection with code 1007 |
| Transport.WebSocketTransport.OnDataFrame | third-party/IXWebSocket/ixwebsocket/IXWebSocketTransport.cpp:574-638 | the fragment list, the message kind, the callbacks and the complaints after one data frame; an opcode out of sequence is complained of and the frame still processed |
| Transport.WebSocketTransport.OnPing | third-party/IXWebSocket/ixwebsocket/IXWebSocketTransport.cpp:639-658 | a PING is answered first, then reported |
| Transport.WebSocketTransport.ConsumeFrame | third-party/IXWebSocket/ixwebsocket/IXWebSocketTransport.cpp:573-742 | what one whole frame does to decoder, callbacks, state and what is sent, by its opcode |
| Transport.WebSocketTransport.Refuse | third-party/IXWebSocket/ixwebsocket/IXWebSocketTransport.cpp:484-490 | a frame that is refused is answered by close() and stays in the buffer |
| Transport.WebSocketTransport.DispatchFront | third-party/IXWebSocket/ixwebsocket/IXWebSocketTransport.cpp:467-746 | one turn of the loop: a whole frame is consumed and erased; a refused one stays; the wanted size is set for an incomplete one |
| Transport.WebSocketTransport.DispatchFrames | third-party/IXWebSocket/ixwebsocket/IXWebSocketTransport.cpp:467-746 | the loop is the decoder function on the whole buffer: same fragment list, kind, buffer, callbacks, wanted size, reports and answers |
| Transport.WebSocketTransport.Dispatch | third-party/IXWebSocket/ixwebsocket/IXWebSocketTransport.cpp:464-770 | what the loop does, followed by an abnormal closure exactly when the poll failed and the loop was left for want of a header |
| Transport.WebSocketTransport.ReceiveFromSocket | third-party/IXWebSocket/ixwebsocket/IXWebSocketTransport.cpp:1103-1141 | the octets read go to the end of the buffer; nothing is read while a gate is shut, and after a receive the buffer is shorter than the larger of 32K and the wanted size, plus 32K |
| Transport.WebSocketTransport.SendHeartBeat | third-party/IXWebSocket/ixwebsocket/IXWebSocketTransport.cpp:270-308 | a heartbeat is sent whole, while anything is sent at all, and an answer to it is waited for from then on |
| Transport.WebSocketTransport.Heartbeat | third-party/IXWebSocket/ixwebsocket/IXWebSocketTransport.cpp:317-336 | a PING heartbeat whose predecessor was not answered closes with code 1011; any other is sent whole |
| Transport.WebSocketTransport.Connected | third-party/IXWebSocket/ixwebsocket/IXWebSocket.cpp:231-254 | a session that begins is open, on a new stream, with the buffers, fragments and wanted size that were left; it sends a heartbeat at once if there are any |
| Transport.WebSocketTransport.ExpireClosing | third-party/IXWebSocket/ixwebsocket/IXWebSocketTransport.cpp:393-399 | a closure that takes too long is completed: the callback runs with what close() recorded, and the buffer is cleared |
| Transport.WebSocketTransport.Poll | third-party/IXWebSocket/ixwebsocket/IXWebSocketTransport.cpp:317-402 | without a send failure the state is that of the heartbeat, or of the closure that has expired; the octets read are at the end of the buffer, or the buffer was cleared |
| Transport.WebSocketTransport.Round | third-party/IXWebSocket/ixwebsocket/IXWebSocket.cpp:398-453 | one poll and one dispatch: the events are those of the decoder function on the buffer with the octets read from the socket; unless the transport is closed so are fragment list, kind and buffer |
| Transport.WebSocketTransport.Run | third-party/IXWebSocket/ixwebsocket/IXWebSocket.cpp:373-454 | for every behaviour of the socket and every number of rounds until the transport is closed: all events are those of the octets read from the socket, fed to the decoder function in some cuts; only when it is closed may the last of them have been thrown away |
| Exchange.SendCalls | third-party/IXWebSocket/ixwebsocket/IXWebSocket.cpp:484-578 | any texts, binary messages and PINGs sent one after the other on an open connection: unless sending fails, the frames sent are those of the messages, whole and in order, with the PINGs between them |
| Exchange.SentIsReceived | third-party/IXWebSocket/ixwebsocket/IXWebSocketTransport.cpp:464-663 | between two transports, when what the receiver's socket gives is a part of what the sender's socket took: the receiver's callbacks were given the first of the messages sent, in order, unchanged and of their kind; and all of them once everything has been written and read |
| Exchange.Receive | third-party/IXWebSocket/ixwebsocket/IXWebSocket.cpp:373-454 | the same for the receiver's own loop, whatever its socket does |
| Sessions.StartAgain | third-party/IXWebSocket/ixwebsocket/IXWebSocketTransport.cpp:393-399 | after a closure that took too long, the next session begins with an empty buffer and the size that was wanted for the frame that was at its front |
| Sessions.StayWedged | third-party/IXWebSocket/ixwebsocket/IXWebSocketTransport.cpp:1103-1117 | with an incomplete header and at least the wanted size in the buffer, a round reads nothing and delivers nothing, and leaves the transport in that state or closed |
| ReceiveGate.WantedIsRepresentable | third-party/IXWebSocket/ixwebsocket/IXWebSocketTransport.cpp:537-548 | header size plus payload length never overflows 64 bits |
| ReceiveGate.WantedFits | third-party/IXWebSocket/ixwebsocket/IXWebSocketTransport.cpp:544-550 | if the wanted size belongs to the front of the buffer before a dispatch, it does after it |
| ReceiveGate.GateNeverWedges | third-party/IXWebSocket/ixwebsocket/IXWebSocketTransport.cpp:1107-1116 | after a dispatch that began with a fitting size the gates allow a read exactly unless the stream was refused and a chunk of it is buffered; in particular always on legal frames |
| ReceiveGate.StaleWanted | third-party/IXWebSocket/ixwebsocket/IXWebSocketTransport.cpp:395-395 | with a size left over from a cleared buffer, on a stream that is not refused, the gates allow a read exactly unless the header at the front is incomplete and that size already reached |
| ReceiveGate.StaleWantedWedges | third-party/IXWebSocket/ixwebsocket/IXWebSocketTransport.cpp:752-752 | an instance of the stuck gate: the size of a 7-octet frame whose first three octets were buffered, and eight octets of a ten-octet header |
| Wire.WireConservation | third-party/IXWebSocket/ixwebsocket/IXWebSocketTransport.cpp:410-429 | for any number of sending threads, control frames and partial writes, in every interleaving: octets written followed by octets buffered are the whole frames in append order; the data frames are whole messages in the order of the write lock, then a part of one; no thread's messages are lost, repeated or reordered |
| Wire.DeliveredInOrder | third-party/IXWebSocket/ixwebsocket/IXWebSocket.cpp:536-578 | whatever part of the wire has arrived at the peer, in whatever receives: it has been delivered a prefix of the messages in the order of the write lock, and all of them when all has arrived |
| Wire.OutOfTurn | third-party/IXWebSocket/ixwebsocket/IXWebSocketTransport.cpp:592-609 | a message that starts after k frames of another one is out of sequence for the peer exactly if those are neither none nor all of it |
| Closing.StatusRoundTrip | third-party/IXWebSocket/ixwebsocket/IXWebSocketTransport.cpp:666-709 | a close code and reason are read by the peer as they were sent exactly if the code may be sent and the reason is UTF-8, or both are those of code 1005 |
| Closing.AnnouncementIsOneFrame | third-party/IXWebSocket/ixwebsocket/IXWebSocketTransport.cpp:877-885 | a CLOSE is a single frame exactly below 64K of payload |
| Closing.DispatchTakes | third-party/IXWebSocket/ixwebsocket/IXWebSocketTransport.cpp:467-746 | the step of the two-endpoint model is what dispatching the next frame of the buffer does |
| Closing.QuietReaction | third-party/IXWebSocket/ixwebsocket/IXWebSocketTransport.cpp:573-663 | a legal frame other than CLOSE changes nothing but for the PONG that answers a PING |
| Closing.CloseReaction | third-party/IXWebSocket/ixwebsocket/IXWebSocketTransport.cpp:664-735 | a CLOSE frame whose status survives the wire is treated as a closure with exactly that status |
| Closing.ClosingAgreement | third-party/IXWebSocket/ixwebsocket/IXWebSocketTransport.cpp:1194-1238 | in every run in which one of two open endpoints closes, with any legal frames and replies around it: neither close callback runs twice, both report the same code and reason, as local at the initiator and as remote at the peer, and once nothing is left to be taken both are CLOSED; section 7.1 of RFC 6455 |
| Closing.CloseReports | third-party/IXWebSocket/ixwebsocket/IXWebSocketTransport.cpp:664-735 | in one dispatch of any frames without a violation the close callback runs once for every CLOSE frame, and in state CLOSING once for every one from the first with the recorded status on |
| Closing.ReportsOnce | third-party/IXWebSocket/ixwebsocket/IXWebSocketTransport.cpp:711-735 | unless a closure of its own is under way, the close callback runs at most once in a dispatch if and only if at most one CLOSE frame was in it |
| Closing.SecondCloseReportsAgain | third-party/IXWebSocket/ixwebsocket/IXWebSocketTransport.cpp:711-722 | the instance of two CLOSE frames in the buffer of an open transport |
| Utf8.RunEncoded | third-party/IXWebSocket/ixwebsocket/IXUtf8Validator.h:85-93 | from the accept state, the encoding of any scalar leads back to it with the code point holding that scalar |
| Utf8.AcceptedIsEncoded | third-party/IXWebSocket/ixwebsocket/IXUtf8Validator.h:50-93 | every accepted string is a concatenation of encoded scalars |
| Utf8.EncodedIsAccepted | third-party/IXWebSocket/ixwebsocket/IXUtf8Validator.h:50-93 | every concatenation of encoded scalars is accepted, and the code points held on the way are those scalars |
| Utf8.AutomatonExact | third-party/IXWebSocket/ixwebsocket/IXUtf8Validator.h:50-93 | the automaton accepts a string if and only if it is UTF-8 by section 4 of RFC 3629, and the scalars it is made of are unique |
| Utf8.DecodeNextByte | third-party/IXWebSocket/ixwebsocket/IXUtf8Validator.h:85-93 | looking up class and state in the table is the transition by octet ranges, for every state and octet |
| Utf8.Utf8Validator.Consume | third-party/IXWebSocket/ixwebsocket/IXUtf8Validator.h:111-118 | one octet moves the automaton one step, and is refused exactly when that is the reject state |
| Utf8.Utf8Validator.Decode | third-party/IXWebSocket/ixwebsocket/IXUtf8Validator.h:126-140 | stops at the first octet that leads to the reject state, and otherwise leaves the automaton where the whole string leads |
| Utf8.ValidateUtf8 | third-party/IXWebSocket/ixwebsocket/IXUtf8Validator.h:168-176 | true if and only if the string is UTF-8 |
| Sha1.ChooseForm | third-party/IXWebSocket/ixwebsocket/IXWebSocketHandshakeKeyGen.h:64-66 | selecting with two exclusive ors is the Ch function of section 5 of RFC 3174 |
| Sha1.MajorityForm | third-party/IXWebSocket/ixwebsocket/IXWebSocketHandshakeKeyGen.h:84-86 | the majority with one product less is the function of section 5 of RFC 3174 |
| Sha1.TurnIsStep | third-party/IXWebSocket/ixwebsocket/IXWebSocketHandshakeKeyGen.h:58-95 | one step on registers indexed modulo 5 is one step of the algorithm on five named words |
| Sha1.Renew | third-party/IXWebSocket/ixwebsocket/IXWebSocketHandshakeKeyGen.h:53-56 | the word that replaces an entry of the ring is the word of the 80-word schedule sixteen places later |
| Sha1.Sha1 | third-party/IXWebSocket/ixwebsocket/IXWebSocketHandshakeKeyGen.h:100-109 | for every hash value and block, the in-place form computes the block function of section 6.1 of RFC 3174 with its 80-word schedule |
| AcceptKey.TwoBlocks | third-party/IXWebSocket/ixwebsocket/IXWebSocketHandshakeKeyGen.h:135-159 | the hard-wired second half of the first block and the second block are the padding of section 4 of RFC 3174 for any 24-octet key followed by the GUID |
| AcceptKey.HashKey | third-party/IXWebSocket/ixwebsocket/IXWebSocketHandshakeKeyGen.h:128-159 | the hash value left behind is that of the padded 60 octets |
| AcceptKey.EncodeDigest | third-party/IXWebSocket/ixwebsocket/IXWebSocketHandshakeKeyGen.h:111-125 | the generator's own base 64 of 20 octets agrees with the general encoding |
| AcceptKey.FieldOfKey | third-party/IXWebSocket/ixwebsocket/IXWebSocketHandshakeKeyGen.h:130-132 | a key of 24 octets without NUL is taken as it is |
| AcceptKey.Generate | third-party/IXWebSocket/ixwebsocket/IXWebSocketHandshakeKeyGen.h:128-170 | for every key string: base 64 of the SHA-1 of the 24 copied octets and the GUID; section 4.2.2 of RFC 6455 |
| Base64.Encode | third-party/IXWebSocket/ixwebsocket/IXBase64.h:36-74 | base 64 of any two or more octets |
| Base64.EncodedLength | third-party/IXWebSocket/ixwebsocket/IXBase64.h:49-50 | four characters for every three octets begun |
| Base64.Decode | third-party/IXWebSocket/ixwebsocket/IXBase64.h:76-119 | fails exactly if the length is not a multiple of four, and otherwise gives the octets of the digits without those the padding stands for |
| Base64.RoundTrip | third-party/IXWebSocket/ixwebsocket/IXBase64.h:36-119 | decoding what was encoded gives the octets back and nothing else; section 4 of RFC 4648 |
| Supervisor.StopMissesNoSocket | src/ais-stream/ais_stream_client.cpp:344-420 | in every interleaving: once Stop has left its critical section, at any later time before another supervisor is launched, a socket that is published has had close() called |
| Supervisor.OneSupervisor | src/ais-stream/ais_stream_client.cpp:220-253 | at most one supervisor is alive, the streaming flag only falls while one is, a new thread is never assigned over one that can be joined, and the joining branch of Start is never taken |
| Supervisor.JoiningEnds | src/ais-stream/ais_stream_client.cpp:400-420 | while Stop is joining, every step of the supervisor brings it closer to its end and none turns streaming on again |
| Supervisor.TracesAreOrderly | src/ais-stream/ais_stream_client.cpp:255-389 | if sessions end only with an Error or a Close event: Stopped is reported at most once, last, and exactly by a supervisor that is finished; Running at most once a session and after its Connecting; an Error between any two sessions |
| Supervisor.WaitsFollowTheRule | src/ais-stream/ais_stream_client.cpp:376-385 | in every interleaving the waits of each supervisor follow the pacing rule over its own sessions |
| Backoff.Pace | src/ais-stream/ais_stream_client.cpp:257-386 | the loop's variable gives after each session the wait of the pacing rule |
| Backoff.WaitCases | src/ais-stream/ais_stream_client.cpp:376-385 | after any history each wait is between 2 and 30 seconds: 30 after a rejection even if Running was reached, 2 after another session that reached it, otherwise twice the wait before up to 30, starting with 2 |
| Backoff.FailuresInARow | src/ais-stream/ais_stream_client.cpp:385-385 | k failures after any history multiply the last wait by 2 to the k, up to 30 |
| Backoff.FailuresFromTheStart | src/ais-stream/ais_stream_client.cpp:257-385 | the k-th failure in a row from the start waits 2 to the k seconds, up to 30 |
| ServerGc.NoConnectionIsStranded | third-party/IXWebSocket/ixwebsocket/IXSocketServer.cpp:502-549 | in every interleaving: a listed connection whose callback is through will be met by a scan, or the collector's flag is set; and a collector that sleeps while the flag is set has been notified or is about to be |
| ServerGc.JoinedAtMostOnce | third-party/IXWebSocket/ixwebsocket/IXSocketServer.cpp:295-315 | every thread is joined at most once, only after its function has returned, and is listed exactly until then |
| ServerGc.AllJoinedInTheEnd | third-party/IXWebSocket/ixwebsocket/IXSocketServer.cpp:509-519 | when the collector has left through stop(), the list is empty for good and every thread ever launched was joined exactly once |
| ServerGc.StopWaitsForConnectionsOnly | third-party/IXWebSocket/ixwebsocket/IXSocketServer.cpp:256-267 | while stop() waits for the collector, that can take a step, or is about to be woken, or joins a thread that still runs |
| ServerGc.ThreadKeepsWakeup | third-party/IXWebSocket/ixwebsocket/IXConnectionState.cpp:44-52 | setting the terminated flag first, then the collector's flag, then notifying, loses no wake-up |
| Inet.RoundTrip4 | third-party/IXWebSocket/ixwebsocket/IXNetSystem.cpp:307-309 | every IPv4 address is read back from its text |
| Inet.CutAbbreviates | third-party/IXWebSocket/ixwebsocket/IXNetSystem.cpp:337-348 | cutting a run of more than three colons and zeros out of printed groups leaves them with at least two zero groups written as a double colon, wherever the run is |
| Inet.ReadAbbreviated | third-party/IXWebSocket/ixwebsocket/IXNetSystem.cpp:404-436 | any run of two or more zero groups may be written as a double colon and is read back, at either end or in the middle |
| Inet.ReadMapped | third-party/IXWebSocket/ixwebsocket/IXNetSystem.cpp:422-442 | the dotted form of a mapped address is read back |
| Inet.MappedShortens | third-party/IXWebSocket/ixwebsocket/IXNetSystem.cpp:323-348 | a mapped address is always printed as ::ffff: and the dotted quad |
| Inet.RoundTrip6 | third-party/IXWebSocket/ixwebsocket/IXNetSystem.cpp:310-354 | every IPv6 address is read back from whichever text inet_ntop may print; section 2.2 of RFC 4291 |
| Inet.JunkIsNotRead | third-party/IXWebSocket/ixwebsocket/IXNetSystem.cpp:380-443 | the result does not depend on what the uninitialised array held |
| Inet.FullLength | third-party/IXWebSocket/ixwebsocket/IXNetSystem.cpp:303-336 | the text before it is shortened always fits into the array of 100 octets |
| Inet.Ntop4 | third-party/IXWebSocket/ixwebsocket/IXNetSystem.cpp:307-309 | the dotted quad, exactly if it fits into the buffer with its end mark, which it always does into 16 octets |
| Inet.Shorten | third-party/IXWebSocket/ixwebsocket/IXNetSystem.cpp:337-348 | a longest run of colons and zeros is replaced if it is longer than three, and nothing is changed otherwise |
| Inet.Ntop6 | third-party/IXWebSocket/ixwebsocket/IXNetSystem.cpp:310-354 | the shortened text, exactly if it fits into the buffer with its end mark, which it always does into 46 octets |
| Inet.Pton4 | third-party/IXWebSocket/ixwebsocket/IXNetSystem.cpp:384-397 | the loop over four numbers of at most three digits reads what the grammar of dotted quads says |
| Inet.ReadGroups | third-party/IXWebSocket/ixwebsocket/IXNetSystem.cpp:404-430 | the loop over the groups, with its index, its mark for the double colon and its array, reads what the grammar of groups says |
| Inet.SpreadInPlace | third-party/IXWebSocket/ixwebsocket/IXNetSystem.cpp:431-436 | the groups behind the double colon move to the end of the array and the gap is zeros |
| Inet.Pton6 | third-party/IXWebSocket/ixwebsocket/IXNetSystem.cpp:398-443 | the whole of the IPv6 parser, with the dotted form at the end |
| Url.PartsAreRead | third-party/IXWebSocket/ixwebsocket/IXUrlParser.cpp:139-378 | scheme, host, port, path and query of a printed URL are read back as they are, the scheme in lower case |
| Url.UrlRoundTrip | third-party/IXWebSocket/ixwebsocket/IXUrlParser.cpp:407-450 | printing and parsing gives back the lower-case scheme, the host, the port, the query and whether the port is the default one; and the path with its query exactly if no second slash follows the first |
| Url.ReadHost | third-party/IXWebSocket/ixwebsocket/IXUrlParser.cpp:210-320 | the checks of brackets and separators and the two host forms, with their errors in the source's order |
| Url.ReadAuthority | third-party/IXWebSocket/ixwebsocket/IXUrlParser.cpp:179-320 | user information and host, as positions in the whole URL, are those of the authority's text |
| Url.SameEnd | third-party/IXWebSocket/ixwebsocket/IXUrlParser.cpp:210-215 | looking for the end of the authority again behind the user information finds the same place |
| Url.ReadTail | third-party/IXWebSocket/ixwebsocket/IXUrlParser.cpp:320-377 | path, query and fragment; the error that neither a slash nor a question mark follows the authority cannot occur |
| Url.ParseURL | third-party/IXWebSocket/ixwebsocket/IXUrlParser.cpp:139-378 | the cursor over the whole URL finds the parts that its text has, and the same errors |
| Url.ParseTarget | third-party/IXWebSocket/ixwebsocket/IXUrlParser.cpp:407-450 | what the caller is told: protocol, host, path with query, query, port or the protocol's own, and whether it is that |
| Pdu.HexRoundTrip | third-party/IXWebSocket/common/IXPdu.h:32-90 | every value is read back from its hexadecimal text |
| Pdu.HexDecode | third-party/IXWebSocket/common/IXPdu.h:54-90 | fails exactly on an odd length or a character that is no hexadecimal digit |
| Pdu.SerializePdu | third-party/IXWebSocket/common/IXPdu.h:92-105 | a line for each field: its name, a space, its value in hexadecimal |
| Pdu.ParsePdu | third-party/IXWebSocket/common/IXPdu.h:107-132 | the loop over the lines reads field after field; empty lines are passed over, later fields replace earlier ones of the same name, and a line without a space or with a malformed value fails |
| Pdu.RoundTrip | third-party/IXWebSocket/common/IXPdu.h:92-132 | a map is read back from its text, with the fields in any order, exactly if no name holds a space or a newline |

## Left out

- Per-message compression and the RSV1 bit it uses: the codec is a library that is not part of this model. Compression is off, so RSV1 is refused like RSV2 and RSV3.
- TLS back ends, name resolution, the connect and poll system calls, and the opening handshake apart from the accept key: Connected begins where it has succeeded, and the socket is abstract and takes or gives any number of octets, asks to wait, or fails.
- Wall-clock time: ping intervals, the 300 ms closing delay, send timeouts and sleeps are steps that may happen at any time; masking keys, which the source derives from the clock, are any four octets.
- The array that inet_pton leaves uninitialised is modelled as holding zeros in `Pton6`; `JunkIsNotRead` shows that it makes no difference. The message kind of a fresh transport, also uninitialised, is text in the constructor and arbitrary in the lemmas.
- SendHeartBeat: the text of a heartbeat message, with its interval and its counter, is a parameter.
- Whether a transport masks, whether its sends block and whether it answers PINGs are fixed when it is made; the source sets them when it connects.
- Round: what a round does to the close reports and to what is sent is stated by Poll and Dispatch, for rounds in which sending does not fail; after a failure the transport is closing or closed.
- Connected: what the client's Open callback sends before the first heartbeat is not modelled.
- The waking of a poll by another thread, and the callback that counts traffic, change no state that is modelled.
- WireConservation: covers runs up to the first failed send, CLOSE frames below 64K, and heartbeats of type PING; `OutOfTurn` treats the other heartbeats and progress callbacks that stop a message.
- ClosingAgreement: one endpoint closes, nothing that was sent is lost, the closure survives the wire and its CLOSE is one frame. Simultaneous closes with different codes are not covered, and more than one CLOSE in a buffer only by `SecondCloseReportsAgain`.
- Encode: requires two octets, because the source computes its loop bound as the size minus 2 without a sign.
- Decode: requires a nonempty input of characters below 128, because the source reads the last two characters and indexes its table by a signed character.
- TracesAreOrderly: a session opens at most once, because the client switches automatic reconnection off; the library's own loop is not part of that model.
- SentIsReceived: one session; the octets of all sessions of a transport are one wire, and what a receiver is sent in a later session starts with the rest of the one before.
- StopMissesNoSocket: that the library's run() returns after close() is assumed; JoiningEnds shows that the supervisor itself then ends. The token check of Start and the subscribe request are left out.
- NoConnectionIsStranded: one call of stop(); a later one, from a destructor, finds no thread to join.
- GetPort: the number of the port text is unbounded, where atoi is undefined above the range of int.
- IsSchemeValid and the lower-casing of schemes follow the "C" locale.
- Ntop6, Pton6 and their IPv4 counterparts model the hand-written branch; on other platforms the system's functions are called.
- The fields of a map are printed in any order in `Pdu.RoundTrip`; the source prints them in the order of its map.
- HTTP client and server, the command-line tool, the exponential back-off of the library itself and the header-option parser: plain members.
- The plugin's windows, menus and settings, its search-box arithmetic and the JSON of its subscribe message: user interface and floating point.
