# Heimdall, modelled and proved in Dafny

Heimdall is an end-to-end encrypted messenger with a rendezvous and relay server. This
project models the parts of it that carry the hard guarantees and proves them for every
input, every run and every interleaving.

* **Encrypted session.** `Words`, `Bytes`, `ReplayWindow`, `Frames`, `Crypto`, `SessionSpec`
  and `Session` model the sequence numbers, the epochs that either side may advance, the key
  buffers and the in-place replay bitmap. `Channel` runs two sessions over a network that may
  hand either side any bytes at any time. `EpochDrift` and `InOrder` run them over an ordered
  link and say exactly when a frame still opens.
* **Stream stack.** `WsCodec` and `WsConn` model WebSocket framing (sections 5.2, 5.3 and 5.5
  of RFC 6455); `Transport` models length-prefixed frames, the relay's copy loop, and both
  end to end.
* **Relay.** `RelaySpec` and `RelayServer` model the mutex sections over codes, tickets and
  circuits; `RelayRuns` interleaves all handlers, timers, failures and the reaper.
  `RateLimit` models the publish limiter.
* **Handshake.** `HandshakeCodec`, `HandshakeSpec` and `Handshake`.
* **Connections and trust.** `Manager` models duplicate-connection resolution, `Peers` the
  trust store.

Objects that the program updates in place are classes; each method is tied to a step of a
specification function, and the theorems about whole runs are lemmas about those functions.
The relay object keeps the history of its events as a ghost and is always where a run of
`RelayRuns` is, so those theorems hold of the object and its methods can rely on them.
Integer widths are explicit: sequence numbers wrap at 2^64 and epochs at 2^32, and the
theorems say how many operations they cover.

Assumptions. Key derivation, key agreement and hashing are free constructors (no collisions;
agreement depends on the unordered pair of public keys). Authenticated encryption and
signatures are ideal ledgers: opening or verifying succeeds exactly on what was sealed or
signed. The 8-byte session ID is an arbitrary function of its secret. Randomness (nonces,
mask keys, tickets, ephemeral keys) and clocks are parameters or arbitrary choices; clocks do
not run backwards and fresh tickets never repeat. The relay's reaper may sweep late or never;
only `RelayRuns.ClaimedInTime` assumes that it is punctual. Writes to a network connection do
not fail, and crypto calls fail only where the code's own checks make them.

Where the code and its documents disagree, the model follows the code:

* `docs/protocol.md` section 8 describes a chain key that advances with every message; the
  code keeps it constant within an epoch and derives message keys from the chain and the number.
* `docs/protocol.md` section 6 allows chat texts of 4096 bytes; the code seals at most 4094.
* `docs/protocol.md` section 3 encrypts the responder's ephemeral key; the code sends it in clear.
* The comment on `releaseOnce` says a circuit's slot is returned exactly once however it ended.
  It is returned at most once; `RelayRuns.ReturnableIff` says exactly when it still can be, and
  `RelayRuns.SlotCanLeak` gives a run after which it never is.

## Model

| member | source | states |
|---|---|---|
| ReplayWindow.Window.constructor | internal/proto/replay.go:14-18 | A new window has accepted nothing and all its bits are clear. |
| ReplayWindow.Window.Check | internal/proto/replay.go:21-48 | The bitmap decides exactly like the set of all numbers ever accepted: a number is accepted iff it is not in the set and nothing in the set is 1024 or more ahead; acceptance adds it, refusal changes no field and no bit. |
| ReplayWindow.Window.Slide | internal/proto/replay.go:51-72 | In-place sliding moves the bit of every age a - shift to age a and clears the rest, for every 64-bit shift. |
| ReplayWindow.Window.Mark | internal/proto/replay.go:80-83 | Sets the bit of one age and no other. |
| ReplayWindow.Window.Seen | internal/proto/replay.go:85-88 | Reads exactly the bit of that number's age. |
| ReplayWindow.Window.BitIndex | internal/proto/replay.go:74-78 | Word and bit together are the distance to the highest number. |
| ReplayWindow.FreshRule | internal/proto/replay.go:3-12 | The documented rule in terms of the highest number is equivalent to the set rule. |
| ReplayWindow.AcceptedOnce | internal/proto/replay.go:21-48 | Over any run of checks no number is accepted twice. |
| Frames.ParseOfMarshal | internal/proto/frame.go:69-103 | Parsing a marshalled frame gives it back iff its type is 1 to 5 and its blob has at most 4160 bytes, and is malformed otherwise. |
| Frames.MarshalOfParse | internal/proto/frame.go:81-103 | Every buffer the parser accepts is the marshalling of what it returned. |
| Frames.HeaderInjective | internal/proto/session.go:290-299 | The authenticated header determines type, session, sequence and rotation. |
| Frames.ChatRoundTrip | internal/proto/frame.go:105-121 | A chat text decodes to itself iff its length fits the 16-bit prefix. |
| Frames.ChatPrefix | internal/proto/frame.go:105-121 | A payload decodes to a text iff it starts with that text encoded; anything after it is ignored. |
| Crypto.Aead.Seal | internal/crypto/crypto.go:85-96 | The blob is 28 bytes longer than the plaintext and is the only new thing that will open. |
| SessionSpec.DecimalInjective | internal/proto/session.go:301-315 | Different epochs have different decimal renderings. |
| SessionSpec.MessageKeyInjective | internal/proto/session.go:68-124 | Two message keys are equal only for the same root, direction, epoch and sequence number. |
| SessionSpec.RootsSeparate | internal/proto/session.go:78-107 | Two sessions have a message key in common iff they come from the same shared secret and transcript, and then only for the same direction, epoch and number. |
| SessionSpec.OpenMoves | internal/proto/session.go:188-279 | Opening any buffer moves the epoch iff it is a frame of this session that announces the next epoch, authentic or not; a frame of another session is told apart and changes nothing. |
| SessionSpec.SealedFrameParses | internal/proto/session.go:148-186 | Every sealed frame of a known type fits the frame limit and parses to what was sealed. |
| SessionSpec.ChatLimit | internal/proto/chatframe.go:3-10 | A chat text can be sealed iff it has at most 4094 bytes, and then it decodes to itself, so the 16-bit length never truncates. |
| Session.Itoa | internal/proto/session.go:301-315 | The loop that fills a 10-byte buffer from its end computes the decimal rendering and never overruns, for every 32-bit value. |
| Session.Session.constructor | internal/proto/session.go:78-100 | A new session is in epoch 0, its root derived from exactly the shared secret and the transcript and its ID from the root, with fresh disjoint key buffers and an empty window. |
| Session.Session.DeriveChains | internal/proto/session.go:102-124 | Both directional chain keys of an epoch, in fresh separate buffers. |
| Session.Session.InstallEpoch | internal/proto/session.go:109-143 | Installs the epoch's chains; the receive chain retires unwiped into recvOld, the old send chain and older receive chain are wiped, and buffers stay disjoint. |
| Session.Session.RotateIfDue | internal/proto/session.go:158-163 | Rotates exactly at nonzero multiples of 1000. |
| Session.Session.Seal | internal/proto/session.go:145-186 | Refuses when closed or oversized with no change; otherwise frame, new state and ledger entry are those of the specification and every chain again holds its epoch's directional key. |
| Session.Session.ChainForEpoch | internal/proto/session.go:259-279 | Yields the receive key of the current, next or previous epoch and nothing else; the next epoch is installed. |
| Session.Session.Open | internal/proto/session.go:188-230 | On every buffer, result and new state are those of the specification, including the epoch that a failing frame may install. |
| Session.Session.Close | internal/proto/session.go:232-250 | Every key buffer the session held, the root included, is wiped. |
| Channel.OpenedIsAuthentic | internal/proto/session.go:188-230 | A buffer that opens carries number, type and plaintext of a frame the other side sealed. |
| Channel.AuthenticOnce | internal/proto/session.go:188-230 | Whatever the network delivers, across all epoch changes, each number is delivered at most once and everything delivered was sealed by the peer under that number. |
| Channel.SequenceRises | internal/proto/session.go:158-186 | Of two sealings by one side in a run, the later has the larger sequence number. |
| Channel.GenuineOpensIff | internal/proto/session.go:188-230 | After any run of fewer than 2^64 events, a frame the peer sealed, its ciphertext of AES-GCM length, opens, in whatever order it arrives, iff the session is open, its type is known, its epoch is within one of the current and its number is fresh. |
| Channel.KeysNeverReused | internal/proto/session.go:158-186 | Of any two sealings of a run, by either side, in any epochs, no two use the same message key. |
| Channel.OpenChanges | internal/proto/session.go:191-230 | Opening changes at most the epoch by one and the accepted set; a failing Open never changes the accepted set. |
| Channel.ClosedIsFinal | internal/proto/session.go:232-250 | After Close a side seals and delivers nothing, whatever follows. |
| Channel.RunBlocks | internal/proto/session.go:109-143 | As long as the side's 32-bit epoch has not wrapped: recvOld exists iff the epoch is positive, the epoch is at least the side's own rotations, and epochs rise from each block of 1000 numbers to the next. |
| Channel.BlocksIff | internal/proto/session.go:109-163 | This holds throughout a run of fewer than 2^64 events iff the 32-bit epoch never wraps in it. |
| Channel.ShortRuns | internal/proto/session.go:109-163 | No run of fewer than 2^32 events wraps the epoch, whatever frames the network invents. |
| Channel.OneBlockPerEpoch | internal/proto/session.go:158-163 | While the epoch has not wrapped, all frames a side seals in one epoch lie in one block of 1000 sequence numbers. |
| EpochDrift.NeverTwoAhead | internal/proto/session.go:265-279 | From the drift invariant: the next frame is at most one epoch ahead of its receiver. |
| EpochDrift.AtMostOneBehind | internal/proto/session.go:265-279 | From the drift invariant: with at most 1000 unseen frames the next frame is at most one epoch behind. |
| InOrder.NextFrame | internal/proto/session.go:188-230 | In every reachable state of an ordered link the full effect of opening the next frame: opened, or refused for its epoch with nothing changed. |
| InOrder.DeliveryIff | internal/proto/session.go:259-279 | In every interleaving of fewer than 2^64 frames in which no 32-bit epoch runs out, the next frame's rotation is at most the receiver's epoch plus one, and it opens to exactly the sealed type and plaintext iff the receiver is at most one epoch ahead of it. |
| InOrder.RecentFrameOpens | internal/proto/session.go:148-230 | In such interleavings a frame opens whenever at most 1000 of the receiver's frames sealed by then had not reached the sender when it sealed. |
| InOrder.BoundIsTight | internal/proto/session.go:259-279 | With 1001 such frames there is a run whose next frame is refused. |
| InOrder.EpochBounds | internal/proto/session.go:158-163 | In such interleavings each side's epoch lies between its own rotation count and the sum of both sides' counts. |
| InOrder.FewFrames | internal/proto/session.go:158-163 | No epoch runs out while both sides together seal at most 1000 * (2^32 - 2) frames. |
| WsCodec.MaskTwice | internal/rendezvous/ws.go:286-301 | Masking twice under one key gives the data back. |
| WsCodec.MaskSplit | internal/rendezvous/ws.go:97-121 | Unmasking piece by piece is unmasking the whole, for any cut and position. |
| WsCodec.ParseOfEncoded | internal/rendezvous/ws.go:125-175 | For every payload length up to the limit, mask key and opcode, the written header decodes back across the 7-, 16- and 64-bit forms, whatever follows. |
| WsCodec.DataNext | internal/rendezvous/ws.go:124-186 | A nonempty data frame at the front is the next payload, and the rest of the stream follows it. |
| WsCodec.ControlNext | internal/rendezvous/ws.go:177-221 | A ping, pong or empty frame at the front is passed over; a ping adds exactly one pong with its payload. |
| WsCodec.ReadIsPrefix | internal/rendezvous/ws.go:92-122 | However reads are sized they hand out the stream's payload in order; an error comes only after all of it. |
| WsCodec.CutStream | internal/rendezvous/ws.go:92-243 | A reader whose input is cut short at any byte, even inside a header or payload, hands out a prefix of what it would have. |
| WsCodec.CloseNext | internal/rendezvous/ws.go:191-196 | A close frame, whatever it carries and whatever follows, is answered with exactly one close and ends the reading with EOF. |
| WsCodec.CloseEnds | internal/rendezvous/ws.go:92-221 | Nothing after a close frame is handed out: the stream is exactly the data before it. |
| WsCodec.RefusedIff | internal/rendezvous/ws.go:125-221 | Read off the header bytes, exactly when input is refused as a violation: reserved bits, length, masking, kind, malformed ping or pong. |
| WsCodec.RefusedEnds | internal/rendezvous/ws.go:125-221 | Refused input hands out nothing and ends the stream as a violation, not as an end of input. |
| WsCodec.DataIff | internal/rendezvous/ws.go:177-186 | Exactly the nonempty frames of kinds 0 and 2 are handed out, with the announced length and the key on the wire. |
| WsCodec.ControlRead | internal/rendezvous/ws.go:191-216 | A whole close, ping or pong is acted on; one cut short ends the reading and is not answered. |
| WsCodec.HeadLength | internal/rendezvous/ws.go:268-285 | Written headers take the shortest of the three length forms. |
| WsConn.MaskedCopy | internal/rendezvous/ws.go:294-298 | The byte loop computes the masked payload. |
| WsConn.WSConn.WriteFrame | internal/rendezvous/ws.go:268-313 | Appends exactly one encoded frame, masked on the client side only. |
| WsConn.WSConn.Write | internal/rendezvous/ws.go:245-254 | One binary frame, or a refusal without effect above the limit. |
| WsConn.WSConn.WriteControl | internal/rendezvous/ws.go:256-262 | One control frame with its payload cut to 125 bytes. |
| WsConn.WSConn.Close | internal/rendezvous/ws.go:315-322 | Writes one close frame with code 1000, the first time only. |
| WsConn.CloseAnswered | internal/rendezvous/ws.go:191-196 | The reply one side writes to a close frame ends the reading of the other side in turn. |
| WsConn.PingAnswered | internal/rendezvous/ws.go:198-208 | A ping is answered by one pong of the same payload, which the other side passes over without a reply. |
| WsConn.WSConn.ReadHead | internal/rendezvous/ws.go:127-175 | The stepwise header read accepts, rejects and consumes exactly as the decoder says. |
| WsConn.WSConn.ReadPayload | internal/rendezvous/ws.go:224-243 | The unmasked payload, or the short-read error. |
| WsConn.WSConn.OneFrame | internal/rendezvous/ws.go:126-221 | One turn of the frame loop does what the specification says, including the reply written. |
| WsConn.WSConn.NextFrame | internal/rendezvous/ws.go:124-222 | Ends on every finite input at the next data frame or the right error, having answered exactly the control frames on the way. |
| WsConn.WSConn.Read | internal/rendezvous/ws.go:92-122 | Fills the caller's buffer with the specified bytes and touches no other byte of it. |
| WsConn.WSConn.TakeSome | internal/rendezvous/ws.go:98-117 | Takes as much of the current payload as fits and advances the mask position. |
| WsConn.WSConn.Unmask | internal/rendezvous/ws.go:105-110 | In-place unmasking from the running mask position. |
| WsConn.WSConn.SendMessage | internal/rendezvous/ws.go:330-339 | One binary frame per control message of at most 8 KiB; a larger one is refused without effect. |
| WsConn.WSConn.RecvMessage | internal/rendezvous/ws.go:341-359 | One bounded read; success leaves the stream at a frame boundary. |
| WsConn.OneMessage | internal/rendezvous/ws.go:330-359 | A sent message is returned whole by one RecvMessage, and what is left to read is exactly what followed it. |
| WsConn.MessagesReceived | internal/rendezvous/ws.go:330-359 | Every message of a run is returned whole by exactly one RecvMessage, in order, with pings and pongs in between. |
| Transport.FrameIO.Send | internal/transport/transport.go:43-59 | Two binary frames, or one for an empty payload; nothing is written when the payload is too large. |
| Transport.FrameIO.ReadFull | internal/transport/transport.go:73-91 | Fills the buffer from the stream iff enough is left. |
| Transport.FrameIO.Recv | internal/transport/transport.go:61-92 | Returns the next whole payload and leaves the stream after it; too large iff the announced length is. |
| Transport.FrameIO.RecvAll | internal/session/manager.go:528-536 | Receiving until the connection fails yields exactly the complete frames of the stream. |
| Transport.UnframedPrefix | internal/transport/transport.go:43-92 | Framed payloads come back in order, and a stream cut anywhere yields a prefix of them. |
| Transport.WritesRead | internal/rendezvous/ws.go:92-313 | What any run of binary and control writes puts on the wire is read by the other side as exactly the binary payload bytes. |
| Transport.CutWrites | internal/rendezvous/ws.go:92-313 | However short a connection is cut, its reader gets a prefix of the binary payload bytes written. |
| Transport.ClosedRead | internal/rendezvous/ws.go:315-322 | What the other side of a closed connection reads is exactly what was written before the close. |
| Transport.Pump | internal/relay/server.go:400-421 | What is forwarded is a prefix of what was read, in frames of at most 32 KiB, never more than the byte ceiling, and all of it iff the ceiling is not passed. |
| Transport.EndToEnd | internal/relay/server.go:379-421 | Payloads sent with control frames anywhere, forwarded in any chunks with any other control frames, over connections that may break after any byte, arrive whole, in order and as a prefix; all of them if all bytes were forwarded and arrived. |
| Transport.ThroughRelay | internal/relay/server.go:379-421 | Sending, pumping and receiving through the real objects gives a prefix of the payloads, wherever a connection breaks, and all of them when none breaks and they fit the ceiling. |
| RelaySpec.ReapInterval | internal/relay/server.go:31-44 | Half the TTL, but at least one millisecond and at most thirty seconds. |
| RelayServer.RelayServer.constructor | internal/relay/server.go:98-110 | A new server is where the empty run is: no codes, tickets, circuits or slots in use. |
| RelayServer.RelayServer.Accounted | internal/relay/server.go:234-281 | At any time the slots in use are exactly those of unreleased circuits and of pairings in progress, and slots and pending codes are within their limits. |
| RelayServer.RelayServer.AddPending | internal/relay/server.go:234-250 | The object stays where a run of RelayRuns is; accepts iff there is room; the code then pending was never claimed, and the ceiling holds either way. |
| RelayServer.RelayServer.DropPending | internal/relay/server.go:252-259 | Afterwards this connection has no code under that ID, and every code of any other connection is untouched. |
| RelayServer.RelayServer.TakeCode | internal/relay/server.go:262-280 | Takes a code and a slot together or neither, with each refusal's exact condition. What it takes was never claimed before, is not pending under any other ID, is not the claimer's own and is older than the TTL by at most the time since the last sweep; the slots stay within the limit. |
| RelayServer.RelayServer.FailPairing | internal/relay/server.go:282-291 | Giving the slot back lowers the counter by one, unconditionally: its guard never acts. |
| RelayServer.RelayServer.IssueTickets | internal/relay/server.go:293-297 | Exactly the two tickets lead to the new circuit, one to each side; the pairing's slot becomes the circuit's and the count stays. How long they live is TicketEndsIff. |
| RelayServer.RelayServer.DropTickets | internal/relay/server.go:423-428 | Afterwards no ticket leads to the circuit and every ticket to another circuit is left. |
| RelayServer.RelayServer.Redeem | internal/relay/server.go:334-344 | A redeemed ticket is gone and was issued for a side that is empty and that no other handler is on its way to. |
| RelayServer.RelayServer.Attach | internal/relay/server.go:349-356 | The side was empty and its ticket was issued for it; the splice starts iff the other half is there, so the test of `started` never decides; the two halves came with different tickets. |
| RelayServer.RelayServer.ReleaseOnce | internal/relay/server.go:432-443 | The counter falls by one exactly when the circuit's slot was unreturned, unconditionally, and stays nonnegative; the circuit leaves the open ones. |
| RelayServer.RelayServer.CloseDone | internal/relay/server.go:358-362 | The done channel is open whenever it is closed, so it is never closed twice. |
| RelayServer.RelayServer.Reap | internal/relay/server.go:487-500 | Drops exactly the codes and tickets older than the TTL, as one sweep of the run. |
| RelayRuns.SlotsAccounted | internal/relay/server.go:262-326 | In every interleaving the slot counter is slots taken minus slots returned and lies between 0 and the limit. |
| RelayRuns.GuardNeverHides | internal/relay/server.go:432-443 | Whenever a slot is returned the counter is positive, so the guard never hides an error. |
| RelayRuns.AttachRights | internal/relay/server.go:345-356 | Attaching always fills an empty side, with the connection that redeemed the ticket issued for that side. |
| RelayRuns.SplicedWhole | internal/relay/server.go:349-361 | A splice runs only with both halves, brought by the two different tickets of one pairing. |
| RelayRuns.AtMostOnce | internal/relay/server.go:329-377 | In every interleaving each side is set, the splice started, the done channel closed and the slot returned at most once per circuit. |
| RelayRuns.CodesClaimedOnce | internal/relay/server.go:234-281 | Pending codes stay within the limit; each publication is claimed at most once, never by its own connection, never older than the TTL by more than the time since the last sweep. |
| RelayRuns.ClaimedInTime | internal/relay/server.go:475-500 | If the reaper is punctual throughout, no code is claimed at an age above TTL plus the reap interval. |
| RelayRuns.AnyAge | internal/relay/server.go:262-280 | Without sweeps a code can be claimed at any age: the age of a code is not checked when it is claimed. |
| RelayRuns.PublicationEndsIff | internal/relay/server.go:234-281 | After any run, a publication stays pending through the next event iff that is not a claim by another connection that gets a slot, a withdrawal by its own connection, an accepted re-publication, or a sweep that finds it overdue. |
| RelayRuns.PublicationStays | internal/relay/server.go:234-281 | A publication stays pending, unchanged, through any continuation without one of these events. |
| RelayRuns.PendingTold | internal/relay/server.go:234-250 | A pending code is what some event of the run published: same connection, candidates and address, dated by the clock of that event. |
| RelayRuns.TicketEndsIff | internal/relay/server.go:293-344 | After any run a ticket stays through the next event iff that is not its redemption, the failed announcement of its pairing, or a sweep later than the run's clock at its issue by more than the TTL. |
| RelayRuns.TicketStays | internal/relay/server.go:293-344 | A ticket is there from its issue on, through any continuation without one of these events. |
| RelayRuns.RendezvousSplices | internal/relay/server.go:234-361 | From any reachable state with room, publishing, claiming, issuing and redeeming both tickets ends in a splice of exactly the two redeeming connections, each on its own side. |
| RelayRuns.ReturnableIff | internal/relay/server.go:364-377 | An unreturned slot can still be returned iff some handler works on its circuit or some ticket leads to it. |
| RelayRuns.SlotCanLeak | internal/relay/server.go:495-499 | A concrete run in which the reaper drops both tickets and the slot is never returned by any continuation. |
| RateLimit.RateCounter.Sweep | internal/relay/limits.go:81-92 | Drops exactly the windows that are over. |
| RateLimit.SweepsAreInvisible | internal/relay/limits.go:64-92 | Sweeps anywhere in a run change no answer. |
| RateLimit.AtMostTwice | internal/relay/limits.go:64-92 | In any closed interval of one window length at most twice the limit of a key's events are allowed (twice one for limits below one). |
| RateLimit.RefusedMeansFull | internal/relay/limits.go:64-79 | An event is refused only when the interval of one window length ending with it already holds the limit of allowed events, and at least one. |
| RateLimit.WindowEdge | internal/relay/limits.go:64-79 | Once a key has used up its limit at time s, the next event is refused up to s plus the window length and allowed after. |
| HandshakeCodec.InitRoundTrip | internal/proto/handshake.go:94-104 | An init message gives its key back iff the key has 32 bytes. |
| HandshakeCodec.InitExact | internal/proto/handshake.go:302-312 | Every accepted init message is the marshalling of its key. |
| HandshakeCodec.AuthRoundTrip | internal/proto/handshake.go:314-336 | An auth message gives key and blob back iff the blob is nonempty and its length fits 32 bits. |
| HandshakeCodec.AuthExact | internal/proto/handshake.go:325-336 | Every accepted auth message is the marshalling of its parts. |
| HandshakeCodec.AuthPlainRoundTrip | internal/proto/handshake.go:338-361 | The sealed part gives key, name and signature back iff the name has 1 to 64 bytes. |
| HandshakeCodec.AuthPlainExact | internal/proto/handshake.go:349-361 | Every accepted sealed part is the marshalling of what was parsed. |
| HandshakeSpec.OneResult | internal/proto/handshake.go:112-130 | Over any messages at most one result comes out and every later message is refused as late. |
| HandshakeSpec.ResultsAreVouched | internal/proto/handshake.go:132-227 | A result's transcript covers exactly our ephemeral key and a peer key, the session root is derived from the agreement of these two keys and that transcript, and an identity other than ours has signed it. |
| HandshakeSpec.SessionsSeparate | internal/proto/handshake.go:132-240 | Two completed handshakes of any parties over any messages have a message key in common iff the same two ephemeral keys went into both in the same roles, and then only for the same direction, epoch and number. |
| HandshakeSpec.AuthKeysSeparate | internal/proto/handshake.go:244-270 | The keys of the sealed halves differ for any other secret, transcript or message and are neither message keys nor session roots. |
| HandshakeSpec.HalfOpensOnlyThere | internal/proto/handshake.go:244-270 | Sealing a half makes nothing open anew but that half, for its secret, transcript and message. |
| HandshakeSpec.CheckErrors | internal/proto/handshake.go:152-213 | A half is refused as unreadable, as unsigned or as our own exactly when it is that. |
| HandshakeSpec.UnexpectedRefused | internal/proto/handshake.go:106-130 | A message that is empty, over 4096 bytes, of no known kind or out of turn is refused and changes nothing. |
| HandshakeSpec.SecretDropped | internal/proto/handshake.go:176-227 | Once a handshake has its result the shared secret is gone. |
| HandshakeSpec.TranscriptInjective | internal/proto/handshake.go:138-140 | The transcript determines both ephemeral keys. |
| HandshakeSpec.HonestRunCompletes | internal/proto/handshake.go:106-227 | Exactly when an honest run completes on each side, and that both then have each other's identity, the same transcript and the two ends of one session. |
| HandshakeSpec.CanCompleteIff | internal/proto/handshake.go:112-240 | Given a peer key that agrees, a side can still complete iff it is not done and, as responder, has not met a key on which agreement failed. |
| HandshakeSpec.MetStays | internal/proto/handshake.go:133-166 | A key met in turn and its transcript stay installed whether or not the message is then refused. |
| HandshakeSpec.BadKeyDooms | internal/proto/handshake.go:133-150 | A responder first sent a key on which agreement fails refuses it and can never complete. |
| Handshake.Handshaker.InitMessage | internal/proto/handshake.go:94-104 | Only the initiator has a first message, and it carries its ephemeral key. |
| Handshake.Handshaker.MeetPeer | internal/proto/handshake.go:229-242 | The transcript is set before the agreement and stays set if it fails. |
| Handshake.Handshaker.SealOwn | internal/proto/handshake.go:244-259 | Seals our identity, name and a signature over the transcript. |
| Handshake.Handshaker.OpenPeer | internal/proto/handshake.go:261-285 | Opens, parses and checks signature and identity in that order. |
| Handshake.Handshaker.HandleMessage | internal/proto/handshake.go:106-130 | Answer, new state and everything sealed or signed are those of the specification; a session object exists iff the handshake completed and starts in the state the result names. |
| Handshake.Handshaker.HandleInitMessage | internal/proto/handshake.go:132-149 | Message 1 as specified. |
| Handshake.Handshaker.HandleAuthAsInitiator | internal/proto/handshake.go:151-193 | Message 2 as specified. |
| Handshake.Handshaker.HandleAuthAsResponder | internal/proto/handshake.go:195-227 | Message 3 as specified. |
| Manager.KeepsSmallest | internal/session/manager.go:470-514 | After any order of arrival each peer keeps its smallest session ID and exactly the others are closed. |
| Manager.OrderIrrelevant | internal/session/manager.go:492-514 | The outcome does not depend on the order of arrival. |
| Manager.BothPeersAgree | internal/session/manager.go:492-514 | Two peers registering the two ends of the same connections, in any two orders, keep the same one and close the same others. |
| Manager.SlotTold | internal/session/manager.go:411-426 | In every run the current connection to a peer came by one of the arrivals, is announced iff that happened since, and misses exactly the pings since its last pong, three at most. |
| Manager.MissingIsReplaced | internal/session/manager.go:470-514 | A connection that was pinged and has not answered is replaced by the next newcomer, whatever the two session IDs and whatever happened in between. |
| Manager.AnnouncedStays | internal/session/manager.go:470-490 | An announced connection that answers is left alone by every newcomer until it is pinged again or fails. |
| Manager.ArrivalsRegister | internal/session/manager.go:470-514 | While connections only arrive, a run keeps exactly those of the table of smallest IDs. |
| Manager.Manager.Register | internal/session/manager.go:470-490 | Over the fields of the connection already there: one that misses a keepalive is replaced whatever the IDs, one that is announced and answers stays, and otherwise the smaller ID wins; the replaced one is closed. |
| Manager.Manager.Establish | internal/session/manager.go:386-396 | A fresh connection moves the current connections as one arrival of a run, and exactly the loser of two is closed. |
| Manager.Manager.Adopt | internal/session/manager.go:386-396 | The table of kept session IDs moves as specified and exactly the losing connection is closed. |
| Manager.Manager.AdoptAll | internal/session/manager.go:386-396 | Adopting any fresh connections in turn leaves the table RegisterAll gives, and exactly the connections it closes are closed. |
| Manager.Manager.Unregister | internal/session/manager.go:516-526 | Removes only the current connection of that peer. |
| Manager.Manager.Announce | internal/session/manager.go:408-426 | Tells the user once, only while the connection is open and current, as one step of a run. |
| Manager.Manager.Keepalive | internal/session/manager.go:571-590 | Counts a ping as one step of a run and drops the connection iff three were already unanswered. |
| Manager.Manager.Pong | internal/session/manager.go:555-556 | Clears the count, as one step of a run. |
| Manager.Manager.DropConn | internal/session/manager.go:624-635 | Moves the current connections as a failure of that one; dropping a connection that was already torn down changes nothing and no other connection is ever removed. |
| Peers.Store.FindByName | internal/peers/peers.go:271-278 | Finds some record with the name iff there is one. |
| Peers.Store.Observe | internal/peers/peers.go:142-189 | Returns exactly the level TrustOf would have given just before. A stored key's record takes the new name, address and time and loses its pending key; a changed key becomes pending and nothing more; a new key gets a fresh unverified record; no other record changes. |
| Peers.Store.Verify | internal/peers/peers.go:191-212 | Adopts a pending key, moving the record under its fingerprint, or keeps the stored key if none is pending, and marks the record verified. |
| Peers.Store.Reject | internal/peers/peers.go:214-225 | Drops the pending key and nothing else. |
| Peers.Store.TrustOf | internal/peers/peers.go:251-269 | The level of a presented key under a name. |
| Peers.RunSound | internal/peers/peers.go:148-225 | In every run each record is stored once, under the fingerprint of its own key, and a pending key differs from the stored one. |
| Peers.OnlyVerifyReplaces | internal/peers/peers.go:148-225 | Without a Verify no stored key or verification ever changes and no record goes. |
| Peers.VerifiedIff | internal/peers/peers.go:191-269 | A key reads VERIFIED iff some Verify left it in its record and none since displaced it. |
| Peers.VerifiedByUser | internal/peers/peers.go:191-269 | A key reads VERIFIED only if a Verify in the run left that very key. |
| Peers.PendingIff | internal/peers/peers.go:148-225 | In every run a key is pending on a record iff the last event that reached the record, among sightings of its key or of a changed one and decisions of the user, was a sighting of that changed key. |
| Peers.SightingSettles | internal/peers/peers.go:148-212 | After a sighting of the stored key, verifying the record leaves and verifies that key, whatever was pending before. |
| Peers.RejectUndoesChange | internal/peers/peers.go:148-225 | With no key pending before, rejecting a changed key undoes its sighting, but for the time last seen. |
| Peers.VerifyAdoptsChange | internal/peers/peers.go:148-212 | Verifying a changed key makes it read VERIFIED, forgets the old key and leaves the trust level of every other key under every name. |

## Left out

- Attacker knowledge: who could forge what, and the pairing confirmation of `internal/proto/pairing.go`.
- Real AES-GCM, HKDF, X25519, Ed25519, SHA-256 and PBKDF2; they are the idealisations named above.
- The HTTP upgrade and the proxy ladder (`internal/rendezvous/dialer.go`, `internal/rendezvous/proxy.go`): I/O.
- RFC 6455 rules the code does not enforce: minimal length forms, fragmentation, close-frame size.
- WsConn.WSConn.WriteFrame: does not model failing network writes or deadlines.
- WsConn.WSConn.SendMessage: takes the encoded message as bytes; JSON encoding is not modelled.
- WsConn.WSConn.RecvMessage: returns the message as bytes; JSON decoding is not modelled.
- Transport.Pump: does not model failing network writes or idle deadlines.
- RelayServer.RelayServer.Attach: circuits are numbered entries of a map instead of heap objects, so aliasing of circuit pointers is not captured; the map's key plays the part of the pointer.
- RelayRuns.SlotsAccounted: no eventual release and no bound on running splices is claimed; a late second half can start a splice after its slot was returned.
- Manager.Manager.Adopt: covers the time before any connection is announced or misses a keepalive, for which convergence is claimed; afterwards (Manager.Manager.Establish) the two sides may choose differently, since they see different pings and announcements.
- Manager.Manager.Keepalive: a full send queue or a failing seal, on which the source also drops the connection, is a failure event of its own.
- Manager.Manager.Register: the display-name index is best effort in the source and nothing is claimed about it beyond its updates.
- Peers.Store.Observe: writing the store to disk, and its failure, are not modelled; nor is name uniqueness, which the source does not have.
- Peers.Store.Verify: writing the store to disk, and its failure, are not modelled.
- Peers.Store.Reject: writing the store to disk, and its failure, are not modelled.
- Per-IP connection counters, candidate filtering, invite-code encoding, the path race, hole punching, reconnection and the CLI.
