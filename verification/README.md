# Dafny model of the GPU worker's data plane, streaming and model swap

The project models the stateful cores of a GPU-sharing worker and proves what they keep over whole runs. Each core has
a specification on values (functions) and, where the program changes things step by step, classes and loops proved
against it.

- **UDP data plane.** `Words`, `Packet`, `Fragmentation`: byte coding, the 54-byte header, the bytes that are
  authenticated, cutting a payload into fragments. `MapSums`, `Reassembly`, `ReassemblyState`: the bounded reassembler,
  first as a table with exact byte counts, then with its running counter, saturating arithmetic and defensive error
  branches. `Delivery`: when it hands a message out. `BanTable`, `BanCounting`: invalid traffic per address, pruned and
  unpruned, and when it adds up to a ban. `Transport`, `Mixing`, `Flood`: both senders, network and receiver together, what
  happens when an id is used twice, and what invalid traffic does to its address. `ReliableSend`, `DirectSend`:
  stop-and-wait sending through a TURN relay and straight to the peer.
- **TCP data plane.** `Replay`: the bounded replay window behind the freshness check and the MAC.
- **STUN and TURN.** `Bits`, `Stun`, `StunAddress`: message building, the two attribute walkers, XOR-ed addresses.
- **Streaming of answers.** `TextSearch`, `ThinkSplit`, `ThinkBlocks`, `Sse`: the incremental and the batch splitter of
  thinking and text, and the server-sent event stream made from the former. `PhaseSplit`, `PhaseStream`, `ChunkSend`,
  `InferenceRun`, `TaskExamples`: the many-marker phase splitter and the numbered chunks of an inference task. `Seqs`
  holds what both need about sequences.
- **Worker internals.** `Utf8Emit`: the UTF-8 emit buffer. `HotSwap`: publishing and freeing models under two locks,
  as a state machine over every interleaving. `SwapProgress`: what its calls get done. `BumpPool`: the bump allocator.
  `Lanes`: lanes packed into a word.

Conventions. Machine integers are bounded `int`s with wrap-around and saturation written out; `usize` has 64 bits.
Clock readings are parameters of each call and never go back. HMAC, CRC and command encoding are function parameters;
the one thing assumed of the MAC is that nobody produces a valid tag for bytes that were never signed
(`Transport.Unforged`). Text is a sequence of Unicode scalar values; all tags and markers are ASCII. Lossy UTF-8
decoding is a marker on an emission (`Lossy`), not a text.

What the proofs brought to light, with the code left as it is:

- Both ends of a connection sign under one key and number their messages from 1 (gpuf-c/src/handle/handle_tcp.rs:2886,
  gpuf-c/examples/p2p_sdk_client.rs:1136), so an id may stand for two payloads. A receiver that gets fragments of both
  hands out any mixture of the two that the order of arrival asks for (`Mixing.MixedDelivery`).
  `Transport.TransportSafety` says what it hands out in any case, `Transport.DistinctIdsAreSafe` that it is a message
  sent if no id is used twice, and `Mixing.TwoPayloadsAreSafeIff` exactly when two payloads are never mixed.
- Pruning the ban table is not invisible. A record whose two clock readings enclose the end of a ban is counted under the
  expired ban, and the next prune throws the count away. `BanTable.ForgettingIsInvisibleIffNoStraddle` says exactly when
  forgetting is harmless, `BanTable.ForgettingIsVisible` gives a run in which it is not.
- The ban counts in windows that do not slide. 64 invalid datagrams within 10 s ban an address if and only if no earlier
  window of it was still running at the first (`Flood.FloodBansIff`, `BanCounting.SixtyFourBanIff`,
  `BanCounting.SixtyFourMayNotBan`).
- The STUN length field is the body size exactly for bodies below 2^16 bytes (`Stun.LengthFieldIsBodySize`,
  `Stun.LengthFieldCanBeWrong`).
- The two searches for the mapped address differ exactly when one that decodes comes after others that all have an
  unknown family (`StunAddress.SearchesAgree`, `StunAddress.SearchesDiffer`).
- The phase splitter has no flush. What stays in its carry and is never sent is the longest tail, of the text since the
  last removed marker, that begins a marker or a newline and a marker; everything is sent if and only if there is no such
  tail (`PhaseStream.WhatIsLeft`, `InferenceRun.MarkersAndCarryAreLost`). It is at most 12 characters, and can be 12
  (`PhaseStream.LittleIsLost`, `TaskExamples.TwelveAreLost`).
- Filtering control tokens can bring one forth: a token inside a copy of itself leaves the copy
  (`ChunkSend.NestedTokenStays`, `ChunkSend.FilterLeavesToken`). A text in which every `<` opens a control token is left
  without any (`ChunkSend.FilterIsComplete`).
- The closing chunk of a failed task is numbered 0 again (`InferenceRun.FailureRestartsNumbers`,
  `TaskExamples.NumberUsedTwice`).
- A fragment sent straight to the peer may be repeated ten times plus once for every datagram that comes in from another
  address, and this bound is attained (`DirectSend.SendsAreBounded`, `DirectSend.BoundIsAttained`).
  `DirectSend.MoreThanTenIff` says exactly when it is sent more than ten times.
- The branch of `PhaseSplitter::push` for a marker that runs past the end, and the reassembler's errors for an oversized,
  vanished or incomplete message, cannot be reached.

## Model

| member | source | states |
|---|---|---|
| Packet.ParseMake | gpuf-c/src/handle/handle_udp.rs:278-317 | parsing a header followed by any payload gives back what it was made from |
| Packet.MakeParse | gpuf-c/src/handle/handle_udp.rs:278-317 | every accepted header re-encodes to the same 54 bytes |
| Packet.ParseHeaderAcceptsExactlyEncodings | gpuf-c/src/handle/handle_udp.rs:298-317 | a buffer is accepted if and only if it starts with an encoded header |
| Packet.UdpMacInputInjective | gpuf-c/src/handle/handle_udp.rs:319-338 | equal authenticated bytes mean equal connection, header fields and payload |
| Packet.TcpMacInputInjective | gpuf-c/src/handle/handle_udp.rs:583-588 | the same for envelopes |
| Packet.MacDomainsDisjoint | gpuf-c/src/handle/handle_udp.rs:319-338 | no UDP input of the MAC is ever a TCP input |
| Packet.HeaderOnTheWire | gpuf-c/src/handle/handle_udp.rs:278-296 | the byte offset of every header field, most significant byte first |
| Packet.MacInputOnTheWire | gpuf-c/src/handle/handle_udp.rs:319-338 | what is authenticated is the domain, the connection, bytes 5 to 21 of the header and the payload |
| Packet.FreshIff | gpuf-c/src/handle/handle_udp.rs:368-371 | a time is fresh if and only if it is at most 300 s back and 30 s ahead, for all 64-bit readings |
| Packet.ValidIff | gpuf-c/src/handle/handle_udp.rs:373-415 | any packet is valid if and only if its tag is right, its time is fresh and its index and count are those of an empty acknowledgement or of one of at most 128 fragments |
| Fragmentation.FragmentsTile | gpuf-c/src/handle/handle_udp.rs:466-500 | the fragments in index order are the payload, for every length including 0 |
| Fragmentation.FragmentSizes | gpuf-c/src/handle/handle_udp.rs:466-500 | as few fragments as possible: all but the last carry 1146 bytes |
| Fragmentation.SendableFitsWords | gpuf-c/src/handle/handle_udp.rs:466-500 | for a sendable payload the u16 casts of index and count lose nothing |
| Reassembly.CompleteIffFull | gpuf-c/src/handle/handle_udp.rs:233-249 | an entry holds all indices if and only if it holds as many parts as announced |
| Reassembly.RejectedIff | gpuf-c/src/handle/handle_udp.rs:159-231 | a fragment is rejected if and only if it is malformed, or is neither completed within 300 s nor held and there are 128 messages in flight, 32 from its address or no room in 8 MiB, or the count changed; known ones change nothing |
| Reassembly.ReachableBytes | gpuf-c/src/handle/handle_udp.rs:159-252 | in every reachable state the held bytes are at most 8 MiB |
| Reassembly.ReachableInv | gpuf-c/src/handle/handle_udp.rs:97-111 | in every reachable state at most 128 messages and 32 per address are in flight, each non-empty and incomplete, and none is also completed |
| Reassembly.CompletedBlocks | gpuf-c/src/handle/handle_udp.rs:178-182 | a completion less than 300 s old is kept by every operation and blocks deliveries under its key |
| Reassembly.AtMostOnce | gpuf-c/src/handle/handle_udp.rs:108-111 | in every run two deliveries under one key are more than 300 s apart |
| ReassemblyStates.ReassemblyState.constructor | gpuf-c/src/handle/handle_udp.rs:88-95 | starts empty and valid |
| ReassemblyStates.ReassemblyState.RetainYoung | gpuf-c/src/handle/handle_udp.rs:97-107 | keeps exactly the young entries and an exact running byte count |
| ReassemblyStates.ReassemblyState.Prune | gpuf-c/src/handle/handle_udp.rs:97-120 | leaves exactly the pruned table and sources, with the byte count still exact |
| ReassemblyStates.ReassemblyState.IsSourceBanned | gpuf-c/src/handle/handle_udp.rs:122-128 | answers and prunes as the ban table says |
| ReassemblyStates.ReassemblyState.RecordInvalidSource | gpuf-c/src/handle/handle_udp.rs:130-157 | changes the ban table by one record and nothing else but pruning |
| ReassemblyStates.ReassemblyState.CountFrom | gpuf-c/src/handle/handle_udp.rs:189-193 | counts the in-flight messages of an address |
| ReassemblyStates.ReassemblyState.Finish | gpuf-c/src/handle/handle_udp.rs:237-251 | takes a full entry out, gives its joined parts and remembers its completion |
| ReassemblyStates.ReassemblyState.AcceptFragment | gpuf-c/src/handle/handle_udp.rs:159-252 | refines the table specification with the true byte count: nothing saturates and the three defensive errors never occur |
| ReassemblyStates.Assemble | gpuf-c/src/handle/handle_udp.rs:240-248 | removing the parts in index order and appending them gives the joined message |
| ReassemblyStates.AddedFits | gpuf-c/src/handle/handle_udp.rs:207-231 | adding a part keeps both byte counters exact and below their limits |
| ReassemblyStates.RecordOne | gpuf-c/src/handle/handle_udp.rs:130-157 | the update of one source entry |
| BanTable.ForgettingIsInvisible | gpuf-c/src/handle/handle_udp.rs:112-128 | over every run without a straddled ban, pruning changes no answer compared with a table that forgets nothing |
| BanTable.ForgettingIsInvisibleIffNoStraddle | gpuf-c/src/handle/handle_udp.rs:112-157 | one more call leaves the pruned and the unpruned table indistinguishable if and only if its readings do not enclose the end of the ban |
| BanTable.ForgettingIsVisible | gpuf-c/src/handle/handle_udp.rs:112-157 | a concrete run after which the two tables answer differently |
| BanTable.BannedOnlyWithCause | gpuf-c/src/handle/handle_udp.rs:130-157 | a yes means that less than 60 s ago a datagram of the address was recorded with which there were 64 within 10 s |
| BanTable.BanLastsSixtySeconds | gpuf-c/src/handle/handle_udp.rs:122-157 | in every run a ban set by a record at `t` is answered yes before `t` + 60 s, whatever is recorded meanwhile, and no from then on until the address is recorded again |
| BanTable.BanLasts | gpuf-c/src/handle/handle_udp.rs:122-157 | until its end no calls lift or extend a ban |
| BanTable.BanEnds | gpuf-c/src/handle/handle_udp.rs:122-157 | from its end on the answer is no until the address is recorded again |
| BanCounting.SixtyFourBan | gpuf-c/src/handle/handle_udp.rs:130-157 | 64 records within 10 s of the first ban an address with no window running, until 60 s after the last |
| BanCounting.SixtyFourBanIff | gpuf-c/src/handle/handle_udp.rs:130-157 | with `n` counted in a running window, 64 records within 10 s leave a ban if and only if none of them falls into that window or they reach 64 with the `n` |
| BanCounting.SixtyFourMayNotBan | gpuf-c/src/handle/handle_udp.rs:130-157 | a concrete run with 64 records within two instants and no ban |
| Transport.ReceiveDatagram | gpuf-c/src/handle/handle_tcp.rs:2889-2950 | one turn of the receive loop is the receiver's step on its table and sources |
| Transport.AdmissibleIsGenuine | gpuf-c/src/handle/handle_udp.rs:373-415 | what passes validation is a fragment that was sent, from whatever address it comes |
| Transport.TransportSafety | gpuf-c/src/handle/handle_udp.rs:159-252 | in every history of sends from both ends, losses, duplicates, reorderings, expiries, bans and refusals, a message handed out for an id has a fragment count above 0, is put together from slices of payloads sent under that id in that number of fragments, and is the payload where there is only one |
| Transport.DistinctIdsAreSafe | gpuf-c/src/handle/handle_udp.rs:159-252 | in every history in which no two messages sent share an id, whatever is handed out is a message that was sent under that id |
| Transport.ReceiveIsOperations | gpuf-c/src/handle/handle_tcp.rs:2889-2950 | a datagram does to the reassembler one pruning, at most one fragment and at most one further pruning |
| Flood.ReactsExactly | gpuf-c/src/handle/handle_tcp.rs:2889-2950 | a datagram is ignored if and only if its address is banned or it carries an acknowledgement, blamed if and only if it is unreadable, invalid or rejected and the address not banned; only a blamed one changes an entry of an address |
| Flood.FloodIsSilenced | gpuf-c/src/handle/handle_tcp.rs:2889-2950 | in every history, after 64 datagrams of an address blamed within 10 s, no earlier window running, each of its datagrams in the next 60 s is ignored and only prunes the reassembler |
| Flood.FloodBansIff | gpuf-c/src/handle/handle_tcp.rs:2889-2950 | 64 datagrams blamed within 10 s ban their address if and only if no earlier window of it was running at the first |
| Flood.IgnoredWhileBanned | gpuf-c/src/handle/handle_tcp.rs:2889-2950 | until an address is blamed again, its datagrams without acknowledgement are ignored exactly until the end of its ban |
| Flood.IgnoredOnlyWithCause | gpuf-c/src/handle/handle_tcp.rs:2889-2950 | in every history an ignored datagram carries an acknowledgement, or less than 60 s ago one of its address was blamed with which there were 64 within 10 s |
| Mixing.TwoPayloadsAreSafeIff | gpuf-c/src/handle/handle_udp.rs:159-252 | of two payloads of up to 128 fragments (more are refused) sent under one id and count, no history whatever hands out anything but the two if and only if they differ in at most one fragment |
| Mixing.MixedDelivery | gpuf-c/src/handle/handle_udp.rs:159-252 | for any two payloads of up to 128 fragments under one id and any choice of a source for each fragment there is a history that hands out exactly that mixture |
| Mixing.SuchPayloads | gpuf-c/src/handle/handle_udp.rs:466-500 | two concrete payloads for that history |
| Delivery.DeliveredExactlyWhen | gpuf-c/src/handle/handle_udp.rs:159-252 | in every run, with any other traffic, a message is handed out if and only if its entry was opened, no pruning since was more than 30 s later, and this fragment completes it; and it is the parts taken, joined |
| Delivery.DeliversThePayload | gpuf-c/src/handle/handle_udp.rs:235-251 | where the fragments taken are of one payload, in any order and with any repetitions, that payload is handed out |
| Delivery.ExpiryStartsOver | gpuf-c/src/handle/handle_udp.rs:97-107 | once an entry is dropped for its age a delivery needs all fragments anew |
| Delivery.DeliveredAmongOthers | gpuf-c/src/handle/handle_udp.rs:159-252 | among any traffic that leaves fewer than 128 other messages in flight, 32 from the address and room for a fragment, a message is handed out by exactly the arrival that completes its indices within 30 s of the first |
| Delivery.DeliveredByLastMissingFragment | gpuf-c/src/handle/handle_udp.rs:159-252 | at a receiver that hears of one message only there is always that room |
| Replay.ReplayWindow.constructor | gpuf-c/src/handle/handle_udp.rs:29-34 | starts empty and valid |
| Replay.ReplayWindow.Prune | gpuf-c/src/handle/handle_udp.rs:36-49 | leaves the pruned order, with the set equal to its numbers and no duplicates |
| Replay.ReplayWindow.AcceptTcpSeq | gpuf-c/src/handle/handle_udp.rs:51-60 | decides and records as the specification says, keeping set and order in step |
| Replay.ForgottenIff | gpuf-c/src/handle/handle_udp.rs:36-49 | an entry is dropped by pruning if and only if it and all before it are more than 300 s old or 4096 are behind it |
| Replay.StillHeld | gpuf-c/src/handle/handle_udp.rs:36-60 | an entry neither stale nor followed by 4096 acceptances survives every pruning |
| Replay.ReplayAcceptedIff | gpuf-c/src/handle/handle_udp.rs:36-60 | a repeated number that is not stale is accepted if and only if 4096 envelopes were accepted since |
| Replay.DecodeEnvelope | gpuf-c/src/handle/handle_udp.rs:599-640 | decodes, checks and records as the specification says, error cases included |
| Replay.EnvelopeRoundTrip | gpuf-c/src/handle/handle_udp.rs:572-640 | an encoded command whose number is not held decodes to itself if its time is at most 300 s back and 30 s ahead, and is stale otherwise |
| Replay.ReplaySafety | gpuf-c/src/handle/handle_udp.rs:599-640 | in every run the same envelope decodes twice only with at least 4096 others let through in between |
| ReliableSend.SendFragment | gpuf-c/src/handle/handle_udp.rs:1045-1086 | a fragment is sent until its acknowledgement comes or ten times; every other indication goes to the inbox in order |
| ReliableSend.TurnSendReliable | gpuf-c/src/handle/handle_udp.rs:1000-1090 | the packets sent, the inbox and the result are those of the schedule; too large a payload sends nothing |
| ReliableSend.AtMostTenTimes | gpuf-c/src/handle/handle_udp.rs:1045-1086 | no fragment is sent more than ten times, and on success each is sent |
| ReliableSend.GivesUpAfterTen | gpuf-c/src/handle/handle_udp.rs:1084-1086 | a call fails only after its last fragment has been sent ten times in a row |
| ReliableSend.CallIsBounded | gpuf-c/src/handle/handle_udp.rs:1018-1087 | a call ends after at most ten sends per fragment |
| ReliableSend.EachReleaseReleasesOne | gpuf-c/src/handle/handle_udp.rs:1053-1081 | exactly as many replies are consumed as acknowledgements as fragments are released |
| ReliableSend.InboxGrows | gpuf-c/src/handle/handle_udp.rs:1053-1081 | the inbox grows by one for each reply that is a Data indication other than the awaited acknowledgement, behind what it held |
| ReliableSend.InboxHolds | gpuf-c/src/handle/handle_udp.rs:1053-1081 | and holds each as it was parsed, in the order of arrival |
| ReliableSend.ReleasedBy | gpuf-c/src/handle/handle_udp.rs:1053-1081 | a fragment is released exactly by a Data indication from the peer with a valid acknowledgement |
| DirectSend.SentPacketIsAdmitted | gpuf-c/src/handle/handle_udp.rs:373-415 | a receiver under the same key admits a sent packet as the fragment it carries if and only if its time is at most 300 s back and 30 s ahead |
| DirectSend.AckIsValidIff | gpuf-c/src/handle/handle_udp.rs:439-456 | an acknowledgement under the same key, whatever follows it, releases a sender if and only if it is of its message and as near in time |
| DirectSend.OnlyAcksAreValid | gpuf-c/src/handle/handle_udp.rs:439-456 | whatever releases a sender begins with such an acknowledgement |
| DirectSend.SendDirect | gpuf-c/src/handle/handle_udp.rs:502-542 | how often a fragment is sent and whether it is released, for every sequence of replies |
| DirectSend.SendsAreBounded | gpuf-c/src/handle/handle_udp.rs:502-542 | at most ten sends more than datagrams come in from other addresses, and fewer than ten only if released |
| DirectSend.MoreThanTenIff | gpuf-c/src/handle/handle_udp.rs:502-542 | a fragment is sent more than ten times if and only if none of the first ten replies releases it and the tenth comes from another address |
| DirectSend.BoundIsAttained | gpuf-c/src/handle/handle_udp.rs:511-513 | for every number of such datagrams the bound is attained |
| Stun.WriteAttr | gpuf-c/src/handle/handle_udp.rs:648-656 | appends type, length, value and padding |
| Stun.BuildMessage | gpuf-c/src/handle/handle_udp.rs:658-723 | header, attributes and the appended ones, with the final length field, in all four option combinations |
| Stun.LengthFieldIsBodySize | gpuf-c/src/handle/handle_udp.rs:658-723 | the body is a multiple of 4, and the length field is its size if and only if that is below 2^16 |
| Stun.LengthFieldCanBeWrong | gpuf-c/src/handle/handle_udp.rs:658-723 | one attribute of 65536 bytes makes for a length field of 4 |
| Stun.AttrIter | gpuf-c/src/handle/handle_udp.rs:1092-1116 | the loop lists the attributes of the declarative walk, error cases included |
| Stun.BuiltMessageParses | gpuf-c/src/handle/handle_udp.rs:658-723 | walking a built message gives the given attributes followed by integrity and fingerprint |
| Stun.FingerprintOnTheWire | gpuf-c/src/handle/handle_udp.rs:709-723 | a built message ends with the fingerprint, the CRC-32 of all before it XOR-ed with the constant of RFC 5389 |
| Stun.IntegrityOnTheWire | gpuf-c/src/handle/handle_udp.rs:685-708 | the digest is that of the message up to it with the digest zeroed and the final length field, with or without a fingerprint behind |
| Stun.WalkThen | gpuf-c/src/handle/handle_udp.rs:1092-1116 | what follows a well-formed attribute is walked as if it stood alone |
| Stun.WalkUnpadded | gpuf-c/src/handle/handle_udp.rs:1092-1116 | the padding of the last attribute may be missing or short |
| Stun.WalkEnds | gpuf-c/src/handle/handle_udp.rs:1092-1116 | the walk stops at fewer than four bytes or an attribute longer than the rest, and only there |
| StunAddress.XorMask | gpuf-c/src/handle/handle_udp.rs:1140-1150 | the byte loop is the XOR of the sixteen octets |
| StunAddress.AddrRoundTrip | gpuf-c/src/handle/handle_udp.rs:797-826 | decoding inverts encoding for both address families |
| StunAddress.AddrOnTheWire | gpuf-c/src/handle/handle_udp.rs:797-826 | family, masked port, and which bytes of an address are masked by the cookie and which by the transaction id |
| StunAddress.IndicationRoundTrip | gpuf-c/src/handle/handle_udp.rs:975-998 | a Data indication built from a peer and data parses back to both |
| StunAddress.IndicationExactly | gpuf-c/src/handle/handle_udp.rs:975-998 | for any attributes in any order the first peer address and the first data make the indication, if the address decodes |
| StunAddress.NoIndication | gpuf-c/src/handle/handle_udp.rs:975-998 | without one of the two there is none |
| StunAddress.ParseXorMappedAddress | gpuf-c/src/handle/handle_udp.rs:1178-1264 | the combined loop computes the combined walk, error cases included |
| StunAddress.MappedWalkIsFirstDeciding | gpuf-c/src/handle/handle_udp.rs:1200-1264 | the combined walk takes the first attribute that decides |
| StunAddress.SearchesAgree | gpuf-c/src/handle/handle_udp.rs:1092-1264 | an address found by listing is what the combined walk finds, and the two differ exactly when an address attribute that decodes comes after others that all have an unknown family |
| StunAddress.SearchesDiffer | gpuf-c/src/handle/handle_udp.rs:1092-1264 | for every address, a response on which listing finds nothing and the combined walk finds it |
| TextSearch.SplitTail | gpuf-c/src/llm_engine/anthropic_server.rs:584-605 | holds back exactly the longest tail that is a proper beginning of the tag |
| TextSearch.SafePartIsSafe | gpuf-c/src/llm_engine/anthropic_server.rs:584-605 | whatever follows, no tag begins in the part let go |
| ThinkSplit.StreamSplitter.constructor | gpuf-c/src/llm_engine/anthropic_server.rs:494-500 | starts in text with nothing held |
| ThinkSplit.StreamSplitter.PushText | gpuf-c/src/llm_engine/anthropic_server.rs:502-558 | emits and keeps what the recursive specification says, with splitting on and off |
| ThinkSplit.StreamSplitter.Flush | gpuf-c/src/llm_engine/anthropic_server.rs:560-582 | emits what is held and closes an open thinking stretch |
| ThinkSplit.PushIsSound | gpuf-c/src/llm_engine/anthropic_server.rs:502-558 | what a push emits, then the reading of what it holds and of anything that follows, is the reading of the whole |
| ThinkSplit.PushAllHoldsLittle | gpuf-c/src/llm_engine/anthropic_server.rs:584-605 | less than one tag is ever held |
| ThinkSplit.ChunkingDoesNotMatter | gpuf-c/src/llm_engine/anthropic_server.rs:502-605 | for every cutting into tokens, pushing and flushing gives the reading of the whole text up to where deltas are divided |
| ThinkBlocks.SplitThinkingText | gpuf-c/src/llm_engine/anthropic_server.rs:299-341 | the batch splitter gives the blocks of the text without blank ones: at least one, all of them blocks of the text, saying the same but for white characters of the answer, and no text in them blank unless the text is all there is |
| ThinkBlocks.RenderRaw | gpuf-c/src/llm_engine/anthropic_server.rs:299-341 | the blocks, written out, are the reading of the text |
| ThinkBlocks.RenderInjective | gpuf-c/src/llm_engine/anthropic_server.rs:299-341 | merged blocks are determined by what they say |
| ThinkBlocks.StreamAgreesWithBatch | gpuf-c/src/llm_engine/anthropic_server.rs:299-341 | for every cutting, blocks are the merged stream if and only if they are the blocks of the whole text |
| ThinkBlocks.RetaggedParse | gpuf-c/src/llm_engine/anthropic_server.rs:299-341 | putting the tags back into the reading of a text restores it |
| ThinkBlocks.RetaggedStream | gpuf-c/src/llm_engine/anthropic_server.rs:502-605 | putting the tags back into the stream restores the input, followed by the closing tag if flush added one |
| Sse.AppendEvent | gpuf-c/src/llm_engine/anthropic_server.rs:398-469 | appends the events of one split event and updates number and flag |
| Sse.AppendFooterEvents | gpuf-c/src/llm_engine/anthropic_server.rs:354-386 | stops an open block, then message_delta and message_stop |
| Sse.MessagesStream | gpuf-c/src/llm_engine/anthropic_server.rs:169-244 | start, all tokens, flush and footer composed give the trace of the answer; failed tokens are skipped |
| Sse.TraceIsBracketed | gpuf-c/src/llm_engine/anthropic_server.rs:354-469 | blocks are numbered 0, 1, 2, ... without gaps, each one start, its own deltas, one stop, never nested |
| Sse.StreamTrace | gpuf-c/src/llm_engine/anthropic_server.rs:169-244 | with thinking on, for every cutting, the stream is so bracketed and block `i` says what block `i` of the whole text is |
| Sse.DisabledTrace | gpuf-c/src/llm_engine/anthropic_server.rs:169-244 | with thinking off there is at most one block and its deltas are the tokens |
| Utf8Emit.Utf8EmitBuffer.PushAndTakeValid | gpuf-c/src/lib.rs:34-63 | emits and keeps what the specification says |
| Utf8Emit.TakesLongest | gpuf-c/src/lib.rs:34-63 | a push emits the longest valid beginning of everything in hand, or all of it lossily if and only if there is none and more than 8192 bytes are held |
| Utf8Emit.Utf8EmitBuffer.FlushLossy | gpuf-c/src/lib.rs:65-72 | emits and clears what is held |
| Utf8Emit.NothingLostUntilLossy | gpuf-c/src/lib.rs:34-63 | for any input, until a lossy emission all are valid and with the buffer equal the input without NULs |
| Utf8Emit.ValidTextIsNeverLossy | gpuf-c/src/lib.rs:34-63 | a beginning of valid text is never emitted lossily and at most 3 bytes are held |
| Utf8Emit.ValidTextComesThrough | gpuf-c/src/lib.rs:34-72 | for every chunking of valid text the emissions are valid, concatenate to the text without NULs, and nothing is left |
| Utf8Emit.BufferIsBounded | gpuf-c/src/lib.rs:45-53 | over every run no more than 8192 bytes and one chunk are ever held |
| Utf8Emit.CharIsEncodedScalar | gpuf-c/src/lib.rs:38-44 | what the validity grammar accepts is exactly one encoded scalar value |
| Utf8Emit.EncodedIsOneChar | gpuf-c/src/lib.rs:38-44 | and every encoded scalar value is accepted as one character, whatever follows |
| HotSwap.StepKeepsInv | gpuf-c/src/lib.rs:4552-4604 | every step of every call keeps the invariant |
| HotSwap.GenerationIsSafe | gpuf-c/src/handle/worker_sdk.rs:998-1019 | in every interleaving a generating call uses the live model and context of one load |
| HotSwap.FreesAreSafe | gpuf-c/src/lib.rs:4588-4602 | what is freed is live at that moment |
| HotSwap.EveryLoadHasOnePlace | gpuf-c/src/lib.rs:4552-4604 | every load is exactly one of pending, published, being retired or freed, and freed at most once; of a freed one neither model nor context is live |
| HotSwap.NoDeadlock | gpuf-c/src/lib.rs:4575-4577 | while a call is in progress some call can move |
| SwapProgress.TaskIsServed | gpuf-c/src/handle/worker_sdk.rs:998-1019 | in every interleaving a call that takes the inference lock while a load is published generates with that load from its third move on |
| SwapProgress.TurnedAwayIff | gpuf-c/src/handle/worker_sdk.rs:998-1019 | a task is turned away if and only if it has read both pointers and nothing is published |
| SwapProgress.SwapIsDone | gpuf-c/src/lib.rs:4575-4604 | in every interleaving a swap that holds both locks has after six moves published its own load and freed the previous |
| SwapProgress.SwapGetsLocks | gpuf-c/src/lib.rs:4552-4577 | a swap whose loads succeed holds both locks with its own load after four turns that it need not wait for |
| SwapProgress.FailedLoadReturns | gpuf-c/src/lib.rs:4552-4570 | a failed load ends the call, frees a model without context and publishes nothing |
| PhaseSplit.NextMarker | gpuf-c/src/handle/worker_sdk.rs:797-887 | the loop finds the leftmost marker |
| PhaseSplit.LeftmostIsLeftmost | gpuf-c/src/handle/worker_sdk.rs:797-887 | a marker is found if and only if one stands in the text, the leftmost, ties going to the earlier in the list |
| PhaseSplit.StandsExactly | gpuf-c/src/handle/worker_sdk.rs:797-887 | a tag counts anywhere, a heading at the start of the text or a line, and a bare word at the start of the text only if the text ends with it or white space or a colon follows |
| PhaseSplit.FitsExactly | gpuf-c/src/handle/worker_sdk.rs:889-943 | a tail is held back for if the text ends with the beginning of a marker or of a newline and a marker |
| PhaseSplit.SplitForCarry | gpuf-c/src/handle/worker_sdk.rs:889-943 | holds back exactly the longest tail, of fewer characters than the longest marker, that may begin a marker |
| PhaseSplit.NoMarkerIsCut | gpuf-c/src/handle/worker_sdk.rs:889-943 | whatever follows, no marker stands at a place in the text let go |
| PhaseStream.PhaseSplitter.constructor | gpuf-c/src/handle/worker_sdk.rs:787-794 | starts in the final phase with nothing carried |
| PhaseStream.PhaseSplitter.PushText | gpuf-c/src/handle/worker_sdk.rs:949-995 | emits and keeps what the specification says; an empty push changes nothing |
| PhaseStream.RunKeepsText | gpuf-c/src/handle/worker_sdk.rs:949-995 | over every run, segments and removed markers in order, then the carry, are the text fed in |
| PhaseStream.RunIsPhased | gpuf-c/src/handle/worker_sdk.rs:949-995 | over every run each segment is non-empty and of the phase set by the last removed marker |
| PhaseStream.RunLetsNoTagThrough | gpuf-c/src/handle/worker_sdk.rs:797-835 | over every run no tag is let through, whole or in pieces: the text of items in a row with no marker removed between them holds none |
| PhaseStream.LittleIsLost | gpuf-c/src/handle/worker_sdk.rs:889-943 | at most 12 characters are ever carried at the end of a run |
| PhaseStream.WhatIsLeft | gpuf-c/src/handle/worker_sdk.rs:889-995 | at the end of every run the carry is the longest tail, of the text since the last removed marker, that begins a marker; it is empty if and only if no tail does |
| PhaseStream.SinceMarkerIsTheEnd | gpuf-c/src/handle/worker_sdk.rs:949-995 | that text is the end of the text fed in, all of it behind the last removed marker |
| TaskExamples.TwelveAreLost | gpuf-c/src/handle/worker_sdk.rs:889-943 | the bound is attained: of "### Reasonin" nothing is ever emitted |
| ChunkSend.CleanedUnchanged | gpuf-c/src/handle/worker_sdk.rs:771-779 | control-token filtering leaves a text alone if and only if no control token occurs in it |
| ChunkSend.NestedTokenStays | gpuf-c/src/handle/worker_sdk.rs:771-779 | removing a token from any text made of a copy of it with another inside leaves the token |
| ChunkSend.FilterLeavesToken | gpuf-c/src/handle/worker_sdk.rs:771-779 | a text from which the whole filter makes a control token |
| ChunkSend.FilterIsComplete | gpuf-c/src/handle/worker_sdk.rs:771-779 | a text in which every `<` opens a control token is left without any control token |
| ChunkSend.WidthIsEncoded | gpuf-c/src/handle/worker_sdk.rs:1122-1125 | sizes count the bytes of the UTF-8 encoding |
| ChunkSend.AddAllPaints | gpuf-c/src/handle/worker_sdk.rs:1081-1146 | chunks sent and buffer hold, character by character with its phase, what the segments bring |
| ChunkSend.AddAllKeeps | gpuf-c/src/handle/worker_sdk.rs:1081-1146 | chunks stay numbered and non-empty, and one below 8 bytes is followed by another phase |
| InferenceRun.TokenCallback.TakeSegment | gpuf-c/src/handle/worker_sdk.rs:1083-1145 | one segment changes buffer, counters and stream as specified |
| InferenceRun.TokenCallback.HandleToken | gpuf-c/src/handle/worker_sdk.rs:1040-1147 | one callback, with its null, cancelled, non-UTF-8 and empty cases |
| InferenceRun.TokenCallback.Close | gpuf-c/src/handle/worker_sdk.rs:1179-1242 | the closing chunks of a failed, cancelled or finished task |
| InferenceRun.ChunksAreTheText | gpuf-c/src/handle/worker_sdk.rs:1081-1242 | for every run that does not fail the chunks carry exactly the segments, each character under its phase |
| InferenceRun.MarkersAndCarryAreLost | gpuf-c/src/handle/worker_sdk.rs:1073-1081 | segments with the removed markers and the last carry are all the text that came in, cleaned token by token, and the carry is empty if and only if the text since the last marker ends in no beginning of a marker |
| InferenceRun.TasksEndOnce | gpuf-c/src/handle/worker_sdk.rs:1179-1242 | exactly the last chunk is done and only it can carry an error; unless the task fails chunks are numbered 0, 1, 2, ... modulo 2^32 and well filled |
| InferenceRun.FailureRestartsNumbers | gpuf-c/src/handle/worker_sdk.rs:1179-1200 | the numbers of a failed task are in order if and only if a multiple of 2^32 chunks came before its last |
| TaskExamples.NumberUsedTwice | gpuf-c/src/handle/worker_sdk.rs:1179-1200 | a failed task with two chunks that are both numbered 0 |
| InferenceRun.CancelledWhen | gpuf-c/src/handle/worker_sdk.rs:1052-1063 | a task counts as cancelled if and only if a callback found it so |
| InferenceRun.CountersAreExact | gpuf-c/src/handle/worker_sdk.rs:1073-1098 | the counters of a whole task are the non-empty tokens, the analysis segments and the final segments, each saturating |
| InferenceRun.FedIsTheText | gpuf-c/src/handle/worker_sdk.rs:1040-1081 | the splitter is fed all the text of all callbacks that do not find the task cancelled, in order |
| InferenceRun.ClosingChunk | gpuf-c/src/handle/worker_sdk.rs:1179-1242 | the closing chunk says the phase of the last removed marker, the exact counters and whether the task was cancelled, or only that it failed |
| BumpPool.AlignedOffset | gpuf-c/src/lib.rs:3581-3584 | the mask form is rounding up, for every power of two and word width |
| BumpPool.RoundUpIsLeast | gpuf-c/src/lib.rs:3581-3584 | it is the least multiple not below the offset |
| BumpPool.MemoryPool.Init | gpuf-c/src/lib.rs:3529-3566 | maps once |
| BumpPool.MemoryPool.Allocate | gpuf-c/src/lib.rs:3568-3596 | gives a block or null as specified, without overflow |
| BumpPool.MemoryPool.Reset | gpuf-c/src/lib.rs:3599-3613 | forgets all blocks |
| BumpPool.MemoryPool.Cleanup | gpuf-c/src/lib.rs:3616-3632 | gives the mapped region back and forgets it, or does nothing |
| BumpPool.AllocationIsExact | gpuf-c/src/lib.rs:3568-3596 | succeeds if and only if some aligned place not below `used` leaves room, takes the least, and on failure changes nothing |
| BumpPool.BlocksAreDisjoint | gpuf-c/src/lib.rs:3568-3632 | in every run the blocks since the last reset lie in the pool and never overlap |
| BumpPool.RegionsAreReturnedOnce | gpuf-c/src/lib.rs:3529-3632 | in every run each mapped region is unmapped at most once, whole, and before the next is mapped |
| Lanes.Set | common/src/lib.rs:121-128 | a write updates one element of the array of lanes and no other |
| Lanes.GetIsSlice | common/src/lib.rs:115-119 | shift and mask cut the lane out of the word, at index times width |
| Lanes.LikeAnArray | common/src/lib.rs:115-143 | after any writes a word reads like an eight-element array that took the same writes |
| Lanes.SameLanes | common/src/lib.rs:115-143 | two words are equal if and only if their lanes are |
| Lanes.SameWrites | common/src/lib.rs:115-143 | two sequences of writes give the same word if and only if they give the same array |

## Left out

- Sockets, TLS, timers, JNI, the C interface, llama.cpp and model loading: foreign code; only the state they touch is modelled.
- The values of HMAC, CRC and MESSAGE-INTEGRITY, and the command encoding: function parameters.
- The outer loop of `p2p_udp_send_reliable`: it differs from the relayed one only in the loop for one fragment, which is modelled.
- That a sender's success means every fragment was received: acknowledgements name the message only.
- Independence of the phase splitter from token boundaries: not promised and not claimed, because a heading word counts at the start of whatever text is in hand.
- Whether a write to the control stream succeeds: errors are ignored in the callback, so the stream is taken to be lossless.
- The task that is refused because no model is loaded: it sends one done chunk numbered 0.
- Flow label and scope id of IPv6 addresses, and URL, host and DNS handling.
- Text of lossy UTF-8 decoding: which replacement characters appear is the standard library's.
- The Android handler and other code that reads the model or context pointer outside the inference lock.
- The writers in gpuf-c/src/jni_llama.rs:310-311, 418-419, 446-447 and 517-518: they store to both global pointers under neither lock, so the hot-swap results are about runs without them.
- Poisoned mutexes: a panic while a lock is held ends the modelled run.
- The memory of the bump allocator's blocks and the alignment of the mapped region itself: blocks are offsets and sizes.
- The prompt builder, request limits, permits, keep-alive pings and JSON of the HTTP server: plumbing.
- The example client, the dashboard, configuration, build scripts and the server binary: easy or simulated.
