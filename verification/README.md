# Verified model of the open client's protocol cores

The open client is a WireGuard mesh agent. This project models the parts of it that decide
something by themselves: the DNS responder and its raw packet framing, the packet path in front of
the tunnels, the peer roster and receive demultiplexing, the STUN client and the rendezvous driver,
the event stream reader, the userspace SOCKS bridge and both halves of its handshake, the command
grants and the exec gate they control, the outcome queue, the relay's token bucket and the Windows
child supervisor. Cryptography, boringtun, smoltcp, sockets, the operating system and text parsing
are parameters: function values, or the result each step gets from its environment. Nothing is
assumed about them.

Run `dafny verify dfyconfig.toml`.

| file | what it models |
|---|---|
| `Octets.dfy` | octets, network-order integers, addresses |
| `Checksum.dfy` | the Internet checksum, against a sum that carries around at every addition |
| `DnsMessage.dfy` | an RFC 1035 message decoder, the reference for the responder |
| `DnsResponder.dfy` | `parse_qname`, `respond`, `build_servfail` |
| `IpFraming.dfy` | recognising a DNS query in a raw packet and framing the reply, against a datagram decoder |
| `TxPath.dfy` | what `spawn_tx` does with one packet, end to end |
| `PendingDns.dfy` | forwarded queries: `dns_forward`, `dns_reply`, `dns_fail` |
| `Roster.dfy`, `Demux.dfy` | the peer roster, idle teardown, receive demultiplexing |
| `Stun.dfy`, `Rendezvous.dfy` | the STUN client, the rendezvous driver |
| `Utf8.dfy`, `Sse.dfy` | lossy UTF-8 decoding and the event framing of `consume_peer_sse` |
| `Socks5.dfy`, `Netstack.dfy` | the SOCKS5 handshake from both ends, the userspace bridge |
| `CmdGrant.dfy`, `ExecGate.dfy` | the canonical command encoding, grant verification, the exec gate |
| `ExecOutcome.dfy` | the outcome queue and `deliver_outcomes` |
| `TokenBucket.dfy`, `Supervisor.dfy` | the relay's rate limiter, the child supervisor |

State that the source updates in place is a class. Where a property speaks of whole runs, the class
records the run in ghost fields (`history`, `issued`, `launches`, `reactions`, `read`, …), its
`Valid()` says what the run has to do with the state, every method keeps it, and lemmas draw the
consequences from the record alone.

## Where the code and its documentation part

Each of these comes with an input that shows it and with the exact condition, in both directions,
under which the code keeps its promise.

- `deliver_outcomes` promises to put the outcome it stopped at back at the front. It requeues that
  outcome before the rest, so it ends up behind them. `ExecOutcome.OrderIsLost` is a run,
  `ExecOutcome.OrderSurvivesFailureWhen` says when the two orders agree, and
  `ExecOutcome.RequeueInOrder` is the order the queue's own test uses, which is right. Each requeue
  call takes the lock by itself, so a push in between can drop an outcome just put back:
  `ExecOutcome.NothingLostExactlyWhen`.
- The supervisor promises at most one live child. It discards the results of `kill` and `wait`, and a
  status query whose `try_wait` fails drops the handle of a child that may still run.
  `Supervisor.RunsKeepOneChild` and `Supervisor.AtMostOneExactlyWhen` say which runs keep the promise;
  `Supervisor.FailedPollLeaksAChild` and `Supervisor.FailedKillLeaksAChild` are runs that do not.
- A command grant promises one command, once, on one node. Nothing records that it was used, on one
  connection or on several (`ExecGate.GrantUsedTwice`, `ExecGate.GrantUsedOnTwoConnections`,
  `ExecGate.SingleUseExactlyWhen`), and a shell request does not look at the token at all
  (`ExecGate.ShellBesideAGrant`, `ExecGate.ConfinedExactlyWhen`).
- A grant that declares no stdin promises that none is taken. The refusal for it, `StdinUndeclared`,
  is never made; client data is written to whatever runs (`ExecGate.UndeclaredInputIsWritten`,
  `ExecGate.UnfedExactlyWhen`).
- The rendezvous debounce promises five seconds between reactions to one peer. The code stores one
  clock reading and compares a later one, so a hold-up between the two shortens the distance by as
  much: `Rendezvous.SpacingIsExact`, `Rendezvous.FiveSecondsExactlyWhenPrompt`,
  `Rendezvous.HoldUpDefeatsSpacing`.
- The token bucket takes whatever reading it is given as the last one, so a clock that runs backwards
  refills it: `TokenBucket.BackwardClockRefills`, `TokenBucket.ClockBoundExactlyWhen`.
- `dns_reply` takes a response of any length. `IpFraming.BuildDnsReply` says from which length on the
  truncated length field spoils the packet, and `IpFraming.UnreadableReply` is such a reply.
- `add_tunn_peers` compares with the keys known when it started. `Roster.RepeatedKeyIsAddedTwice` is
  the list that gives two entries one key; `Roster.Roster.AddTunnPeers` and
  `Roster.Roster.ReconcilePeers` say which lists do.
- The event stream is described as SSE. Several data lines of one event are not joined, and an empty
  one is no event: `Sse.SecondDataLineReplacesFirst`, `Sse.StreamMatchesStandardWhen`. That theorem
  is about fields with a space behind the colon, because others are not seen at all:
  `Sse.MissingSpaceIsLost`.
- The event stream is text, but every chunk is decoded by itself, so a character that a chunk ends in
  is lost: `Sse.CutWithinCharacterDamages`, `Utf8.ChunksDecodeExactlyWhen`.

## Model

| member | source | states |
|---|---|---|
| Checksum.DeferredCarries | crates/agent-core/src/dns.rs:282-291 | adding whole words and folding once gives the one's-complement sum of RFC 1071, for even and odd lengths |
| Checksum.FoldCarries | crates/agent-core/src/dns.rs:287-289 | the fold loop ends and gives the residue modulo 65535, zero only for a zero sum |
| Checksum.StoredChecksumVerifies | crates/agent-core/src/dns.rs:241-242 | whatever the bytes, storing the complement (or all ones for a computed zero) makes the receiver's sum all ones |
| Checksum.IpChecksum | crates/agent-core/src/dns.rs:282-291 | is the complement of the one's-complement sum of the whole words |
| Checksum.Covered6Folds | crates/agent-core/src/dns.rs:295-314 | the u32 accumulator does not wrap for any segment a UDP length can state, and folds to the sum over pseudo-header and segment |
| Checksum.Udp6Checksum | crates/agent-core/src/dns.rs:295-321 | is never zero, and is the complement over the RFC 8200 pseudo-header and the segment, with zero sent as all ones |
| DnsMessage.StandingNameDecodes | crates/agent-core/src/dns.rs:31-47 | every encoded name is decoded to its labels and its end, at any offset and whatever follows |
| DnsMessage.PointerFreeNameStands | crates/agent-core/src/dns.rs:28-47 | a name read without pointers is the encoding of the labels returned, exactly up to the offset returned |
| DnsResponder.ParseQname | crates/agent-core/src/dns.rs:31-47 | reads exactly what the RFC 1035 decoder reads when no compression pointer is admissible; terminates on every buffer |
| DnsResponder.QueryName | crates/agent-core/src/dns.rs:51-56 | the lowercased dotted name, or none |
| DnsResponder.KeyIsDottedLowerCase | crates/agent-core/src/dns.rs:31-47 | the table key, split at its dots, is one part for each label, each the label's text with A to Z in lower case and nothing else changed |
| DnsResponder.SameCaseSameKey | crates/agent-core/src/dns.rs:31-47 | labels that differ in ASCII case only stand for one key |
| DnsResponder.SpellingDoesNotMatter | crates/agent-core/src/dns.rs:68-123 | two queries for one name in different spellings get the same header, record types and data |
| DnsResponder.WellFormedQueryMeansOneQuestion | crates/agent-core/src/dns.rs:68-81 | the queries answered are those with one question, plain labels and room for type and class |
| DnsResponder.Respond | crates/agent-core/src/dns.rs:68-123 | answers exactly the well-formed queries, and the reference decoder reads the answer as the same ID and question, QR and AA set, RD kept, and an A or AAAA record of 30 seconds, NODATA or NXDOMAIN as the table entry of the lowercased name dictates |
| DnsResponder.BuildServfail | crates/agent-core/src/dns.rs:132-149 | is defined on exactly the queries `respond` answers and decodes to SERVFAIL for the same question |
| IpFraming.QueriesToUsAreRecognised | crates/agent-core/src/dns.rs:159-205 | every well-formed datagram to port 53 of this node yields its payload, with or without a UDP checksum over IPv4, with one over IPv6 |
| IpFraming.RecognisedExactlyWhen | crates/agent-core/src/dns.rs:159-205 | octet by octet: UDP, our address, port 53, a length within the packet, and nothing else, is recognised |
| IpFraming.RepliesGoBack | crates/agent-core/src/dns.rs:223-278 | the reply to a well-formed datagram has its addresses swapped, source port 53 and the port it came from |
| IpFraming.RecognisedQueriesCanBeAnswered | crates/agent-core/src/dns.rs:159-205 | what is recognised is a UDP payload to our address and port 53, whole within the packet, and can be replied to |
| IpFraming.BuildReplyV4 | crates/agent-core/src/dns.rs:223-250 | decodes, header checksum verified, to the datagram back to the querier with exactly the answer, if and only if the answer has at most 65507 bytes |
| IpFraming.BuildReplyV6 | crates/agent-core/src/dns.rs:252-278 | decodes, UDP checksum nonzero and verified, to the datagram back to the querier, if and only if the answer has at most 65527 bytes |
| IpFraming.BuildDnsReply | crates/agent-core/src/dns.rs:215-221 | both families together; other versions and short packets give none |
| IpFraming.UnreadableReply | crates/agent-core/src/dns.rs:215-278 | an answer one octet longer than the family allows gives a reply nobody can decode |
| TxPath.PeerByOverlay | crates/agent-core/src/pump.rs:269-272 | the first roster entry that owns the address |
| TxPath.DatagramsGoToTheirDestination | crates/agent-core/src/dataplane.rs:38-50 | the destination read off a packet is the one the datagram decoder reads |
| TxPath.DestinationBehindSource4 | crates/agent-core/src/dataplane.rs:38-50 | of an IPv4 packet of any protocol it is the address behind the source, whatever the source, options and payload |
| TxPath.DestinationBehindSource6 | crates/agent-core/src/dataplane.rs:38-50 | the same for IPv6 |
| TxPath.NoDestinationWhen | crates/agent-core/src/dataplane.rs:38-50 | none exactly for other versions and packets shorter than the fixed header |
| TxPath.AnswerLocally | crates/agent-core/src/pump.rs:573-606 | a recognised query is answered with a datagram to its sender whose payload is the expected DNS response, and met with silence only when malformed |
| TxPath.Decide | crates/agent-core/src/pump.rs:549-635 | oversized packets are dropped; a query for us never reaches a peer and is answered, forwarded or, if malformed, dropped; a packet to ourselves comes back unchanged; any other goes to the entry owning its destination |
| PendingDns.Pending.Forward | crates/agent-core/src/pump.rs:421-438 | the table stays the unbounded map of unanswered requests cut to the newest 257, and holds the new one under a fresh token |
| PendingDns.Pending.TableIsBounded | crates/agent-core/src/pump.rs:429-435 | never more than 257 entries |
| PendingDns.Pending.Reply | crates/agent-core/src/pump.rs:443-469 | an outstanding token is consumed, once ever, and its response goes to the sender of its own request; any other token writes nothing |
| PendingDns.Pending.Fail | crates/agent-core/src/pump.rs:478-502 | the same with a SERVFAIL for the question asked; silence exactly for stale tokens and malformed queries |
| Roster.DialablePeers | crates/agent-core/src/dataplane.rs:60-83 | exactly the peers of the list whose address and key parse and that are not us, none of them with our overlay address |
| Roster.DialableMeans | crates/agent-core/src/dataplane.rs:60-83 | the same field by field: a dialable peer has what its list entry's address, key and endpoint parse to |
| Roster.DialableInOrder | crates/agent-core/src/dataplane.rs:60-83 | entry by entry and in list order |
| Roster.NewPeersInOrder | crates/agent-core/src/pump.rs:164-173 | peers with unknown keys are taken one by one and in list order |
| Roster.RetainInOrder | crates/agent-core/src/pump.rs:242-263 | each entry is kept or dropped by itself, and the order is kept |
| Roster.AdditionKeepsKeysDistinct | crates/agent-core/src/pump.rs:164-216 | keys stay distinct exactly when the added peers have distinct keys, which a list without repeated keys guarantees |
| Roster.RepeatedKeyIsAddedTwice | crates/agent-core/src/pump.rs:164-173 | a list that repeats an unknown key produces two entries with it |
| Roster.ReconciledKeys | crates/agent-core/src/pump.rs:235-253 | pruning to the live keys and adding the missing ones leaves exactly the live keys |
| Roster.RetainKeepsDistinct | crates/agent-core/src/pump.rs:242-263 | what is retained keeps distinct entries, keys and tunnel indices |
| Roster.Roster.AddTunnPeers | crates/agent-core/src/pump.rs:153-218 | appends an entry for exactly the dialable peers with unknown keys, under the next indices, and returns their addresses; roster invariants kept |
| Roster.Roster.PeerAdded | crates/agent-daemon/src/up.rs:643-652 | one `peer_added` event keeps keys unique and makes an entry exactly for a dialable peer with an unknown key |
| Roster.Roster.ReconcilePeers | crates/agent-core/src/pump.rs:226-255 | the key set equals the dialable keys of the list, survivors are the same entries untouched and in order, after = before - removed + added, and keys stay unique exactly when the list repeats no key that was unknown before |
| Roster.Roster.RemovePeerByNodeId | crates/agent-core/src/pump.rs:260-265 | every entry of the node goes, every other stays; true exactly when there was one |
| Roster.Roster.TeardownIdle | crates/agent-core/src/pump.rs:864-894 | exactly the idle sessions get a fresh tunnel under a new index of their own; endpoints and all other entries stay |
| Demux.CandidatesPermuteTheRoster | crates/agent-core/src/pump.rs:774-787 | the candidates are the roster, each entry once, with the guess first |
| Demux.GuessElseFirst | crates/agent-core/src/pump.rs:668-702 | a datagram goes to the guess if its tunnel accepts, else to the first entry in roster order whose tunnel does |
| Demux.FirstAcceptingIsFirst | crates/agent-core/src/pump.rs:668-702 | everything before the accepting candidate rejects |
| Demux.GuessNeverChangesTheOutcome | crates/agent-core/src/pump.rs:765-773 | whatever the guess, the trial ends at the same peer when no two tunnels accept one datagram |
| Demux.PeerBySource | crates/agent-core/src/pump.rs:276-286 | the first entry known at the very endpoint, else the first at the same host, else the sole entry, else none |
| Demux.RxCandidates | crates/agent-core/src/pump.rs:774-787 | a permutation of the roster at the second lock without repetition, the guess of `peer_by_source` in front and the others behind it in roster order, exactly unless the guess was removed after the first lock; then it stands in front of that roster |
| Demux.Trial | crates/agent-core/src/pump.rs:668-702 | the first candidate whose tunnel accepts |
| Demux.RxDatagram | crates/agent-core/src/pump.rs:655-705 | the first candidate that accepts, and only it, learns the source as its endpoint and takes on the session state its tunnel reports; a sole acceptor always gets the datagram, whatever the endpoint table said; STUN touches nobody, and a WireGuard message is never taken for STUN |
| Demux.EstablishedThenIdle | crates/agent-core/src/pump.rs:655-705 | a session that a datagram establishes and that then stays idle for the limit ends in a fresh tunnel under a new index at the same entry, which keeps the endpoint it learned |
| Stun.MappedAddressRoundTrip | crates/agent-core/src/stun.rs:77-102 | the XOR-ed address is recovered, IPv4 and IPv6 |
| Stun.DecodeXorMapped | crates/agent-core/src/stun.rs:77-102 | decodes exactly the address the value stands for, filling the address byte by byte |
| Stun.ParseBindingResponse | crates/agent-core/src/stun.rs:53-75 | none unless it answers the transaction id; else the result of the attribute walk, in bounds and terminating on every octet string |
| Stun.WalkSkips | crates/agent-core/src/stun.rs:61-73 | well-formed padded attributes of any other type are stepped over |
| Stun.ResponseRoundTrip | crates/agent-core/src/stun.rs:53-102 | a success response with any other attributes in front and anything behind gives back its address to the holder of its transaction id and to nobody else |
| Stun.WalkIsSound | crates/agent-core/src/stun.rs:61-75 | an address is only ever read from an XOR-MAPPED-ADDRESS that lies whole within the packet, a whole number of words behind the first attribute |
| Stun.BindingRequest | crates/agent-core/src/stun.rs:39-46 | the twenty bytes of a request, which the demultiplexer takes for STUN |
| Stun.StunMeans | crates/agent-core/src/stun.rs:26-35 | what is taken for STUN, octet by octet |
| Stun.SampleAddresses | crates/agent-core/src/stun.rs:77-102 | the addresses of the sample responses in sections 2.2 and 2.3 of RFC 5769 are read |
| Rendezvous.Driver.Initiate | crates/agent-core/src/disco.rs:150-158 | advertises to exactly the relay-only peers, and only when five seconds have passed since the last round |
| Rendezvous.RelayOnlyLists | crates/agent-core/src/disco.rs:123-131 | a key is advertised to once for every roster entry that has it and no direct endpoint |
| Rendezvous.Driver.OnRendezvous | crates/agent-core/src/disco.rs:159-180 | reacts exactly when the last reaction to that key was stored five seconds before the comparison; reciprocates when an endpoint is known |
| Rendezvous.SpacingIsExact | crates/agent-core/src/disco.rs:161-168 | after any run, every admissible next reaction to a key starts at least g seconds after the last one ended if and only if g is at most five seconds less that one's own hold-up |
| Rendezvous.FiveSecondsExactlyWhenPrompt | crates/agent-core/src/disco.rs:161-168 | the promised five seconds follow a reaction if and only if nothing held it up between its stored reading and its end |
| Rendezvous.ReactionsBound | crates/agent-core/src/disco.rs:147-184 | with hold-ups of at most d < 5 seconds a window of length W meets at most floor(W/(5-d))+1 reactions to one key, for every arrival pattern; floor(W/5)+1 without hold-ups |
| Rendezvous.AnyReactionsBound | crates/agent-core/src/disco.rs:147-184 | with any hold-ups at most twice as many |
| Rendezvous.HoldUpDefeatsSpacing | crates/agent-core/src/disco.rs:161-168 | a run in which a hold-up breaks the first bound |
| Rendezvous.RoundsBound | crates/agent-core/src/disco.rs:150-158 | a window of length W meets at most floor(W/5)+1 advertisement rounds, whatever the hold-ups |
| Rendezvous.FramesBound | crates/agent-core/src/disco.rs:147-184 | the frames sent to one peer in a window, replies and advertisements together: floor(W/(5-d))+1, and floor(W/5)+1 for each time a round lists the key |
| Rendezvous.Node.Hear | crates/agent-core/src/disco.rs:159-180 | a frame of the paired node is answered by at most one frame to it, and every frame stays accounted for |
| Rendezvous.MutualReciprocation | crates/agent-core/src/disco.rs:138-184 | two nodes that answer each other, after any interleaving of arrivals, losses and rounds: reciprocation makes no frame but from a frame, so the adverts equal the frames under way, lost or unanswered, and both nodes stay within the frame bound in every window |
| Sse.ReadConcat | crates/agent-daemon/src/up.rs:617-696 | reading two pieces of text one after the other is reading them joined |
| Sse.TrimmedExactly | crates/agent-daemon/src/up.rs:622 | all carriage returns at the end of a line go and nothing else |
| Sse.KnownKinds | crates/agent-daemon/src/up.rs:626-683 | the event kinds acted on are these three |
| Sse.Consumer.Feed | crates/agent-daemon/src/up.rs:617-696 | one chunk, buffered and searched for line ends, leaves what reading its characters one by one leaves |
| Sse.Consumer.FeedAll | crates/agent-daemon/src/up.rs:617-697 | so does a whole stream of chunks |
| Utf8.EncodedIsDecoded | crates/agent-daemon/src/up.rs:619 | the lossy decoder gives every encoded text back |
| Utf8.ValidIsEncoded | crates/agent-daemon/src/up.rs:619 | the octet strings it takes without loss are the encodings of what it gives |
| Utf8.BoundaryOfText | crates/agent-daemon/src/up.rs:619 | in an encoded text the boundaries of decoding are those between characters |
| Utf8.BoundaryOfValid | crates/agent-daemon/src/up.rs:619 | a cut of a well-formed string is at a boundary exactly when what is before it is well-formed |
| Utf8.CutDecodes | crates/agent-daemon/src/up.rs:619 | for every octet string, decoding the two sides of a cut gives the decoding of the whole if the cut is between items and more characters if it is within one |
| Utf8.ChunksDecodeExactlyWhen | crates/agent-daemon/src/up.rs:617-619 | decoding chunk by chunk gives the text of the stream if and only if no chunk ends within a character |
| Sse.CuttingBetweenCharacters | crates/agent-daemon/src/up.rs:617-696 | any two cuttings of one stream between characters dispatch the same events and leave the same state, that of one-shot processing |
| Sse.CuttingDoesNotMatter | crates/agent-daemon/src/up.rs:617-696 | an ASCII stream can be cut anywhere |
| Sse.CutWithinCharacterDamages | crates/agent-daemon/src/up.rs:617-693 | a chunk that ends within any character of any event's data: the event dispatched has replacement characters in its place |
| Sse.EncodedEventsAreRead | crates/agent-daemon/src/up.rs:617-696 | any list of single-line events in any language, printed, encoded and cut between characters, is read back with nothing left over |
| Sse.PrintedEventsAreRead | crates/agent-daemon/src/up.rs:624-693 | printing any list of single-line events and reading it gives the list back with nothing left over |
| Sse.BlockMatchesStandardWhen | crates/agent-daemon/src/up.rs:624-693 | an event with any number of data lines is dispatched as section 9.2.6 of the HTML Standard dispatches it exactly when its kind is not one the client knows, it has no data line, or it has a single nonempty one; the code never dispatches more |
| Sse.StreamMatchesStandardWhen | crates/agent-daemon/src/up.rs:617-696 | any stream of lines, comments, other fields, repeated and misordered fields, either line end and an unfinished tail included, whose event and data fields have their space, is read as the standard's reader reads it exactly when that holds of every block a blank line closes |
| Sse.SecondDataLineReplacesFirst | crates/agent-daemon/src/up.rs:691-693 | of two data fields the standard joins, the code dispatches the second alone |
| Sse.MissingSpaceIsLost | crates/agent-daemon/src/up.rs:689-693 | a data field without the space is an event to the standard and nothing to the code |
| Socks5.ReadConnectTarget | crates/agent-daemon/src/netstack.rs:258-289 | succeeds exactly on CONNECT requests with a literal address, consumes them whole and names their endpoint |
| Socks5.Socks5Handshake | crates/agent-daemon/src/netstack.rs:229-253 | succeeds exactly when the input starts with a greeting and such a request, with nothing behind them consumed and both replies sent |
| Socks5.ClientMethod | crates/agent-daemon/src/ssh_exec.rs:72-93 | sends the request for its target exactly when the server chose no authentication |
| Socks5.ClientReply | crates/agent-daemon/src/ssh_exec.rs:94-102 | consumes exactly ten reply bytes of a success |
| Socks5.Lockstep | crates/agent-daemon/src/ssh_exec.rs:66-103 | for every endpoint the two halves succeed together and the server learns that endpoint; payload already queued behind a side's last message is left whole by the other side's handshake |
| Netstack.Bridge.ReadClient | crates/agent-daemon/src/netstack.rs:436-448 | bytes read join the queue, end of stream and errors both end reading for good, and accepted bytes followed by the queue stay the bytes read |
| Netstack.Bridge.Exchange | crates/agent-daemon/src/netstack.rs:453-479 | the socket takes the smaller of what it accepts and the front it is shown, nothing when it cannot send or fails, and exactly that leaves the queue; the FIN goes out once, as soon as the client has ended and every byte was accepted |
| Netstack.FlushedCalls | crates/agent-daemon/src/netstack.rs:481-500 | write by write: each but the last takes the smaller of what the client takes and the front it is shown, and a queue that is not empty afterwards met a write that takes nothing, blocks or fails |
| Netstack.Bridge.Flush | crates/agent-daemon/src/netstack.rs:481-500 | how many writes are made, how much each of them takes, that only the last may take nothing, block or fail, and that exactly what was taken leaves the queue |
| Netstack.TickMoves | crates/agent-daemon/src/netstack.rs:436-500 | one tick of a bridge, whatever client and socket do: exactly what is read, accepted, received and written and how much, when the FIN is out, and that nothing is lost but by a failed write |
| Netstack.Engine.Tick | crates/agent-daemon/src/netstack.rs:436-543 | every bridge is taken through exactly that tick; exactly the finished ones are reaped, each with every byte received delivered unless a write failed |
| CmdGrant.EncodingIsInjective | crates/agent-core/src/cmd_grant.rs:79-117 | two commands have the same preimage exactly when they are equal up to the confusion of no arguments with one empty argument |
| CmdGrant.PreimageReadsAs | crates/agent-core/src/cmd_grant.rs:79-117 | the byte string that is hashed, read back field by field behind its lengths, is the version, the program, the counted arguments, the directory, the counted environment, the stdin mode and the stdin digest |
| CmdGrant.FieldSplits | crates/agent-core/src/cmd_grant.rs:86-90 | a length-prefixed field delimits itself |
| CmdGrant.CmdDigest | crates/agent-core/src/cmd_grant.rs:79-117 | is the hex of the hash of exactly that preimage |
| CmdGrant.HexIsInjective | crates/agent-core/src/cmd_grant.rs:119-125 | the hex form loses nothing |
| CmdGrant.HexSpells | crates/agent-core/src/cmd_grant.rs:119-125 | the two digits each octet is spelled with |
| CmdGrant.HexLower | crates/agent-core/src/cmd_grant.rs:119-125 | two lowercase digits a byte |
| CmdGrant.Verify | crates/agent-core/src/cmd_grant.rs:229-279 | accepts exactly the signed, in-force grant whose digest matches; a digest mismatch is reported exactly when nothing else is wrong |
| CmdGrant.AuthorisesMeans | crates/agent-core/src/cmd_grant.rs:229-279 | what a token must be to be accepted, from its dot, base64, signature and purpose to node, expiry, program, stdin mode and digest, in both directions |
| CmdGrant.AuthorisedCommandIsTheDigestedOne | crates/agent-core/src/cmd_grant.rs:222-279 | an accepted grant carries the very command its digest was computed from, or a hash collision is at hand |
| CmdGrant.ToCommand | crates/agent-core/src/cmd_grant.rs:288-305 | the argv and directory of the grant, and an environment of exactly its KEY=VALUE entries, the last of each key |
| CmdGrant.EntriesSetInOrder | crates/agent-core/src/cmd_grant.rs:288-305 | entry by entry, `KEY=VALUE` sets its key over any earlier value and only that key; anything else sets nothing |
| ExecGate.RunsAreSound | crates/agent-core/src/ssh_server.rs:231-243 | over every run of env, pty, exec, shell and data requests: nothing starts against a session token that does not verify; a granted process runs the argv, directory and environment of the grant its token authorised at that moment, never elevated, and reports that grant; a client's own line runs only without a token; that line and a terminal session are elevated exactly when a verifier took the elevation token presented, and are killed at the expiry it returned; nothing but a granted process reports |
| ExecGate.ConnHandler.EnvRequest | crates/agent-core/src/ssh_server.rs:846-867 | captures the three grant variables and nothing else; a command token is never unset |
| ExecGate.ConnHandler.PtyRequest | crates/agent-core/src/ssh_server.rs:813-844 | refused, before anything is recorded, exactly when a command token is set |
| ExecGate.ConnHandler.ExecUnderCommandGrant | crates/agent-core/src/ssh_server.rs:603-661 | yields the command of a grant the token authorises now, or refuses and reports the refusal under the grant's id |
| ExecGate.ConnHandler.ExecRequest | crates/agent-core/src/ssh_server.rs:977-1035 | exactly when a process starts and which: with a token set the command of a grant it authorises, never elevated; without one the client's line, elevated exactly when a verifier takes the elevation token, until the expiry it returns; a refused token is reported with its reason |
| ExecGate.ConnHandler.ShellRequest | crates/agent-core/src/ssh_server.rs:869-971 | a terminal session starts whether or not a command token is set, elevated exactly when a verifier takes the elevation token, until the expiry it returns; it reports no outcome |
| ExecGate.ConfinedExactlyWhen | crates/agent-core/src/ssh_server.rs:824-1007 | in any run, every process spawned under a command token is a granted one if and only if no admitted shell request starts a terminal session once the token is set |
| ExecGate.ShellBesideAGrant | crates/agent-core/src/ssh_server.rs:869-971 | the run env, exec, shell that spawns a granted process and then a terminal session under the same token |
| ExecGate.RunsCountUses | crates/agent-core/src/ssh_server.rs:992-1007 | the processes started on a connection under a token, or of a grant under any token, are as many as the admitted, spawnable exec requests made while it is set and good |
| ExecGate.SingleUseExactlyWhen | crates/agent-core/src/cmd_grant.rs:5-7 | over all connections of a node a token, or a grant, is used once at most if and only if there is at most one such request on all of them together |
| ExecGate.GrantUsedTwice | crates/agent-core/src/cmd_grant.rs:43 | one token and two exec requests give two processes of one grant |
| ExecGate.GrantUsedOnTwoConnections | crates/agent-core/src/cmd_grant.rs:43 | one request on each of two connections, and the node runs the grant twice |
| ExecGate.UnfedExactlyWhen | crates/agent-core/src/ssh_server.rs:1037-1061 | in any run, nothing reaches a command whose grant declares no stdin if and only if no client data arrives while it is the process last started and its input is open |
| ExecGate.UndeclaredInputIsWritten | crates/agent-core/src/cmd_grant.rs:138-140 | the run env, exec, data that writes the client's octets to such a command |
| ExecGate.ConnHandler.ClientData | crates/agent-core/src/ssh_server.rs:1037-1050 | client data goes to the process last started, whatever its grant says, and nothing else changes |
| ExecGate.ConnHandler.ProcessExited | crates/agent-core/src/ssh_server.rs:744-781 | once for each process: the exit outcome of a granted process names the grant its token authorised when it was spawned; any other process reports nothing |
| ExecOutcome.OutcomeQueue.Push | crates/agent-core/src/exec_outcome.rs:95-103 | the last 256 of the queue and the new outcome; says whether one was dropped |
| ExecOutcome.OutcomeQueue.PushAll | crates/agent-core/src/exec_outcome.rs:95-103 | a run of pushes leaves the last 256 |
| ExecOutcome.OutcomeQueue.RequeueFront | crates/agent-core/src/exec_outcome.rs:113-119 | the first 256 of the outcome and the queue |
| ExecOutcome.OutcomeQueue.RequeueAll | crates/agent-core/src/exec_outcome.rs:186-205 | a batch requeued back to front gives the first 256 of batch and queue |
| ExecOutcome.RequeueInOrder | crates/agent-core/src/exec_outcome.rs:184-205 | in the test's order a drained batch goes back in order, ahead of whatever was pushed since |
| ExecOutcome.DeliverOutcomes | crates/agent-core/src/adapters.rs:1077-1117 | each drained outcome is delivered on a status from 200 to 299, dropped on one from 400 to 499, or put back from the first other answer on, once; the number delivered; the exact queue afterwards, with other tasks pushing during posts and between requeue calls |
| ExecOutcome.ArrivedInOrder | crates/agent-core/src/exec_outcome.rs:95-103 | what other tasks push meanwhile is queued batch by batch, each behind all earlier ones |
| ExecOutcome.NothingLostExactlyWhen | crates/agent-core/src/adapters.rs:1108-1111 | every outcome put back is in the queue if and only if each push between two requeue calls found room; the queue is then the first 256 of what was put back and what others queued |
| ExecOutcome.PushDuringRequeueLoses | crates/agent-core/src/exec_outcome.rs:113-119 | one push into a full queue between two requeue calls drops the outcome just put back |
| ExecOutcome.OrderSurvivesFailureWhen | crates/agent-core/src/adapters.rs:1073-1111 | the queue has the documented order exactly when nothing different waited behind the outcome that failed |
| ExecOutcome.OrderIsLost | crates/agent-core/src/adapters.rs:1107-1111 | a delivery whose first post is answered with a 503 leaves two different outcomes in the wrong order |
| TokenBucket.TokenBucket.AllowAt | crates/relay-core/src/limit.rs:30-40 | admits a cost exactly when, counted from creation and from every earlier call, what was admitted since plus the cost is at most the capacity plus the rate times the time seen since; any clock, any cost |
| TokenBucket.SpentAdds | crates/relay-core/src/limit.rs:34-39 | what was admitted is the sum of the admitted costs |
| TokenBucket.ElapsedAdds | crates/relay-core/src/limit.rs:31-32 | the time seen is the sum of the forward steps of the clock; a step back counts nothing |
| TokenBucket.WindowBound | crates/relay-core/src/limit.rs:16-40 | any stretch of any run admits at most the capacity plus the rate times the time the bucket saw pass |
| TokenBucket.ClockWindowBound | crates/relay-core/src/limit.rs:29-40 | the same in clock time, for a stretch in which the clock never runs backwards |
| TokenBucket.ClockBoundExactlyWhen | crates/relay-core/src/limit.rs:30-40 | for given clock readings, every window of every run is within capacity plus refill over the clock time if and only if the readings after creation never decrease |
| TokenBucket.ConformingIsDeterministic | crates/relay-core/src/limit.rs:30-40 | the characterisation fixes every decision of a run |
| TokenBucket.BackwardClockRefills | crates/relay-core/src/limit.rs:31-33 | with a clock that goes back and forth the bound in clock time fails |
| Supervisor.RunsKeepOneChild | crates/agent-daemon/src/win_supervisor.rs:131-192 | the live processes are a subset of the one held, at every point of a run, exactly when no step drops its handle on a running child: by a failing status query, or by a kill and a wait that both fail |
| Supervisor.AtMostOneExactlyWhen | crates/agent-daemon/src/win_supervisor.rs:101-102 | more than one child lives at some point of a run if and only if the handle on a running child is dropped and another child is spawned before it exits; any interleaving of connects, disconnects, status queries, exits, failing spawns, kills and waits |
| Supervisor.RunsKeepAtMostOne | crates/agent-daemon/src/win_supervisor.rs:101-102 | the same from any start with at most one live child, held or not: none is spawned while another one lives |
| Supervisor.KeepingTrackKeepsAtMostOne | crates/agent-daemon/src/win_supervisor.rs:101-102 | a second live child needs one lost before |
| Supervisor.FailedPollLeaksAChild | crates/agent-daemon/src/win_supervisor.rs:168-178 | a run with a failing status query that ends with two live children |
| Supervisor.FailedKillLeaksAChild | crates/agent-daemon/src/win_supervisor.rs:189-192 | runs in which kill and wait both fail: two live children, or one under an idle supervisor |
| Supervisor.Supervisor.Connect | crates/agent-daemon/src/win_supervisor.rs:131-152 | already connected exactly when a live child holds the same credentials; otherwise the new one, if it spawned, is alive and held, and it is the only one exactly when the old one did not outlive its ending |
| Supervisor.Supervisor.Disconnect | crates/agent-daemon/src/win_supervisor.rs:156-162 | afterwards no child is live exactly unless a running one could be neither killed nor waited for |
| Supervisor.Supervisor.IsConnected | crates/agent-daemon/src/win_supervisor.rs:168-178 | true exactly when the child runs and `try_wait` says so; self-heals otherwise |

## Left out

- ParseQname: `String::from_utf8_lossy` is a parameter; every claim holds for any such function.
- EncodingIsInjective: lengths below 2^64, which every Rust slice length is.
- AllowAt: f64 is `real`; rounding is not modelled.
- AddTunnPeers: handshake initiation, routes and logging; the u32 index counter is unbounded.
- ReconcilePeers: pruning and adding are one step, though the lock is released in between.
- RxDatagram: boringtun's drained output is reduced to whether data came out and whether a session stands.
- Forward: one thread forwards, so taking a token and parking under it are one step; the u64 token counter is unbounded.
- ExecRequest: channel replies, the kill timer of elevated commands, the streaming of output and the note about a mismatching client line; user provisioning is a yes or no; the clock is read once per request.
- ShellRequest: building the command, opening the terminal and spawning are one yes or no.
- ClientData: octets taken by the pipe count as given; the digest of declared input, which the code does not check either, is not modelled.
- Lockstep: writes do not fail; the ten-second read timeout counts as the end of the stream.
- Tick: smoltcp's own state, the tunnel and the timers (steps 1, 4, 7 and 8); what a socket offers is a parameter.
- StreamMatchesStandardWhen: streams without a byte order mark and without carriage returns other than those of CRLF line ends; where event and data fields lack their space, MissingSpaceIsLost shows the two part.
- Initiate: the hole-punch burst and the text form of an endpoint in a rendezvous frame.
- HTTP adapters, enrolment, token and CRL refresh, command-line parsing, the TLS relay, the relay frame codec, the GUI and the iOS bridge.
