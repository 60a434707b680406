# Belnet, modelled and proved in Dafny

This project models the stateful core of Belnet, an onion-routing overlay network, and proves what it is
for. `dafny verify dfyconfig.toml` checks all of it.

- **The IWP link protocol** (`Iwp*.dfy`). Two peers exchange messages over a network that loses,
  duplicates, delays and reorders packets. `IwpMessages` and `IwpSession` model the message buffers and the
  session object; `IwpLink`, `IwpProgress`, `IwpTiming` and `IwpAccounting` hold the invariants of one
  direction; `IwpRuns`, `IwpOnce`, `IwpTwice`, `IwpPosted` and `IwpReports` prove theorems over every run of
  the whole two-peer system, and `IwpAnswers` says what a session answers to any packet at all. `IwpWire`, `IwpCrypto` and `IwpHandshake` model the packet format, the packet seal and the
  session handshake, and `IwpStack` puts them under the protocol.
- **The DHT** (`Dht*.dfy`): the XOR metric, nearest-node queries, the router stores, the table of pending
  transactions and the recursive router lookup across the network.
- **The exit endpoint's addresses** (`Exit*.dfy`): a bounded pool of addresses, its live exits and its
  sessions to master nodes.
- **Configuration files** (`Config*.dfy`): the INI parser, the writer of overrides and the generator of
  commented configuration files.
- **DNS names, questions and messages** (`Dns*.dfy`), following sections 3.1, 4.1.1 and 4.1.2 of RFC 1035,
  and **base32z router addresses** (`Base32z.dfy`, `RouterId.dfy`).
- **The retest scheduler** (`Reachability*.dfy`).

Each stateful component has three layers: functions on values that say what an operation does in every
state, lemmas about those functions over whole runs, and a class or method with the source's loops and
fields that is proved to compute those functions. Clocks, random numbers, hash-table iteration order and
the network are parameters; cryptographic primitives are functions constrained only by `Lawful` (XOR
keystreams, symmetric Diffie-Hellman, signatures that verify).

## What the code does that one might not expect

The model follows the code. Where a promise is not met on all inputs, a theorem gives the exact condition.

- `Pump` re-sends messages lowest priority first, although the comment on `operator<` says that higher
  means more important: the comparison reverses the priority and `std::priority_queue` reverses it again
  (`IwpSession.ResendsLowPriorityFirst`).
- A message of at most 1024 bytes is sent once and never again, because its only fragment counts as
  acknowledged from the start; a lost XMIT or lost acknowledgements of a longer message are repaired
  (`IwpRuns.SmallMessagesAreSentOnce`, `IwpRuns.LostXmitsAreRepaired`, `IwpReports.LostAcksAreRepaired`).
- No message is delivered twice if and only if the longest gap between a sender's ticks and the longest
  packet delay stay inside an L-shaped region (`IwpTwice.AtMostOnceExactly`); gap plus delay below 700 ms,
  the bound the time-outs suggest, is only part of it.
- Completion by an ACKS mask updates no counter, so `inFlight` goes on counting such messages
  (`IwpRuns.SendsAreAccounted`). A peer that announces more than 8192 bytes can make the receiver's bit set
  throw; within the limit exactly one fragment does, an empty one at offset 8192 of an entry of 8192 bytes,
  and a peer that runs this code never sends it (`IwpSession.Session.HandleDATA`,
  `IwpSession.InLimitThrowsExactly`, `IwpRuns.ReachableNeverThrows`).
- A bucket search never finds the bitwise complement of its target (`DhtBucket.ComplementIsMissed`); a
  stored zero key can hide the nearest record (`DhtNodeDb.FindClosestExactly`); of two equally new records
  the first one put wins (`DhtStore.ConvergesExactly`); a router that knows nobody forwards lookups to the
  zero key, and otherwise only to routers it knows (`DhtLookup.ForwardIsKnownExactly`), and it answers a
  lookup of the zero key with an empty record (`DhtLookup.NobodyKnownAnswersZero`); informing without
  replies, the default of `Inform`, breaks the agreement of the maps exactly when it removes the deadline of
  a key that is waited for (`DhtTx.QuietInformExactly`).
- An exit pool that is used up searches for the least active address from
  `std::numeric_limits<llarp_time_t>::max()`. That template is not specialised for durations, so the value is
  0 ms and the search finds nothing. A newcomer to a full pool gets the zero address, outside the range, and
  takes it from whoever has it; nobody in the range ever loses an address, us included
  (`ExitAllocator.NewcomerAddressExactly`, `ExitAllocator.LosesAddressExactly`,
  `ExitAllocator.OwnAddressIsKept`). Everybody is in the range if and only if the identities that asked are
  no more than its addresses and no hook (see below) came late (`ExitAllocator.CrowdExactly`), and the one
  evicted is a least active one if and only if the zero address was used longest ago
  (`ExitAllocator.TakesLeastActiveExactly`). Our own address, meant never to count as idle, counts as the
  idlest until somebody asks for our identity (`ExitAllocator.OwnCountsIdlest`).
- A session to a master node can go on using an address that is now another identity's
  (`ExitSessions.SessionKeepsTakenAddress`), and the hook of a DNS answer maps its identity to the zero
  address for good if that was evicted in the meantime (`ExitAllocator.ReadyHookExactly`,
  `ExitAllocator.StaleForEver`). The first does not happen if and only if no request evicts an identity that
  has a session, and then the second does not happen to a hook whose session is in the table
  (`ExitSessions.SessionsStayCurrentExactly`). A node whose session has expired never gets another one
  (`ExitSessions.NoSecondSession`).
- A DNS name with an empty label is encoded with one zero byte too many (`DnsName.NameRoundTripExactly`),
  and the question count is cut to 16 bits (`DnsMessage.MessageRoundTripExactly`).
- The address tool writes keys with `{:64x}`, so a key comes back as it was given if and only if it has no
  upper-case digit and does not start with a zero (`Base32z.HexRoundTripExactly`).
- A node that is dropped and added again can be handed out twice by one `get_failing`; that cannot happen
  if and only if no failing node has two due retests that both can be among the first four
  (`Reachability.HandedOutTwice`, `ReachabilityOnce.HandsOutOnceExactly`).
- `next_random` refills its list and tries again, but its own timer makes the second try return nothing
  (`Reachability.RefillDrawsExactly`).

## Model

| member | source | states |
|---|---|---|
| IwpMessages.UnackedContents | llarp/iwp/message_buffer.cpp:63-88 | a flush sends exactly the fragments whose ack bit is not set, each with its own slice of the message |
| IwpMessages.FlushUnAcked | llarp/iwp/message_buffer.cpp:63-88 | the flush loop emits exactly the unacknowledged fragments, in order, and notes the time |
| IwpMessages.AllAcked | llarp/iwp/message_buffer.cpp:90-100 | transmitted or completed means that every fragment of the message has its bit set; the test throws exactly when all eight bits are set and the message is longer than they cover |
| IwpMessages.HandleDataKeepsFaithful | llarp/iwp/message_buffer.cpp:123-136 | storing any fragment of the original keeps the invariant that every set bit marks a slice that equals the original's |
| IwpMessages.FaithfulAndCovered | llarp/iwp/message_buffer.cpp:153-163 | a faithful message with all bits set is the original, byte for byte |
| IwpSession.ResendsLowPriorityFirst | llarp/iwp/message_buffer.hpp:50-62 | messages due for re-sending leave the heap lowest priority first, and at equal priority latest first |
| IwpSession.MackBatching | llarp/iwp/session.cpp:214-237 | for any queue, the MACK packets hold 1 to 128 ids each, leave the queue empty, and their ids together are the queue's multiset in ascending order |
| IwpSession.BuildMacks | llarp/iwp/session.cpp:214-237 | the popping loop builds exactly those packets |
| IwpSession.AckRound | llarp/iwp/session.cpp:253-259 | the loop over received messages acknowledges those due, in id order, and notes the time on them only |
| IwpSession.ResendRound | llarp/iwp/session.cpp:261-276 | the two loops flush exactly the messages due, in heap order |
| IwpSession.RemoveLateOutbound | llarp/iwp/session.cpp:390-407 | exactly the outbound messages past their delivery timeout leave |
| IwpSession.RemoveLateInbound | llarp/iwp/session.cpp:408-421 | exactly the inbound messages past their receive timeout move to the replay filter |
| IwpSession.DecayReplayFilter | llarp/iwp/session.cpp:422-434 | exactly the ids older than the replay window leave the filter |
| IwpSession.Session.SendMessageBuffer | llarp/iwp/session.cpp:187-212 | a full queue refuses and the handler is told at once; otherwise the next id is used, the message is queued and its XMIT and first flush go out |
| IwpSession.Session.HandleACKS | llarp/iwp/session.cpp:898-927 | an ack mask completes a message whose fragments it covers, else flushes it again |
| IwpSession.Session.HandleNACK | llarp/iwp/session.cpp:754-770 | a NACK for a queued message draws its XMIT again, and nothing otherwise |
| IwpSession.Session.HandleMACK | llarp/iwp/session.cpp:717-752 | every queued message named by the MACK completes once and is counted as acknowledged |
| IwpSession.Session.HandleXMIT | llarp/iwp/session.cpp:772-834 | replayed ids queue a MACK, open ids are left alone, new ids open an entry, and a single fragment completes it at once |
| IwpSession.Session.HandleDATA | llarp/iwp/session.cpp:836-883 | a fragment is stored in an open entry, queues a MACK for a replayed id, and draws a NACK for an unknown one; exactly when it throws, and what it has changed by then |
| IwpSession.InLimitThrowsExactly | llarp/iwp/message_buffer.cpp:123-163 | a fragment makes an entry within the size limit throw if and only if it is empty and lies at the end of an entry of the largest size |
| IwpSession.OverLimitThrowsExactly | llarp/iwp/message_buffer.cpp:123-163 | above the limit it throws if and only if it fits and lies beyond the eighth fragment, or the first eight are there with it |
| IwpSession.EmptyFragmentAtEndThrows | llarp/iwp/message_buffer.cpp:123-136 | that fragment is in bounds, and setting the ninth of eight bits throws |
| IwpSession.Session.HandleRecvMsgCompleted | llarp/iwp/session.cpp:885-896 | the entry closes and its id enters the replay filter; the first time, the bytes are delivered and an ACKS goes out |
| IwpSession.Session.Pump | llarp/iwp/session.cpp:245-291 | one round of acknowledgements and re-sends |
| IwpSession.Session.Tick | llarp/iwp/session.cpp:382-435 | the time-outs of both directions, each late outbound message reporting failure once |
| IwpSession.Session.SendMACK | llarp/iwp/session.cpp:214-237 | the queued ids go out in batches and the queue is empty |
| IwpLink.SafeOnXmit | llarp/iwp/session.cpp:772-834 | an XMIT of an honest sender keeps the safety invariant: open entries are faithful, replayed ids were delivered or timed out, and every packet in flight says something true |
| IwpLink.SafeOnData | llarp/iwp/session.cpp:836-883 | so does a DATA packet, in any state |
| IwpLink.SafeOnAcks | llarp/iwp/session.cpp:898-927 | so does a truthful ack mask; a success it reports is for a message the peer has settled |
| IwpLink.SafeOnMack | llarp/iwp/session.cpp:717-752 | so does a truthful MACK, likewise |
| IwpRuns.GoodStep | llarp/iwp/session.cpp:187-435 | every step of the two-peer system, including loss, duplication and reordering, keeps all invariants of both directions |
| IwpRuns.ReassemblyIsFaithful | llarp/iwp/session.cpp:772-896 | in every reachable state, whatever was handed to the upper layer under an id equals what the other peer submitted under it |
| IwpRuns.SuccessIsSound | llarp/iwp/session.cpp:717-752 | a handler told success only for a message the peer had delivered in full or whose receive entry it had timed out |
| IwpRuns.DeliveriesAreSpaced | llarp/iwp/session.cpp:382-435 | open entries and the replay filter never share an id, and two deliveries of one id are at least 1200 ms apart |
| IwpRuns.SendsAreAccounted | llarp/iwp/session.cpp:390-407 | each accepted message is queued with no handler call or gone with exactly one; accepted = acked + dropped + in flight, and in flight = queued + completed by a mask, each once and none of them queued |
| IwpRuns.SubmissionsAreAnswered | llarp/iwp/session.cpp:187-212 | over every run, each submission was accepted or refused with its handler called at once |
| IwpRuns.HandlerCalledByTick | llarp/iwp/session.cpp:382-407 | after the first tick past its delivery timeout, a message has had exactly one handler call |
| IwpRuns.OneFlushCompletes | llarp/iwp/message_buffer.cpp:57-88 | while the peer holds its first entry, one flush that arrives, in any order and with repetitions, delivers the message once and unchanged, even after stale acknowledgements |
| IwpRuns.LostXmitsAreRepaired | llarp/iwp/session.cpp:772-870 | in every reachable state, the flush of a queued message of several fragments that the peer never opened draws NACKs, the NACK draws the XMIT again, and the same flush then delivers the message |
| IwpRuns.ReachableNeverThrows | llarp/iwp/message_buffer.cpp:123-163 | in every reachable state, no fragment on the wire makes the entry it belongs to throw |
| IwpAnswers.FilteredIsMacked | llarp/iwp/session.cpp:795-862 | a packet of a message in the replay filter draws nothing but a MACK that lists it |
| IwpAnswers.NackExactly | llarp/iwp/session.cpp:773-862 | a fragment is refused with a NACK if and only if its message is unknown, and an announcement makes a message known |
| IwpAnswers.OpenAnnouncementIsIgnored | llarp/iwp/session.cpp:795-834 | an announcement of an open message changes nothing and draws nothing |
| IwpAnswers.HeadCountsExactly | llarp/iwp/session.cpp:800-830 | the head of an announcement counts as the first fragment if and only if it has the first fragment's length |
| IwpAnswers.StaysOpenExactly | llarp/iwp/message_buffer.cpp:123-136 | a fragment that fits, and no other, keeps its entry open for 500 ms more |
| IwpAnswers.HearDelivers | llarp/iwp/session.cpp:773-896 | any packet, forged or not, leads to no delivery and no ACKS, or to one delivery of the announced size and digest with an ACKS of all fragments, entered in the filter at that time |
| IwpAnswers.OnlyAnnouncedIsDelivered | llarp/iwp/session.cpp:773-896 | whatever packets arrive in whatever order, only messages of an announced id, size and digest are delivered |
| IwpAnswers.RefusedExactly | llarp/iwp/session.cpp:188-212 | a submission is refused if and only if 16384 messages are queued |
| IwpAnswers.SubmittedRanks | llarp/iwp/session.cpp:188-212 | a new message is re-sent before another if and only if its priority value is lower, or the same and its id greater |
| IwpAnswers.PumpAcksExactly | llarp/iwp/session.cpp:253-259 | a pump acknowledges exactly the open entries last acknowledged more than 250 ms ago, each with its mask |
| IwpAnswers.PumpResendsExactly | llarp/iwp/session.cpp:261-276 | a pump re-sends exactly the missing fragments of the messages last flushed at least 400 ms ago |
| IwpAnswers.TickDropsExactly | llarp/iwp/session.cpp:390-407 | a tick drops exactly the messages submitted more than 500 ms ago, each with one handler call |
| IwpAnswers.TickClosesExactly | llarp/iwp/session.cpp:408-435 | a tick closes exactly the entries idle for more than 500 ms and enters them in the filter |
| IwpPosted.PumpKeepsUp | llarp/iwp/session.cpp:246-277 | in every reachable state, right after a pump, open entries were acknowledged at most 250 ms ago and all missing fragments of queued messages were sent less than 400 ms ago |
| IwpReports.MackCompletes | llarp/iwp/session.cpp:718-752 | a MACK that lists a queued message gives it its one handler call, of success |
| IwpReports.AcksAnswerExactly | llarp/iwp/session.cpp:899-957 | a mask that covers a queued message gives it its one handler call, of success; any other draws exactly the fragments it lacks |
| IwpReports.DeliveredIsReported | llarp/iwp/session.cpp:773-862 | in every reachable state, any packet of a queued message that the peer has in its filter leads to a MACK and with it to one report, of success |
| IwpReports.LostAcksAreRepaired | llarp/iwp/session.cpp:246-277 | in every reachable state, with all acknowledgements of a delivered message of several fragments lost, one pump after 400 ms, one packet and one MACK report it |
| IwpReports.UndisturbedIsDelivered | llarp/iwp/session.cpp:188-212 | in every reachable state, if all packets of a new message arrive, the peer delivers it once and unchanged and answers with a mask that completes it |
| IwpRuns.SmallMessagesAreSentOnce | llarp/iwp/message_buffer.cpp:9-25 | in every reachable state, the only packet ever sent for a message of one fragment is the XMIT of its submission |
| IwpProgress.RoundCompletes | llarp/iwp/session.cpp:836-883 | fragments in any order and with any repetition complete an entry as soon as none is missing |
| IwpProgress.LostXmitIsRepaired | llarp/iwp/session.cpp:754-770 | for a message of several fragments whose XMIT was lost, its DATA draws NACKs, the NACK draws the XMIT, and the same flush then completes it |
| IwpAccounting.CountedOnAcks | llarp/iwp/session.cpp:898-927 | completion by a mask keeps the accounting while leaving all three counters alone |
| IwpAccounting.CountedTickTx | llarp/iwp/session.cpp:390-407 | a tick drops exactly the late messages, each with its one handler call |
| IwpTiming.OpensOnlyFresh | llarp/iwp/session.cpp:792-801 | inside the timing region, an XMIT that finds its id neither open nor filtered is for a message never delivered |
| IwpOnce.AtMostOnce | llarp/iwp/session.cpp:382-435 | inside the region no run delivers an id twice, to either peer |
| IwpTwice.TwiceByGap | llarp/iwp/session.cpp:382-407 | outside it by late ticks, a run that delivers a message twice |
| IwpTwice.TwiceByDelay | llarp/iwp/session.cpp:754-770 | outside it by slow packets, another such run |
| IwpTwice.AtMostOnceExactly | llarp/iwp/session.hpp:24-33 | at-most-once delivery holds over all runs with a given tick gap and packet delay if and only if the two lie in the region |
| IwpWire.MaskRoundTrip | llarp/iwp/message_buffer.cpp:147-151 | the set of acknowledged fragments survives its encoding as one byte |
| IwpWire.IdsRoundTrip | llarp/iwp/session.cpp:717-752 | any list of message ids survives its encoding as 64-bit big-endian numbers |
| IwpWire.PacketRoundTrip | llarp/iwp/session.cpp:676-715 | what a handler reads from a plaintext is the packet the sender wrote, whatever the padding |
| IwpWire.ParsesExactly | llarp/iwp/session.cpp:676-957 | a plaintext is read as a packet if and only if it is what a sender writes for that packet, with some padding where there can be any |
| IwpCrypto.SealedOpens | llarp/iwp/session.cpp:153-170 | a sealed packet opens under the same key to the same bytes |
| IwpCrypto.OpenedWasSealed | llarp/iwp/session.cpp:588-628 | a packet that opens is exactly the sealing of what comes out |
| IwpCrypto.HashBindsPacket | llarp/iwp/session.cpp:588-630 | short of a collision, two packets with the same keyed hash that open do so under the same key and are the same |
| IwpCrypto.SealHides | llarp/iwp/session.cpp:153-170 | one payload gives equal packets under two keys only if their keystreams are equal |
| IwpCrypto.EncryptInPlace | llarp/iwp/session.cpp:153-170 | the in-place loop turns the packet buffer into the sealed packet |
| IwpCrypto.DecryptMessageInPlace | llarp/iwp/session.cpp:588-628 | the in-place check and loop open the packet or leave it refused |
| IwpCrypto.DhAgrees | llarp/crypto/crypto_libsodium.cpp:32-81 | client and server derive the same session key, or both fail |
| IwpCrypto.ClientKeyBinds | llarp/crypto/crypto_libsodium.cpp:32-70 | short of a collision, a client's session key settles the nonce, both public keys and the shared secret |
| IwpCrypto.ServerKeyBinds | llarp/crypto/crypto_libsodium.cpp:72-84 | so does a server's |
| IwpCrypto.EndsShareSecret | llarp/crypto/crypto_libsodium.cpp:32-84 | a client and a server hold the same key only if each used the other's public key and both got the same secret |
| IwpCrypto.KeyExactly | llarp/crypto/crypto_libsodium.cpp:32-84 | either end gets a session key if and only if the multiplication gives a secret |
| IwpHandshake.InboundReadyIsAuthentic | llarp/iwp/session.cpp:75-90 | over every sequence of inputs, an inbound session is ready only with the remote key whose introduction signature it verified, and after its own token came back under the agreed key |
| IwpHandshake.OutboundReadyIsAuthentic | llarp/iwp/session.cpp:91-112 | an outbound session is ready only after a link introduction by exactly the router it called |
| IwpHandshake.HonestHandshake | llarp/iwp/session.cpp:440-586 | with honest delivery both ends reach link introduction with the same session key and token, and are then ready, each with the other's identity |
| IwpHandshake.IntroIsAccepted | llarp/iwp/session.cpp:507-555 | the server verifies an honest introduction and answers with its token sealed under the agreed key |
| IwpHandshake.IntroOpensOnlyAtCallee | llarp/iwp/session.cpp:441-556 | an introduction changes nothing at any router but the one it was sent to |
| IwpHandshake.BadIntroIsRefused | llarp/iwp/session.cpp:508-556 | an introduction that is too short changes nothing, and one that does not verify leaves only the identity it claims |
| IwpHandshake.UnopenedIsIgnored | llarp/iwp/session.cpp:476-620 | a packet that does not open, or comes after the handshake, changes nothing of the handshake and draws none of its packets |
| IwpHandshake.IntroIsSent | llarp/iwp/session.cpp:441-473 | a caller sends one introduction and waits for the answer, also when the key exchange fails |
| IwpHandshake.NoTokenIsIgnored | llarp/iwp/session.cpp:475-586 | an answer too short for a token, and a request that does not bring the token back, change nothing |
| IwpHandshake.EarlyLimIsIgnored | llarp/iwp/session.cpp:76-110 | a link introduction before the handshake is over changes nothing |
| IwpHandshake.ReadyStays | llarp/iwp/session.cpp:960-1000 | the handshake state of a session that is ready stays exactly as it is, whatever arrives |
| IwpHandshake.Session.GenerateAndSendIntro | llarp/iwp/session.cpp:440-472 | the client's first step: key agreement and the signed introduction |
| IwpHandshake.Session.HandleGotIntro | llarp/iwp/session.cpp:507-555 | the server's step, with each refusal |
| IwpHandshake.Session.HandleGotIntroAck | llarp/iwp/session.cpp:557-586 | the client's second step, with each refusal |
| IwpHandshake.Session.HandleCreateSessionRequest | llarp/iwp/session.cpp:475-505 | the server's second step: the token must come back unchanged |
| IwpHandshake.Session.RecvLL | llarp/iwp/session.cpp:959-1003 | which step a packet triggers in which state |
| IwpHandshake.Session.GotLIM | llarp/iwp/session.cpp:75-112 | what a link introduction does in each direction and state |
| IwpStack.PacketsSurviveTheWire | llarp/iwp/session.cpp:141-170 | every packet any run puts in flight is read back unchanged after encoding, sealing, opening and parsing |
| DhtKeys.NearerIsStrictTotalOrder | llarp/dht/kademlia.hpp:17-21 | for every centre the XOR metric is a strict total order on keys |
| DhtKeys.LessIsNumeric | llarp/dht/key.hpp:44-68 | the bytewise order on keys is the order of the 256-bit numbers they spell |
| DhtNearest.ByDistanceSorted | llarp/dht/kademlia.hpp:17-21 | taking the nearest key again and again enumerates a set in strictly increasing distance |
| DhtNearest.SortedIsUnique | llarp/dht/kademlia.hpp:17-21 | there is one enumeration of a set of keys sorted by distance |
| DhtStore.HoldsNewest | llarp/nodedb.cpp:244-257 | after any insertions every key seen maps to one of its newest records |
| DhtStore.ConvergesExactly | llarp/dht/bucket.hpp:170-178 | all orders of the same insertions give the same store if and only if no key has two different newest records |
| DhtBucket.ComplementIsMissed | llarp/dht/bucket.hpp:124-146 | the search order covers all nodes that are not excluded if and only if none is the target's complement |
| DhtBucket.Bucket.FindCloseExcluding | llarp/dht/bucket.hpp:124-146 | finds the nearest candidate if there is one, and leaves the result alone otherwise |
| DhtBucket.Bucket.GetManyNearExcluding | llarp/dht/bucket.hpp:148-168 | adds exactly the first n candidates in distance order, all of them if there are fewer, and reports whether there were n |
| DhtBucket.Bucket.PutNode | llarp/dht/bucket.hpp:170-178 | keeps the newer record |
| DhtBucket.Bucket.DelNode | llarp/dht/bucket.hpp:180-188 | the node goes, and no other |
| DhtNodeDb.NodeDB.PutIfNewer | llarp/nodedb.cpp:244-257 | keeps the newer record |
| DhtNodeDb.NodeDB.FindClosestTo | llarp/nodedb.cpp:277-295 | the record a visit in some order ends with; the nearest one unless a zero key stands in its way |
| DhtNodeDb.FindClosestExactly | llarp/nodedb.cpp:277-295 | on a non-empty store the fold finds the nearest record in every order if and only if no zero key stands in its way |
| DhtNodeDb.NodeDB.FindManyClosestTo | llarp/nodedb.cpp:297-323 | returns the first n records in distance order |
| DhtNodeDb.ClosestIsPrefix | llarp/nodedb.cpp:297-323 | results are prefixes of each other as the count grows |
| DhtNodeDb.QueriesAgree | llarp/nodedb.cpp:277-323 | on a non-empty store of nonzero keys the single query is the first of the many |
| DhtTx.MapsAgreeAfterEveryRun | llarp/dht/txholder.hpp:122-212 | after every run the keys waited for, the keys with deadlines and the targets of transactions are one set; every owner waits once, every transaction replied once exactly when removed, and every key started once per waiting period |
| DhtTx.FirstAskerSetsDeadline | llarp/dht/txholder.hpp:122-145 | after every run a key that is waited for has the deadline its first waiting asker was entered with |
| DhtTx.NobodyWaitsPastDeadline | llarp/dht/txholder.hpp:195-212 | after any run, expiry ends the waiting for a key if and only if its first waiting asker's deadline has passed, and leaves all other keys as they were |
| DhtTx.QuietInformExactly | llarp/dht/txholder.hpp:159-192 | informing without replies keeps the maps in agreement if and only if it leaves the deadline of a key that is waited for |
| DhtTx.LaterAskersMerge | llarp/dht/txholder.hpp:122-145 | a later asker joins the waiters, changes no deadline and starts nothing |
| DhtTx.PendingKeepsTransaction | llarp/dht/txholder.hpp:123-147 | an owner that is already pending keeps its transaction |
| DhtTx.FoundKeepsValid | llarp/dht/tx.hpp:69-79 | handing values to a transaction adds exactly the valid ones, in order, and the peer if there are any values |
| DhtTx.RepliesAreValid | llarp/dht/txholder.hpp:160-212 | after every run, each reply carries what its transaction was entered with and then only values that are valid for its target |
| DhtTx.AnsweredWithValues | llarp/dht/txholder.hpp:148-212 | after any run, values found are answered to everybody waiting, in order, each reply with exactly the valid values added; nothing found and expiry add none |
| DhtTx.QuietInformHears | llarp/dht/txholder.hpp:160-194 | informing without replies hands the values to those waiting and answers nobody |
| DhtTxHolder.TXHolder.NewTX | llarp/dht/txholder.hpp:122-145 | enters a transaction unless its owner is pending; only the first asker of a key starts it and sets its deadline |
| DhtTxHolder.TXHolder.Inform | llarp/dht/txholder.hpp:159-192 | every waiter of the key gets all values; with replies wanted it replies and is removed, otherwise it stays |
| DhtTxHolder.TXHolder.NotFound | llarp/dht/txholder.hpp:147-157 | informs the target of a known transaction of nothing found |
| DhtTxHolder.TXHolder.Expire | llarp/dht/txholder.hpp:195-212 | informs and removes exactly the late keys, in any order |
| DhtLookup.ForwardIsNearer | llarp/dht/context.cpp:371-429 | every forward goes to a router strictly nearer to the target, whatever the node database says |
| DhtLookup.LookupsTerminate | llarp/dht/context.cpp:371-429 | over any network of databases that change between hops, no router appears twice on a lookup's chain, and the chain is bounded by the first router's distance |
| DhtLookup.ForwardIsKnownExactly | llarp/nodedb.cpp:277-295 | a forward goes to a router in the database if and only if the database is not empty, and to the zero key otherwise |
| DhtLookup.FindsTargetExactly | llarp/nodedb.cpp:277-295 | the nearest-router query finds the target itself if and only if it is stored |
| DhtLookup.KnownIsAnswered | llarp/dht/context.cpp:373-405 | over the database, in whatever order it is visited: ourselves for ourselves, nothing when not allowed, and for a router we know its record, or a question to that router if and only if the record expires soon |
| DhtLookup.UnknownFallsBack | llarp/dht/context.cpp:392-428 | a lookup of a router we do not know goes on to the nearest we know if that is nearer than us, or names it when not recursive |
| DhtLookup.NobodyKnownFallsBack | llarp/dht/context.cpp:392-428 | a router that knows nobody does the same with the zero key |
| DhtLookup.NobodyKnownAnswersZero | llarp/dht/context.cpp:392-405 | and answers a lookup of the zero key with an empty record |
| DhtLookup.Context.LookupRouterRecursive | llarp/dht/context.cpp:639-651 | enters the lookup under a transaction number never used before |
| DhtLookup.Context.LookupRouterRelayed | llarp/dht/context.cpp:371-429 | the routing decision for every request, and the whole new table of transactions when it forwards |
| ExitAllocator.PoolStaysConsistent | llarp/handlers/exit.cpp:305-578 | after every run the two maps are inverse if and only if every hook of a DNS answer found its identity mapped, and then exactly the mapped addresses have an activity time; in any case every address but zero is in the range and held by the one identity mapped to it |
| ExitAllocator.ExitsAreIsolated | llarp/handlers/exit.cpp:305-815 | after every run each live exit's stored address is its identity's current one; exits of different identities share none but the zero address, and not even that unless a hook came late |
| ExitAllocator.NewcomerAddressExactly | llarp/handlers/exit.cpp:523-578 | a newcomer gets an address of the range if and only if the range is not used up, and zero otherwise; then the holder of zero goes with all its exits, and nothing else changes |
| ExitAllocator.LosesAddressExactly | llarp/handlers/exit.cpp:555-578 | an identity loses its address if and only if it holds zero and a newcomer meets a full pool |
| ExitAllocator.TakesLeastActiveExactly | llarp/handlers/exit.cpp:560-575 | a newcomer to a full pool takes the place of a least active identity if and only if zero is held and was used longest ago |
| ExitAllocator.NeverTakesLeastActive | llarp/handlers/exit.cpp:448-578 | after every run in which clocks have started and nobody asked for our identity, it does not |
| ExitAllocator.InRangeExactly | llarp/handlers/exit.cpp:305-578 | after every run everybody is mapped into the range if and only if no hook came late and no newcomer met a full pool |
| ExitAllocator.CrowdExactly | llarp/handlers/exit.cpp:523-578 | that is so if and only if no hook came late and the identities that asked, with ours, are no more than the addresses of the range |
| ExitAllocator.OwnAddressIsKept | llarp/handlers/exit.cpp:448-578 | after any run whatsoever our address is ours and nobody else's |
| ExitAllocator.OwnCountsIdlest | llarp/handlers/exit.cpp:456 | our address keeps the mark of the start if and only if nobody asks for our identity, and then it is the only one used longest ago |
| ExitAllocator.ReadyHookExactly | llarp/handlers/exit.cpp:305-320 | the hook of a DNS answer keeps the two maps inverse if and only if its identity is still mapped |
| ExitAllocator.OpensExactly | llarp/handlers/exit.cpp:793-815 | a new exit goes on its identity's address, after the exits it has, and only an evicted identity loses its own |
| ExitAllocator.RemovesFirstExactly | llarp/handlers/exit.cpp:829-841 | the identity's first exit on the path goes, if there is one, and no other |
| ExitAllocator.ExpiresExactly | llarp/handlers/exit.cpp:859-868 | a tick takes exactly the exits on expired paths |
| ExitAllocator.InverseExactly | llarp/handlers/exit.cpp:305-578 | over every run from a good pool, the maps end up inverse if and only if every hook found its identity mapped |
| ExitAllocator.StaleForEver | llarp/handlers/exit.cpp:305-578 | an identity that a late hook mapped to zero never gets an address of its own again |
| ExitAllocator.LateHookSharesZero | llarp/handlers/exit.cpp:305-578 | a run of five operations with a late hook, after which live exits of two identities share the zero address |
| ExitSessions.ObtainKeepsSessionsExactly | llarp/handlers/exit.cpp:523-578 | handing out an address leaves the captured addresses of sessions right if and only if it does not take the zero address from an identity with a session |
| ExitSessions.SessionsCurrentExactly | llarp/handlers/exit.cpp:761-857 | so does every event: a request for a master node's address, a new exit, a removal, a tick, a hook |
| ExitSessions.SessionsThroughoutExactly | llarp/handlers/exit.cpp:761-857 | over every run from a sound state, captured addresses are right throughout if and only if no event evicts an identity with a session |
| ExitSessions.SessionsStayCurrentExactly | llarp/handlers/exit.cpp:448-857 | the same from the start; then, with hooks called by sessions in the table, the maps end up inverse and every exit on its identity's address |
| ExitSessions.ResolvedIsMapped | llarp/handlers/exit.cpp:761-785 | the address a request returns is the one its identity is mapped to, also for our own |
| ExitSessions.SessionsExactly | llarp/handlers/exit.cpp:761-857 | a session is made if and only if its key was not known before, and goes only when it expires |
| ExitSessions.NoSecondSession | llarp/handlers/exit.cpp:761-857 | over every run, a known node without a session never gets one again |
| ExitSessions.SessionKeepsTakenAddress | llarp/handlers/exit.cpp:761-785 | three master nodes in a pool of two addresses leave the second one's session with the third one's current address |
| ExitEndpoint.Endpoint.Start | llarp/handlers/exit.cpp:448-457 | our own address is mapped, with 0 ms as its activity |
| ExitEndpoint.Endpoint.KickIdentOffExit | llarp/handlers/exit.cpp:638-647 | removes the identity from both maps with all its exits, also when it is not mapped |
| ExitEndpoint.Endpoint.FindOldest | llarp/handlers/exit.cpp:561-571 | started from any time, the loop finds an address used longest ago if one was used before that time, and zero otherwise |
| ExitEndpoint.Endpoint.AllocateNewAddress | llarp/handlers/exit.cpp:555-578 | the next address, or zero, taken from whoever has it |
| ExitEndpoint.Endpoint.GetIPForIdent | llarp/handlers/exit.cpp:523-553 | the identity's address, allocated if need be, marked active |
| ExitEndpoint.Endpoint.AllocateNewExit | llarp/handlers/exit.cpp:793-815 | refused without effect for a forbidden exit or an unhandled path; otherwise a new exit on the identity's address, and the path and router are noted |
| ExitEndpoint.Endpoint.ObtainMasterNodeIP | llarp/handlers/exit.cpp:761-785 | the node's address, and a session that captures it the first time the node is seen |
| ExitEndpoint.Endpoint.AnswerReady | llarp/handlers/exit.cpp:305-320 | the identity's address, or zero, to which a missing identity is then mapped; the maps stay inverse if and only if it was not missing |
| ExitEndpoint.Endpoint.ExpireSessions | llarp/handlers/exit.cpp:846-857 | exactly the expired sessions go, and their keys stay known |
| ExitEndpoint.Endpoint.Remove | llarp/handlers/exit.cpp:829-841 | the identity's first exit on that path goes, and no other |
| ExitEndpoint.Endpoint.ExpireActive | llarp/handlers/exit.cpp:859-868 | exactly the expired exits go |
| ConfigIni.EntryRoundTripExactly | llarp/config/ini.cpp:72-119 | a `key=value` line reads back as that pair if and only if the pair is well formed |
| ConfigIni.ParsedIsOk | llarp/config/ini.cpp:54-121 | whatever is read from any text, also up to a malformed line, is a configuration a text can carry |
| ConfigIni.SaveRoundTripExactly | llarp/config/ini.cpp:144-168 | a saved text, in whatever order, parses to the same sections with the same multisets of pairs if and only if all strings are well formed |
| ConfigIni.ReadSaveReadIsRead | llarp/config/ini.cpp:54-168 | saving what was read from any text and reading it again changes nothing |
| ConfigIni.SavedLayout | llarp/config/ini.cpp:152-169 | how a section with a pair is written |
| ConfigLines.TrimDrops | llarp/config/ini.cpp:48-93 | trimming drops the white space at both ends, six characters, and nothing else |
| ConfigLines.ReturnsAreBreaks | llarp/config/ini.cpp:57-70 | carriage returns end lines just as line feeds do |
| ConfigLines.NothingElseBreaks | llarp/config/ini.cpp:57-70 | no other character does |
| ConfigLines.KindExactly | llarp/config/ini.cpp:74-119 | which lines are comments, headers and malformed, for any line |
| ConfigLines.PairIsCut | llarp/config/ini.cpp:95-112 | a pair is cut at the first equals sign, without the white space next to it |
| ConfigLines.FailsExactly | llarp/config/ini.cpp:55-121 | reading fails if and only if a line is malformed, and keeps what the lines before the first such say |
| ConfigParser.SplitLines | llarp/config/ini.cpp:56-70 | the iterator loop cuts the text at every line break |
| ConfigParser.ReadLine | llarp/config/ini.cpp:77-119 | the trimming and splitting loops classify a line |
| ConfigParser.Parser.LoadFromStr | llarp/config/ini.cpp:54-121 | the object ends with everything read before the first malformed line, and says whether there was one |
| ConfigParser.Parser.AddOverride | llarp/config/ini.cpp:144-149 | one more pair for that file and section |
| ConfigParser.Parser.Save | llarp/config/ini.cpp:151-168 | each overridden file lists its overrides and nothing else, reads back as them if and only if they are well formed, and the overrides are used up |
| ConfigGenerate.GeneratedParses | llarp/config/definition.cpp:174-239 | a generated file parses to exactly the values that were set, section by section, if nothing between the line breaks of its comments and defaults is more than a comment |
| ConfigGenerate.GeneratedParsesExactly | llarp/config/definition.cpp:174-239 | and then it does if and only if every value shown is one that a line can carry |
| ConfigGenerate.PlainCommentsAreHushed | llarp/config/definition.cpp:191-195 | comments on one line are such |
| ConfigGenerate.PlainDefaultsAreHushed | llarp/config/definition.cpp:203-213 | so are the names and defaults of options without a value, required ones having no defaults |
| ConfigGenerate.DefaultsSayNothingExactly | llarp/config/definition.cpp:174-239 | a file generated without values parses to the empty configuration if and only if, in every section with an option to print, no header, comment or shown default has a pair or a malformed line between its line breaks |
| ConfigGenerate.DefaultsSayNothing | llarp/config/definition.cpp:174-239 | in particular it does if comments and defaults are comments |
| ConfigGenerate.SettingLaidOut | llarp/config/definition.cpp:190-236 | how an option is printed, shown, hidden, without a default and with a value |
| ConfigGenerate.FileLaidOut | llarp/config/definition.cpp:174-239 | how sections are printed one after the other, and that one with nothing to show is not |
| ConfigDefinition.Definition.DefineOption | llarp/config/definition.cpp:22-64 | fails exactly on a second definition, changing nothing; otherwise the option, or its hidden dummy, comes last in its section, and the orderings list every section and option once |
| ConfigDefinition.Definition.AddSectionComments | llarp/config/definition.cpp:151-158 | comments are added to one section, after those it has |
| ConfigDefinition.Definition.AddConfigValue | llarp/config/definition.cpp:66-105 | the value is added to its option, goes to the section's handler if the option is undeclared, or is refused, exactly when each |
| ConfigDefinition.OutcomeExactly | llarp/config/definition.cpp:67-105 | when a value is unrecognized, handled or a duplicate |
| ConfigDefinition.DummyExactly | llarp/config/definition.cpp:23-64 | an option is kept as it is unless deprecated or of the other mode; then it leaves no trace and takes any value |
| ConfigDefinition.ValuesAreShownExactly | llarp/config/definition.cpp:200-220 | the pairs a section shows are exactly the values of its options |
| ConfigDefinition.Definition.AddUndeclaredHandler | llarp/config/definition.cpp:107-115 | one handler for a section; a second one is refused |
| ConfigDefinition.Definition.GenerateIniConfig | llarp/config/definition.cpp:174-239 | the nested visits write that file, which parses back to the values set |
| DnsName.NameRoundTripExactly | llarp/dns/name.cpp:11-65 | an encoded name decodes to its fully qualified spelling, or with the final dot dropped to itself, and uses exactly the bytes written, if and only if it has no empty label |
| DnsName.NameFitsExactly | llarp/dns/name.cpp:39-65 | a well-formed name is encoded if and only if there is room for two bytes more than its length |
| DnsName.LabelsRoundTrip | llarp/dns/name.cpp:11-65 | every non-empty list of dot-free labels of 1 to 63 bytes makes the round trip |
| DnsName.SplitJoined | llarp/util/str.cpp:78-104 | splitting joined dot-free labels gives the labels back |
| DnsName.FinalDotIsIgnored | llarp/dns/name.cpp:39-45 | a name is encoded the same with a final dot and without |
| DnsName.ReadsWholeLabels | llarp/dns/name.cpp:11-36 | any bytes are read as whole labels up to a zero, the end of the bytes, or a label that does not fit |
| DnsName.TrimExactly | llarp/dns/name.cpp:11-36 | dropping the final dot drops exactly that, and is undefined exactly for the root |
| DnsName.StopsWriting | llarp/dns/name.cpp:39-70 | where writing stops for lack of room or for a label that is too long, and what is written by then |
| DnsCodec.SplitName | llarp/util/str.cpp:78-104 | the search loop cuts at every dot and keeps empty pieces |
| DnsCodec.EncodeNameTo | llarp/dns/name.cpp:39-65 | the bytes written, the cursor and the outcome for every name and every room, also when it is refused halfway |
| DnsCodec.DecodeNameFrom | llarp/dns/name.cpp:11-37 | the name read or the way it fails, and the cursor, for every buffer, with and without the final dot |
| DnsCodec.Buffer.PutUint16 | llarp/util/buffer.cpp:26-36 | two big-endian bytes, or nothing if there is no room |
| DnsCodec.Buffer.ReadUint16 | llarp/util/buffer.cpp:38-47 | the number in the next two bytes, or nothing |
| DnsMessage.QuestionRoundTripExactly | llarp/dns/question.cpp:29-60 | an encoded question decodes to itself with its name fully qualified if and only if the name has no empty label, and then uses exactly the bytes written |
| DnsMessage.MessageRoundTripExactly | llarp/dns/message.cpp:89-135 | an encoded message of questions parses back to its header and questions and uses exactly the bytes written if and only if it has fewer than 65536 questions and no name with an empty label |
| DnsMessage.PutNumbersExactly | llarp/dns/message.cpp:18-32 | numbers are written as far as there is room, in full if and only if there is room for all |
| DnsMessage.GetNumbersExactly | llarp/dns/message.cpp:34-50 | numbers are read from any bytes if and only if there are enough |
| DnsMessage.QuestionReadsExactly | llarp/dns/question.cpp:39-60 | any bytes are read as a question if and only if they start with a name and four bytes more |
| DnsMessage.HeaderReadsExactly | llarp/dns/message.cpp:421-432 | fewer than twelve bytes are refused; otherwise the first twelve are the header, field by field |
| DnsMessageCodec.PutHeader | llarp/dns/message.cpp:18-32 | the six numbers, or as many as fit |
| DnsMessageCodec.EncodeQuestionTo | llarp/dns/question.cpp:29-37 | name, type and class, or as much as fits |
| DnsMessageCodec.EncodeMessageTo | llarp/dns/message.cpp:89-112 | header and questions, stopping at the first refusal |
| DnsMessageCodec.DecodeQuestionFrom | llarp/dns/question.cpp:39-60 | the question or the way it fails, and the cursor, for every buffer |
| DnsMessageCodec.DecodeHeader | llarp/dns/message.cpp:34-50 | the six numbers or a refusal, and the cursor |
| DnsMessageCodec.MaybeParseMessage | llarp/dns/message.cpp:421-432 | header and as many questions as it announces or the way it fails, and the cursor, for every buffer |
| Base32z.AddressRoundTrip | contrib/hex-to-base32z.py:8-24 | every key of 256 bits has an address of 52 symbols ending in y or o, from which the decoder recovers the key |
| Base32z.HexRoundTrip | contrib/hex-to-base32z.py:8-39 | for every 64 hexadecimal digits, decoding the address gives back the number they spell |
| Base32z.CaseIsIgnored | contrib/hex-to-base32z.py:14-16 | upper-case digits spell the same number as lower-case ones |
| Base32z.KeyRoundTrip | contrib/hex-to-base32z.py:27-39 | every address is the address of the key it decodes to |
| Base32z.MnodeAddr | contrib/hex-to-base32z.py:8-24 | the streaming loop of four bits in and five bits out computes that address, for every hexadecimal key |
| Base32z.HexFromMnode | contrib/hex-to-base32z.py:27-39 | the decoder accepts exactly the addresses and returns the spelling of their key |
| Base32z.HexDigitsOfNumber | contrib/hex-to-base32z.py:39 | lower-case digits that do not start with a zero are the spelling of their number |
| Base32z.HexRoundTripExactly | contrib/hex-to-base32z.py:8-39 | decoding the address of 64 hexadecimal digits gives them back if and only if none is upper-case and the first is not a zero |
| RouterId.AcceptsExactly | llarp/router_id.cpp:29-45 | a text is accepted if and only if it is 52 base32z symbols ending in y or o and `.mnode`, wrapped length arithmetic included |
| RouterId.PrintedIsAccepted | llarp/router_id.cpp:29-45 | every printed address is accepted |
| Reachability.NoFailingNodeIsForgotten | llarp/consensus/reachability_testing.cpp:116-155 | after every run each failing node is queued or was handed out since it was last added |
| Reachability.RetestsAreConserved | llarp/consensus/reachability_testing.cpp:116-155 | every retest ever added is still queued or was taken off exactly once |
| Reachability.FourOrAllDue | llarp/consensus/reachability_testing.cpp:117-132 | a call hands out at most four retests, and fewer only if none that is due is left |
| Reachability.DroppedStaysOut | llarp/consensus/reachability_testing.cpp:117-155 | a node that is dropped is not handed out until it is added again |
| Reachability.HandedOutTwice | llarp/consensus/reachability_testing.cpp:135-155 | a node dropped and added again can be handed out twice in one call |
| ReachabilityOnce.HandsOutOnceExactly | llarp/consensus/reachability_testing.cpp:116-133 | in every state, every possible call hands out each node at most once if and only if no failing node has two due retests that both can be among the first four handed out |
| ReachabilityOnce.CarefulCallersGetEachOnce | llarp/consensus/reachability_testing.cpp:116-155 | over every run in which nodes are added only while none of their retests is queued, no call hands out a node twice |
| Reachability.Testing.GetFailing | llarp/consensus/reachability_testing.cpp:116-133 | at most four due retests of failing nodes in time order, fewer only if nothing due is left, and nothing taken that was later than something left |
| Reachability.Testing.AddFailingNode | llarp/consensus/reachability_testing.cpp:135-149 | the node fails, and one retest more is queued, with one failure more than before |
| Reachability.BackoffGrows | llarp/consensus/reachability_testing.cpp:141-145 | more failures never bring the next retest forward, and each adds ten seconds until the limit of two minutes |
| Reachability.Testing.RemoveNodeFromFailing | llarp/consensus/reachability_testing.cpp:151-155 | the node no longer fails; its queued retests stay |
| Reachability.DrawIsSound | llarp/consensus/reachability_testing.cpp:85-95 | a node is drawn exactly if one can be tested; it is the last such, and all skipped cannot |
| Reachability.DrawnCanBeTested | llarp/consensus/reachability_testing.cpp:85-95 | a node drawn is not us and not failing, and all skipped are |
| Reachability.TimerExactly | llarp/consensus/reachability_testing.cpp:74-114 | a call that is due sets the time of the next one, and a call before that time does nothing |
| Reachability.RefillDrawsExactly | llarp/consensus/reachability_testing.cpp:74-114 | a call that has to refill the list draws a node if and only if its random interval is not positive |
| Reachability.Testing.NextRandomNode | llarp/consensus/reachability_testing.cpp:74-114 | the list, the timer and the node drawn, in every case |

## Left out

- Sockets, event loop, VPN interfaces, logging, JSON status and platform code: input and output.
- Cryptographic strength: hash, HMAC, keystream, Diffie-Hellman and signatures are abstract functions with their algebra only; the packets of a run are those the peers send.
- IWP keepalives, CLOS, renegotiation of link introductions, traffic rates and the crypto worker queues; the delay of a packet includes the time it spends in those queues.
- IWP behaviour after `Close`, and callbacks that re-enter a session or a transaction table: callbacks are recorded events.
- IwpSession.Session.Pump: keepalives and the hand-over to the crypto workers are left out; the delay of a packet includes its time there.
- IwpSession.Session.SendMessageBuffer: messages above 8192 bytes, which its callers do not send, are outside the model.
- IwpStack.PacketsSurviveTheWire: message ids below 2^64, since the model's counters do not wrap around.
- IwpWire.PacketRoundTrip: plaintexts of at least two bytes, which is all that is sent; for a single byte, which the parser here refuses, the source reads the command byte beyond the end (llarp/iwp/session.cpp:684-685).
- IwpHandshake.HonestHandshake: the link introduction message itself and its encoding are not part of this model; its arrival is an input.
- DhtTxHolder.TXHolder.NewTX: an owner that is already pending must not be the first to ask for a key, since the source would then start a transaction it has deleted.
- DhtTxHolder.TXHolder.Inform: askers of a key are answered in the order they came; the source's `unordered_multimap` promises no order among them.
- The values that DHT transactions find are names only.
- `Bucket::GetRandomNodeExcluding` and `GetManyRandom`, introset lookups and exploratory lookups of the DHT.
- DhtLookup.LookupsTerminate: the records a hop replies with are not followed further.
- ExitAllocator.PoolStaysConsistent: identities are not the zero key; packet forwarding, traffic limits and the ticking of exits are left out.
- ExitEndpoint.Endpoint.AnswerReady: the references the hook's closure captures are taken to be alive.
- ConfigDefinition.Definition.AddConfigValue: values are strings; conversion to other types is left out.
- ConfigGenerate.GeneratedParsesExactly: for comments and defaults that stay comments; headers hidden behind line breaks in the comments of two sections can undo each other's effect, and such files are not characterised.
- DnsMessageCodec.MaybeParseMessage: resource records are left out; a message is followed up to its answers.
- RouterId.AcceptsExactly: the library's alphabet and its conversion to bytes are not part of this model.
- Base32z.MnodeAddr: digits are ASCII; Python's `int(x, 16)` takes other decimal digits of Unicode as well.
- Reachability.Testing.AddFailingNode: floating-point seconds are whole milliseconds.
