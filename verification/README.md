# A verified model of rale

rale is a C library for leader election (`librale/src/rale_proto.c`) with a replicated key-value
store beside it (`dstore.c`, `hash.c`, `dlog.c`, `tcp_server.c`) and a membership table
(`cluster.c`). This project models its six cores in Dafny and proves what they promise, for every
input and over every run. `dafny verify dfyconfig.toml` checks all of it.

Each core comes in two layers. Pure functions say what an operation computes, and the laws are
proved about them. Classes and loops carry the operation out in place, as the C code does, and are
proved to compute those functions.

- **Election** (`Election`, `NodeLaws`, `NodeAnswers`, `NodeTimers`, `RaleNode`, `RaleState`, `Wire`,
  `Protocol`, `ProtocolFailures`, `FairElection`, `Rollback`). A node's reactions, its `rale.state` file and its
  datagrams; then a cluster of nodes with a network that loses, duplicates, delays and reorders, and
  with crashes. Clock readings and random numbers are arguments. One vote per term holds over every
  run in which no peer's `LEADER` line rolls a file back behind its node (`FilesKept`), and
  write-ahead over every run without such lines. One leader per term needs, besides, that no
  candidacy counts a voter twice or an old grant (`FairCount`). The code ensures neither hypothesis:
  `ProtocolFailures` and `Rollback` show that without either one two members are enough for two
  leaders in one term, and snapshots do carry term 0. `FairElection` shows that fair runs do elect. `NodeTimers`
  decides when followers, candidates and leaders act, by the events that came before.
- **Framing and commands** (`Framing`, `Commands`, `LeaderLines`). The receive buffer, the path of a `PUT`,
  and that of leader lines down to the text of `rale.state`.
- **Hash table** (`HashTable`, `HashFile`, `HashStore`). Chains, their linked cells, and the dump.
- **Logs** (`Dlog`, `DlogStore`). Ten per-node logs that own duplicated strings.
- **Membership** (`Cluster`, `ClusterFile`, `ClusterStore`, `Propagation`, `Membership`). The table, its
  text file, and the exchange of snapshots over both kinds of connection. A node whose table is
  empty turns every propagated record away, so convergence is decided with that case.
- **Reconnecting** (`Reconnect`, `ReconnectStore`). One attempt per pass, with backoff.

`Text` holds the C library's text routines, `Limits` the shared sizes and `Options` an option type.

Where code and documentation disagree the model follows the code. `docs/ARCHITECTURE.md` (lines
101-105) promises at most one leader per term, which the code keeps under the two hypotheses
above only, and log replication that `dstore.c` does not perform; the error text of `cluster_add_node`
asks for names of less than 256 characters where 256 are accepted.

## Model

| member | source | states |
|---|---|---|
| NodeLaws.ReactionKeepsPromise | librale/src/rale_proto.c:303-441 | every reaction of a node to any message, timer pass, command or restart keeps the role invariant, never lowers the term and never changes a vote already given in a term, in memory or after a crash, unless a peer's `LEADER` line rolls the file back |
| NodeLaws.MessageKeepsPromise | librale/src/rale_proto.c:303-441 | the same for the message handler alone, message by message |
| NodeLaws.RepliesAreOk | librale/src/rale_proto.c:319-408 | every reply to a message is truthful: it carries the sender's own id and term, goes to where the message came from, and a grant is sent only for the vote that is in memory and on disk |
| NodeLaws.CampaignIsOk | librale/src/rale_proto.c:409-436 | an election timeout sends truthful vote requests, to the other members only |
| NodeLaws.DutiesAreOk | librale/src/rale_proto.c:581-610 | a processing pass sends truthful heartbeats or vote requests, to the other members only |
| NodeLaws.SentPackets | librale/src/rale_proto.c:303-474 | every packet sent on any event is truthful, and written ahead if the node was |
| NodeLaws.BroadcastPackets | librale/src/rale_proto.c:530-565 | a broadcast reaches exactly the members other than the sender, all with the same message and state |
| NodeLaws.ReactionStaysSynced | librale/src/rale_proto.c:303-441 | after every event other than a peer's `LEADER` line the file holds the term and vote that are in memory |
| NodeLaws.WriteAheadExactly | librale/src/rale_proto.c:319-384 | for every message, well-formed or not: all answers are sent with term and vote on disk, if and only if the message is not one of two malformed kinds (a heartbeat of a newer term with a negative leader, or a grantable vote request of a candidate below -1) |
| NodeLaws.OverwriteKeepsPromise | librale/src/dstore.c:113-175 | a peer's `LEADER` line keeps the promise on disk if and only if its term is not older than the node's |
| NodeLaws.RolledBackVoterVotesTwice | librale/src/dstore.c:1481-1500 | after a `LEADER` line and a restart a voter grants its term to a second candidate if and only if the line's term was older |
| NodeLaws.GateFollowsLeaderId | librale/src/dstore.c:1867-1932 | the data store's gate is open exactly when the node has voted and names itself leader, in particular whenever its role is leader |
| NodeLaws.SteppingDownLeavesGateOpen | librale/src/rale_proto.c:105-114 | a leader that steps down or restarts is a follower whose gate is still open |
| NodeLaws.ReactionIsLawful | librale/src/rale_proto.c:303-697 | all the laws of one step together: invariant, promises, truthful packets, written ahead |
| NodeAnswers.GrantedExactly | librale/src/rale_proto.c:319-358 | for every node in order and every request with a positive candidate: the asker gets the vote of the later term if and only if the request is not older, the node does not lead that term and the vote breaks no promise; a denial with the node's own term if and only if the request is older; else no answer and no change. The vote alters neither the known leader nor the log position |
| NodeAnswers.GrantedAgain | librale/src/rale_proto.c:340-357 | a granted request that is delivered again, at any later time, is granted again |
| NodeAnswers.HeartbeatFollowed | librale/src/rale_proto.c:359-384 | a heartbeat with a leader makes any node its follower in the later term, drops a vote of an older one, puts off its own candidacy by one to two timeouts and is acknowledged once |
| NodeAnswers.BareHeartbeatHeard | librale/src/rale_proto.c:359-384 | a bare heartbeat or an acknowledgement changes neither role nor term, vote, leader or tally, and is acknowledged too |
| NodeAnswers.GrantElectsExactly | librale/src/rale_proto.c:385-408 | a grant makes a node leader if and only if it is a candidate, the grant is of no later term and the votes are then a strict majority; it moves no other node and is not answered |
| NodeAnswers.LeaderLineRewrites | librale/src/dstore.c:113-175 | an accepted leader line changes term and leader of a sound file and nothing else, in the file or in memory |
| NodeAnswers.LeaderLineCreates | librale/src/dstore.c:113-175 | without a file it makes one that holds no vote |
| NodeAnswers.LeaderLineIgnored | librale/src/dstore.c:1429-1500 | without members or with a negative number it has no effect |
| NodeAnswers.WinnerIsOnFile | librale/src/rale_proto.c:88-103 | whoever wins is on file as leader of its term, with its own vote, so its write gate is open |
| NodeTimers.HeartbeatHoldsOff | librale/src/rale_proto.c:359-384 | over every event sequence after a heartbeat at time `t`: the node follows in the newest term it is told of and asks for no vote as long as no tick finds its last contact more than a timeout ago; a further tick does nothing up to a timeout after the last contact, and the first later one campaigns in the next term |
| NodeTimers.RestartHoldsOff | librale/src/rale_proto.c:605-609 | the same from a restart, whatever the file holds |
| NodeTimers.DefaultTimeout | librale/src/rale_proto.c:48-53 | with no timeout configured the wait is five seconds |
| NodeTimers.TriggeredElection | librale/src/rale_proto.c:676-684 | a triggered election changes neither role nor record, and the follower's next tick past the first timeout of the epoch campaigns |
| NodeTimers.TriggeredCandidate | librale/src/rale_proto.c:676-684 | a candidate told to elect starts over at its first tick after the command |
| NodeTimers.SteppedDown | librale/src/rale_proto.c:685-691 | stepping down makes any node a follower of the same term and vote, and its wait goes on from its last heartbeat |
| NodeTimers.NextTimeout | librale/src/rale_proto.c:409-436 | an `ELECTION_TIMEOUT` datagram makes a follower campaign if and only if its last contact is longer ago than the configured value, even where that is zero |
| NodeTimers.LeaderIsStable | librale/src/rale_proto.c:359-384 | leader stability: as long as heartbeats reach a follower at most a timeout apart, it never asks for a vote and follows in the newest term, whatever other datagrams than `ELECTION_TIMEOUT` come |
| NodeTimers.LeaderBeats | librale/src/rale_proto.c:581-588 | a node that wins an election, as long as nothing ends its lead: its rounds of heartbeats go to every other member, any two are at least an interval apart, and after every tick the last one is less than an interval ago |
| NodeTimers.FirstTickBeats | librale/src/rale_proto.c:88-103 | its first tick is a round |
| NodeTimers.RoundsAreSpaced | librale/src/rale_proto.c:530-544 | no interval holds two rounds |
| NodeTimers.RoundsAreRecent | librale/src/rale_proto.c:581-588 | of two ticks an interval apart the later one lies at or after a round |
| NodeTimers.RoundsAreFrequent | librale/src/rale_proto.c:581-588 | a leader that ticks at least every `g` seconds lets less than an interval and `g` pass between rounds |
| NodeTimers.DefaultInterval | librale/src/rale_proto.c:55-60 | with no interval configured rounds are a second apart |
| NodeTimers.CandidateRetries | librale/src/rale_proto.c:590-601 | over every event sequence after a campaign at time `t`: the candidate asks everybody again at exactly the ticks a second or more after the last time, and starts over in the next term at the first tick past its deadline, one to two timeouts after `t` |
| NodeTimers.TimeoutRetries | librale/src/rale_proto.c:409-436 | the same after a campaign by datagram, where the very next tick asks again |
| NodeTimers.TickDoesDuty | librale/src/rale_proto.c:581-610 | one pass by role: a leader's round exactly when due, a follower's campaign exactly when its wait is over, a candidate's next term exactly past its deadline |
| Quorums.MajoritiesMeet | librale/src/rale_proto.c:402-406 | two majorities of one membership share a member |
| Protocol.StepKeepsInv | librale/src/rale_proto.c:303-633 | one step of any node against any network keeps the global invariant: nodes, packets in flight, vote history and tallies agree |
| Protocol.RunKeepsInv | librale/src/rale_proto.c:303-633 | so does every run, and every node honours at its end what it had promised at its start |
| Protocol.StepKeepsVotes | librale/src/rale_proto.c:319-358 | no step adds a second vote of one voter in one term to the history |
| Protocol.StepKeepsHeard | librale/src/rale_proto.c:385-408 | whoever a node has heard a grant from in its term did vote for it |
| Protocol.TallyExactIffFair | librale/src/rale_proto.c:385-408 | counting a grant leaves the bare counter equal to the number of distinct voters heard if and only if the grant is of this term and from a new voter |
| Protocol.RunKeepsTally | librale/src/rale_proto.c:385-408 | with fair counting every leader of every run has a majority of distinct voters |
| Protocol.OneVotePerTerm | librale/src/rale_proto.c:319-384 | over every run with crashes, restarts, loss, duplication and reordering no node votes for two candidates in one term, self-votes included, and no two grants of one voter and term go to different candidates |
| Protocol.PromisesLast | librale/src/rale_proto.c:243-301 | between any two moments of a run a node's term never decreases and its vote of a term never changes |
| Protocol.KeyedMajorityIsUnique | librale/src/rale_proto.c:385-408 | without any hypothesis on counting: two leaders of one term that both had a majority of distinct voters are the same node |
| Protocol.ElectionSafety | librale/src/rale_proto.c:385-408 | with fair counting no two nodes are ever leader in the same term, over every run |
| Protocol.NothingIsSentUnsaved | librale/src/rale_proto.c:340-383 | over every run without `LEADER` lines every packet was sent with its term and vote on disk, and every node is in step with its file |
| Protocol.RolesAndGate | librale/src/rale_proto.c:88-114 | in every reachable state `election_active` holds exactly for candidates, candidates and leaders voted for themselves, and a leader's gate is open |
| ProtocolFailures.LoneNodeNeverLeads | librale/src/rale_proto.c:385-408 | a cluster of one node never elects anyone, in no run |
| ProtocolFailures.UnsafeIffPlural | librale/src/rale_proto.c:385-408 | without the counting hypothesis some run of ticks and deliveries has two leaders in one term if and only if there are two members or more, and some such run elects somebody under the same condition |
| FairElection.FairRunElectsIffPlural | librale/src/rale_proto.c:385-408 | some run of ticks and deliveries counts fairly and elects a leader if and only if there are two members or more, so election safety speaks of real elections |
| FairElection.GrantsUntilLeader | librale/src/rale_proto.c:319-408 | one campaign and the grants of distinct members, counted one by one, end with a leader |
| Rollback.RollbackUnsafeIffPlural | librale/src/dstore.c:1481-1500 | without the hypothesis on files, and with every count fair, some run has two different nodes reign in one term if and only if there are two members or more |
| Rollback.RolledNode | librale/src/dstore.c:944-953 | a leader line of term 0, as every snapshot carries it, and a restart put any node back into term 0 |
| RaleNode.RaleProto.constructor | librale/src/rale_proto.c:116-163 | a booted node is what the recovery function makes of its file |
| RaleNode.RaleProto.StateLoad | librale/src/rale_proto.c:243-301 | loading replaces each field by the file's when that is not negative, and nothing without a file |
| RaleNode.RaleProto.BecomeLeader | librale/src/rale_proto.c:88-103 | refines the value-level step to leader, the notification's rewrite of the file included |
| RaleNode.RaleProto.BecomeFollower | librale/src/rale_proto.c:105-114 | refines the value-level step down |
| RaleNode.RaleProto.SendToOthers | librale/src/rale_proto.c:530-565 | the sending loop produces the broadcast of the value-level model |
| RaleNode.RaleProto.SendHeartbeat | librale/src/rale_proto.c:530-544 | a heartbeat round sends this term's heartbeat to all others and sets the next round |
| RaleNode.RaleProto.RequestVotes | librale/src/rale_proto.c:551-565 | a vote round sends this term's request to all others and sets the next round |
| RaleNode.RaleProto.BecomeCandidate | librale/src/rale_proto.c:567-578 | raises the term, votes for itself and saves before anything is sent |
| RaleNode.RaleProto.StartElection | librale/src/rale_proto.c:567-579 | refines the value-level start of an election, state and packets |
| RaleNode.RaleProto.HandleVoteRequest | librale/src/rale_proto.c:319-358 | refines the value-level vote request handler, state and packets; on a node in order and a positive candidate a vote goes out exactly when the node may give it, a denial exactly when the request is older, and nothing else |
| RaleNode.RaleProto.HandleHeartbeat | librale/src/rale_proto.c:359-384 | refines the value-level heartbeat handler, state and packets; with a leader the node follows it in the later term and its wait begins at this moment (`NodeTimers.HeartbeatHoldsOff`) |
| RaleNode.RaleProto.HandleVoteGranted | librale/src/rale_proto.c:385-408 | refines the value-level grant handler |
| RaleNode.RaleProto.HandleElectionTimeout | librale/src/rale_proto.c:409-436 | refines the value-level timeout handler, state and packets |
| RaleNode.RaleProto.HandleMessage | librale/src/rale_proto.c:303-441 | refines the value-level dispatch; on a node in order, any well-formed message leaves the invariant, breaks no promise, and every packet it sends is truthful and, if the node was in step with its file, written ahead |
| RaleNode.RaleProto.Duties | librale/src/rale_proto.c:581-610 | refines one pass of the duties by role, with the same laws: invariant, promises, truthful and written-ahead packets; a leader sends its round exactly when due, a follower campaigns exactly when its wait is over, a candidate goes on exactly past its deadline |
| RaleNode.RaleProto.Dispatch | librale/src/rale_proto.c:303-441 | each kind of message reaches its handler, state and packets |
| RaleNode.RaleProto.DutiesByRole | librale/src/rale_proto.c:581-610 | the branches by role: state and packets, and who is sent what |
| RaleNode.RaleProto.ProcessTriggerElection | librale/src/rale_proto.c:676-684 | the admin command refines the value-level trigger (`NodeTimers.TriggeredElection`) |
| RaleNode.RaleProto.ProcessStepDown | librale/src/rale_proto.c:664-697 | the admin command steps down without breaking a promise, and leaves the gate of a former leader open |
| RaleNode.RaleProto.ProcessLeaderLine | librale/src/dstore.c:1481-1500 | a peer's `LEADER` line changes the file only; the stored promise is kept if and only if its term is not older, and then the invariant is too; the text of the file becomes what the line handler makes of `LEADER term leader` |
| RaleState.BothReadersAgree | librale/src/rale_proto.c:279-296 | the `fscanf` reader and the `strtok`/`atoi` reader recover the same five fields from what saving prints, for all 32-bit fields |
| RaleState.FileRefinesRecord | librale/src/dstore.c:113-175 | load, leader look-up and leader rewrite on the text are the value-level functions on the record, so the rewrite changes term and leader only |
| RaleState.ShowLength | librale/src/rale_proto.c:223-228 | a printed state has at most 60 bytes, so no buffer cuts it |
| RaleState.PartialFile | librale/src/dstore.c:1867-1932 | a file with fewer than five words names no leader, and one with fewer than five numbers is loaded as if there were none |
| Wire.WireIsFaithful | librale/src/rale_proto.c:303-441 | printing a message and parsing it has the same effect on every node as the message itself |
| Wire.ParseAck | librale/src/rale_proto.c:359-384 | an acknowledgement is parsed as a bare heartbeat, because the test is on a prefix |
| Wire.ParseShort | librale/src/rale_proto.c:319-400 | a message with one number lacks its term, and one with none has the handler's defaults |
| Wire.ParseTimeout | librale/src/rale_proto.c:409 | fifteen letters make an election timeout, whatever follows |
| Framing.FramingIsExact | librale/src/tcp_server.c:321-365 | for every byte stream and every split into reads: the lines delivered are the non-empty lines in order and the buffer holds the tail, if and only if every terminated line is NUL-free and at most 1023 bytes and the tail fits the buffer |
| Framing.FrameableStreams | librale/src/tcp_server.c:321-365 | the same from any pending text, one direction |
| Framing.NoOverflow | librale/src/tcp_server.c:327-335 | on such streams the overflow reset never fires |
| Framing.DeliveredLinesFit | librale/src/tcp_server.c:327-365 | on every stream every delivered line fits its buffer and the receive buffer never overflows |
| Framing.ReusedSlot | librale/src/tcp_server.c:54-55 | a connection that reuses a slot: it gets its own lines only if its own stream is frameable; when its first read overflows the buffer, exactly then; when pending bytes and stream together are frameable, if and only if there were no pending bytes; the remaining case, a first read that fits with a whole that is not frameable, has the one direction only |
| Framing.LeftOverGoesUnnoticed | librale/src/tcp_server.c:338-358 | one byte left behind before a line of 1023 times the same byte is swallowed, and the stream is framed as if nothing had been there |
| Framing.MessagesArrive | librale/src/tcp_server.c:321-365 | newline-terminated messages are delivered whole and in order, whatever the reads |
| Framing.UnterminatedIsLost | librale/src/tcp_client.c:128-149 | a stream without a newline, as the client side sends its messages, delivers nothing, however long it is |
| Framing.LongLinesBreak | librale/src/tcp_server.c:338-358 | every terminated line is delivered in pieces of 1023 bytes with the byte after each lost, before whatever the rest delivers |
| Framing.SplitAppend | librale/src/tcp_server.c:321-365 | splitting a stream in two reads and resuming from the tail is splitting it at once |
| Framing.FrameBuffer.Receive | librale/src/tcp_server.c:321-365 | one read refines the value-level step: appended or reset, then drained |
| Framing.FrameBuffer.DeliverLines | librale/src/tcp_server.c:337-365 | the loop delivers exactly what draining delivers and leaves its tail |
| Framing.FrameBuffer.DeliverLine | librale/src/tcp_server.c:338-364 | one round keeps the final outcome and shortens the buffer |
| Framing.FrameBuffer.Newline | librale/src/tcp_server.c:338-340 | finds the first newline before any NUL |
| Framing.FrameBuffer.Append | librale/src/tcp_server.c:333-335 | the copy loop appends the read |
| Framing.FrameBuffer.Shift | librale/src/tcp_server.c:348-358 | the move loop drops a prefix |
| Commands.PutRoundTrip | librale/src/dstore.c:1292-1315 | a printed `PUT` plus a newline, through the framer in any chunking, arrives as exactly that key and value if and only if the receiver's membership table is not empty, the key has 1 to 254 bytes without `=`, neither has a newline or NUL, and together they have at most 1018 bytes |
| Commands.PutIsDispatched | librale/src/dstore.c:1555-1605 | a line starting with `PUT ` reaches the pair parser and nothing else, or is turned away when the membership table is empty |
| Commands.ParsedPair | librale/src/dstore.c:1555-1605 | the pair parser inverts `key=value`, values with `=` included, within the size limits and rejects the rest |
| Commands.PutLines | librale/src/dstore.c:479-604 | whatever is dispatched as a put was a line `PUT key=value` |
| Commands.ForwardedPutIsRejected | librale/src/dstore.c:1502-1561 | every forwarded put falls through to a rejection, whatever the membership table |
| Commands.PrintsExactly | librale/src/dstore.c:1292-1315 | a replication message is printed whole if and only if key and value have at most 1283 bytes together |
| LeaderLines.LeaderLineArrives | librale/src/dstore.c:1481-1500 | a printed `LEADER` line of any two 32-bit numbers, in any reads, is received as that term and leader if and only if the receiver knows any member and neither is negative; else it is rejected |
| LeaderLines.ElectedLineArrives | librale/src/dstore.c:1436-1478 | the same for `LEADER_ELECTED` |
| LeaderLines.LeaderLineReachesFile | librale/src/dstore.c:1481-1500 | from the bytes to the file: the text of `rale.state` after the line is the text of the node's reaction to it |
| LeaderLines.LeaderLineRewritesText | librale/src/dstore.c:113-175 | on a sound file that is the old record with the line's term and leader, or the old text if the line is rejected |
| LeaderLines.LeaderLineText | librale/src/dstore.c:1481-1500 | the line handler on the text refines the node's reaction on the record |
| LeaderLines.WinnerWritesItsLine | librale/src/rale_proto.c:94-101 | the line a winner hands to its own data store leaves the text that becoming leader leaves on the record |
| LeaderLines.KeyCommandRoundTrip | librale/src/dstore.c:532-595 | a `GET`, `DELETE` or `FORWARD_DELETE` of any key, in any reads, is received as that one command if and only if the key has no newline or NUL and the line at most 1023 bytes |
| LeaderLines.KeyLineIsUnique | librale/src/dstore.c:532-595 | no other line is taken for it |
| LeaderLines.HelloArrives | librale/src/dstore.c:507-530 | a greeting with any 32-bit number introduces that node, and with a negative one nobody |
| HashTable.Hash | librale/src/hash.c:58-69 | the wrapping loop computes the bucket of the last two characters, signed |
| HashTable.HashFunc | librale/src/hash.c:44-55 | the wrapping loop computes `5381 * (1 + 32n)` plus the sum of `k[i] * (1 + 32(n - 1 - i))`, modulo 1024 |
| HashTable.PutBucketStep | librale/src/hash.c:58-69 | one round of `hash`, with 32-bit wrap-around, follows the closed form |
| HashTable.GetBucketStep | librale/src/hash.c:44-55 | one round of `hash_func`, with 32-bit wrap-around, follows the closed form |
| HashTable.PutRefines | librale/src/hash.c:99-150 | a put refines a map update, or nothing when key or value is too long, with every key once and in its bucket |
| HashTable.StoredExactly | librale/src/hash.c:99-150 | after a put the pair is there if and only if it was before or the key has at most 254 bytes, the value at most 1023, and neither a NUL |
| HashTable.PutKeepsOrder | librale/src/hash.c:115-147 | a stored key keeps its place in the chain and a new one goes to the front |
| HashTable.DeleteRefines | librale/src/hash.c:188-232 | a delete refines the removal of one key |
| HashTable.TableRefinesMap | librale/src/hash.c:99-232 | after any puts and deletes the table is the abstract map, and a get returns the map's value exactly for stored keys on which the two hash functions agree |
| HashTable.GetFinds | librale/src/hash.c:152-186 | a get in any table that represents a map |
| HashTable.GetAfterPut | librale/src/hash.c:152-186 | a value just put is found if and only if the two hash functions agree on its key |
| HashTable.ShortKeysAreLost | librale/src/hash.c:44-69 | the empty key and every one-character key can be stored and is never found |
| HashFile.ReadSaved | librale/src/hash.c:276-390 | the reader inverts the length-prefixed writer for every table |
| HashFile.NegativeCount | librale/src/hash.c:359-375 | a file whose count has its top bit set is a valid file without pairs |
| HashFile.ReloadReverses | librale/src/hash.c:338-390 | save and load into an empty table keeps the map and reverses every chain |
| HashFile.TwoReloadsAreIdentity | librale/src/hash.c:276-390 | two save and load rounds give the identical table |
| HashFile.Int32RoundTrip | librale/src/hash.c:276-336 | a length written as four bytes is read back |
| HashStore.Store.constructor | librale/src/hash.c:71-97 | an empty table |
| HashStore.Store.Find | librale/src/hash.c:99-232 | the chain walk finds the first entry of a key and its predecessor |
| HashStore.Store.Put | librale/src/hash.c:99-150 | relinking in place refines the value-level put; refused for a key or value too long, or a new key without memory |
| HashStore.Store.Get | librale/src/hash.c:152-186 | the walk refines the value-level get |
| HashStore.Store.Delete | librale/src/hash.c:188-232 | unlinking in place refines the value-level delete, says whether the key was there, and frees the cell of that key and no other |
| HashStore.Store.Unlink | librale/src/hash.c:205-232 | takes one entry out of its chain and frees exactly its cell |
| HashStore.Store.Bypass | librale/src/hash.c:212-220 | a later entry: its predecessor is linked past it and the cell freed |
| HashStore.Store.Pop | librale/src/hash.c:212-220 | the first entry: the head moves on and the cell is freed |
| HashStore.Store.Destroy | librale/src/hash.c:234-274 | frees every cell of every chain: nothing stays allocated |
| HashStore.Store.FreeChain | librale/src/hash.c:250-263 | the loop over one chain frees its cells first to last and clears the head |
| HashStore.Store.PushFront | librale/src/hash.c:134-147 | a new entry goes to the front of its chain |
| HashStore.Store.SetValue | librale/src/hash.c:125-133 | an existing entry gets a new value, in place |
| HashStore.Store.Save | librale/src/hash.c:276-336 | the two loops write the count and all pairs, bucket by bucket |
| HashStore.Store.Load | librale/src/hash.c:338-390 | refuses a missing file or one too short for its count, leaving the table; otherwise puts the pairs of the file in order |
| HashStore.Store.LoadRecords | librale/src/hash.c:373-382 | the loop over the records follows the trace of loading the parsed pairs to its end |
| HashStore.HeldOnce | librale/src/hash.c:99-274 | no leak and no sharing: every allocated cell is at exactly one place of exactly one chain |
| HashStore.Relink | librale/src/hash.c:99-232 | changing the links of one chain keeps all 1024 chains linked and every cell held |
| Dlog.ApplyLaws | librale/src/dlog.c:47-159 | a call keeps ids distinct and slots permanent, and changes the log of its own id only |
| Dlog.AppendedExactly | librale/src/dlog.c:123-159 | an entry is appended if and only if it has a text, its log has at most 4095 entries and its id has one of ten slots or there is one left |
| Dlog.LogIsHistory | librale/src/dlog.c:123-247 | over every run the retained log of every id is everything ever appended for it minus a compacted prefix |
| Dlog.RetainedIsHistory | librale/src/dlog.c:123-247 | the same from any state |
| Dlog.CompactTwice | librale/src/dlog.c:208-247 | compacting by `a` and then by `b` is compacting by `a + b`, clamping included |
| Dlog.GetAfterPut | librale/src/dlog.c:166-201 | what is put is what is got if and only if slot 0 is free or belongs to node id 0 |
| DlogStore.LogTable.constructor | librale/src/dlog.c:75-96 | an empty table, nothing allocated |
| DlogStore.LogTable.GetNodeIndex | librale/src/dlog.c:47-73 | finds or claims the slot of an id, and -1 exactly when all are taken by others |
| DlogStore.LogTable.AppendEntry | librale/src/dlog.c:123-159 | refines the value-level append, a failing duplication included, with every string owned once |
| DlogStore.LogTable.CompactEntries | librale/src/dlog.c:208-247 | refines the value-level compaction; every dropped string is freed once, no other is |
| DlogStore.LogTable.FreePrefix | librale/src/dlog.c:228-234 | frees exactly the strings of the first entries, each of them still allocated |
| DlogStore.LogTable.ShiftDown | librale/src/dlog.c:235-240 | moves the rest down and leaves stale copies |
| DlogStore.LogTable.FinishAll | librale/src/dlog.c:98-121 | frees everything: nothing stays allocated |
| DlogStore.FreeStep | librale/src/dlog.c:228-234 | the next entry to free is allocated and held by no other entry, whatever stale copies there are |
| DlogStore.CoherentDrop | librale/src/dlog.c:208-247 | compaction keeps the ownership invariant of all ten slots |
| DlogStore.CoherentAppend | librale/src/dlog.c:123-159 | appending keeps the ownership invariant of all ten slots |
| DlogStore.HeldOnce | librale/src/dlog.c:98-247 | every allocated string is held by exactly one entry below its slot's count |
| DlogStore.NoLeak | librale/src/dlog.c:98-121 | nothing is allocated for a log that is empty |
| Cluster.RunKeepsOk | librale/src/cluster.c:83-227 | every table reached by adding and removing has distinct ids, at most ten nodes and only accepted records |
| Cluster.AddLaws | librale/src/cluster.c:83-177 | adding changes the record of its own id only, from absent to present, and nothing when it is refused |
| Cluster.AddedExactly | librale/src/cluster.c:83-177 | a record is added, at the end, if and only if its id is 1 to 1000 and new, its name has 1 to 256 bytes, its ip 1 to 46, both ports are positive and there are at most nine nodes; only a name is cut, after 254 bytes |
| Cluster.RemoveLaws | librale/src/cluster.c:179-227 | removing takes out the record of its own id only |
| Cluster.RemoveCuts | librale/src/cluster.c:205-220 | the nodes after a removed one move up and nothing else changes place |
| Cluster.RemoveUndoesAdd | librale/src/cluster.c:179-227 | removing a node just added restores the table in order |
| ClusterFile.RoundTripExactly | librale/src/cluster.c:323-471 | for every reachable table: load after save restores self id, count and every record in order, if and only if every record survives, a condition on its text and on the record before it |
| ClusterFile.RoundTripOfPlain | librale/src/cluster.c:323-471 | newline-free names of at most 241 bytes and newline-free ips always come back; with ips of three bytes and more nothing else does |
| ClusterFile.LongNameIsLost | librale/src/cluster.c:354-355 | a name of 242 bytes does not come back |
| ClusterFile.LoadsLongName | librale/src/cluster.c:354-357 | a longer name loses its newline and is read together with the ip line, as one name or not at all |
| ClusterFile.LoadsSaved | librale/src/cluster.c:369-471 | what the carried-over variables make of every newline-free table |
| ClusterFile.LoadsClean | librale/src/cluster.c:399-467 | nothing loaded from any file contains a newline |
| ClusterFile.KeyShape | librale/src/cluster.c:427-453 | the chain of substring tests sends every printed key to its own field |
| ClusterStore.ClusterTable.constructor | librale/src/cluster.c:39-60 | an empty table |
| ClusterStore.ClusterTable.IndexOf | librale/src/cluster.c:137-146 | the search loop finds the first slot of an id |
| ClusterStore.ClusterTable.AddNode | librale/src/cluster.c:83-177 | refines the value-level add, null arguments and refusals included, and saves exactly when it succeeds |
| ClusterStore.ClusterTable.RemoveNode | librale/src/cluster.c:179-227 | refines the value-level remove and saves exactly when it succeeds |
| ClusterStore.ClusterTable.ShiftDown | librale/src/cluster.c:213-218 | the shifting loop closes the gap |
| ClusterStore.ClusterTable.SetSelfId | librale/src/cluster.c:308-321 | accepts 1 to 1000 and saves |
| ClusterStore.ClusterTable.SaveState | librale/src/cluster.c:323-367 | the printing loop writes the saved form |
| ClusterStore.ClusterTable.LoadState | librale/src/cluster.c:369-471 | the line loop with its carried-over variables computes the value-level load of any file |
| ClusterStore.ClusterTable.Restart | librale/src/cluster.c:39-60 | a restart from the saved file gives the same table if and only if every record survives, and then the invariant holds again |
| Propagation.WireIsExact | librale/src/dstore.c:930-936 | to a server: a printed record and a newline, in any reads, reach the handler as the one command that adds this record, if and only if the receiver's table is not empty and name and ip are free of spaces, newlines and NULs and at most 63 and 15 bytes long |
| Propagation.CommandIsCut | librale/src/dstore.c:930-936 | a command of up to 255 bytes is sent whole, of a longer one the first 255 |
| Propagation.ClientWireIsExact | librale/src/dstore.c:606-637 | to a client: the same condition, when the line comes in one read |
| Propagation.AddIsDispatched | librale/src/dstore.c:1541-1546 | with a table that is not empty both dispatchers hand exactly the lines with the `PROPAGATE_ADD ` prefix to the handler, with an empty one none |
| Propagation.SentIsReceived | librale/src/dstore.c:2196-2220 | a sendable record is printed whole and its five tokens parse back to it |
| Propagation.ReceivedIsSendable | librale/src/dstore.c:2206-2220 | whatever arrives as a line can be sent on unchanged |
| Propagation.ServerLinesAreSound | librale/src/dstore.c:492-496 | no line of the server side has a newline or NUL, whatever was sent |
| Propagation.ClientLinesAreSound | librale/src/dstore.c:619-623 | nor has any line of the client side, whatever its reads |
| Propagation.AlignedMessagesArrive | librale/src/dstore.c:606-637 | a client that gets whole messages in every read delivers them all in order |
| Membership.ReceiversStaySendable | librale/src/dstore.c:2196-2247 | a table filled by propagation keeps the invariant and can itself be propagated |
| Membership.EmptyLearnsNothing | librale/src/dstore.c:1429-1433 | a node with an empty table learns nothing from any connections: the node that joins is the one the snapshot cannot teach |
| Membership.HandleIsDispatched | librale/src/dstore.c:1429-1546 | what a line does to the table is what the dispatchers of both sides hand to the handler |
| Membership.BroughtIsHeard | librale/src/dstore.c:479-637 | newline-terminated traffic, to a server in any reads or to a client in whole messages, is heard as it is |
| Membership.SnapshotIsTraffic | librale/src/dstore.c:1795-1821 | the printed snapshot is traffic whose entries are the table |
| Membership.DeliveredIsUnion | librale/src/dstore.c:2196-2247 | with agreeing sendable records and at most ten ids, after any connections, reads, orders and repetitions, with any other lines between, a table that was not empty holds exactly what it held and what they brought, and an empty one is still empty |
| Membership.Convergence | librale/src/dstore.c:1795-1821 | nodes that have seen the same records, by any connections, hold the same record for every id if and only if both started with an empty table or neither did |
| Membership.ExchangeAgrees | librale/src/dstore.c:916-943 | two nodes that have received each other's snapshot hold the same membership, unless exactly one of them started empty |
| Membership.AllArriveExactly | librale/src/cluster.c:148-154 | once everything has been brought all nodes are there if and only if there are none, or the table was not empty and there are at most ten |
| Membership.FirstWins | librale/src/cluster.c:137-146 | with room for every id known or mentioned, the record known first stays, however often others come |
| Membership.OrderMattersExactly | librale/src/cluster.c:137-146 | without agreement, and with at most ten ids on each side, two histories of connections give the same membership if and only if the table was empty or they first mention every new id with the same record |
| Membership.SendSnapshot | librale/src/dstore.c:1795-1821 | the sending loop prints the whole table |
| Membership.ReceiveLine | librale/src/dstore.c:1414-1546 | the guard on an empty table and the prefix test refine the value-level step |
| Membership.HandlePropagatedAdd | librale/src/dstore.c:2196-2247 | the handler refines parsing and adding, and succeeds exactly when the table grew |
| Reconnect.AttemptsAreSpaced | librale/src/dstore.c:838-908 | over every run, with any clock, two attempts on one slot are at least 5 seconds apart, 10 after more than five failures since the last success and 20 after more than ten |
| Reconnect.RateBound | librale/src/dstore.c:866-882 | a window of `w` seconds holds at most `w / 5 + 1` attempts on one slot |
| Reconnect.RetryBound | librale/src/dstore.c:866-882 | after more than five failures in a row a slot is attempted at most `w / 10 + 1` times in `w` seconds until it succeeds, and after more than ten at most `w / 20 + 1` times |
| Reconnect.ScanStopsFirst | librale/src/dstore.c:838-908 | a pass stops at the first eligible slot and at none if there is none, with the waits of 5, 10 and 20 seconds |
| Reconnect.ScanLeaves | librale/src/dstore.c:838-908 | what every slot holds after a pass: made, read from, connected or failed, or untouched behind the stop |
| Reconnect.PollReads | librale/src/dstore.c:818-834 | between passes exactly the connected peers are read from |
| Reconnect.StepLaws | librale/src/dstore.c:838-908 | a tick makes at most one attempt, on a slot that is due, and changes no other slot's records |
| Reconnect.NoStarvation | librale/src/dstore.c:818-908 | a slot that has a client without a connection, was last attempted 5, 10 or 20 seconds ago by its failures, and has `k` peers before it waits for at most `k * (w / 5 + 1)` passes in `w` seconds |
| Reconnect.NoStarvationWithinFive | librale/src/dstore.c:818-908 | any `k + 1` passes within less than five seconds include an attempt on it |
| Reconnect.FlappingPeerStarves | librale/src/dstore.c:880-907 | beyond five seconds the bound is reached: for every `n` some run from the start lets a peer that connects and loses its client starve the next, ready slot for `n` passes |
| Reconnect.EveryPassIsSpent | librale/src/dstore.c:838-908 | while a ready slot waits every pass makes an attempt on a slot before it |
| Reconnect.SpacedCount | librale/src/dstore.c:866-882 | spaced attempts in a window, counted |
| ReconnectStore.Scheduler.constructor | librale/src/dstore.c:230-245 | nothing attempted, no client |
| ReconnectStore.Scheduler.ClientTick | librale/src/dstore.c:791-911 | refines the tick: the gate, the skipped first run, polling, or a pass |
| ReconnectStore.Scheduler.ScanSlots | librale/src/dstore.c:838-908 | the loop with its break refines the pass |
| ReconnectStore.Scheduler.Visit | librale/src/dstore.c:841-908 | one slot: the pass stops there if and only if it is a peer whose client is there or can be made, has no connection, and was last attempted 5, 10 or 20 seconds ago or longer by its failures; else it is made or read from |
| ReconnectStore.Scheduler.Open | librale/src/dstore.c:880-904 | an attempt stamps the slot and counts or resets its failures |
| ReconnectStore.Scheduler.PollPeers | librale/src/dstore.c:821-834 | connected peers are read from between passes |

## Left out

- Sockets, `select`, UDP and TCP calls: messages, reads and connection outcomes are arguments. `tcp_server_send` ends a message with a newline and `tcp_client_send` does not; that a message reaches the framer with one is a hypothesis of `Commands.PutRoundTrip` and of the server side of `Membership.Brings`, and `Framing.UnterminatedIsLost` says what happens without it. A client that reads part of a line takes it for a line; `Membership.Brings` asks for reads that end with messages. The reply address of a datagram is taken to be its sender's.
- Threads and mutexes: every operation is one step. `hash_load` calls `hash_put` with the table's mutex held; the model puts without it.
- Null arguments of the hash functions.
- Running out of memory while a dump is loaded.
- File errors and partial writes: a save is atomic and succeeds.
- Clocks: one call reads one time; `time(NULL)` read twice in a handler gives the same value.
- 32-bit overflow of terms, vote counters and attempt counters; `atoi` and `fscanf` on numbers beyond `int`.
- Replication, commit and linearizability: there is no quorum commit, forwarded puts are rejected, and a follower sends a replicated put back to the leader.
- Propagated removal lines, and the connection arrays that are not shifted when a node is removed: the scheduler is given the members of each tick.
- Disconnection callbacks of the server, which call each other before the slot is cleared.
- Both modules are taken to use one `rale.state` path.
- The membership of an election run is fixed and the same on all nodes; changing it during an election is not modelled.
- `char` is taken to be signed, as on x86, where the hash functions read it.
- Framing.ReusedSlot: when the first read fits and pending bytes and stream together are not frameable only one direction is stated, because there coincidences decide: see `Framing.LeftOverGoesUnnoticed`.
- HashStore.Store.Load: requires complete records after the count, because on a cut or malformed one the C code uses what it did not read.
- HashFile.ReadSaved: requires fewer than 2^31 pairs, because the count is written as an `int`.
- DlogStore.LogTable.CompactEntries: takes a non-negative index, because a negative one makes the C code index out of bounds.
- Dlog.GetAfterPut: the copy of `dlog_get` into the caller's buffer, which may cut the value, is not modelled.
- `dlog_init` on a table in use, and the unused commit index.
- Fields of a node record that are neither saved nor propagated: priority, state, status, log position, last heartbeat.
- The initialised flags and error reports of every module.
- `dstore_client_tick` counts on clients changing only through what it reads itself and through losses between ticks.
- `db.c`, `librale.c`, `node.c`: wrappers that pass their arguments to the hash table, the cluster table and the data store.
- `watchdog.c`, `shutdown.c`, `system_detect.c`: a watchdog device, a flag and host detection; `validation.c`, `util.c`, `rale_error.c`: range checks, memory helpers and error records.
- `usock.c`, `log.c`, `librale_public_wrappers.c`: not in the build.
- `raled` and `ralectrl`: the daemon's loop, its REST and socket interfaces, and the command line.
