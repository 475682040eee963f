# Gandr network and public-cache crawler: a Dafny model

This project models the parts of the repository that carry protocol, scheduling
or codec invariants, and proves what they are for. Each module follows one
component of the program. Where the program updates state in place the model
has a class or an array method proved against a specification function; where
several parties run concurrently it has a state machine whose steps are the
program's critical sections, and the theorems quantify over every run of it.

| modules | component | main results |
|---|---|---|
| `Bytes`, `MuxFrame`, `Dedupe`, `MuxConn`, `MuxArrival`, `Mux`, `MuxRun`, `MuxOrder`, `MuxEpoch`, `MuxDelivery`, `MuxOvertake`, `MuxAnswers`, `MuxTransmit` | reliable datagram layer | integrity, ack only after delivery, exactly which frames are answered and how often each is written, in-order delivery, exactly when it is sure and when it can be inverted on one connection, no duplicates, delivery possible from every ready state, bounded state, over every run of two endpoints on a lossy, duplicating, reordering network with restarts |
| `Envelope` | signed envelope wire format | `Decode` and `Encode` inverse both ways, content address injective |
| `Daemon`, `ObjectStore`, `DaemonRun`, `ProfileRun`, `ProfileOrder`, `RateWindow`, `DaemonRate`, `Flood` | flooding daemon and content-addressed store | exactly what a node takes in, deletes and tells, who may remove an object, how objects get in, exactly which profiles converge, per-peer rate bound of a whole node, flooding of a peer graph |
| `RateLimiter` | rolling-window limiter | exact condition for the three promises, the least wait, at most two sleeps |
| `Handshake` | federation handshake and session | completed attempts of two ends pair off one to one by session key and agree, identities included |
| `SingleFlight` | mesh cache fetch | one fetch per key, exactly which replies are taken, shared results, addresses |
| `IpcFrame`, `IpcClient` | daemon socket | framing round trip, at most one event per waiter |
| `Sealed` | sealed box | pack and unpack, open undoes seal, exactly which boxes open, length buckets |
| `Crawl` | batched subforum crawl | known forums are exactly the reachable ones, up to the cap and failed fetches |
| `Polygon` | even-odd map fill | every pixel, exact reals |
| `Sitemap` | sitemap tree walk | forest in preorder, rendering round trip |

## What the proofs found

- Successive Sends reach the receiver in send order over all its connections, but
  one connection's inbox can hold the second before the first: after the receiver
  closes the connection that got the first, a delayed copy of the first gets past
  the fresh filter of the connection the second opened
  (`MuxOvertake.LateCopyOvertakes`). Order is sure while the receiver has one
  connection, and on the connection the sender's frames go to exactly when that
  connection has been given the first (`MuxOvertake.SureOrderIff`). The current
  connection can be given the two inverted exactly when it was not given the first
  and has noted no epoch or that of the first (`MuxOvertake.CanInvertIff`).
- The limiter's three promises (gap, hourly ceiling, daily ceiling) hold over
  every run exactly when both ceilings are at least 1 and the gap is at most
  24 hours and one nanosecond (`RateLimiter.LimitsHoldIff`); beyond that, pruning
  hides the grant the gap should be measured from. A ceiling of zero or less
  behaves as a ceiling of one. Each pass asks for the least wait, except that a request
  exactly a day old still counts, so that the caller may wait for a younger one to
  leave the day (`RateLimiter.WaitIsLeast`). A caller alone sleeps at most twice, for any
  limits; `RateLimiter.SecondSleepIff` says exactly when the second is needed.
- The per-peer minute bound of the daemon is `2 * limit - 1`, and that is reached.
- `GetContext(h)` can return an object with another address: when `h` reads like
  the key of a resource fetch it may join that fetch. For non-empty `h` the
  address is right exactly when `h` is not of that shape; every 64-digit hex hash
  is safe (`SingleFlight.AddressHoldsIff`, `SingleFlight.ValidHashIsSafe`).
- Having few requests outstanding on the daemon socket does not keep a waiter
  from being left waiting for ever: request ids come round after 2^32-1 requests
  (`IpcClient.FirstIsStranded`). `IpcClient.StrandedIff` says exactly which steps
  strand a waiter for good, and none does while fewer than 2^32-1 requests were issued
  since any outstanding one. At most one event per waiter holds always.
- Nodes that come to hold the same profiles of a sender always answer alike exactly
  when the newest timestamp among these is held by one content; ties below it do
  no harm (`ProfileOrder.AlwaysAgreeIff`). In a tie the first to arrive is served.
- A node serves the newest profile it stores exactly when no newer one of that
  sender is stored and not yet recorded (`ProfileRun.ServesNewestIff`).
- Put leaves a damaged file alone and reports its object as stored, so the object
  stays unserved until Get or a prune has removed the file (`ObjectStore.Store.Put`).

## Assumptions

- Cryptography is a set of functions with stated laws: `Envelope.VerifiesSigned`,
  `Envelope.CollisionFree`, `Sealed.Lawful` (decryption undoes encryption, key
  agreement commutes as in section 6.1 of RFC 7748, verification accepts
  signatures). The handshake is symbolic: keys and nonces are names, and a message
  names the identity that signed it. Nothing
  is claimed about secrecy.
- `Daemon` uses the digested bytes as the content address, which
  `Envelope.ContentIdIff` justifies for a collision-free digest.
- Clocks and random values are parameters or free choices of a step. Message ids
  of the mux are non-zero and not reused by one endpoint, both ends use one MTU,
  and it is larger than the 13-byte header.
- `Put` of the object store is atomic and file operations succeed; files are damaged only in `ObjectStore`.
- `DaemonRun`, `DaemonRate` and `Flood` take each handler as one step. `ProfileRun`
  takes storing and recording as two steps that interleave with those of any
  number of other handlers.

## Model

| member | source | states |
|---|---|---|
| Bytes.MostSignificantFirst | src/gandr/pkg/network/mux.go:383-394 | numbers on the wire are read with their first byte as the most significant one |
| MuxFrame.ParseSerialize | src/gandr/pkg/network/mux.go:217-228 | reading a written frame gives back type, id, index, count, epoch and body |
| MuxFrame.SerializeParse | src/gandr/pkg/network/mux.go:217-228 | every datagram the reader accepts is the frame it was read as, byte for byte |
| MuxFrame.WriteFrame | src/gandr/pkg/network/mux.go:383-394 | the filled buffer parses to exactly the frame asked for |
| MuxFrame.FragmentsConcat | src/gandr/pkg/network/mux.go:319-331 | the fragments of a message concatenate to it |
| MuxFrame.FragCountIsLength | src/gandr/pkg/network/mux.go:318-326 | the program's rounded-up division is the number of fragments, one for the empty message |
| MuxFrame.WriteFragments | src/gandr/pkg/network/mux.go:314-337 | a message is refused exactly when too long or too many fragments; otherwise each datagram fits the MTU and parses to its fragment in order |
| Dedupe.HasIffRecent | src/gandr/pkg/network/mux.go:504-530 | the filter holds a non-zero id exactly when it is among the last window-many delivered |
| Dedupe.AddRemembers | src/gandr/pkg/network/mux.go:520-530 | adding an unseen id keeps ring and set equal to the last window-many ids |
| Dedupe.DistinctExtends | src/gandr/pkg/network/mux.go:419-436 | delivering only unseen ids keeps every window plus one consecutive ids distinct |
| Dedupe.Filter.constructor | src/gandr/pkg/network/mux.go:511-513 | a new filter is the empty ring |
| Dedupe.Filter.Contains | src/gandr/pkg/network/mux.go:515-518 | membership of the ring's set |
| Dedupe.Filter.Insert | src/gandr/pkg/network/mux.go:520-530 | the in-place update is the ring step, evicting the slot's old id |
| MuxConn.CollectedLeavesRoom | src/gandr/pkg/network/mux.go:483-502 | after collection fewer than 64 entries are left, each one unchanged |
| MuxConn.CollectedExactly | src/gandr/pkg/network/mux.go:483-502 | collection keeps exactly the entries at most 30 seconds old, save one of 64 or more of these, than which none is older |
| MuxConn.RecordKeeps | src/gandr/pkg/network/mux.go:466-479 | an honest fragment keeps the partial message honest, and a full count means the bytes concatenate to the message |
| MuxConn.AckIff | src/gandr/pkg/network/mux.go:414-444 | a well-formed fragment is acknowledged exactly when its id is among the last window-many delivered, this delivery included |
| MuxConn.BadEntryDropped | src/gandr/pkg/network/mux.go:424-433 | a fragment that disagrees with its entry's count or completes an oversized message drops the entry and does nothing else |
| MuxConn.FullInboxWaits | src/gandr/pkg/network/mux.go:434-444 | a message completed while the inbox is full is neither acknowledged nor lost: a later copy of the fragment delivers it once there is room |
| MuxArrival.AllFragmentsDeliverOnce | src/gandr/pkg/network/mux.go:414-479 | the fragments of a message in any order with any repeats, among fragments of other messages, collections that spare it and reads, put exactly one copy into the inbox |
| MuxArrival.NoSecondCopy | src/gandr/pkg/network/mux.go:419-423 | once delivered, an id is not delivered again while fewer inputs follow than the filter has slots |
| MuxConn.Inbound.GcReassemblies | src/gandr/pkg/network/mux.go:483-502 | the two loops leave the unexpired entries, less the oldest one if still full |
| MuxConn.Inbound.ReassembleFragment | src/gandr/pkg/network/mux.go:455-479 | refines the reassembly function, collecting first when the id is new |
| MuxConn.Inbound.Receive | src/gandr/pkg/network/mux.go:414-444 | refines the receiver step: duplicate ack, partial, oversized drop, inbox delivery with ack, full inbox without ack |
| Mux.ReassembleKeeps | src/gandr/pkg/network/mux.go:455-479 | the table stays within 64 honest partial messages, and a completed message is the peer's |
| Mux.DataKeeps | src/gandr/pkg/network/mux.go:414-444 | handling a DATA frame keeps the endpoint's invariant; any ack names a delivered id |
| Mux.SignalKeeps | src/gandr/pkg/network/mux.go:254-264 | handling ack, ping and pong keeps the endpoint's invariant |
| Mux.RouteKeeps | src/gandr/pkg/network/mux.go:230-246 | routing keeps it: another epoch retires the connection, so one connection sees one non-zero epoch |
| Mux.BeginKeeps | src/gandr/pkg/network/mux.go:349-360 | starting a Send or ping keeps it |
| Mux.WriteKeeps | src/gandr/pkg/network/mux.go:327-337 | writing the next fragment keeps it and writes an honest frame within the MTU |
| Mux.EndKeeps | src/gandr/pkg/network/mux.go:354-381 | returning from transmit keeps it; a nil return had its signal |
| Mux.RebornKeeps | src/gandr/pkg/network/mux.go:113-119 | a restart under a new epoch keeps it |
| Mux.PeerKeeps | src/gandr/pkg/network/mux.go:205-266 | what one endpoint does never spoils the other's invariant |
| Mux.ActKeeps | src/gandr/pkg/network/mux.go:205-381 | every action of an endpoint keeps its invariant |
| MuxRun.StepKeeps | src/gandr/pkg/network/mux.go:205-381 | every step of two endpoints and the network keeps the whole invariant |
| MuxRun.RunKeeps | src/gandr/pkg/network/mux.go:205-381 | every state of every run satisfies the invariant |
| MuxRun.InboxIsSent | src/gandr/pkg/network/mux.go:414-479 | every inbox message is byte for byte one the peer gave to Send |
| MuxRun.AckedIsDelivered | src/gandr/pkg/network/mux.go:349-381 | Send returns nil only after that exact message was put into an inbox on the other side |
| MuxRun.DeliveriesDistinct | src/gandr/pkg/network/mux.go:504-530 | any 1025 consecutive deliveries on one connection carry distinct ids |
| MuxRun.SendsArriveInOrder | src/gandr/pkg/network/mux.go:314-381 | over all connections of the receiver, a Send begun after another returned nil is delivered only after it |
| MuxOrder.RunFiles | src/gandr/pkg/network/mux.go:434-439 | in every run what a connection was given is its share of all deliveries, in order |
| MuxOrder.InboxIsTail | src/gandr/pkg/network/mux.go:301-311 | in every run an inbox is the tail of what its connection was given, so it is read in that order |
| MuxOrder.OrderOnConnection | src/gandr/pkg/network/mux.go:314-381 | where a connection is given the second of two successive Sends, it was given the first before exactly when one of the first's earlier deliveries was on it |
| MuxOrder.OneConnectionInOrder | src/gandr/pkg/network/mux.go:314-381 | while the receiver has one connection, successive Sends reach its inbox in send order |
| MuxOrder.StaysInOrder | src/gandr/pkg/network/mux.go:314-381 | a connection that was given the first is given every later Send after it |
| MuxOvertake.SureOrderIff | src/gandr/pkg/network/mux.go:314-444 | on the connection the sender's frames go to, order holds in all continuations exactly when it has been given the first |
| MuxOvertake.CanInvertIff | src/gandr/pkg/network/mux.go:230-444 | some continuation gives the current connection the second and then the first exactly when it was not given the first and has noted no epoch or that of the first |
| MuxOvertake.LateCopyOvertakes | src/gandr/pkg/network/mux.go:230-246 | for any two messages Send accepts some run without restarts gives a reopened connection the second and then a late copy of the first |
| MuxRun.ResourcesBounded | src/gandr/pkg/network/mux.go:455-502 | in every run at most 64 partial messages, one epoch per connection, datagrams within the MTU |
| MuxAnswers.AnsweredExactly | src/gandr/pkg/network/mux.go:254-264 | in every run a handled fragment is acknowledged exactly when its message is among the last 1024 given to that connection, a ping is answered by a pong, and nothing else is answered |
| MuxAnswers.SignalledExactly | src/gandr/pkg/network/mux.go:397-407 | in every run an ack or a pong signals the transfer registered under its id on that connection and no other |
| MuxAnswers.RegisteredExactly | src/gandr/pkg/network/mux.go:349-360 | in every run exactly the transfers that have not returned are registered, each on its own connection, but for those a restart cut off |
| MuxAnswers.RoutedExactly | src/gandr/pkg/network/mux.go:230-252 | in every run a frame goes to the current connection unless both have epochs and these differ; then that one is closed and a new one opened |
| MuxAnswers.WrittenExactly | src/gandr/pkg/network/mux.go:327-346 | in every run a write hands over the transfer's next frame, field by field |
| MuxAnswers.RestartedExactly | src/gandr/pkg/network/mux.go:96-119 | a restart closes every connection and ends every transfer under way, and changes nothing that had ended |
| MuxTransmit.TriesExactly | src/gandr/pkg/network/mux.go:349-381 | in every run a transfer has handed each of its frames to the socket exactly once per attempt, in order, with at most five attempts |
| MuxTransmit.TimedOutAfterFive | src/gandr/pkg/network/mux.go:349-381 | a transfer that timed out has handed over every frame exactly five times |
| MuxDelivery.EveryMessageCanArrive | src/gandr/pkg/network/mux.go:314-479 | from every reachable state with idle read loops and a facing connection, every message Send accepts can be delivered on the connection its frames go to, and Send return nil |
| MuxDelivery.Delivered | src/gandr/pkg/network/mux.go:205-266 | a message whose frames are on the wire and which its target connection was not given can be delivered there, whatever was collected of it |
| MuxEpoch.RunFits | src/gandr/pkg/network/mux.go:230-246 | in every run fragments carry the epoch their Send runs under, and what a connection reads and is given fits the epoch it has noted |
| MuxEpoch.GivenUnderEpoch | src/gandr/pkg/network/mux.go:230-246 | in every run a connection is given only messages written under the epoch it has noted |
| MuxEpoch.EpochsAreFinal | src/gandr/pkg/network/mux.go:244-246 | an epoch once noted never changes |
| MuxEpoch.SucceededOnWire | src/gandr/pkg/network/mux.go:327-337 | all frames of a Send that returned nil have been written, under the epoch it ran in |
| Envelope.DecodeEncode | src/gandr/pkg/proto/envelope.go:135-190 | any envelope, once encoded, decodes to itself exactly when version, type, size and signature are acceptable |
| Envelope.NewEnvelopeDecodes | src/gandr/pkg/proto/envelope.go:104-190 | NewEnvelope succeeds exactly on allowed type and size, with the given fields, and its result survives Encode and Decode |
| Envelope.EncodeDecode | src/gandr/pkg/proto/envelope.go:150-190 | every accepted byte string is the encoding of what it decoded to |
| Envelope.DecodeIff | src/gandr/pkg/proto/envelope.go:150-190 | a datagram is accepted exactly when it has version 1, a network type, its own length, and ends in the sender's signature over all bytes before it |
| Envelope.ContentBytesInjective | src/gandr/pkg/proto/envelope.go:91-100 | the digested bytes are equal exactly when version, type, timestamp, sender and payload are |
| Envelope.ContentIdIff | src/gandr/pkg/proto/envelope.go:91-100 | the same for the content id under a collision-free digest |
| Daemon.RelayToCharacterised | src/gandr/pkg/daemon/daemon.go:464-497 | relayed to exactly the connected peers of at least neutral trust other than the source, when relaying is on |
| Daemon.ReceiveProper | src/gandr/pkg/daemon/daemon.go:344-403 | one received envelope takes an object out only as a rightful delete, brings in only itself when storable, replaces nothing, and is never relayed back to its source |
| Daemon.SubmitProper | src/gandr/pkg/daemon/daemon.go:614-644 | the same of the store for one submitted envelope |
| Daemon.ReceiveExactly | src/gandr/pkg/daemon/daemon.go:344-403 | an envelope from a peer is stored, deleted for or passed on exactly when it is fresh, sized, within rate and new, an ack or a rightful delete, and then told to exactly the relaying peers but its source; otherwise nothing changes |
| Daemon.SubmitExactly | src/gandr/pkg/daemon/daemon.go:614-644 | the same for one the local client submits, repeats included |
| Daemon.Node.CheckRate | src/gandr/pkg/daemon/daemon.go:506-521 | the window update and verdict of the rate function |
| Daemon.Node.Store | src/gandr/pkg/store/store.go:59-88 | an object is added under its content, never replaced |
| Daemon.Node.NoteProfile | src/gandr/pkg/daemon/daemon.go:448-461 | refines the last-writer profile rule |
| Daemon.Node.DeleteObject | src/gandr/pkg/daemon/daemon.go:417-445 | refines the delete rule |
| Daemon.Node.Relay | src/gandr/pkg/daemon/daemon.go:464-497 | the loop over peers sends to exactly the specified list, in table order |
| Daemon.Node.HandleEnvelope | src/gandr/pkg/daemon/daemon.go:344-403 | new state and recipients are those of the receive function; the store loses an entry only to a rightful delete and gains only a storable envelope |
| Daemon.Node.HandleSend | src/gandr/pkg/daemon/daemon.go:614-644 | new state, recipients and success are those of the submit function, with the same promise about the store |
| ObjectStore.Store.Put | src/gandr/pkg/store/store.go:59-88 | writes a new object, leaves any file that is there, and leaves the object unserved exactly when that file is damaged |
| ObjectStore.Store.Get | src/gandr/pkg/store/store.go:93-108 | serves exactly the sound object at the address; a damaged file is removed and nothing else is |
| ObjectStore.Store.Delete | src/gandr/pkg/store/store.go:118-124 | removes the file and its object, no others |
| ObjectStore.Store.Prune | src/gandr/pkg/store/store.go:147-179 | the walk leaves exactly the files that decode to something within its age limit, counts the rest, and prunes the served objects as specified |
| Daemon.Node.PruneTrackedPeerState | src/gandr/pkg/daemon/daemon.go:595-609 | the two loops evict exactly the entries past their time to live |
| DaemonRun.StepRemoves | src/gandr/pkg/daemon/daemon.go:344-445 | one step removes an object only by right or by age and leaves the others as they were |
| DaemonRun.LeavesOnlyByRight | src/gandr/pkg/daemon/daemon.go:344-445 | in every run an object leaves only by a prune past its limit or a delete by its author or the guestbook's owner |
| DaemonRun.DeleteRemovesIff | src/gandr/pkg/daemon/daemon.go:614-644 | a submitted delete removes its target exactly when the sender has the right |
| DaemonRun.PruneRemovesIff | src/gandr/pkg/store/store.go:147-179 | a prune removes exactly what is past the limit, 24 hours at most for a status |
| DaemonRun.EvictsExactly | src/gandr/pkg/daemon/daemon.go:595-609 | evicting forgets exactly the profiles not heard of for 7 days and the windows opened more than 10 minutes ago |
| DaemonRun.RemembersExactly | src/gandr/pkg/daemon/daemon.go:448-461 | in every run a sender's profile is remembered, with the time it was last taken in, exactly until an eviction more than 7 days later |
| DaemonRun.PlainServesNewest | src/gandr/pkg/daemon/daemon.go:367-374 | a receipt or send, taken whole, keeps the served profile the newest stored one |
| DaemonRun.RunServesNewest | src/gandr/pkg/daemon/daemon.go:448-461 | between handlers of every run without deletes, prunes and evictions the served profile is the newest stored one |
| ProfileRun.RunKeeps | src/gandr/pkg/daemon/daemon.go:363-374 | with storing and recording interleaved at will, every stored profile is recorded or pending and the newest recorded one is served |
| ProfileRun.ServedIsNewestRecorded | src/gandr/pkg/daemon/daemon.go:448-461 | at any moment the newest recorded profile is served, and any newer stored one is pending |
| ProfileRun.QuietServesNewest | src/gandr/pkg/daemon/daemon.go:448-461 | whenever nothing is pending the newest stored profile is served |
| ProfileRun.ServesNewestIff | src/gandr/pkg/daemon/daemon.go:363-374 | at any moment a sender's newest stored profile is served exactly when no newer one of theirs is pending |
| ProfileRun.QuietNodesAgree | src/gandr/pkg/daemon/daemon.go:687-695 | two nodes with nothing pending and the same profiles of a sender, one content newest, answer alike |
| ProfileRun.BehindWhilePending | src/gandr/pkg/daemon/daemon.go:363-374 | between the two steps the older profile is still served |
| DaemonRun.ProfilesConverge | src/gandr/pkg/daemon/daemon.go:687-695 | two nodes with the same profiles of a sender, one content newest, serve that one whatever the order and repeats |
| ProfileOrder.AlwaysAgreeIff | src/gandr/pkg/daemon/daemon.go:448-461 | for every finite set of a sender's profiles, all nodes that come to hold it by runs in clock order answer alike exactly when its newest timestamp is held by one content |
| ProfileOrder.FirstStays | src/gandr/pkg/daemon/daemon.go:448-461 | once served, a profile stays served while nothing newer is sent |
| DaemonRun.TiesDependOnOrder | src/gandr/pkg/daemon/daemon.go:448-461 | with equal timestamps the first arrival is served |
| RateWindow.PruningNeverChangesVerdict | src/gandr/pkg/daemon/daemon.go:595-609 | evictions anywhere change no verdict |
| RateWindow.AllowedIff | src/gandr/pkg/daemon/daemon.go:506-521 | in every run an attempt is allowed exactly when its place among the peer's attempts of its window is within the limit |
| RateWindow.MinuteBound | src/gandr/pkg/daemon/daemon.go:506-521 | any closed minute holds at most 2 * limit - 1 accepted messages of a peer |
| RateWindow.MinuteBoundIsReached | src/gandr/pkg/daemon/daemon.go:506-521 | for every limit a run of attempts in clock order reaches that number |
| DaemonRate.NodeMinuteBound | src/gandr/pkg/daemon/daemon.go:344-403 | in every run of a node, with all other traffic, prunes and evictions, at most 2 * limit - 1 messages of one peer get through in any closed minute |
| DaemonRate.ThroughIsAllowed | src/gandr/pkg/daemon/daemon.go:344-357 | what gets through a node's checks is within what the rate windows allow |
| DaemonRate.EntersOnlyFresh | src/gandr/pkg/daemon/daemon.go:344-377 | in every run a stored object lies under its own content and came in by a step that found it valid and at most 5 minutes old, 10 seconds early |
| Flood.InjectKeeps | src/gandr/pkg/daemon/daemon.go:614-631 | injecting an envelope keeps the flood invariant |
| Flood.DeliverKeeps | src/gandr/pkg/daemon/daemon.go:344-377 | handling a relayed envelope keeps the flood invariant |
| Flood.RunKeeps | src/gandr/pkg/daemon/daemon.go:344-377 | every run keeps it: who stores an envelope has reached or is reaching each relaying neighbour |
| Flood.AtMostOneSendPerEdge | src/gandr/pkg/daemon/daemon.go:464-497 | at most one send of an envelope on each directed relaying edge |
| Flood.FloodBound | src/gandr/pkg/daemon/daemon.go:464-497 | so at most as many sends of it as there are relaying edges |
| Flood.DeliveriesHandle | src/gandr/pkg/daemon/daemon.go:344-377 | every delivery step uses up one send |
| Flood.FloodTerminates | src/gandr/pkg/daemon/daemon.go:344-377 | a run that floods one envelope has no more deliveries than relaying edges |
| Flood.FloodReaches | src/gandr/pkg/daemon/daemon.go:344-377 | when nothing is in flight an envelope is stored along every path whose nodes did not turn it away |
| Flood.FloodCompletes | src/gandr/pkg/daemon/daemon.go:614-631 | in particular at every node so reachable from where it was injected |
| RateLimiter.SpacedIffWindows | internal/external/ratelimit.go:43-60 | a ceiling on every half-open window is the same as spacing entries that many places apart |
| RateLimiter.GrantObeys | internal/external/ratelimit.go:31-70 | a zero wait over the pruned requests keeps the whole history of grants within all limits |
| RateLimiter.WaitIsLeast | internal/external/ratelimit.go:31-92 | the wait is the least after which gap, hour and day have room, with a request exactly a day old as the one exception |
| RateLimiter.LimitsHold | internal/external/ratelimit.go:31-92 | over every run gaps, hours and days hold as promised |
| RateLimiter.LimitsBreak | internal/external/ratelimit.go:31-92 | for all other limits a run of two passes breaks one of them |
| RateLimiter.LimitsHoldIff | internal/external/ratelimit.go:31-92 | the promises hold over all runs exactly when both ceilings are at least 1 and the gap at most 24 h and 1 ns |
| RateLimiter.CeilingBelowOneIsOne | internal/external/ratelimit.go:43-60 | a ceiling of zero or less makes callers wait exactly as a ceiling of one |
| RateLimiter.ThirdPassGrants | internal/external/ratelimit.go:31-92 | after two sleeps of at least the time asked the third pass grants |
| RateLimiter.SecondSleepIff | internal/external/ratelimit.go:73-92 | after one full sleep the second pass waits exactly when the requests fill the day, the oldest is exactly a day old and the newest younger |
| RateLimiter.TwoSleepsNeeded | internal/external/ratelimit.go:73-92 | an instance: pruning keeps a request exactly a day old, the delay skips it |
| RateLimiter.Limiter.PruneRequests | internal/external/ratelimit.go:73-80 | the loop drops the leading requests older than a day |
| RateLimiter.Limiter.Delay | internal/external/ratelimit.go:81-92 | the scan finds the first request inside the window |
| RateLimiter.Limiter.CountHour | internal/external/ratelimit.go:43-48 | the loop counts the requests of the half-open hour before now |
| RateLimiter.Limiter.RequiredWait | internal/external/ratelimit.go:36-60 | the largest of the three waits |
| RateLimiter.Limiter.Pass | internal/external/ratelimit.go:33-66 | one pass under the lock prunes, measures and records a grant exactly when the wait is zero |
| RateLimiter.Limiter.Wait | internal/external/ratelimit.go:31-70 | ends after at most two sleeps for any limits; a grant is recorded at the current time with no wait left, a cancelled sleep records none |
| Handshake.OpenedByPartner | src/gandr/pkg/federation/session.go:96-112 | only the matched attempt of the other side writes frames a session opens |
| Handshake.ReceiveKeeps | src/gandr/pkg/federation/handshake.go:33-159 | reading a message, with the signer taken from it and compared as the program does, keeps the invariant of all attempts |
| Handshake.RunKeeps | src/gandr/pkg/federation/handshake.go:33-235 | every run keeps it |
| Handshake.KeyPairs | src/gandr/pkg/federation/session.go:125-137 | two attempts that hold one session key are an initiator and a responder that heard each other's nonces |
| Handshake.RespondMatched | src/gandr/pkg/federation/handshake.go:94-159 | each completed Respond shares its session key with one Initiate attempt of the other side and with nobody else |
| Handshake.InitiateMatched | src/gandr/pkg/federation/handshake.go:33-91 | each completed Initiate shares its session key with one Respond attempt of the other side and with nobody else |
| Handshake.BothComplete | src/gandr/pkg/federation/handshake.go:79-159 | matched completed ends hold equal keys, crossed tags and the identity the other signed with, its capabilities, agent and policy |
| Handshake.SessionAuthentic | src/gandr/pkg/federation/session.go:66-112 | any frame an established session opens was written by its partner attempt |
| Handshake.CompletingRun | src/gandr/pkg/federation/handshake.go:33-235 | for every pair of configurations some run completes on both ends, in agreement |
| Handshake.HandshakeReadExactly | src/gandr/pkg/federation/handshake.go:49-147 | in every run a HELLO-ACK or COMPLETE takes an attempt on exactly when its writer heard that attempt's nonce; any other message ends it |
| Handshake.PolicyReadExactly | src/gandr/pkg/federation/handshake.go:215-235 | in every run an attempt waiting for the policy takes its partner's with the partner's value, fails on the partner's traffic, and skips everything else unchanged |
| SingleFlight.StepKeeps | internal/mesh/node.go:106-233 | every step of any number of callers keeps the table of calls sound |
| SingleFlight.OneFetchPerKey | internal/mesh/node.go:157-188 | at most one fetch in progress per key, one leader per call, each done channel closed once and only with a result |
| SingleFlight.FollowersShareResult | internal/mesh/node.go:157-188 | all who return through one call return its result |
| SingleFlight.MissingIsFetched | internal/mesh/node.go:157-188 | only whoever returns through a call can be told that nothing was found |
| SingleFlight.ReturnedIsValid | internal/mesh/node.go:189-233 | every returned object's payload digests to its hash |
| SingleFlight.LocalIff | internal/mesh/node.go:157-163 | a lookup by hash is answered from the store exactly when its file is sound |
| SingleFlight.AnsweredExactly | internal/mesh/node.go:157-233 | in every run whoever returns through a call has the object its one fetch was given exactly when the reply suits the request and was stored |
| SingleFlight.FetchedIsServed | internal/mesh/node.go:210-233 | what a fetch found is served from the store to the next lookup by its address or resource |
| SingleFlight.HadByHash | internal/mesh/node.go:157-233 | every sound object can be had from a peer by its hash, by two callers through one fetch |
| SingleFlight.AddressKept | internal/mesh/node.go:157-233 | a hash not shaped like a resource key is answered with an object of that address |
| SingleFlight.JoinedByResource | internal/mesh/node.go:106-188 | for each text of that shape some run answers with another address |
| SingleFlight.AddressHoldsIff | internal/mesh/node.go:157-233 | the address is right in all runs exactly for texts not of that shape |
| SingleFlight.ValidHashIsSafe | internal/mesh/store.go:60-66 | no valid hash has that shape |
| IpcFrame.ReadWire | src/gandr/pkg/ipc/ipc.go:65-109 | reading a written frame gives it back and leaves what follows |
| IpcFrame.WireRead | src/gandr/pkg/ipc/ipc.go:86-109 | every accepted prefix is the writing of the frame read, within the size limit |
| IpcFrame.ReadAllWireAll | src/gandr/pkg/ipc/ipc.go:65-109 | reading the concatenation of any written frames yields them in order |
| IpcFrame.Stream.WriteFrame | src/gandr/pkg/ipc/ipc.go:65-83 | appends the frame's bytes, or nothing when it is too large |
| IpcFrame.Stream.ReadFrame | src/gandr/pkg/ipc/ipc.go:86-109 | returns the next frame and moves past it, or refuses |
| IpcClient.StepKeeps | src/gandr/pkg/ipc/client.go:63-169 | every interleaving step keeps table, reader and teardown apart |
| IpcClient.AtMostOneEvent | src/gandr/pkg/ipc/client.go:63-169 | each waiter's channel gets at most one frame or close, and a returned frame carries its id |
| IpcClient.ReplyReaches | src/gandr/pkg/ipc/client.go:63-169 | in every run a reply goes to the request registered under its id, which returns it on waking; one nobody is registered for changes nothing |
| IpcClient.StrandsIff | src/gandr/pkg/ipc/client.go:125-169 | exactly when a step takes a waiting request's way to wake up: its id is reused or given up by another with the same id |
| IpcClient.StaysStranded | src/gandr/pkg/ipc/client.go:63-169 | a stranded request stays so under every step but its own giving up |
| IpcClient.StrandedIff | src/gandr/pkg/ipc/client.go:63-169 | in every run a waiting request is stranded exactly when some earlier step took its id away |
| IpcClient.TeardownWakesAll | src/gandr/pkg/ipc/client.go:107-122 | after a teardown every waiter has one event, if never 2^32-1 requests were issued since an outstanding one |
| IpcClient.FirstIsStranded | src/gandr/pkg/ipc/client.go:125-140 | with two outstanding at most, a waiter can be left for ever once ids come round |
| Sealed.PaddedLenIs | src/gandr/pkg/crypto/sealed.go:204-209 | the least positive multiple of the block size that holds the text |
| Sealed.UnpackPack | src/gandr/pkg/crypto/sealed.go:86-200 | unpacking a packed text gives sender, signature, type and content |
| Sealed.PackUnpack | src/gandr/pkg/crypto/sealed.go:140-200 | any accepted plaintext is the canonical packing followed by whole zero blocks |
| Sealed.OpenSeal | src/gandr/pkg/crypto/sealed.go:86-200 | Open undoes Seal for everything Seal accepts |
| Sealed.SealIff | src/gandr/pkg/crypto/sealed.go:86-106 | Seal succeeds exactly for a 64-byte key, at most 63 KiB and keys that convert and agree |
| Sealed.UnpackIff | src/gandr/pkg/crypto/sealed.go:156-189 | a plaintext is accepted exactly when it is a packing followed by whole zero blocks |
| Sealed.OpenIff | src/gandr/pkg/crypto/sealed.go:140-200 | Open returns a message exactly when the box decrypts to a packing of it that is deniable or bears the named sender's signature over tag, recipient, type and content |
| Sealed.SignatureRefusedIff | src/gandr/pkg/crypto/sealed.go:189-195 | it refuses for the signature exactly when the box is whole but not so signed |
| Sealed.LengthHidesContent | src/gandr/pkg/proto/payloads.go:445-454 | ciphertext length depends on the block bucket alone and passes the relay's check |
| Sealed.FillPlain | src/gandr/pkg/crypto/sealed.go:107-126 | the buffer filled with a moving offset is the packing |
| Sealed.ScanPlain | src/gandr/pkg/crypto/sealed.go:156-189 | the scan of header and padding is the unpacking |
| Crawl.DiscoverAdds | internal/service/origin_sync.go:100-109 | new forums come from the listed children, within the cap, all of them unless the cap stopped it |
| Crawl.CappedIsFull | internal/service/origin_sync.go:100-109 | a listing is cut short only when MaxForums is set and reached |
| Crawl.ExpandKeeps | internal/service/origin_sync.go:93-109 | taking one forum off the queue keeps the crawl sound and complete |
| Crawl.DrainedIsReachable | internal/service/origin_sync.go:69-112 | a queue run dry, never capped and never failed, leaves exactly the reachable forums known |
| Crawl.DrainedMissesBehindLost | internal/service/origin_sync.go:93-112 | a queue run dry and never capped leaves known everything reachable without passing through a forum whose fetch failed |
| Crawl.ClosedIsReachable | internal/service/origin_sync.go:69-112 | a set of reachable forums holding the seeds and all children is the reachable set |
| Crawl.OriginSync.Seed | internal/service/origin_sync.go:70-78 | the first call knows and queues the seeds |
| Crawl.InOrder | internal/service/origin_sync.go:80-84 | the URLs of a set, each once, in ascending order |
| Crawl.OriginSync.Refill | internal/service/origin_sync.go:79-86 | an empty queue is refilled with every known forum once, in ascending order of URL |
| Crawl.OriginSync.TakeIn | internal/service/origin_sync.go:100-109 | the loop over children refines discovery |
| Crawl.OriginSync.ExpandHead | internal/service/origin_sync.go:93-109 | one forum is expanded, or lost when its fetch fails |
| Crawl.OriginSync.SyncDiscovered | internal/service/origin_sync.go:69-112 | each batch keeps known reachable and within max(MaxForums, seeds) and says which forum it lost; a pass drained without reaching MaxForums knows everything reachable beside the lost forums, and exactly the reachable ones when none was lost, however the work is split |
| Polygon.CrossingOnEdge | internal/tui/mapview.go:126-133 | the computed crossing lies on its edge at the row's height |
| Polygon.CrossingParity | internal/tui/mapview.go:126-133 | the number of crossings of a chain is even exactly when both ends are on one side |
| Polygon.CrossingsEven | internal/tui/mapview.go:126-133 | every row has an even number of crossings |
| Polygon.PairsAreEvenOdd | internal/tui/mapview.go:135-147 | the sorted pairs cover x exactly when x is a crossing or an odd number lie to its left |
| Polygon.SortedCoverIsInside | internal/tui/mapview.go:124-147 | pairing the sorted crossings of a row is the even-odd rule on the unsorted ones |
| Polygon.InsideIff | internal/tui/mapview.go:124-133 | a pixel on no crossing is inside exactly when an odd number of edges cross the row's centre to its left |
| Polygon.RowCrossings | internal/tui/mapview.go:124-133 | the edge loop collects the row's crossings |
| Polygon.FillSpan | internal/tui/mapview.go:136-146 | sets exactly the pixels between two crossings, clears none |
| Polygon.FillRow | internal/tui/mapview.go:135-147 | sets exactly the pixels the pairs cover |
| Polygon.FillPolygon | internal/tui/mapview.go:111-149 | afterwards a pixel is set exactly when it was or the even-odd rule puts it inside; no index leaves the mask |
| Sitemap.WalkItemGood | internal/flashback/parser.go:107-174 | visiting one item keeps the forest invariant |
| Sitemap.WalkListGood | internal/flashback/parser.go:107-174 | walking a list keeps it |
| Sitemap.ParseIsForest | internal/flashback/parser.go:107-176 | for every list tree: distinct ids, order is position, each parent the nearest earlier node one level up, parents marked |
| Sitemap.WalkRender | internal/flashback/parser.go:107-174 | walking the list form of any forest with fresh ids appends its preorder |
| Sitemap.ParseRender | internal/flashback/parser.go:92-177 | parsing the list form of a forest, with sublists nested or following, gives back the forest in preorder |
| Sitemap.SkippedWithLists | internal/flashback/parser.go:137-158 | an item that makes no node, or a second one of its id, leaves nothing behind: neither its own list nor the bare lists after it |
| Sitemap.OneItem | internal/flashback/parser.go:137-163 | what a plain item becomes: a page for a forum link, a category for a title alone, otherwise nothing |
| Sitemap.CategoryOpens | internal/flashback/parser.go:147-172 | a category's list is walked under its id one level down, its title joined to the path by a slash |
| Sitemap.Parser.Walk | internal/flashback/parser.go:107-174 | the recursive walk that appends in place is the walk function |
| Sitemap.Parser.Visit | internal/flashback/parser.go:107-174 | one item in place is the item function, with the last node it leaves |
| Sitemap.Parser.ParseNavigation | internal/flashback/parser.go:92-177 | the nodes left behind are the parse and form a forest |

## Left out

- Mux: the Accept backlog, closing of the whole mux, addresses of several peers, backoff durations (a timer may fire at any time) and read errors; goroutines are interleaved at the granularity of one frame written, one datagram routed, one frame handled. `Mux` and `MuxRun` are on values because they are about all interleavings; the in-place code is in `MuxFrame`, `Dedupe` and `MuxConn`.
- MuxOvertake.SureOrderIff: says nothing of a connection that is not the receiver's current one or of a receiver in the middle of a frame; so does MuxOvertake.CanInvertIff.
- MuxArrival.AllFragmentsDeliverOnce: at most as many inputs as the filter has slots (1024), room in the inbox whenever one of the fragments comes, and collections that spare the message; without these the program may drop it or take it in again.
- Daemon: the peer table's upkeep, sessions, events to clients, peer introductions and failing I/O; payload codecs are parameters.
- Daemon.Node.Store: the node's own store holds no damaged files; these are in `ObjectStore`.
- DaemonRun.PlainServesNewest: takes storing and recording as one step; `ProfileRun` takes them as two.
- DaemonRun.RunServesNewest: at handler boundaries; what holds inside a handler is in `ProfileRun`.
- Flood.FloodTerminates: stored message types only, because acknowledgements are relayed without a duplicate check.
- Flood.FloodReaches: nodes on the path must not have turned the envelope away for its age, size, payload or rate; the model lets them do so at any time.
- RateLimiter.Limiter.Wait: with several callers there is no bound on the sleeps of one; overflow of 64-bit durations is not modelled.
- Handshake: timeouts, malformed messages, stale timestamps and I/O errors are one failure step possible at any time; messages are unaltered, as the attempts share a connection between honest ends.
- SingleFlight.ReturnedIsValid: agreement of the resource index with the latest object is not claimed; it fails when two resources share a payload.
- SingleFlight: announcements, local puts and publishing to peers.
- IpcClient: pushed frames (incoming, delivered, peer updates) do not touch the waiters and are left out; an error reply counts as a frame returned.
- Sealed.OpenSeal: private keys of a wrong length are not modelled; nothing is said about which sizes fit an envelope or a session frame.
- Crawl: thread pages, snapshots and the limiter are left out and a forum is its URL; URLs compare by character where the program compares bytes.
- Polygon.FillPolygon: exact reals instead of 64-bit floating point, and a rectangular mask.
- Sitemap: HTML parsing and link classification are given as the abstract list item, and the category id is a function parameter.
- The terminal interface, configuration, HTTP clients, SQLite, the Yggdrasil transport and the mesh runtime's lifecycle: interface and I/O code that would only add easy members.
