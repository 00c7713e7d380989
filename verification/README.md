# ws-kit: rooms, fan-out, counters and text rules, verified

ws-kit is a WebSocket toolkit: rooms on top of broadcast channels, a Redis
fan-out that joins rooms across nodes, connection and traffic counters, token
extraction, origin checks and a compression envelope. This project models what
the crate itself does around the libraries it uses, and proves what its
documentation promises, for every input and every run.

`dafny verify dfyconfig.toml` checks the whole project.

## What is modelled

**The fleet.** `Fleet` is a labelled transition system for any number of nodes,
each with a prefix, a node id, a room map and one subscriber loop, over a bus
that keeps order, loses freely and never duplicates. Room instances are kept
apart from room ids, since a removed room lives on in the hands of those that
hold it. A broadcast is three steps (select the instance, send, publish), and
so is the handling of a message (take it, look the room up, send). Outsiders
may publish any bytes. `FleetTheorems` and `FleetStreams` prove delivery at
most once, exact local delivery, provenance, order and completeness over whole
runs; `FleetProgress` what each step brings about, and that a broadcast gets to
every listener once the loops have caught up. `Envelope` holds the byte format and channel names the fleet uses, over
`Utf8`, which defines UTF-8 after RFC 3629. `RedisRooms` is the registry of
one node as a class, whose subscriber loop takes the same frames as the
fleet's (`FleetStreams.WantedIsAccepted`).

**Rooms and counters.** `Rooms` and `Stats` are the classes as one thread uses
them. `RoomRace` interleaves `get_or_create`, `get` and `remove` at every map
operation and gauge update; `Traffic` interleaves broadcasts and recording
calls at every atomic addition. Both are for any number of threads.

**The connection counter.** `Counter` is the class, with arbitrary interference
by other threads between any two atomic accesses of a call. `CounterRace` has
`n` threads racing for one limit, `CounterRuns` any mixture of increments and
decrements.

**Text.** `Origin` and `OriginTheorems` relate normalisation to the comparison
of section 5 of RFC 6454. `Spelling` has every way of writing a text in a query
or cookie; `Extractor`, `ExtractorTheorems` and `CookieTheorems` show that the
parsers undo it, and `RequestTheorems` what that makes of a whole request.
`Strings` holds the string operations they use.

**Compression.** `Compression` has the two nested flag bytes, the fallback, the
bounded read and the size cap; DEFLATE is a parameter of which only
losslessness is assumed, and that only in the round trips.

The modules keep the source's form: classes whose methods update their fields,
loops where the source loops, functions where it computes. A method is proved
against a specification function, and the theorems are about that function.

## Where code and comments differ

The model follows the code.

- `src/room.rs:376-379` calls the room gauge convergent after a lost race. Each
  lost race leaves one too many for good: `RoomRace.GaugeAtRest`,
  `RoomRace.GaugeDoesNotConverge`. Callers that take turns on each id are safe:
  `RoomRace.TurnsKeepTheGauge`.
- `src/redis_rooms.rs:111-115` says a node-id collision would re-enable
  self-echoes. By line 326 it makes the two nodes deaf to each other:
  `FleetTheorems.CallsReachTheirChannel`.
- `src/counter.rs:72` promises the count after the decrement. Line 83 is a
  separate load: `CounterRuns.DecrementMayReportALaterCount` is a run in which
  it differs, and `CounterRuns.DecrementReportsItsOwnIff` says exactly when it
  does. `src/stats.rs:136` promises the same of `dec_connections`, whose code
  (`src/stats.rs:276-285`) is the same: `Stats.StatsRecorder.DecConnections`.
- `src/compression.rs:205` adds one to the cap in 64 bits. At the largest cap
  the sum wraps to zero, and every compressed payload is read as empty:
  `Compression.FrameRoundTrip` states the round trip with that exact exception.
  (With overflow checks the addition panics instead.)
  `Compression.WrappedCapExample` is a payload that meets the exception.
- `src/origin.rs:28-41` normalises idempotently except when an empty or default
  port is dropped after a host ending in white space:
  `OriginTheorems.IdempotentUnlessPortDroppedAfterSpace`, with the family and
  an example of exceptions.
- `src/extractor.rs:243` turns an escape into the character of that number, so
  escaped UTF-8 comes back exactly when it is ASCII:
  `ExtractorTheorems.EscapedUtf8ComesBackIffAscii`, with an example.

## Model

| member | source | states |
|---|---|---|
| `FleetTheorems.DeliveredAtMostOnce` | src/redis_rooms.rs:264-337 | in every run, whatever is lost, removed or injected, a call's frame enters any receiver's log at most once, echoes included |
| `FleetTheorems.LocalDeliveryIsExact` | src/redis_rooms.rs:288-304 | whatever comes later, a receiver of the publishing node has the frame exactly once if it was live on the selected instance at the send, and never otherwise |
| `FleetProgress.MappedReceiversGetItOnce` | src/redis_rooms.rs:288-304 | the same from the room on: exactly the receivers live at the send on the instance the room was mapped to at the lookup, or made for it there, get the frame, each once |
| `FleetProgress.CallSelectsTheMappedRoom` | src/redis_rooms.rs:294 | in every reachable state a broadcast selects the mapped instance and makes nothing, or, when there is none, makes and maps exactly one |
| `FleetProgress.CallIsMade` | src/redis_rooms.rs:288-292 | a broadcast is recorded for its node, room and frame, and nothing else moves |
| `FleetProgress.BroadcastDoes` | src/redis_rooms.rs:288-304 | called, looked up, sent and published: every live receiver of the mapped room and no other has the frame, and one message for it is on the bus |
| `FleetProgress.BroadcastArrives` | src/redis_rooms.rs:276-304 | once the loop of another node has caught up, every listener there in the room of the same channel has the frame |
| `FleetProgress.LoopCatchesUp` | src/redis_rooms.rs:393-408 | a loop left to work takes every message on the bus, and a listener's log then holds behind what it had exactly those accepted for its room |
| `FleetProgress.LostIsNeverDelivered` | src/redis_rooms.rs:284-287 | a message lost on the way to a node never reaches a receiver there |
| `FleetProgress.CallPublishes` | src/redis_rooms.rs:302-316 | publishing puts one message on the channel prefix + room that decodes to the node's id and the frame |
| `FleetProgress.PublishOnlyPublishes` | src/redis_rooms.rs:306-316 | so does a publish without a send |
| `FleetProgress.OutsiderPublishes` | src/redis_rooms.rs:393-408 | an outsider's message is on the bus as it is |
| `FleetProgress.HolderReachesItsRoom` | src/room.rs:89-99 | a send by one that holds the room reaches exactly its live receivers |
| `FleetProgress.CreateRoomMaps` | src/room.rs:368-386 | a room asked for is mapped as it was, or to the one instance made for it |
| `FleetProgress.RemoveRoomUnmaps` | src/room.rs:294-302 | exactly this room is unmapped, and making and removing it leaves the maps as they were |
| `FleetProgress.RemovedRoomHearsNoBus` | src/room.rs:294-302 | over any later run, also when a room of that id is made again, the listeners of a removed room get nothing more from the bus |
| `FleetProgress.ReceiversComeAndGo` | src/room.rs:75-77 | a new receiver listens with nothing heard; leaving ends one receiver and takes back nothing |
| `FleetProgress.GoneHearsNothing` | src/room.rs:75-77 | a receiver that has left hears nothing in any later run |
| `FleetTheorems.FramesComeFromSomewhere` | src/redis_rooms.rs:324-337 | every logged frame was sent on that instance by its node, or is the unchanged frame of a message on the channel prefix + room published under another id |
| `FleetTheorems.CallsReachTheirChannel` | src/redis_rooms.rs:253-261 | a call reaches only rooms of its channel: the same room under equal prefixes, nothing between prefixes neither of which begins the other, nothing between nodes with equal ids |
| `FleetStreams.RemoteFramesKeepPublishOrder` | src/redis_rooms.rs:393-408 | the remote frames in a log are, in order, a subsequence of the frames published to the channel |
| `FleetStreams.NothingMissing` | src/redis_rooms.rs:393-408 | without losses a steady listener is passed exactly the messages its node accepts for the room, each once and in order |
| `FleetStreams.PublishesAreWanted` | src/redis_rooms.rs:306-337 | what a node accepts includes every publish of a node with another id to the room's channel |
| `FleetStreams.WantedIsAccepted` | src/redis_rooms.rs:393-408 | the fleet's loop refines the registry's: handed the same messages, both take the same frames for a room |
| `FleetStreams.BroadcastCrossesTheFleet` | src/redis_rooms.rs:276-304 | a broadcast on one node reaches a steady listener on another |
| `FleetStreams.RoomsWereAskedFor` | src/redis_rooms.rs:317-337 | remote traffic never makes a room: a node hosts only rooms it was itself asked for |
| `Fleet.Reachable` | src/redis_rooms.rs:288-337 | every reachable state is well formed: messages are the encodings of their calls, rooms name instances of their own node and id, logs hold only sent or accepted entries in rising order |
| `Fleet.RunKeeps` | src/redis_rooms.rs:288-337 | over any run calls keep where they sent, messages and instances stay, frontiers only advance and logs only grow |
| `Fleet.NextLog` | src/redis_rooms.rs:294-334 | one step changes logs only by a delivery, which reaches exactly the live receivers of its instance |
| `Envelope.DecodesIffEncodes` | src/redis_rooms.rs:132-168 | bytes decode to a node id and a frame exactly when they are its encoding, so envelopes and pairs are in bijection |
| `Envelope.EnvelopeLayout` | src/redis_rooms.rs:98-145 | a one, 16 octets of publisher, a zero for text or a one for binary, and the payload from octet 18 on |
| `Envelope.FailsClosed` | src/redis_rooms.rs:150-168 | decoding fails exactly on a short header, another version, an unknown kind, or a text payload that is no UTF-8 |
| `Envelope.EncodeEnvelope` | src/redis_rooms.rs:134-145 | the buffer pushes yield version, node id, kind, payload, which the bijection then inverts |
| `Envelope.ChannelNamesRoundTrip` | src/redis_rooms.rs:254-261 | a channel carries a room id under a prefix exactly when it is that room's channel |
| `Envelope.PrefixesThatMeet` | src/redis_rooms.rs:254-261 | two prefixes can name a common channel exactly when one begins the other |
| `Utf8.DecodeEncode` | src/redis_rooms.rs:160 | a text's UTF-8 decodes to the text |
| `Utf8.EncodeDecode` | src/redis_rooms.rs:160 | bytes accepted as UTF-8 are the encoding of what they decode to |
| `Utf8.SectionSevenExamples` | src/redis_rooms.rs:160 | the encoder agrees with examples of section 7 of RFC 3629, characters of all four lengths among them |
| `RedisRooms.RedisRoomRegistry.Broadcast` | src/redis_rooms.rs:288-304 | the room is mapped, its receivers and no others get the frame, the copies or a drop are counted and the gauge keeps its distance to the room map; one envelope is published if the connection accepts it, and a failed publish is reported with the local delivery standing |
| `RedisRooms.RedisRoomRegistry.Publish` | src/redis_rooms.rs:307-316 | one envelope on the room's channel, or the connection's error and nothing published |
| `RedisRooms.RedisRoomRegistry.ApplyRemote` | src/redis_rooms.rs:326-337 | another node's frame reaches the receivers of the hosted room and no others, and is counted as copies or, with none to reach, a drop; own echoes, unhosted rooms and malformed bytes change and count nothing; the room map is kept |
| `RedisRooms.RedisRoomRegistry.RunSubscriber` | src/redis_rooms.rs:393-408 | over a whole stream every receiver of every hosted room is sent, in order, exactly what the node accepts for its room, and the recorder holds the record of each such send and nothing else; malformed messages do not stop the loop |
| `RedisRooms.StreamedStep` | src/redis_rooms.rs:398-406 | that closed form grows with each message by exactly what the one message does |
| `RoomRace.OneInstancePerId` | src/room.rs:368-386 | at most one instance is mapped per id, and every instance given to a caller is or was mapped under that id |
| `RoomRace.LostRaceIsNeverSeen` | src/room.rs:376-385 | an instance that lost its race is never mapped and never returned |
| `RoomRace.RemovedStaysRemoved` | src/room.rs:294-302 | a removed instance is never mapped again |
| `RoomRace.CallersAgreeBetweenRemovals` | src/room.rs:368-386 | in any stretch without a removal of the id all callers are given the same instance |
| `RoomRace.GaugeIdentity` | src/stats.rs:145-160 | in every state the gauge is mapped rooms, plus creators before their insert, plus lost races, plus removers before their closing; the saturating branch is never taken |
| `RoomRace.GaugeAtRest` | src/room.rs:373-379 | at rest the gauge exceeds the rooms by the races ever lost, so it is right exactly when none was |
| `RoomRace.TurnsKeepTheGauge` | src/room.rs:368-386 | if no `get_or_create` of an id starts while another of that id is under way, no race is lost and the gauge is right at rest |
| `RoomRace.TurnsLoseNoRace` | src/room.rs:368-386 | in every state of such a run an id has one maker at most, and a maker past its lookup finds the id unmapped |
| `RoomRace.GaugeDoesNotConverge` | src/room.rs:376-379 | a run that loses one race and removes the room ends with no rooms and the gauge at one |
| `RoomRace.AlwaysConsistent` | src/room.rs:289-386 | in every state map and fates of instances agree and a private instance has one creator under way |
| `RoomRace.CallIsAnswered` | src/room.rs:368-386 | however it is interleaved, a `get_or_create` ends by returning the instance its id is mapped to at that moment, its own or the winner's |
| `RoomRace.AloneCreates` | src/room.rs:368-386 | undisturbed, a `get_or_create` of an unmapped id maps one new instance, raises the gauge by one and returns that instance |
| `RoomRace.AloneFinds` | src/room.rs:369-371 | undisturbed, a `get_or_create` of a mapped id returns its instance and changes nothing |
| `RoomRace.AloneGet` | src/room.rs:289-291 | undisturbed, `get` returns what is mapped and changes nothing |
| `RoomRace.AloneRemoves` | src/room.rs:294-302 | undisturbed, `remove` takes the mapped instance out, lowers the gauge by one and returns it |
| `RoomRace.AloneRemovesNothing` | src/room.rs:294-302 | undisturbed, `remove` of an unmapped id changes nothing |
| `Traffic.BooksBalance` | src/stats.rs:165-231 | in every state of every run a room's counters plus what is pending for them equal what its instances' receivers got and what its calls did, and each global equals the rooms' sum plus loose records up to exactly what is pending |
| `Traffic.AtRestTheBooksAreExact` | src/room.rs:89-99 | at rest messages out, bytes out and drops of a room are the copies delivered, their length and the failed calls, and each global is the sum over rooms plus the unattributed records |
| `Traffic.AtRestSendsPlusDropsAreCalls` | src/room.rs:89-158 | at rest successful sends plus drops are the broadcast calls |
| `Traffic.BooksOnlyGrow` | src/stats.rs:233-274 | also with calls under way, a room once listed stays listed in every later state and no counter ever falls |
| `Traffic.NextRoomBalanced` | src/room.rs:89-99 | every single step keeps a room's balance |
| `Traffic.NextGlobalBalanced` | src/stats.rs:207-231 | every single step keeps each global's balance |
| `Traffic.DeliverCopies` | src/room.rs:91-94 | a send adds to the logs of a room's receivers as many copies as receivers were live on the instance |
| `Traffic.DeliverBytes` | src/room.rs:96 | and as many bytes as the frame's length times that number |
| `Traffic.UndisturbedBroadcast` | src/room.rs:89-99 | undisturbed, a broadcast hands every live receiver the frame and counts copies and bytes on room and globals, or hands out nothing and counts one drop on both |
| `Traffic.UndisturbedRoomIn` | src/stats.rs:207-213 | undisturbed, an inbound message of a room counts once, with its bytes, on room and globals |
| `Traffic.UndisturbedLooseIn` | src/stats.rs:165-179 | undisturbed, an inbound record without a room counts on the globals and as loose |
| `Traffic.UndisturbedLooseOut` | src/stats.rs:183-197 | so does an outbound one |
| `Traffic.UndisturbedLooseDrop` | src/stats.rs:200-204 | so does a drop |
| `Traffic.ListenersComeAndGo` | src/room.rs:75-77 | a new room has no listeners, subscribing adds one that heard nothing, leaving takes away one that was live |
| `Stats.StatsRecorder.DecConnections` | src/stats.rs:137-142 | a saturating update of the value met, then the result of a later load that other threads may precede |
| `Stats.StatsRecorder.RoomOpened` | src/stats.rs:145-151 | the gauge rises by one, nothing else changes |
| `Stats.StatsRecorder.RoomClosed` | src/stats.rs:154-160 | the gauge falls by one, saturating at zero |
| `Stats.StatsRecorder.RecordMessageIn` | src/stats.rs:165-179 | one message and its bytes on the globals only: the state its atomic additions lead to, rolled up as before, with no room forgotten and no counter lower |
| `Stats.StatsRecorder.RecordMessageOut` | src/stats.rs:183-197 | the messages and bytes on the globals only, with the same guarantees |
| `Stats.StatsRecorder.RecordDrop` | src/stats.rs:200-204 | one drop on the globals only, with the same guarantees |
| `Stats.StatsRecorder.RecordRoomMessageIn` | src/stats.rs:207-213 | the same amounts on the room, made on demand, and the globals, with the same guarantees |
| `Stats.StatsRecorder.RecordRoomMessageOut` | src/stats.rs:217-223 | the same amounts on the room and the globals, with the same guarantees |
| `Stats.StatsRecorder.RecordRoomDrop` | src/stats.rs:226-231 | one drop on the room and the globals, with the same guarantees |
| `Stats.StatsRecorder.TakeSnapshot` | src/stats.rs:235-265 | every room ever listed, and each global at least the sum of its rooms |
| `Stats.UndisturbedRoomRecord` | src/stats.rs:207-223 | the four atomic additions of a room record, undisturbed, amount to one update of the room and one of the globals |
| `Stats.ApplyAllLead` | src/stats.rs:165-231 | any additions move a global's lead over the sum of its rooms by exactly what they add to the global less what they add to rooms |
| `Stats.RecordKeeps` | src/stats.rs:165-231 | every recording call keeps each global at least the sum of its rooms, forgets no room and lowers no counter |
| `Rooms.Room.Broadcast` | src/room.rs:89-99 | reaches every receiver of this instance and no one else, and counts copies and bytes, or fails with `BroadcastFull` and counts a drop |
| `Rooms.Room.Subscribe` | src/room.rs:75-77 | a new receiver with nothing sent to it yet |
| `Rooms.Room.IsEmpty` | src/room.rs:143-145 | neither participants nor receivers |
| `Rooms.RoomManager.Get` | src/room.rs:289-291 | the mapped room, if any |
| `Rooms.RoomManager.GetOrCreate` | src/room.rs:368-386 | the mapped room, or a fresh empty one now mapped; the gauge stays exact and the traffic counters untouched |
| `Rooms.RoomManager.Remove` | src/room.rs:294-302 | exactly this id leaves the map; the gauge stays exact |
| `Rooms.RoomManager.TotalParticipants` | src/room.rs:310-315 | the sum of the participants over all rooms |
| `Rooms.RoomManager.Cleanup` | src/room.rs:318-337 | removes exactly the rooms without participants and receivers, returns how many, keeps the gauge exact and the total of participants |
| `Rooms.RoomManager.CleanupEmpty` | src/room.rs:341-360 | the same for the rooms without participants |
| `Rooms.DropUnattended` | src/room.rs:318-360 | dropping any set of rooms without participants keeps the total and shrinks the map by their number |
| `Rooms.JoinAddsOne` | src/room.rs:102-104 | a join adds one to the total of participants if the participant is new to the room |
| `Rooms.FramesHandedOut` | src/room.rs:91-96 | what a send counts as messages is what all receivers together gained in frames |
| `Rooms.BytesHandedOut` | src/room.rs:96 | what it counts as bytes is what they gained in bytes |
| `Counter.ConnectionCounter.Increment` | src/counter.rs:49-68 | under any interference: at most one write, from a value below the limit met by both load and compare-exchange to its successor; refusal only on a value at the limit, with nothing written; accesses bounded by the interference |
| `Counter.ConnectionCounter.Decrement` | src/counter.rs:73-84 | saturating update of the value met, then the result of a later load |
| `CounterRace.WinnersCountUp` | src/counter.rs:45-68 | under any schedule the count never exceeds the limit, and the counts handed out are 1 to the current count, each once |
| `CounterRace.ExactlyTheLimitWins` | src/counter.rs:45-68 | when all calls have returned exactly min(n, limit) succeeded |
| `CounterRace.FewFailures` | src/counter.rs:57-65 | at most n(n-1)/2 compare-exchanges fail |
| `CounterRace.EveryRunEnds` | src/counter.rs:52-66 | every run ends: at most n(n+1) atomic accesses |
| `CounterRace.Reachable` | src/counter.rs:49-68 | the invariant and the contention potential hold in every state |
| `CounterRuns.NeverPastTheLargestLimit` | src/counter.rs:45-68 | with capped callers the count never exceeds the largest limit in use, also with decrements among them |
| `CounterRuns.CappedTickDecides` | src/counter.rs:53-56 | the access that starts a capped call refuses exactly when the count has reached the limit, and changes nothing else |
| `CounterRuns.UndisturbedCappedGrant` | src/counter.rs:52-63 | below the limit, undisturbed, a capped call is granted and raises the count by one |
| `CounterRuns.CappedCallEnds` | src/counter.rs:52-67 | however often it retries, a capped call ends at an access of its own: refused on a count at the limit with nothing changed, or granted on a count below it, which it raises |
| `CounterRuns.UncappedGrant` | src/counter.rs:51 | without a limit one access grants it |
| `CounterRuns.UndisturbedDecrement` | src/counter.rs:73-84 | undisturbed, a decrement takes one off, saturating at zero, and reports what it left |
| `CounterRuns.NoMoreThanOutstanding` | src/counter.rs:49-84 | the count never exceeds the increments granted and not released, even in unbalanced runs |
| `CounterRuns.BalancedCountIsExact` | src/counter.rs:49-84 | in balanced runs the count is exactly the current holders in every state, and no decrement ever finds zero |
| `CounterRuns.BalancedReturnsToZero` | src/counter.rs:70-84 | when all holders have released the count is zero |
| `CounterRuns.DecrementMayReportALaterCount` | src/counter.rs:72-83 | a run in which a decrement leaves one and returns zero |
| `CounterRuns.DecrementReportsItsOwnIff` | src/counter.rs:72-83 | whatever the others do between a decrement's update and its load, it reports the count at the load, which is the count it left exactly when as many of their accesses in between grant an increment as release one |
| `CounterRuns.CellIsNet` | src/counter.rs:49-84 | over any run the cell moves by grants minus releases and by nothing else |
| `OriginTheorems.SameNormalFormIffSameOrigin` | src/origin.rs:18-70 | two well-formed origins, with white space around them or not, have one normal form exactly when lowercased scheme, lowercased host and effective port agree |
| `OriginTheorems.AllowedIffListed` | src/origin.rs:83-94 | a list admits an origin exactly when it is empty or some entry has its triple, and a missing one exactly when it is empty |
| `OriginTheorems.EmptyListAdmitsAll` | src/origin.rs:84-86 | the empty list admits every value and a missing one |
| `OriginTheorems.NormalFormIsCanonicalText` | src/origin.rs:27-42 | the normal form of an origin's text is the text of its canonical origin |
| `OriginTheorems.IdempotentUnlessPortDroppedAfterSpace` | src/origin.rs:27-42 | for every string, normalising twice is normalising once exactly unless a port is dropped after a host ending in white space |
| `OriginTheorems.PortDroppedAfterSpaceFamily` | src/origin.rs:33-41 | every plain host ending in white space with a dropped port is such an exception |
| `OriginTheorems.PortDroppedAfterSpaceExample` | src/origin.rs:33-41 | `http://h :80` is one |
| `OriginTheorems.NoSchemeMatchesNothing` | src/origin.rs:25-31 | a value without `://` matches no well-formed entry |
| `OriginTheorems.DefaultPortIsDropped` | src/origin.rs:63-70 | the decimal text of a port counts as default exactly when it is the scheme's default port |
| `OriginTheorems.DefaultIffNumeral` | src/origin.rs:63-70 | over all texts, a port counts as the default exactly when it is the scheme's default number, behind any zeros and perhaps a plus sign |
| `OriginTheorems.ParsesIffNumeral` | src/origin.rs:64 | a text parses as a number of 16 bits exactly when it is that number's decimal digits, behind any zeros and perhaps a plus sign |
| `OriginTheorems.AnyPortIsKept` | src/origin.rs:33-41 | a port of any text is kept as it is unless it is empty or the default |
| `OriginTheorems.NoPortIsFolded` | src/origin.rs:45-60 | an authority without a port, brackets that never close or are not followed by a colon included, is folded whole |
| `OriginTheorems.NoSchemeIsFolded` | src/origin.rs:28-31 | a value without `://` is only trimmed and folded |
| `Strings.TrimTakesSpaces` | src/origin.rs:28 | trimming takes off white space at both ends, all of it and nothing else |
| `Strings.SpacesAreListed` | src/origin.rs:28 | white space is the 25 characters with that Unicode property |
| `Strings.LettersAreFolded` | src/origin.rs:30-34 | folding takes each capital letter to the small one at its place and keeps every other character |
| `Origin.Normalize` | src/origin.rs:27-42 | building the text in place yields the normal form the theorems are about |
| `Origin.NormalizeTrimmedTwice` | src/origin.rs:27-42 | past trimming, a second normalisation changes nothing, for every string: unclosed brackets, text after a bracket and several colons included |
| `Origin.AuthorityShapes` | src/origin.rs:45-60 | host and port reassemble the authority, a bracketed host ends at its first bracket, a plain one holds no colon |
| `Origin.AuthorityReadsBack` | src/origin.rs:45-60 | splitting the folded host with its port, or without one, gives them back |
| `ExtractorTheorems.QueryRoundTrip` | src/extractor.rs:185-207 | for every list of pairs in every valid spelling the answer is the first non-empty value under the name, and none otherwise |
| `Spelling.DecodeUndoesWriting` | src/extractor.rs:232-272 | decoding undoes every spelling: literals, plus signs, escapes with digits in either case valued by their place in the table, and broken or cut-off escapes that stand for themselves |
| `Spelling.EveryTextIsSpelled` | src/extractor.rs:232-263 | every text is such a spelling, so decoding is determined on all texts |
| `Spelling.HexValIsPlace` | src/extractor.rs:265-272 | a character has the value n exactly when it stands at place n of the digit table in lower or upper case |
| `Spelling.BrokenIsKept` | src/extractor.rs:244-248 | a percent sign and two characters that are not both digits are kept as they are, and are one group |
| `ExtractorTheorems.AnyParameterComesBack` | src/extractor.rs:185-272 | every key with every non-empty value can be passed, escaped in either case, and comes back |
| `ExtractorTheorems.EveryQueryIsRead` | src/extractor.rs:185-207 | every query whatever is a way of writing some pairs behind some question marks, and is answered as they say |
| `ExtractorTheorems.ConvertsIffVisible` | src/extractor.rs:151-156 | a header value converts to a text exactly when it is its encoding and the text is visible |
| `RequestTheorems.SourceAnswers` | src/extractor.rs:121-142 | each source answers with its own token of the request: behind the Bearer scheme, in the first parameter, in the first cookie |
| `RequestTheorems.FirstSourceWins` | src/extractor.rs:115-143 | the search returns the token of the first source in order whose token the request has, and nothing when it has none |
| `RequestTheorems.HeadersCarryText` | src/extractor.rs:151-156 | visible text sent as a header value is read as that text, so the search over request parts sees the same request |
| `ExtractorTheorems.EscapedUtf8ComesBackIffAscii` | src/extractor.rs:238-243 | text whose UTF-8 octets are escaped comes back exactly when it is ASCII |
| `ExtractorTheorems.EscapedUtf8Example` | src/extractor.rs:238-243 | `%C3%A9`, the escaped UTF-8 of an accented e, does not come back |
| `CookieTheorems.CookieRoundTrip` | src/extractor.rs:216-229 | for every list of parts, with an equals sign or without, the answer is the first non-empty value under the name, freed of the white space around name and value, of any outer quotes and of escapes |
| `CookieTheorems.BakedComesApart` | src/extractor.rs:218-223 | a part comes apart into just its name and its value as spelled |
| `CookieTheorems.EveryHeaderIsRead` | src/extractor.rs:216-229 | every Cookie header whatever is a way of writing some parts, and is answered as they say |
| `ExtractorTheorems.BearerMeaning` | src/extractor.rs:158-183 | the byte-wise check amounts to `bearer ` in any case followed by something other than white space, on every text; cutting at byte seven never splits a character |
| `Extractor.UrlDecode` | src/extractor.rs:232-263 | the loop computes the decoding that `Spelling` determines on all texts |
| `Extractor.DecodeGroup` | src/extractor.rs:236-260 | one turn consumes and appends exactly the group at the head, cut-off and broken escapes included |
| `Extractor.ExtractQueryParam` | src/extractor.rs:185-207 | the answer of the first pair that has one |
| `Extractor.ParseCookie` | src/extractor.rs:216-229 | the answer of the first cookie that has one |
| `Extractor.ExtractFromParts` | src/extractor.rs:115-143 | the answer of the first source in order that has one, and never an empty token |
| `Extractor.ExtractToken` | src/extractor.rs:89-110 | the same as `extract_from_parts` on the header values that convert to text |
| `Extractor.AnswersAreNonEmpty` | src/extractor.rs:115-229 | no source ever answers with an empty token |
| `Extractor.DecodedNonEmpty` | src/extractor.rs:232-263 | each group leaves a character, so a non-empty text never decodes to nothing |
| `Extractor.FirstSome` | src/extractor.rs:121-142 | the result is an answer with none before it, or there is none at all |
| `Compression.FrameRoundTrip` | src/compression.rs:192-249 | any reader gives any writer's frame back exactly when it is within the reader's cap and the cap plus one did not wrap; otherwise it is `PayloadTooLarge`, or empty after the wrap |
| `Compression.WrappedCapExample` | src/compression.rs:205 | a lossless codec, the largest cap and two bytes that come back as none |
| `Compression.PayloadComesBack` | src/compression.rs:161-214 | the same for payload envelopes |
| `Compression.WireNeverGrows` | src/compression.rs:167-184 | the wire form is never longer than payload plus two bytes, and shorter exactly when the payload is stored deflated |
| `Compression.WireLayout` | src/compression.rs:161-231 | the kind, then a zero and the payload if that is below the minimum size or deflating does not shorten it, else a one and the deflated form |
| `Compression.ReadIff` | src/compression.rs:192-214 | a payload envelope is read as some data exactly when its flag is known, the data is within the cap, and it is the stored body or a stream that inflates cleanly to it |
| `Compression.RefusedIff` | src/compression.rs:200-212 | it is refused as too large exactly when it goes beyond the cap, clean or not, and as corrupt otherwise |
| `Compression.RestoredIff` | src/compression.rs:236-249 | a wire is read as a frame exactly when its first flag is known and tells the frame's kind and the rest is read as the frame's bytes |
| `Compression.OnlyKnownEnvelopes` | src/compression.rs:236-249 | what decodes had two known flag bytes, stays within the cap and has the kind its outer flag says |
| `Compression.IgnoredBits` | src/compression.rs:194-239 | the outer compressed bit and the inner text bit are accepted and ignored |
| `Compression.ReadToEnd` | src/compression.rs:205-209 | for every chunking at most `limit` bytes are drawn, and the result is the output cut there, or the error if the stream breaks before |
| `Compression.FrameCompressor.Decompress` | src/compression.rs:192-214 | for every envelope and chunking: the result of inflating everything and then checking the size, at most `max_size` bytes returned and at most one more drawn |
| `Compression.FrameCompressor.Compress` | src/compression.rs:161-186 | a zero and the payload if that is below the minimum size or deflating does not shorten it, else a one and the deflated form |
| `Compression.FrameCompressor.CompressFrame` | src/compression.rs:221-231 | two flag bytes, the outer one for the kind |
| `Compression.FrameCompressor.DecompressFrame` | src/compression.rs:236-249 | the frame the round trip is about, whatever the chunks |

## Left out

- Redis connections, URLs, reconnecting, async locks and error mapping: a publish takes the connection's verdict as a parameter, and a failed one leaves its call at `Sent`.
- PSUBSCRIBE glob patterns: the exact prefix check of `room_id_from_channel` is the filter.
- tokio's channel internals (ring capacity, lag eviction, wakers) and DashMap's sharding: a send is one atomic append to all live receivers' logs, a map operation one atomic step.
- `Fleet` takes the choice of the room for a broadcast as one atomic step; `RoomRace` has that race in full.
- Relaxed memory beyond a single cell, wrap-around of 64-bit counters and 32-bit `usize`; `fetch_update` is one atomic step.
- `RoomRace` has a recorder attached; without one there is no gauge.
- Increment: takes the interference of other threads as a sequence of values met; that other threads keep the limit too is in `CounterRace` and `CounterRuns`.
- `cleanup` and `cleanup_empty` racing with other calls: their scan and removal are separate steps, so only the sequential property is claimed.
- Calls of `record_room_message_out` and `record_room_drop` from outside `Room::broadcast`, and sends through the raw `sender()`: both go past the accounting of `Traffic`.
- TakeSnapshot: is one atomic read; a snapshot taken during traffic may mix moments.
- DEFLATE itself and its encoder's errors: any pair of functions will do, lossless where a round trip needs it.
- FrameRoundTrip: states the wrapped cap as a build without overflow checks has it.
- The JSON codec, `extension_accepted`, `src/hub.rs`, `src/config.rs`, error messages, the metrics facade, `Debug` output and benches.
- The randomness of `generate_node_id`: ids are arbitrary, and what a collision does is proved.
- SameNormalFormIffSameOrigin: ports are decimal numbers without leading zeros and hosts hold no white space, as RFC 6454 serialises them; what other texts normalise to is in `OriginTheorems.AnyPortIsKept`, `NoPortIsFolded` and `NoSchemeIsFolded`.
