# A verified model of sharechat.dev

sharechat.dev is a chat server: a room is a topic on a queue, and any number of Controller instances
serve its members, each member through three goroutines of its own. This project models what is hard
about it in Dafny 4.11 and proves it. `dafny verify dfyconfig.toml` checks everything.

## What is modelled

**The room as a pipeline of goroutines** (`Session.dfy`, `Pipeline.dfy`). A transition system with a
program counter for every goroutine: per member `ServeRoom`, `Listen`, `Broadcast` and `Publish`; per
instance the queue's forwarder, `Controller.Subscribe`'s forwarder and `Room.Start`. Channels are
unbuffered, so a send and its receive are one step. The scheduler, the failures of external calls and
the expiry of the two set-up waits are left open. The topic is one ordered log; a memory queue hands
each message straight to its one subscriber (sharechat/memory/queue.go:22-42), a Redis topic keeps an
index per instance (sharechat/redis/queue.go:24-53). A member added during a fan-out may or may not be
visited by it. The contexts are those the server passes (sharechat/http/server.go:46,
sharechat/http/server.go:171): the room's never expires, so `notifyMember` always sends. Each step of
the model and the code it stands for:

- `Own(ListenReady)`, `Own(ListenExpired)`, `Own(BroadcastReady)`, `Own(BroadcastExpired)`: sharechat/member.go:118-134, with the branches at sharechat/controller.go:96-116
- `Stored(JoinedRow)`, `Own(InsertMemberFails)`, `Own(CloseInbound)`, `Own(StopBroadcast)`: sharechat/controller.go:118-123
- `Joined`, then `Published` or `PublishFailed` of the joined message, then `Own(StartBroadcast)`: sharechat/controller.go:125-138
- `Own(Read)`, `Own(Hangup)`, `Own(HandOver)`: sharechat/member.go:79-95
- `Stored(ChatRow)`, `Own(InsertFails)`, `Own(ReportFailure)`, `Published`, `PublishFailed`: sharechat/controller.go:191-203
- `Stored(LeftRow)`, `Own(DeleteFails)`: sharechat/controller.go:181-190
- `Taken`, `Forwarded`, `Accepted`: sharechat/memory/queue.go:31-38, sharechat/redis/queue.go:37-51, sharechat/controller.go:224-235
- `Accepted`, `Notified`, `FannedOut`: sharechat/room.go:96-117; `Own(Write)`, `Own(ListenEnd)`: sharechat/member.go:62-72

`PipelineSafety.dfy` proves one invariant over all of them; `Guarantees.dfy`, `Progress.dfy`,
`Draining.dfy` and `Refinement.dfy` draw the conclusions, and `Witness.dfy` gives concrete runs.

**Set-up and the room, sequentially** (`Setup.dfy`, `MemberRepo.dfy`). The classes behind those steps,
with their fields updated in place: the room cache, the room's member map and fan-out loop, and the
member repository with its rollback. `Setup.UndisturbedOutcome` ties them to the transition system, and
both use `Pipeline.Staying` for the members a message leaves in a room. CreateRoom
(sharechat/controller.go:43-69) is there too, with the contract that cache and room repository both get
the running room or neither does.

**Message history** (`History.dfy`, `MessageRepo.dfy`, `Walk.dfy`, `Ties.dfy`, `Postgres.dfy`,
`Unlimited.dfy`, `Handler.dfy`). `History.IsPage` says what a page is; the in-memory sort-and-scan loop is proved against
it, the Postgres query is compared with it, and whole walks of a client through either repository are
characterised, with writers in between and with tied timestamps.

**The cursor codec** (`Rfc3339.dfy`, `Calendar.dfy`, `Base64.dfy`, `Cursor.dfy`). Printer and parser of
`base64(ID "," timestamp)`: base64 as in section 4 of RFC 4648, the timestamp as in section 5.6 of
RFC 3339 with the trailing zeros of the fraction dropped. `Calendar.dfy` says what the instant of a clock
reading is, which is what the orders of pages compare.

## Where the code does less than it promises

Each item names the exact condition and a lemma at a failing input.

- A Before walk over tied timestamps in memory can repeat messages and need never end: the condition is
  `Ties.WalkExactlyOnce`, the failing walk `Ties.TwinsWalkForever`. The same holds of After walks
  (`Ties.TwinsAlternate`).
- A Before walk in Postgres can skip or repeat tied rows, because the filter compares `message_id`
  downward while the order runs it upward: `Postgres.BeforeWalkExactlyOnce`, failing at
  `Postgres.TiedRowIsSkipped`.
- Without a limit Postgres stops at 100 messages and the memory repository does not:
  `Postgres.RepositoriesAgree`, failing at `Unlimited.OnlyTheNewestHundred`.
- A member whose left message the queue refuses stays in the room's map for good:
  `Guarantees.RoomBeyondRepository` and `Guarantees.RefusedLeaverNeverGoes`, in the run
  `Witness.RefusedLeaverStays`.
- README.md:94 says a message that could not be published is deleted. The code only logs
  (sharechat/controller.go:200-202), so nothing is ever deleted (`Guarantees.StoredStays`), and what the
  queue refused is in neither the topic nor on its way there (`Guarantees.StoredIsAccountedFor`); the run
  is `Witness.RefusedChatStays`.
- The exported cursor codec is faithful only if the ID has no comma, the year has four digits and the
  offset is a whole number of minutes: `Cursor.RoundTripExactly`, failing at `Cursor.CommaIsRefused`,
  `Cursor.LongYearIsRefused` and `Cursor.OffsetSecondIsLost`. The server's own cursors carry UUIDs and
  clock readings, which meet the condition.

## Model

| member | source | states |
|---|---|---|
| `PipelineSafety.InvariantKept` | sharechat/controller.go:71-238 | every step of every goroutine keeps the invariant that ties sessions, repository, both logs, delivery windows, rooms and membership together |
| `PipelineSafety.RunInvariant` | sharechat/controller.go:71-238 | the invariant holds in every state of every run, for any number of members and instances |
| `Guarantees.DeliveryIsContiguous` | sharechat/room.go:94-118 | in every run, what a connection was given, SendFailed notices aside, is one contiguous piece of the room's topic: no gap, duplicate or reordering; before AddMember it is nothing |
| `Guarantees.StartsWhereAdded` | sharechat/controller.go:130 | that piece starts at the entry the room was to handle next when AddMember took effect, or, during a fan-out, at the entry being handled or the one after, and stays there for the rest of the run |
| `Witness.LateJoinerEitherWay` | sharechat/room.go:112-114 | one run with a member just added during a fan-out, continued both ways: the loop still sends it the message, and its start moves back by one; or the loop ends without it, and its start stays |
| `Guarantees.NothingTwice` | sharechat/controller.go:172-208 | in no run is a message stored twice, published twice, or delivered twice to the same member |
| `Guarantees.SameOrder` | sharechat/controller.go:210-238 | two messages that two members have both been given, on any instances, stand in the same order and equally far apart for both |
| `Witness.InstancesShareTheRoom` | sharechat/redis/queue.go:24-53 | a concrete run in which a message published on one instance is written to a member served by another (README.md:96) |
| `Guarantees.StoredBeforePublished` | sharechat/controller.go:192-203 | a step publishes at most one message, and it is in the repository already (README.md:94) |
| `Guarantees.DeliveredWasStored` | sharechat/controller.go:192-203 | every room message written to anyone was published and stored |
| `Guarantees.MemberLifeCycle` | sharechat/controller.go:172-208 | a member's stored messages are joined, then chats, then at most one left as the last; the published ones are a subsequence in the same order |
| `Guarantees.StoredIsAccountedFor` | sharechat/controller.go:118-136 | a stored message is stored once and is exactly one of: published, once; refused by the queue; on its way to the queue |
| `Guarantees.StoredStays` | sharechat/controller.go:200-202 | the repository's log only grows, so a message is kept whether or not it could be published |
| `Witness.RefusedChatStays` | sharechat/controller.go:192-202 | a concrete run to rest in which a refused chat is stored, unpublished, and its sender was told nothing |
| `Guarantees.WordsAreKept` | sharechat/message.go:116-147 | in every run, each message stored, published or written to anyone carries its sender's id, name and room and either a chat exactly as read from the sender's connection or the fixed joined or left text |
| `Guarantees.ReadsAreRecorded` | sharechat/member.go:84-94 | what a session is recorded to have read is exactly what its connection gave, in order |
| `Guarantees.ChatsAreConserved` | sharechat/controller.go:192-203 | a chat read from a connection, ID and text, is at any moment exactly one of in flight, stored once, or refused; written and due SendFailed notices number exactly the refusals |
| `Witness.RefusedInsertIsReported` | sharechat/controller.go:193-197 | a concrete run to rest in which the repository refuses a chat and its sender alone is told |
| `Guarantees.NoticesStayPrivate` | sharechat/message.go:149-158 | a SendFailed notice is never stored or published, and is written only to its own sender |
| `Guarantees.NoSendOnClosed` | sharechat/room.go:144-153 | no goroutine ever sends on a closed member inbound channel, whatever ServeRoom returned |
| `Guarantees.RefusedLeavesNothing` | sharechat/controller.go:97-123 | after a set-up error the member is in no room and not in the repository, has nothing stored, published or written, and its Publish loop never started or has ended |
| `Guarantees.AcceptedIsComplete` | sharechat/controller.go:125-138 | when ServeRoom returns nil or ErrFailedToPublish, the member is in room and repository with its joined message stored and broadcasting enabled, and that message is published exactly when the result is nil |
| `Guarantees.RepositoryInRoom` | sharechat/controller.go:118-130 | under any failures, a live repository member is in its room's map or between InsertMember and AddMember |
| `Guarantees.RoomBeyondRepository` | sharechat/room.go:105-110 | a member is in the room's map but not in the repository if and only if its left message is stored and in flight, or is one the queue refused |
| `Guarantees.RefusedLeaverNeverGoes` | sharechat/controller.go:187-190 | once the queue has refused a left message, its member is in the room's map and not in the repository for the rest of the run |
| `Witness.RefusedLeaverStays` | sharechat/controller.go:181-190 | a concrete run to rest that ends in this state |
| `Witness.RefusedDeleteKeepsBoth` | sharechat/controller.go:181-186 | a concrete run to rest in which the repository refuses the deletion and the member stays in both |
| `Progress.StuckIsQuiescent` | sharechat/controller.go:172-238 | deadlock freedom: the states where no goroutine can move by itself are exactly those with nothing in flight, and otherwise a step is enabled that is no failure |
| `Draining.InternalUsesWork` | sharechat/controller.go:172-238 | every step that needs no client input, failing or not, decreases a measure weighting each stage by possible recipients |
| `Draining.InternalRunsEnd` | sharechat/controller.go:172-238 | a run without client input is no longer than the measure of its first state, and stops only with nothing in flight |
| `Draining.Drains` | sharechat/controller.go:172-238 | from every reachable state some failure-free run without client input reaches rest |
| `Draining.RestDelivered` | sharechat/member.go:60-73 | at rest every member still in a room has been written everything published from its start on |
| `Draining.RestAgrees` | sharechat/room.go:105-110 | at rest a room's map holds exactly its members in the repository and those whose left message the queue refused |
| `Refinement.StepIsMove` | sharechat/room.go:94-118 | every step of the pipeline is a named move of an append-only log with one read position per member, or invisible to it |
| `Refinement.RunRefines` | sharechat/controller.go:210-238 | every run shows a behaviour of that machine in which each reader has always read exactly what the member's connection was given |
| `Refinement.TopicByStages` | sharechat/controller.go:216-235 | topic since the subscription == handled by the room ++ held by the room ++ held by the subscribe goroutine ++ held by the queue goroutine ++ not yet taken |
| `Session.ActKeeps` | sharechat/member.go:60-134 | a session's own steps keep its control structure, life cycle, ledger of stored messages and conservation of chats; and nobody but Publish can take a failed set-up's stop token |
| `Session.SaveKeeps` | sharechat/controller.go:118-203 | storing a joined, chat or left message keeps them too, and makes the member live exactly when the message is not left |
| `Session.PublishKeeps` | sharechat/controller.go:132-136 | so does a publication, successful or not |
| `Setup.Controller.ServeRoom` | sharechat/controller.go:71-139 | the error of every failing call; nil and ErrFailedToPublish add the member to room map and repository and store the stamped joined message, nil alone publishes it, and everything else leaves room, stored messages and queue alone; every cached room keeps running and other rooms are untouched |
| `Setup.UndisturbedOutcome` | sharechat/controller.go:94-138 | the transition system, undisturbed, returns and leaves the goroutines as the sequential ServeRoom does |
| `Setup.Room.Handle` | sharechat/room.go:104-115 | one round of Room.Start: a leaver is removed first and sent nothing; everyone still there is sent the message once |
| `Setup.EveryoneGetsEverything` | sharechat/room.go:96-117 | over any number of rounds, members whose left message is not among the messages get all of them in order, and the others are out |
| `MemberRepo.Repo.InsertMember` | sharechat/memory/member.go:23-33 | member and joined message, with its text, are stored together; the rollback brings back the old members if and only if the member was not there before |
| `MemberRepo.Repo.DeleteMember` | sharechat/memory/member.go:47-57 | the left message, with its text, is stored and the member removed, or neither |
| `MemberRepo.Repo.GetMembersByRoom` | sharechat/memory/member.go:35-45 | exactly the members of the room, each once |
| `MessageRepo.Repo.InsertMessage` | sharechat/memory/message.go:23-29 | the message is filed under its ID, stamped with the clock reading |
| `MessageRepo.Repo.GetMessages` | sharechat/memory/message.go:31-81 | the sort-and-scan loop returns, in the requested direction and each once, the first min(limit, k) of the k matching messages, or all without a limit |
| `MessageRepo.SortSlice` | sharechat/memory/message.go:41-53 | some permutation in the given direction |
| `MessageRepo.ScannedIsPage` | sharechat/memory/message.go:55-78 | stopping the scan at the limit loses nothing that belongs on the page |
| `History.PageIsFirst` | sharechat/memory/message.go:31-81 | when the matching messages have a strict order, the page is its beginning |
| `Walk.InsertExtendsLog` | sharechat/memory/message.go:23-29 | with a fresh ID and a later clock reading, an insert appends to the insertion log |
| `Walk.BeforePage` | sharechat/memory/message.go:40-78 | a Before page is the reversed run of the room's log just below its cursor |
| `Walk.BeforeWalkContiguous` | sharechat/memory/message.go:31-81 | at any point of a Before walk, with inserts in between, nothing was skipped, repeated or reordered |
| `Walk.BeforeWalkIsSnapshot` | sharechat/memory/message.go:31-81 | a finished Before walk returns exactly the messages the room had at the first request, each once, newest first, whatever was inserted meanwhile |
| `Walk.BeforeWalkPageCount` | sharechat/memory/message.go:55-80 | a walk with limit k over n messages is finished exactly after ceil(n/k) non-empty requests and one empty one |
| `Walk.AfterWalkFollows` | sharechat/memory/message.go:31-81 | interleaved with inserts, and asking again whenever it has caught up, After pages join up to the contiguous run of the room's log behind the cursor; an empty page means the walk has caught up |
| `Ties.SameTimes` | sharechat/memory/message.go:41-53 | however ties fall, the timestamps of a listing come in the same order |
| `Ties.WalkExactlyOnce` | sharechat/memory/message.go:31-81 | a finished walk in either direction, from any message of the room, repeats nothing if and only if every page-closing timestamp differs from the one before it; and then it lists exactly what its first request matches, in order |
| `Ties.WalkEnds` | sharechat/memory/message.go:55-80 | under that condition every walk is finished exactly after ceil(n/limit) non-empty pages and one empty one |
| `Ties.TwinsAlternate` | sharechat/memory/message.go:60-74 | two messages of a room with one timestamp and limit 1: a walk of any length in either direction goes back and forth between them |
| `Ties.TwinsWalkForever` | sharechat/memory/message.go:60-70 | so does a Before walk that starts without a cursor |
| `Postgres.JoinKeepsRows` | migrations/20211014122441_create_messages.sql:14 | the join to members loses no row |
| `Postgres.RepositoriesAgree` | sharechat/postgres/message.go:72-120 | on the same content with distinct timestamps both repositories return the same page if and only if a limit is given or at most 100 messages match |
| `Unlimited.OnlyTheNewestHundred` | sharechat/postgres/message.go:78-81 | a store and a database of any size n > 100 with the same content: without a limit memory returns all n messages and Postgres the newest 100 |
| `Postgres.QueryWalkEnds` | sharechat/postgres/message.go:89-110 | every walk ends, ties or not, after at most as many non-empty pages as its first request selects rows |
| `Postgres.AfterWalkExactlyOnce` | sharechat/postgres/message.go:90-97 | an After walk returns everything behind its cursor, each once, for any pattern of ties |
| `Postgres.BeforeWalkExactlyOnce` | sharechat/postgres/message.go:98-110 | a finished Before walk lists the room's rows exactly once, in order, if and only if every page-closing message has a timestamp of its own |
| `Postgres.TiedRowIsSkipped` | sharechat/postgres/message.go:98-105 | two rows of a room with one timestamp and limit 1: a walk that starts without a cursor ends before it has shown the second, though its first request selects it |
| `Handler.GetRoomMessages` | sharechat/http/server.go:83-154 | refuses bad limits, undecodable cursors and two positions at once, else answers with the page, its size and `next`; `next` is empty exactly for an empty page or an empty last cursor |
| `Handler.AnsweredAsAsked` | sharechat/http/server.go:97-136 | a request with no negative limit and one string that holds a cursor is answered, by the page in front of that cursor (`before`) or behind it (`after`); without a limit the page holds everything that matches |
| `Handler.RefusedExactly` | sharechat/message.go:99-109 | a request is refused if and only if its limit is negative or no number, a string does not decode, or both strings hold non-empty cursors |
| `Handler.NextHoldsLast` | sharechat/http/server.go:140-152 | `next` decodes to the cursor of the last message, and is empty exactly for an empty page |
| `Handler.ClientWalksBefore` | sharechat/http/server.go:106-152 | every request of a client that passes `next` on as `before` is answered, and through the opaque strings it makes exactly a Before walk |
| `Handler.ClientSeesEverythingOnce` | sharechat/http/server.go:83-154 | repeating the request with `before` set to `next` until it is empty is never refused and shows every message of the room exactly once, in ceil(n/limit) non-empty answers |
| `Handler.ClientWalkExists` | sharechat/http/server.go:126-152 | over every store with a history and for every limit there is such a walk to its end |
| `Handler.ClientWalksAfter` | sharechat/http/server.go:106-152 | a client that passes `next` on as `after` is always answered and makes exactly an After walk |
| `Handler.ClientFollowsRoom` | sharechat/http/server.go:83-154 | following a room from one of its messages shows, without a gap, what was inserted after it, and an empty page means the client has caught up |
| `Cursor.Encode` | sharechat/message.go:57-64 | the encoding is empty exactly for the empty cursor |
| `Cursor.DecodeEncode` | sharechat/message.go:57-88 | what decoding an encoded cursor gives in every case, errors and the receiver's fields included |
| `Cursor.RoundTripExactly` | sharechat/message.go:57-88 | for every cursor of the exported type, ID and instant survive the round trip if and only if the cursor is empty or has a comma-free ID, a four-digit year and a whole-minute offset |
| `Cursor.PortableRoundTrip` | sharechat/message.go:57-88 | such a cursor comes back whole, zone included |
| `Cursor.CommaIsRefused` | sharechat/message.go:76-79 | a cursor with a comma in its ID is refused as malformed |
| `Cursor.LongYearIsRefused` | sharechat/message.go:81-85 | a cursor of the year 10000 is refused, with the ID assigned and the time reset |
| `Cursor.OffsetSecondIsLost` | sharechat/message.go:62-82 | a cursor with a second in its offset comes back one second off |
| `Cursor.CorruptIsRefused` | sharechat/message.go:67-74 | a non-empty string is refused as corrupt if and only if it is no base64 text, so whenever it has a foreign character; the receiver is unchanged, as it is for the empty string |
| `Cursor.MalformedIsRefused` | sharechat/message.go:76-79 | a decoded text is refused as malformed if and only if it has not exactly one comma; the receiver is unchanged |
| `Cursor.AcceptedIsPortable` | sharechat/message.go:66-88 | whatever is accepted is a cursor that survives being handed out again |
| `Rfc3339.FormatParse` | sharechat/message.go:62-82 | parsing a printed time succeeds exactly for four-digit years and loses only the seconds of the offset, through the trimmed fraction |
| `Rfc3339.TowardZero` | sharechat/message.go:62 | the seconds of an offset are cut off toward zero, east and west |
| `Rfc3339.ParsedIsCoherent` | sharechat/message.go:81-85 | whatever is parsed is a possible clock reading of a four-digit year, together with its instant |
| `Rfc3339.Section58` | sharechat/message.go:62 | two examples of section 5.8 of RFC 3339 are printed as they stand there |
| `Calendar.SecondAfterSecond` | sharechat/message.go:81 | the clock reading one second later, carried from seconds to years with the leap days of the Gregorian rule, is exactly one second later as an instant |
| `Calendar.NanosAndOffset` | sharechat/message.go:81 | nanoseconds count as such and an offset east makes the same fields that much earlier |
| `Calendar.Origin` | sharechat/message.go:53-55 | the zero time is 1 January of year 1 UTC, and the Unix epoch lies 62135596800 seconds later |
| `Calendar.InstantsFollowClocks` | sharechat/memory/message.go:41-75 | on clocks of one zone, instants are ordered as the clock readings are, field by field |
| `Base64.RoundTrip` | sharechat/message.go:63-71 | decoding undoes encoding for every byte string, through all three padding lengths |
| `Base64.SameBits` | sharechat/message.go:63 | three bytes and the four characters they become are the same 24-bit number |
| `Base64.TableOne` | sharechat/message.go:63 | the characters used are those of table 1 of RFC 4648, in its order |
| `Base64.Section10` | sharechat/message.go:63 | the short examples of section 10 of RFC 4648 |
| `Base64.DecodesExactly` | sharechat/message.go:71-74 | a text is decoded if and only if, line breaks aside, it is groups of four alphabet characters with padding at the end only |

## Left out

- Room shutdown with members present (sharechat/room.go:98-103): nothing closes a room after a successful set-up, and one stop token has two possible receivers.
- Overlapping set-up of one room ID, where the cache can briefly hand out an unsubscribed room: set-ups of one ID are assumed not to overlap.
- The memory queue with several subscribed rooms: it does not filter by room (sharechat/memory/queue.go:31-38), so its part of the model is one room on one instance.
- Redis as a reliable ordered log per room: lost connections, its buffer and messages that do not decode (sharechat/redis/queue.go:43-46) are not modelled.
- Room contexts with deadlines: `notifyMember` could then skip a member and delivery would only keep order.
- The update of the repository's row and of its log as one step: the code's database writes are taken to be atomic, and map accesses too.
- Goroutine leaks: a refused member's Listen or Broadcast may wait for ever, which counts as rest.
- Loops around receives, whose rounds are steps of the transition system, not loops with an end: `Listen`, `Broadcast`, `Publish` and the two forwarders.
- `sync.Mutex` and data races on the maps read without it.
- `Setup.Controller.ServeRoom`: is one call without interleaving, with the outcomes of external calls as parameters; what other goroutines do meanwhile is in the pipeline, not here.
- `Walk.AfterWalkFollows`: assumes a strictly increasing clock; with tied timestamps walks are characterised over a store nobody writes to (`Ties`).
- `Postgres.BeforeWalkExactlyOnce`: nobody writes during the walk; NOW() is the start of a transaction, so rows can appear behind a cursor.
- `Postgres.RepositoriesAgree`: the microsecond precision of timestamps is not modelled, and the collation is an arbitrary strict ranking of IDs.
- `Rfc3339.FormatParse`: the parser covers the grammar of the standard; Go's extra leniency (a one-digit hour, a comma before the fraction, offsets of 24:00 or 60 minutes) and offsets of 24 hours or more are not.
- Monotonic clock readings inside time.Time and the calendar outside the proleptic Gregorian one.
- The algorithm of sort.Slice: an insertion sort stands for it, and only the order and the permutation are used.
- UUIDs, the room hash and generated names: parameters, assumed fresh where that matters.
- SQL text, drivers, migrations other than the constraint cited, URL escaping of `next`, JSON, websockets, routing, CORS, logging, health checks.
- Room repositories and `GetRoom`: plain lookups.
- The Postgres member repository (its statements are two-row transactions with the effect of `MemberRepo`).
