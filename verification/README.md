# A verified model of the instant messaging server

The repository is a small instant messenger in C. A server keeps user accounts, sessions,
block lists and a registry of files that clients share in chunks; clients talk to it over TCP
in length-free Protocol Buffers messages. The server is two threads over shared, mutually
pointing structures: a network thread that accepts, receives, executes and sends, and a timer
thread that logs out users who have been silent too long.

This project models that server in Dafny and proves what its functions together promise.

## How the model is built

* **Values and objects.** `Sessions` is the server as one state machine over values, with one
  step per event: accept, disconnect, one decoded request, one round of the timer's loop, one
  writable connection. `Events` says what each of them does to every account, connection and
  queue, and the theorems about whole runs are about this machine. `ServerObjects.Server` is the
  same server as heap objects with loops, pointer writes, tries and masks, function by function
  as in C; every method is proved to change the heap exactly as its step changes the value, and
  `Handle` and `Serve` carry that to any event and any run in which no accept frees a connection
  that a user still points at. So what is proved of events and runs holds of the objects.
* **Bytes.** `Wire` is a concrete codec for the public Protocol Buffers encoding (sections
  "Base 128 Varints", "Message Structure", "Length-Delimited Records"). `Buffers`, `Framing` and
  `Links` follow the bytes of one direction of a connection from `send_request` or
  `send_response` through partial sends and arbitrary `recv` slices to the handler.
* **Time** is a `now` parameter of each event. `send` and `recv` are parameters: the number of
  bytes the kernel took or had to give.
* **Guards.** Lockout, search, the life of a session and the mailboxes are proved for every run
  (`Sessions.Run`), the sessions being in order or not. The session invariant needs two things
  that the code leaves to its environment, and the runs it is proved for state them
  (`SessionInvariant.Guard`): an accept reuses no slot that a user points at, and `clients[]`
  has room; a login that is granted arrives on an open connection to which no other user is
  attached. Each is exactly what its event must meet (`SessionInvariant.StepInvIff`), and the
  first half of the first follows from the kernel handing out only descriptors that are not in
  use (`SessionInvariant.FreedSlotUnreferenced`). Search needs two more
  (`ChunkSearch.FilesGuard`): the chunk counter does not wrap, and `regchunk` names chunks that
  the file has.

## What the code does not keep

Each of these is a lemma that says exactly when the promise holds, or gives a run in which it
does not.

* A login overwrites `client->user` without looking at who is there
  (`serverlib/commands/login.c:23-24`). The session invariant survives it exactly when the
  connection is open and no other user is attached: `SessionInvariant.LoginInvIff`. If an online
  user whom the newcomer has not blocked was there, and only then, closing the connection makes
  the network thread wait for a mutex that it holds, for good: `LockedSessions.CloseWaitsIff`,
  `LockedSessions.OccupiedLoginIff`. A client that logs in twice over one connection gets there
  in three events: `LockedSessions.TwoLoginsWaitForever`.
* A user whose session has expired may log in elsewhere before the timer has come round. The old
  connection still names the user, and closing it ends the new session:
  `Sweeping.CloseSparesOthersIff`, and the reachable run `Sweeping.StaleCloseEndsLiveSession`.
  For the same reason the notice of an automatic logout can go to the wrong connection
  (`Sweeping.ExitGoesToOwnSlotIff`), is sent again by every pass (`Sweeping.SecondPassIdleIff`),
  and waiting messages can go out over the old connection (`Mailbox.MailReachesSessionIff`).
  Each is reached by a guarded run from a fresh server: `Sweeping.StaleSlotTakesNotice`,
  `Mailbox.MailGoesToOldConnection`. Such a login, of a user still attached elsewhere, is the one
  event after which a connection names a user whose session is not on it
  (`TwoWay.BothWaysStepIff`, `TwoWay.BothWaysIff`), and in a run without one none of these
  failures happens (`TwoWay.NothingStaleWithoutRelogs`).
* `regFileChunk` does not compare chunk numbers with the file's count (`lib/file.c:93`). A number
  past the end is a chunk of some other file, now or later. Exactly which numbers do no harm at
  the moment of the call, and which never will: `ChunkSearch.RegChunkExactIff`,
  `ChunkSearch.RegChunkDurableIff`.
* `global_chunk_id` is 32 bits wide. The intervals tile the ids exactly as long as it has not
  wrapped: `FileTable.AllocatorTiles`.
* `unblockUser` steps over the node behind one it removes. That is harmless on lists without
  repetitions, which the server keeps, and fails exactly on two equal neighbours:
  `SessionInvariant.UnblockRemoves`, `SessionInvariant.UnblockExactIff`.
* The client accepts any chunk size. With a negative one it registers a file of which it wrote no
  piece, or, when that is larger than the file, reads into a refused allocation, as it does with
  a positive one larger than malloc grants: `FileSplit.SplitAndMerge`.
* `userLinkedListToString` reserves two bytes for a separator of any length, and drops separators
  behind leading empty names: `NameLists.FitsIff`, `NameLists.ExactJoinIff`.

## Files

| file | contents |
|---|---|
| `Basics.dfy` | bytes, widths, Option |
| `Wire.dfy`, `Buffers.dfy`, `Framing.dfy`, `Links.dfy` | codec, growable buffers, receive loop, one direction of a connection |
| `Tries.dfy`, `UserIndex.dfy`, `FileIndex.dfy`, `FileTable.dfy`, `Entities.dfy` | the byte tries, the user index, the file registry as heap and as value, users and connections |
| `Sessions.dfy` | the server as a state machine over values |
| `SessionInvariant.dfy`, `Events.dfy`, `Delivery.dfy`, `Mailbox.dfy`, `Sweeping.dfy`, `Activity.dfy`, `TwoWay.dfy`, `Lockout.dfy`, `BlockLists.dfy`, `ChunkSearch.dfy` | theorems about its steps and runs |
| `Scenarios.dfy` | small concrete runs, for showing that a failure can be reached |
| `ServerObjects.dfy` | the server as objects, refining every step |
| `Locks.dfy`, `LockedSessions.dfy` | the two threads' locks, and their link to the sessions |
| `ChunkLists.dfy`, `FileSplit.dfy`, `NameLists.dfy` | chunk numbers as typed, splitting and merging, rendering of name lists |

## Model

| member | source | states |
|---|---|---|
| Wire.VarintRoundTrip | proto/IMRequest.pb.c:36-38 | any 64-bit number comes back from its varint with the exact number of bytes, whatever bytes follow |
| Wire.FieldRoundTrip | proto/IMRequest.pb.c:31-49 | any field of any of the four wire types comes back from its encoding, whatever follows |
| Wire.FrameRoundTrip | serverlib/command.c:34-39 | decoding n fields from an encoded n-field message followed by anything yields the message and its exact length |
| Wire.FrameStable | serverlib/command.c:34-39 | bytes that arrive later never change a message that already decodes |
| Wire.FramePrefixUndecodable | serverlib/command.c:34-39 | no proper prefix of an encoded message decodes, so a partial one is left in the buffer |
| Wire.DecodeFrame | lib/socket.c:181-182 | a decoded message used at least one byte for each of its n fields and no more bytes than there were, so a parsed length of zero only means failure |
| Wire.RequestRoundTrip | proto/IMRequest.pb.c:12-56 | every request survives encoding and decoding, with its exact length, whatever follows it |
| Wire.ResponseRoundTrip | proto/IMResponse.pb.c:12-64 | every response, success flag included, survives encoding and decoding with its exact length |
| Wire.RequestBytes | proto/IMRequest.pb.c:31-56 | a request is the byte 08, its type as a varint, the byte 12, the length as a varint, and the value; what a varint is is said without the codec |
| Wire.ResponseBytes | proto/IMResponse.pb.c:33-64 | a response is the byte 08, its type, the bytes 10 and 00 or 01, the byte 1A, the length, and the value |
| Wire.EncodedVarint | proto/IMRequest.pb.c:36-38 | the encoder writes a varint of exactly that number, in the fewest bytes |
| Wire.DecodeVarintExact | serverlib/command.c:34-39 | what the varint decoder accepts, in both directions: at most ten bytes, all but the last with the high bit, and the low 64 bits of what they say |
| Wire.DecodeFieldExact | serverlib/command.c:34-39 | what the field decoder accepts, in both directions: a key varint with number and wire type, and a payload of that wire type |
| Wire.DecodeFrameExact | serverlib/command.c:34-39 | what the decoder accepts as a message, and how much of it, in both directions: exactly n such fields one behind the other |
| Wire.FieldsRead | proto/IMResponse.pb.c:12-31 | type, success flag and value are read from the fields of their numbers, whatever order they come in |
| Buffers.ImBuffer.constructor | lib/buffer.c:7-12 | a new buffer has the given capacity and nothing pending |
| Buffers.ImBuffer.ResetStart | lib/buffer.c:14-20 | compaction keeps the pending bytes also where source and destination overlap, and says exactly when they do |
| Buffers.ImBuffer.Append | lib/socket.c:90-105 | the bytes are appended to the pending ones and none is lost across compaction and growth; the doubling ends, end stays below capacity, and a grown capacity is at most twice what is pending |
| Buffers.ImBuffer.SendPending | lib/socket.c:186-212 | exactly the sent bytes leave the front of the pending ones, an error leaves them all; output interest is dropped exactly when nothing is pending; compaction here never overlaps |
| Buffers.ImBuffer.MakeRoom | lib/socket.c:156-166 | recv is always offered at least half the capacity, which is positive, and the pending bytes are unchanged |
| Buffers.ImBuffer.CopyIn | lib/socket.c:103-104 | bytes copied at the end become the tail of the pending ones; everything ever appended stays what was drained plus what is pending |
| Buffers.ImBuffer.Consume | lib/socket.c:182 | exactly the parsed bytes leave the front |
| Framing.FeedSplit | lib/socket.c:171-183 | for arbitrary bytes: receiving them in two parts dispatches and leaves what receiving them at once does |
| Framing.FeedLeavesUndecodable | lib/socket.c:174-183 | what a receive leaves in the buffer holds no whole message |
| Framing.SlicingIrrelevant | lib/socket.c:164-183 | any two ways of slicing the same bytes dispatch the same messages and leave the same suffix |
| Framing.FeedEncoded | lib/socket.c:174-183 | encoded messages in front of any bytes are dispatched first and in order, and the rest is treated as if alone |
| Framing.FeedPrefix | lib/socket.c:174-183 | every prefix of a stream of messages dispatches the whole messages in it and leaves a proper part of the next |
| Framing.StreamRoundTrip | lib/socket.c:151-184 | messages encoded one after another and delivered in any slices are dispatched exactly, in order, nothing left over |
| Framing.RequestStream | clientlib/command.c:38-57 | the requests a client appends arrive at the handler exactly, in order, however the bytes are sliced |
| Framing.ResponseStream | lib/socket.c:90-105 | the same for the responses of the server |
| Links.StepInv | lib/socket.c:151-212 | each queueing, partial send or receive keeps: stream of queued messages = delivered + in flight + pending, and dispatched = decoded part of delivered |
| Links.RunInv | lib/socket.c:151-212 | so does any interleaving of them |
| Links.DispatchedIsPrefix | lib/socket.c:151-212 | at every moment of every run the dispatched messages are a prefix of the queued ones, the bytes not yet dispatched encode the others, and the receive buffer holds less than one message |
| Links.DrainedMeansAll | lib/socket.c:151-212 | once nothing is pending or in flight, all that was queued has been dispatched and the receive buffer is empty |
| Links.RequestsArrive | clientlib/command.c:38-57 | end to end for requests, under any interleaving of queueing, partial sends and receives: the handler has been given the first so many, in order, and all of them once the bytes have drained |
| Links.ResponsesArrive | lib/socket.c:90-105 | the same for responses |
| Links.Connection.Send | clientlib/command.c:38-57 | queueing on the real buffer is the queueing step |
| Links.Connection.FlushOut | server.c:109-119 | one writable event is the partial send step |
| Links.Connection.ReceiveCommand | lib/socket.c:151-184 | one readable event is the receive step, and zero bytes mean a disconnect because there was room |
| Links.Connection.DecodePending | lib/socket.c:174-183 | the handler loop dispatches exactly the whole messages in the buffer and leaves the undecodable suffix |
| Tries.Trie.Locate | lib/auth.c:77-84 | the walk returns the node of exactly that name, or null when the trie has none |
| Tries.Trie.LocateOrCreate | lib/file.c:45-51 | the walk that creates missing nodes ends at the node of that name and changes no value held for any name |
| Tries.Trie.Grow | lib/auth.c:50-51 | hanging one node into the trie adds that path only, and keeps the trie a tree closed under prefixes |
| UserIndex.FirstMatchIsFirst | lib/auth.c:77-84 | the reference scan finds the first user of a name, and null exactly when there is none |
| UserIndex.AddingShadowsOnlyOwnNames | lib/auth.c:30-56 | however many users are added, every other name is looked up as before, and each of their names finds the one added last |
| UserIndex.UserDb.AddUser | lib/auth.c:30-56 | the new user is put in front, and afterwards every lookup through the trie agrees with a scan of the list |
| UserIndex.UserDb.FindUser | lib/auth.c:77-84 | the lookup through the trie returns the first user of that name in the list |
| UserIndex.UserDb.FindOrAddUser | lib/auth.c:86-90 | returns the first user of that name, adding one with an empty password only when there was none |
| UserIndex.BuildUserDb | lib/auth.c:67-75 | one fresh account per pair read, the last read first, with an index that agrees |
| FileTable.FittingAddTiles | lib/file.c:45-57 | as long as the counter does not wrap, the intervals keep tiling [0, counter): every id has one owner |
| FileTable.AddTilesIff | lib/file.c:45-57 | and exactly as long |
| FileTable.IntervalsNeverMove | lib/file.c:52-56 | a registered file keeps its interval whatever is registered later |
| FileTable.AllocatorTiles | lib/file.c:26-57 | over any sequence of registrations the intervals are disjoint and cover exactly [0, counter) if and only if the 32-bit counter never wrapped |
| FileTable.FoundIffOffered | lib/file.c:35-57 | a name is found exactly when it was ever offered with a positive count, with the count of the first such offer |
| FileIndex.FileDb.FindFile | lib/file.c:35-43 | finds exactly the registered names with their own records; a mere prefix of a registered name is not found |
| FileIndex.FileDb.AddFile | lib/file.c:45-57 | refuses exactly the registered names, frames all others, and advances the counter modulo 2^32 |
| FileIndex.RegAllFileChunk | lib/file.c:76-84 | appends the ids of all chunks of the file in order |
| FileIndex.RegFileChunk | lib/file.c:86-96 | appends the id of every given chunk number in order, checked against nothing |
| FileIndex.ClientHasFileChunks | lib/file.c:61-74 | marks exactly the chunks of the file that the connection holds, and tells none, some, or some wanted |
| FileIndex.HeldNext | lib/file.c:66-72 | one more id adds its chunk when it lies in the file's interval, and nothing otherwise |
| FileIndex.LevelNext | lib/file.c:69-70 | the level rises to 2 with a wanted chunk, from 0 to 1 with another, and never falls |
| SessionInvariant.FanOutExact | lib/auth.c:125-133 | a message to everyone is queued exactly once on the connection of each user who is to hear it; nothing else changes |
| SessionInvariant.DetachInv | lib/auth.c:209-210 | the two pointer writes of a logout keep the session invariant |
| SessionInvariant.LogoutInv | lib/auth.c:206-230 | a logout keeps it, and afterwards nobody is attached to the connection it was for |
| SessionInvariant.CloseInv | lib/socket.c:136-149 | closing any connection keeps it |
| SessionInvariant.ExpireInv | server.c:52-55 | so does every round of the timer |
| SessionInvariant.FreedSlotUnreferenced | lib/socket.c:222-224 | no user points at the connection that pick_client frees when a descriptor is reused |
| SessionInvariant.AcceptInvIff | server.c:90-91 | an accept keeps the invariant if and only if nobody points at the slot it reuses and clients[] has room |
| SessionInvariant.AttachInv | serverlib/commands/login.c:23-24 | attaching keeps the invariant if and only if the connection is open and no other user is attached |
| SessionInvariant.LoginInvIff | serverlib/commands/login.c:15-42 | a login request keeps the invariant if and only if it is not granted or meets that guard |
| SessionInvariant.UnblockRemoves | lib/auth.c:157-165 | on a list without repetitions unblocking removes exactly the given user and keeps the order of the others |
| SessionInvariant.UnblockExactIff | lib/auth.c:157-165 | on any list the walk removes exactly the user and keeps the order of the others if and only if the user does not stand twice in a row; otherwise it leaves the user behind |
| SessionInvariant.BlockInv | lib/auth.c:148-165 | blocking and unblocking keep lists without repetitions and without their owner |
| SessionInvariant.MemberCommandInv | serverlib/command.c:44-60 | every command other than login keeps the invariant, on whatever connection it runs |
| SessionInvariant.CommandInvIff | serverlib/command.c:31-66 | a whole request with its refresh and reply keeps the invariant if and only if it meets the login guard |
| SessionInvariant.StepInvIff | server.c:44-133 | an event keeps the invariant if and only if it meets its guard |
| SessionInvariant.RunInvIff | server.c:44-133 | over a run the invariant holds at every moment if and only if every event meets its guard, and then no accept frees a connection that a user points at |
| SessionInvariant.InitialInv | server.c:149-152 | a freshly started server satisfies it |
| SessionInvariant.SessionSafety | server.c:44-133 | over every guarded run: a session's connection is open and points back, no two users share one, no user points at a slot an accept would free, and looking up a connection's descriptor finds that connection |
| Delivery.BroadcastExact | serverlib/commands/message.c:38-53 | each connection gets one copy exactly when its user is online, not the sender, on that connection and has not blocked the sender; every such user's connection is one of these; the failure reply comes exactly when an online other user has blocked the sender |
| Delivery.NoticeExact | lib/auth.c:119-134 | a login notice reaches once each online other user whom the newcomer has not blocked, on that user's own connection, and nothing else changes |
| Delivery.LogoutExact | lib/auth.c:206-230 | a logout detaches the user and the connection from each other and tells each online other user whom the leaver has not blocked, once; no other account or connection changes |
| Events.UnservedRequest | serverlib/command.c:44-60 | a request other than a login on a connection without an online user is answered with a refusal and changes nothing else |
| Events.BroadcastRequest | serverlib/commands/message.c:38-53 | the whole broadcast request, refresh and reply included, on any connection that names the online sender: every queue and every account afterwards |
| Events.DirectRequest | serverlib/commands/message.c:54-67 | a direct message goes to the connection of an online recipient, else to the recipient's own buffer, is refused exactly for unknown names and blocked senders, and does nothing else |
| Events.BlockRequest | serverlib/commands/block.c:20-45 | puts exactly the named user in front of the list; refuses an unknown name, oneself, or one already listed; and what is replied |
| Events.UnblockRequest | serverlib/commands/unblock.c:20-45 | removes exactly the named user, keeps the order of the others, and succeeds exactly when the user was listed |
| Events.WhoElseRequest | serverlib/commands/whoelse.c:20-40 | the reply names exactly the other users seen since the threshold, online only if asked, once each in db order |
| Events.LogoutRequest | serverlib/commands/logout.c:14-21 | the connection of the request is closed and gets no reply, its user is detached wherever the session is, every online other user not blocked by the leaver is told once on its own connection, and nothing else changes |
| Events.RegFileRequest | serverlib/commands/regfile.c:21-41 | a new name gets the next interval and the connection all its ids, in 32-bit arithmetic; a registered name is refused; and what is replied |
| Events.RegChunkRequest | serverlib/commands/regchunk.c:22-48 | the connection gets the id of every number sent, unchecked, and the reply counts them; an unregistered name is refused |
| Events.SearchRequest | serverlib/commands/searchfile.c:45-115 | the request queues on its connection a reply whose counts and users are those of the ledger for exactly the requested chunks, or a refusal for an unregistered name, and does nothing else |
| Events.SearchRequestAfterRun | serverlib/commands/searchfile.c:45-115 | and so it does after every run from a fresh server that meets the file guards |
| Events.RefusedLogin | serverlib/commands/login.c:20-39 | unknown name, lock, wrong password, session in place, in this order: what is replied, what it counts, and that nothing else changes |
| Events.GrantedLogin | serverlib/commands/login.c:20-29 | every other login links user and connection both ways, clears the attempts, tells every online other user whom the newcomer has not blocked, once, and welcomes |
| Events.FirstOfThatName | lib/auth.c:77-84 | the scan that names are looked up by gives the first account of that name, and none exactly when there is none |
| Events.AcceptEvent | server.c:79-92 | the new connection names nobody and has nothing to send; it takes the first slot with its descriptor, else a new one at the end |
| Events.DisconnectEvent | server.c:69-76 | the connection is closed, and whoever it names leaves if there is a session, on whatever connection; nothing else changes |
| Events.ExpireEvent | server.c:52-55 | a connection gets the exit notice exactly when it names a user who is not online, and that user leaves if there is an expired session |
| Events.WritableEvent | server.c:117-126 | what is sent comes from the connection's own queue and then, exactly if it names a user active within the timeout, from that user's; no other connection and no other account changes |
| Mailbox.BufferStep | lib/socket.c:124-134 | every event changes a user's own buffer only by appending a direct message that found the user not online, or by sending from its front |
| Mailbox.MailConserved | server.c:119-124 | over any run, what waited and what was put in is what was sent and what still waits, in order: each message at most once and none lost |
| Mailbox.SentOnThatConnection | server.c:117-126 | what is sent goes out on the connection that became writable, behind its own buffer's part, and on no other |
| Mailbox.MailReachesSessionIff | server.c:121-124 | waiting mail goes out over the user's session if and only if that session is on the connection that became writable |
| Mailbox.MailGoesToOldConnection | server.c:121-124 | a guarded run from a fresh server after which a message goes out over a connection that is not its user's session |
| Mailbox.QueueConserved | lib/socket.c:90-134 | over any run in which the slot is not given away, what waits on a connection is sent first and in order, and what is not sent still waits |
| Sweeping.SweepRounds | server.c:51-56 | after k rounds nobody with a live session was touched and every expired session in the first k slots is gone |
| Sweeping.SweepExact | server.c:51-56 | a finished pass has detached exactly the expired sessions |
| Sweeping.ExitGoesToOwnSlotIff | server.c:51-56 | over a whole pass an expired session's own connection is sent the exit notice, and nothing else, if and only if no earlier slot still names the user |
| Sweeping.PassIdleIff | server.c:51-56 | in any state a pass changes nothing if and only if no connection names a user without a live session |
| Sweeping.SecondPassIdleIff | server.c:51-56 | a second pass repeats no notice if and only if every expired user that a connection names had its session there |
| Sweeping.CloseSparesOthersIff | lib/socket.c:141 | closing a connection spares all sessions elsewhere if and only if the user it names has no session elsewhere |
| Sweeping.StaleCloseEndsLiveSession | lib/auth.c:114 | a guarded run from a fresh server after which closing a dead connection ends a live session |
| Sweeping.StaleSlotTakesNotice | server.c:51-56 | after that run a pass tells the wrong connection of an expired session, and the next pass tells it again |
| TwoWay.BothWaysStepIff | serverlib/commands/login.c:23-24 | a guarded event leaves every connection that names a user the connection of that user's session if and only if it is not a granted login of a user attached elsewhere |
| TwoWay.BothWaysIff | serverlib/commands/login.c:23-24 | over a guarded run this holds at every moment if and only if no such login happens |
| TwoWay.NothingStaleWithoutRelogs | server.c:51-56 | in a guarded run from a fresh server without such a login: no close ends another session, every expired session is told once and on its own connection, a second pass changes nothing, and waiting mail goes out over its user's session |
| Activity.RequestRefreshes | serverlib/command.c:56-57 | a request refreshes exactly the user online on its connection, and a logout nobody |
| Activity.SessionEndsIff | lib/auth.c:199-210 | in any state an event ends or moves a session if and only if it is a disconnect, an effective logout or an expired round on a connection that names the user, or a login of that user elsewhere |
| Activity.CalmRunKeepsSession | serverlib/command.c:56-57 | through any run whose events come within the timeout of the user's latest activity, none of them a disconnect or logout on a connection naming the user, the session stays and activity never goes back |
| Activity.RequestKeepsAlive | serverlib/command.c:56-57 | so a session that issues a request is alive, after any such run, until at least the timeout after the request |
| Activity.InterleavedPass | server.c:51-56 | with a positive timeout, a pass whose rounds are spread among other events leaves nobody attached whose session had expired when it began |
| Lockout.GateStep | lib/auth.c:97-116 | in any state, an event moves an account's attempts and lock exactly as a login attempt on it that reaches the comparison |
| Lockout.AttemptsConserved | lib/auth.c:105-115 | over every run: wrong comparisons = 3 × locks + forgiven by a successful login + change in pending attempts, and attempts stay in 0..2 |
| Lockout.LocksSpaced | lib/auth.c:105-109 | over every run with a clock that does not go back, locks of one account are at least block_duration apart |
| Lockout.GuessBound | lib/auth.c:105-109 | so in any stretch of time only 3 wrong guesses per lock period, and 2 more, are compared, besides those a successful login forgave |
| Lockout.LockedAttemptsAreInert | lib/auth.c:105 | during a lock an attempt changes nothing and is answered alike for right and wrong passwords |
| Lockout.LoginReplies | serverlib/commands/login.c:20-39 | which of the five replies a login gets, in both directions |
| BlockLists.BlockListsAreSets | lib/auth.c:148-165 | over any sequence of blocks and unblocks the list holds exactly who was added and not removed since, once, never its owner |
| BlockLists.UnblockUndoesBlock | lib/auth.c:148-165 | unblocking undoes blocking, order included |
| ChunkSearch.OwnChunkId | lib/file.c:93 | a chunk number below the count, and no other, gets an id of its own file |
| ChunkSearch.ShowsAfter | lib/file.c:86-96 | what registering chunk numbers shows: the file's own chunks in range, and for others whatever piece owns the id they land on |
| ChunkSearch.RegChunkExactIff | lib/file.c:86-96 | at the moment of the call, registering shows exactly the requested chunks if and only if every number past the end lands on an id nobody has or the connection holds anyway |
| ChunkSearch.RegChunkDurableIff | lib/file.c:45-96 | it stays exact through every later registration of files if and only if every number past the end lands on an id the connection holds anyway, or on 2^32 - 1 |
| ChunkSearch.AgreeAllChunks | serverlib/commands/regfile.c:29-34 | registering a file makes the connection's ids stand for all its chunks besides what they stood for |
| ChunkSearch.AgreeNewFile | lib/file.c:52-56 | and changes what no other connection's ids stand for |
| ChunkSearch.AgreeSomeChunks | serverlib/commands/regchunk.c:36-38 | registering chunks in range makes the ids stand for exactly those besides what they stood for |
| ChunkSearch.StepIndexed | lib/file.c:45-96 | every event keeps the flat id arrays in agreement with a ledger of who registered which chunk of which file |
| ChunkSearch.RunIndexed | lib/file.c:45-96 | so does every run that meets the file guards, with reuse of connections |
| ChunkSearch.HeldIsLedger | lib/file.c:61-74 | the chunks read from a connection's ids are those its peer registered on it |
| ChunkSearch.AvailableElements | serverlib/commands/searchfile.c:83-88 | the chunk mask holds exactly the chunks that some online user's connection has registered |
| ChunkSearch.HoldersElements | serverlib/commands/searchfile.c:22-43 | the list holds exactly the online users with a requested chunk, any chunk if none was requested, in db order |
| ChunkSearch.SearchExact | serverlib/commands/searchfile.c:45-115 | the counts and the users that search reports are right against the ledger |
| ServerObjects.Server.HasBlockedUser | lib/auth.c:139-146 | the walk answers whether the user is in the block list of the state |
| ServerObjects.Server.SendToUser | lib/socket.c:124-134 | queues on the connection of an online user, else in the user's own buffer, and nowhere else |
| ServerObjects.Server.NotifyOthers | lib/auth.c:221-228 | the loop over the users is the fan-out step |
| ServerObjects.Server.BroadcastLoop | serverlib/commands/message.c:39-48 | the loop is the fan-out step, and success falls exactly when an online other user has blocked the sender |
| ServerObjects.Server.LogoutUser | lib/auth.c:206-230 | the pointer writes and the notices are the logout step |
| ServerObjects.Server.CloseSocket | lib/socket.c:136-149 | closing on the heap is the close step |
| ServerObjects.Server.ExpireClient | server.c:52-55 | one round of the timer on the heap is the expiry step |
| ServerObjects.Server.TimePass | server.c:51-56 | the timer's loop over the connections is the sweep |
| ServerObjects.Server.FindAccount | lib/auth.c:77-84 | the lookup through the trie finds the first account of that name in the state |
| ServerObjects.Server.ComparePassword | lib/auth.c:105-116 | the branches and field writes of login compute the verdict and the new account |
| ServerObjects.Server.CheckLogin | lib/auth.c:97-137 | login, notices included, is the login check of the state |
| ServerObjects.Server.CmdLogin | serverlib/commands/login.c:15-42 | the login command on the heap is the login step, with its reply |
| ServerObjects.Server.SendMessage | serverlib/commands/message.c:22-30 | delivers unless the recipient has blocked the sender, and says which |
| ServerObjects.Server.UnblockList | lib/auth.c:157-165 | the loop with its skipped node computes the walk of the specification |
| ServerObjects.Server.BlockUser | lib/auth.c:148-155 | puts the user in front of the list unless it is the owner or already there |
| ServerObjects.Server.UnblockUser | lib/auth.c:157-165 | the unblock step on the heap |
| ServerObjects.Server.LoggedInUsersAfterTime | lib/auth.c:179-197 | the loop collects exactly the users of the specification, in order |
| ServerObjects.Server.CmdRegFile | serverlib/commands/regfile.c:21-41 | registering a file on the heap is the step: trie, counter and the connection's ids together |
| ServerObjects.Server.CmdRegChunk | serverlib/commands/regchunk.c:22-48 | the regchunk step on the heap, with the count it replies |
| ServerObjects.Server.UsersWithChunks | serverlib/commands/searchfile.c:22-43 | the loop yields the users whose level is the target, and the mask of all chunks held by online users |
| ServerObjects.MarkWanted | serverlib/commands/searchfile.c:68-74 | the wanted mask holds exactly the requested numbers below the count, and the target level is 2 exactly when something was requested |
| ServerObjects.CountMarked | serverlib/commands/searchfile.c:83-88 | the loop counts the marked chunks |
| ServerObjects.Server.SearchMasks | serverlib/commands/searchfile.c:60-110 | masks, loop and count give the search answer of the state |
| ServerObjects.Server.CmdSearchFile | serverlib/commands/searchfile.c:45-115 | search on the heap answers as the state does, which Events.SearchRequest describes, and changes nothing |
| ServerObjects.Server.CmdMessage | serverlib/commands/message.c:54-67 | the direct message step on the heap |
| ServerObjects.Server.CmdBroadcast | serverlib/commands/message.c:38-53 | the broadcast step on the heap |
| ServerObjects.Server.CmdBlock | serverlib/commands/block.c:20-45 | the block step on the heap |
| ServerObjects.Server.CmdUnblock | serverlib/commands/unblock.c:20-45 | the unblock step on the heap |
| ServerObjects.Server.CmdWhoElse | serverlib/commands/whoelse.c:20-40 | the whoelse answer of the state |
| ServerObjects.Server.RunMember | serverlib/command.c:44-60 | dispatch by request kind is the member command of the state, logout being a close; Events says what each kind does |
| ServerObjects.Server.RunRequest | serverlib/command.c:44-60 | any request: login, the not-logged-in reply, or the member command |
| ServerObjects.Server.TouchUser | serverlib/command.c:56-57 | the refresh step on the heap |
| ServerObjects.Server.ParseCommand | serverlib/command.c:31-66 | one decoded request with its refresh and reply is the command step |
| ServerObjects.Server.PickClient | lib/socket.c:220-230 | the first slot with that descriptor, else the next free one when asked to create, else -1 |
| ServerObjects.Server.SendBuffers | server.c:117-126 | the send branch on the heap is the send step: the connection's buffer, then the user's own if the user was active lately |
| ServerObjects.Server.AcceptClient | server.c:90-91 | accepting on the heap is the accept step; no user is left with a pointer to a freed connection |
| ServerObjects.Server.Handle | server.c:44-133 | any event handled on the heap is the step of the state machine, unless it is an accept that frees a connection in use |
| ServerObjects.Server.Serve | server.c:44-133 | any run of such events on the heap ends in the state of the run: what is proved of runs holds of the objects |
| ServerObjects.StartServer | server.c:149-152 | a started server has one fresh account per credential, last read first, no files and no connections, and satisfies the invariant |
| Locks.NextInv | lib/socket.c:107-149 | every action of either thread keeps: locks are owned by whose program counter says so, and nobody's session is on a connection whose close is being announced |
| Locks.BlockedNet | lib/socket.c:138-146 | the network thread never waits for a lock it holds; it waits only for the timer, which can release at once |
| Locks.BlockedTime | server.c:52-55 | when the timer waits, it waits for the network thread, which is not waiting itself |
| Locks.StepsRelease | lib/socket.c:136-149 | every step of a busy network thread brings it closer to holding nothing, and the timer does not set it back |
| Locks.NoDeadlock | lib/socket.c:107-149 | under any schedule of the two threads, accepts included, no thread waits for itself, the two never wait for each other, and who is waited for can move |
| LockedSessions.InvariantCarries | lib/auth.c:206-210 | the session invariant gives the lock discipline its starting point |
| LockedSessions.NoDeadlockAfterRun | lib/socket.c:107-149 | after any guarded run of the server, no schedule of its two threads from there deadlocks |
| LockedSessions.AttachCarries | serverlib/commands/login.c:23-24 | a guarded attach of the sessions is the login action of the lock machine |
| LockedSessions.AcceptCarries | server.c:90-91 | an accept that frees no connection in use is the accept action of the lock machine |
| LockedSessions.SelfWaitingForGood | lib/socket.c:136-149 | once the network thread waits for a lock it holds, it does so under every schedule of the two threads from there |
| LockedSessions.CloseWaitsIff | lib/socket.c:136-149 | in any state whatever, close_socket run lock by lock comes to wait for its own lock if and only if the connection names a user with a session and another online user, not blocked by that one, is on the connection too; otherwise it ends with all locks free and the pointers as the close step leaves them |
| LockedSessions.CloseRuns | lib/socket.c:136-149 | so under the session invariant every close completes |
| LockedSessions.OccupiedLoginIff | serverlib/commands/login.c:23-24 | a granted login leaves such a connection behind if and only if it found an online user there whom the newcomer has not blocked |
| LockedSessions.TwoLoginsWaitForever | serverlib/commands/login.c:23-24 | an accept and two logins over it lead from a fresh server to a state in which closing the connection waits for ever |
| ChunkLists.StrtolExact | lib/socket.c:256-257 | the conversion stops where it began if and only if no numeral starts there, and otherwise gives the numeral's value, clamped to a long, and the position behind it |
| ChunkLists.PackRoundTrip | lib/socket.c:234-246 | packed numbers come back exactly, in order, whatever incomplete word follows |
| ChunkLists.NumbersExact | lib/socket.c:255-268 | the scan yields a list of numbers if and only if the rest of the string can be cut into numerals of exactly these values |
| ChunkLists.PackedBytes | lib/socket.c:269-274 | each packed number is four bytes, least significant first |
| ChunkLists.PackRepeatedUint32FromStr | lib/socket.c:248-277 | on every string all writes stay inside 1 + strlen / 2 entries and the loop ends; something is packed if and only if the string can be cut into numerals, one directly behind the other, and then their values, clamped to a long and modulo 2^32; otherwise nothing |
| ChunkLists.PackWords | lib/socket.c:269-274 | the copying loop packs the numbers in order |
| ChunkLists.ParsePackedUint32 | lib/socket.c:234-246 | unpacks every whole word in order |
| ChunkLists.TypedRoundTrip | lib/socket.c:234-277 | any nonempty list of 32-bit numbers typed in decimal with blanks is what the server unpacks |
| FileSplit.CountRange | clientlib/commands/regfile.c:77-78 | for a positive size the count is the file size over the chunk size, rounded up; for a negative one it is not positive, or one when the size is larger than the file |
| FileSplit.SplitFile | clientlib/commands/regfile.c:105-113 | the loop writes the pieces in order, none for a negative size; it fails exactly when it makes a round and malloc does not grant the size, taken as unsigned |
| FileSplit.PiecesFull | clientlib/commands/regfile.c:107-113 | every piece but the last is full and the last is not empty |
| FileSplit.PiecesJoin | serverlib/commands/searchfile.c:97-102 | the first n pieces concatenated are the first n chunk sizes of the file |
| FileSplit.SplitAndMerge | clientlib/commands/regfile.c:67-113 | concatenating the pieces gives the file back if and only if the size that was typed is out of range, and so replaced, or between zero and what malloc grants; the pieces are then of exactly the size that was typed, or 1024 for none, as many as the size of the file requires, the last one not empty; it fails exactly for larger sizes and for negative ones larger than the file |
| NameLists.UserLinkedListToString | lib/auth.c:232-266 | a write leaves the ret + 1 bytes if and only if the rendered text is longer than ret; otherwise the bytes are that text and a NUL |
| NameLists.RenderedIsJoin | lib/auth.c:251-263 | the rendered text is the join of the names from the first nonempty one on |
| NameLists.ExactJoinIff | lib/auth.c:251-263 | it is the join of all names if and only if there is at most one, the first is not empty, or the separator is |
| NameLists.FitsIff | lib/auth.c:239-247 | the reserved space suffices if and only if the separators written fit into two bytes for every name but one |
| NameLists.ShortSeparatorFitsIff | lib/auth.c:239-247 | with a nonempty first name: if and only if there is one name or the separator has at most two bytes |

## Left out

- Links.Connection.ReceiveCommand: does not model recv returning -1, which the C code adds to an unsigned length.
- ServerObjects.Server.AcceptClient, and with it Handle and Serve: do not model an accept into a full clients[] table, which the C code overruns, or one that frees a connection a user points at; SessionInvariant.AcceptInvIff says exactly when an accept is neither.
- Locks.NoDeadlock: does not cover an accept that frees a connection whose lock the timer is using or waiting for, which is a use of freed memory.
- achelper is not part of this model; bytes follow the public encoding, and a missing or differently typed field is no message, where the C code dereferences it unchecked.
- The other generated codecs (proto/LoginRequest.pb.c and the like) repeat the pattern of the two modelled; requests reach the state machine already decoded, by kind and arguments, and unknown kinds are not events.
- A user's own buffer and the connection's outbuffer share one stream: sessions count whole responses, bytes are followed per buffer, and a send that stops inside a response while the other buffer goes on is not modelled.
- Sockets, epoll and the arming of output events; the claim that pending bytes are eventually sent.
- Data races between the threads and the timer's use of a connection that was just freed; each event, and each lock operation, is one step.
- Memory exhaustion apart from the chunk buffer of the client, and overflow of clock values and buffer sizes.
- Chunk ids from 2^31 on rely on the signed counter of lib/file.c:79 wrapping around, which it does on the usual compilers; the same loop counts the ids of one connection.
- Message texts: responses say what happened and name users by their position in the list.
- Block lists and db->first are sequences held in fields rather than chains of nodes.
- The getip command, private chats, and the rest of the client: terminal prompts, file access and peer connections.
- The truncation of the registered chunk count to 32 bits in the client's request (clientlib/commands/regfile.c:120).
