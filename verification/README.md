# A model of the i3 IPC server of wayfire-ipc

wayfire-ipc lets clients control and watch a compositor through the i3 IPC protocol.
This project models its protocol and its command language in Dafny and proves what they
keep over all inputs and all runs.

## The parts

* `Helpers.dfy`: what several modules share. `Numbers.dfy`: numbers as text, and strtol
  and strtoul. `Wire.dfy`: frames and their encoding.
* `Subscriptions.dfy`: event kinds, the subscription bitmask, SUBSCRIBE and UNSUBSCRIBE.
* `OutputSide.dfy`, `InputSide.dfy`: what callbacks do to the two directions of one
  connection, as functions on values; `Receiver.dfy`: the client library's end.
* `Clients.dfy`: the list of connections under every step of the event loop;
  `Protocol.dfy`: the command handler between the two directions, and whole runs.
* `Server.dfy`: the server's objects. The client is a class with an array as write
  buffer, the server a class with the list of clients. Each method is proved against the
  functions of the parts above, so the theorems about runs hold of the objects.
* `Text.dfy`: C strings in buffers. `ArgSep.dfy`, `SplitArgs.dfy`, `StripQuotes.dfy`: the
  three quoting automata, each a loop over a buffer or a text against a reference that
  reads one character at a time. `Quotes.dfy`: what is quoted, escaped and in brackets, in
  terms of the characters alone. `CommandLine.dfy`: the three composed.
* `Lines.dfy`: the payload of a COMMAND request. `Criteria.dfy`: the scanner for criteria
  and the printer it inverts. `Commands.dfy`: execute_command; `CommandRuns.dfy`: what its
  runs do exactly; `CommandLists.dfy`: what a list of written commands means.
* `Workspaces.dfy`: numbers, ids and the list of workspaces. `OutputCommand.dfy`: the
  output command; `OutputSettings.dfy`: what the words of its settings mean.

## How to read it

A callback is first a function from a value to an `Outcome`: the client is kept, or was
dropped in some last state. `Arrives`, `Readable`, `Writable`, `Sends`, `Subscribes` and
`Unsubscribes` are the steps of one client, `Connects`, `Member` and `Event` those of the
server. A turn of the event loop is one callback with all it does, as a list of steps; a
command is answered inside its turn. A run is any sequence of turns, or of steps, with
any pieces of input, any partial writes and any failures. The values carry the history of
the run (what arrived, was dispatched, accepted, written), which the theorems relate.

What the code asks of the outside is a parameter: the kernel's byte counts and errors,
whether realloc succeeds, JSON texts, the handlers of commands, the nodes that criteria
select, regular expressions and floating-point numbers. Where the order of answers
matters, they are functions of the calls made so far, so a theorem holds for every
environment. The one demand on an environment, `Commands.Sensible`, is what parse_token
meets (`Criteria.ParseTokenRejectsEmptyName`).

Each operation is a function with laws that do not mention it: what ends a connection,
what a quote protects, what a name stands for, which calls a command makes, what a number
is read back as. They are stated over the characters, names, numbers and histories alone,
for all inputs.

The manual says that integers have native byte order and shows a little-endian dump; the
model is little-endian. The manual does not mention that the names binding and input
share a bit of the subscription mask, so that unsubscribing from one ends the other: the
model follows the code (`Subscriptions.UnsubscribeIsExact`).

## Model

| member | source | states |
|---|---|---|
| `Wire.IntegersSurviveTheWire` | src/ipc/wayfire-ipc.7.scd:23-26 | a 32-bit length or type written as four little-endian bytes is read back as the same number |
| `Wire.WireBytesAreIntegers` | src/ipc/wayfire-ipc.7.scd:23-26 | any four bytes are the encoding of the number they decode to, so no two encodings collide |
| `Wire.HeaderFields` | src/ipc/client/i3-ipc-client.cpp:150-153 | the magic string, length and type are found again in the header at the offsets where the peers look, whatever follows |
| `Wire.HeaderIsItsFields` | src/ipc/server/i3-ipc-server.cpp:427-438 | fourteen bytes with the magic string are exactly the header of their own two fields |
| `Wire.FrameIsItsEncoding` | src/ipc/wayfire-ipc.7.scd:23-26 | a stream that starts with a complete frame is that frame encoded, then the rest |
| `Wire.EncodingStartsWithFrame` | src/ipc/server/i3-ipc-server.cpp:161-166 | an encoded frame in front of any bytes is recognised, decoded to itself, and ends where those bytes start |
| `Wire.FramesOfEncoding` | src/ipc/wayfire-ipc.7.scd:23-26 | the format is uniquely decodable: parsing the encodings of any frames followed by any bytes gives these frames, then the parse of those bytes |
| `Wire.ManualExample` | src/ipc/wayfire-ipc.7.scd:25-29 | the dump in the manual, byte by byte: what a request of type 0 with the payload exit is on the wire |
| `Subscriptions.EventMaskIsTheMacro` | src/include/ipc.h:68 | the table of bits is the shift by the low bits of each type code, and the frame type is the code itself |
| `Subscriptions.MaskIsASetOfKinds` | src/include/ipc.h:95-110 | two reachable masks are equal if and only if they select the same of the six subscribable kinds |
| `Subscriptions.SubscribeIsUnion` | src/ipc/server/i3-ipc-server.cpp:651-691 | SUBSCRIBE with any array is set union if every string is a known name, and empties the set otherwise; no foreign bit is ever set |
| `Subscriptions.UnsubscribeIsDifference` | src/ipc/server/i3-ipc-server.cpp:719-741 | UNSUBSCRIBE is set difference with the kinds named before the first unknown name, where binding counts as input |
| `Subscriptions.UnsubscribeIsExact` | src/include/ipc.h:68 | UNSUBSCRIBE takes away exactly the named kinds if and only if it does not name binding while input is subscribed and not named |
| `Subscriptions.UnsubscribeBindingDropsInput` | src/include/ipc/tools.hpp:510-529 | the concrete case: unsubscribing from binding silently ends a subscription to input |
| `Subscriptions.EventTypesAreDocumented` | src/ipc/wayfire-ipc.7.scd:1427-1455 | the frame of each event has the number that the protocol gives to the name of the event |
| `Subscriptions.NamesAreRead` | src/include/ipc.h:59-66 | SUBSCRIBE reads a name as a kind if and only if it is the name of one of the six subscribable kinds |
| `Subscriptions.ReleasedNamesAreRead` | src/include/ipc/tools.hpp:492-530 | UNSUBSCRIBE reads a name as a kind if and only if it is the name of one of these or of binding |
| `Subscriptions.SubscribeByName` | src/ipc/server/i3-ipc-server.cpp:651-691 | for any array, by the names of the protocol: the kinds named are added, and one string that is no name takes all away |
| `Subscriptions.UnsubscribeByName` | src/ipc/server/i3-ipc-server.cpp:719-741 | for any array, by the names of the protocol: the kinds named in front of the first string that is no name are taken away, with input for binding |
| `OutputSide.GrowStaysPermitted` | src/ipc/server/i3-ipc-server.cpp:168-180 | doubling from any reachable capacity ends at 128 times a power of two within the limit if and only if the need is below 2^21 bytes |
| `OutputSide.GrowFits64Bits` | src/ipc/server/i3-ipc-server.cpp:168-172 | the doubling loop never wraps a 64-bit size around, for any 32-bit payload length |
| `OutputSide.SendAcceptsIff` | src/ipc/server/i3-ipc-server.cpp:156-209 | if and only if realloc succeeds and queue, header and payload stay below 2^21 bytes is the frame accepted, whatever the growth history |
| `OutputSide.SendKeepsOutput` | src/ipc/server/i3-ipc-server.cpp:156-209 | an accepted send keeps the capacity law, arms the writable source and extends the queue so that written bytes plus queue are the encoding of all accepted frames |
| `OutputSide.WritesDrainTheQueue` | src/ipc/server/i3-ipc-server.cpp:342-363 | as many writes of at least one byte as bytes are queued keep the client, empty the queue, disarm the source, and leave everything accepted written |
| `OutputSide.WriteKeepsOutput` | src/ipc/server/i3-ipc-server.cpp:316-366 | a partial write of any size, an error or a hang-up loses and reorders no byte, and disarms the source exactly when the queue empties |
| `OutputSide.WriteDropsIff` | src/ipc/server/i3-ipc-server.cpp:316-366 | a writable callback drops the client if and only if the socket is broken or a write of a non-empty queue fails; a write of n bytes moves exactly n bytes to the wire |
| `InputSide.ReadConsumes` | src/ipc/server/i3-ipc-server.cpp:368-450 | whatever count the kernel reports, a readable callback moves at most one frame from the front of the unparsed stream to the handler and loses no byte |
| `InputSide.ReadKeepsInput` | src/ipc/server/i3-ipc-server.cpp:396-449 | what arrived stays the dispatched frames, the header that a positive pending_length stands for, and the unread bytes; a dropped client lost only what follows its dispatched frames |
| `InputSide.DispatchedThenRest` | src/ipc/server/i3-ipc-server.cpp:396-449 | the frames of everything received are the dispatched ones followed by those of the unparsed rest |
| `InputSide.DispatchedIsPrefix` | src/ipc/server/i3-ipc-server.cpp:396-449 | also for a dropped client, the dispatched commands are a prefix of the frame-by-frame parse |
| `InputSide.ReadIsAParseStep` | src/ipc/server/i3-ipc-server.cpp:388-449 | a callback that sees all bytes makes one step of the parse: next frame if complete, disconnect if and only if the header is wrong, else wait |
| `InputSide.IdleHasDispatchedAll` | src/ipc/server/i3-ipc-server.cpp:396-449 | a client whose next callback would do nothing has had all complete frames of its stream dispatched |
| `InputSide.ChunkIndependence` | src/ipc/server/i3-ipc-server.cpp:396-449 | two idle clients that were sent the same bytes in any two chunkings got the same commands and hold the same rest |
| `InputSide.DrainDispatchesAll` | src/ipc/server/i3-ipc-server.cpp:368-450 | one callback more than there are complete frames dispatches all of them in order, and drops the client if and only if a wrong header follows |
| `InputSide.ReadDropsIff` | src/ipc/server/i3-ipc-server.cpp:368-450 | for every count: a readable callback drops the client if and only if a system call that is due fails or a complete header is wrong, and dispatches if and only if a complete frame is visible, which is then the next frame of the stream |
| `Receiver.RecvExactly` | src/ipc/client/i3-ipc-client.cpp:90-100 | the receive loop collects exactly the wanted bytes from pieces of any size, and fails if and only if the stream is shorter |
| `Receiver.RecvResponse` | src/ipc/client/i3-ipc-client.cpp:86-139 | the call returns the first response of the stream and leaves the socket right behind it; abort and endless loop in exactly the cases where bytes are missing; without memory it returns nothing and only the header is gone |
| `Receiver.ResponsesOfPart` | src/ipc/client/i3-ipc-client.cpp:86-139 | from any part of an encoding the receiver decodes a prefix of the frames, all of them only if everything arrived |
| `Receiver.ResponsesOfWhole` | src/ipc/client/i3-ipc-client.cpp:86-139 | a complete encoding decodes to all its frames |
| `Receiver.ResponsesAreEager` | src/ipc/client/i3-ipc-client.cpp:86-139 | frames that have arrived completely are decoded without waiting for later bytes |
| `Receiver.PeerReceivesWhatWasAccepted` | src/ipc/server/i3-ipc-server.cpp:342-363 | end to end, what the peer decodes is a prefix of the accepted frames in order, and all of them if and only if the queue is empty |
| `Receiver.DroppedPeerReceivesAPrefix` | src/ipc/server/i3-ipc-server.cpp:452-484 | the peer of a dropped client decoded a prefix of the accepted frames |
| `Receiver.ServerReceivesWhatWasRequested` | src/ipc/client/i3-ipc-client.cpp:147-163 | requests written one after another by the client library become exactly those commands once the server is idle |
| `Clients.ActKeeps` | src/ipc/server/i3-ipc-server.cpp:156-450 | every callback of one client keeps all its invariants, or drops it with what was delivered and dispatched still a prefix |
| `Clients.FreshIsBlank` | src/ipc/server/i3-ipc-server.cpp:274-286 | a new connection listens to nothing, has received nothing and has nothing queued |
| `Clients.ActDropsIff` | src/ipc/server/i3-ipc-server.cpp:156-450 | the exact list of what disconnects a client: a broken socket, a failed write, a read fault, a wrong header, a send without room or memory; nothing else does |
| `Clients.ReactDropsIff` | src/ipc/server/i3-ipc-server.cpp:26-53 | the same for a step of the event loop, an event included |
| `Clients.NextKeeps` | src/ipc/server/i3-ipc-server.cpp:26-53 | every step of the event loop keeps the invariants of the whole list, its descriptors distinct |
| `Clients.EveryRunIsSound` | src/ipc/server/i3-ipc-server.cpp:156-498 | in every run each connected client has a buffer of 128*2^k <= 2^21 bytes above its queue, waits for writability exactly while the queue is non-empty, had the first commands of its stream dispatched, and its peer decodes the first accepted frames |
| `Clients.RunSplits` | src/ipc/server/i3-ipc-server.cpp:243-450 | a run goes on from where its first part ended, so the next three rows hold from any moment of any run |
| `Clients.FollowedIsThere` | src/ipc/server/i3-ipc-server.cpp:452-484 | a connection that no step of a run drops is in the list afterwards, in the state that the steps make of it |
| `Clients.LastsUntilEnded` | src/ipc/server/i3-ipc-server.cpp:452-484 | over any run a connection is kept if and only if no step, at its turn, is one of those that disconnect |
| `Clients.StepQueues` | src/ipc/server/i3-ipc-server.cpp:156-209 | every step that keeps a connection queues for it exactly the frame that the step names: the reply sent to it, the event it listens to, or nothing |
| `Clients.RunsRecord` | src/ipc/server/i3-ipc-server.cpp:243-450 | over any run the server has received exactly the bytes that the peer sent, in order, and the connection listens to exactly the kinds that its requests name |
| `Clients.HistoryOnlyGrows` | src/ipc/server/i3-ipc-server.cpp:156-450 | over any run that does not drop a connection, what it received, was served, accepted and wrote only grows |
| `Clients.EarlierFramesComeFirst` | src/ipc/server/i3-ipc-server.cpp:156-209 | over any run, once the peer decodes anything accepted after some moment it has decoded everything accepted up to that moment, so a tick comes after every event queued before it |
| `Clients.MemberUpdate` | src/ipc/server/i3-ipc-server.cpp:452-484 | a step of one client replaces or removes that client in place and leaves all others as they are |
| `Clients.BroadcastIsExact` | src/ipc/server/i3-ipc-server.cpp:26-53 | a broadcast leaves the old list in order minus exactly the subscribers without room; every other subscriber has exactly one more frame, everybody else is unchanged |
| `Clients.NobodyListens` | src/ipc/server/i3-ipc-server.cpp:486-498 | if has_event_listeners answers no, sending the event would change nothing |
| `Protocol.OneReply` | src/ipc/server/i3-ipc-server.cpp:527-824 | among the steps of every command exactly one is a reply to the client that asked, with the type of the command and the text for it; whatever else is queued is an event, and for a COMMAND events may come first |
| `Protocol.TurnContinues` | src/ipc/server/i3-ipc-server.cpp:368-450 | every turn of the event loop continues the talk with every client: the accepted replies are those to the dispatched requests, one by one |
| `Protocol.RepliesAnswerRequestsInOrder` | src/ipc/server/i3-ipc-server.cpp:503-827 | in every run the i-th reply that a connected peer decodes is the frame that answers its i-th request, type and text; none is missing once queue and input are drained |
| `Protocol.AnswersAreOfTheRun` | src/ipc/server/i3-ipc-server.cpp:503-827 | the answers that those texts are made from were given in a turn of that client |
| `Protocol.ReplyTypesAgree` | src/ipc/server/i3-ipc-server.cpp:503-827 | the i-th decoded reply has the type of the i-th request that was sent |
| `Protocol.StatusTextsAre` | src/ipc/server/i3-ipc-server.cpp:211-220 | the two texts of send_status, byte by byte |
| `Protocol.TextsAreWhole` | src/ipc/server/i3-ipc-server.cpp:26-53 | replies and events below 2^32 bytes carry their whole text |
| `Protocol.CommandGets` | src/ipc/server/i3-ipc-server.cpp:529-546 | what a client that sends a COMMAND is queued: the events it listens to, then the reply; for all events and answers, as long as it lasts |
| `Protocol.TickGets` | src/ipc/server/i3-ipc-server.cpp:548-553 | SEND_TICK: the tick if and only if the client listens to it, then success |
| `Protocol.SubscribeGets` | src/ipc/server/i3-ipc-server.cpp:640-706 | SUBSCRIBE: success if and only if every string is a name, then the first tick if tick is among them |
| `Protocol.SubscribeLeaves` | src/ipc/server/i3-ipc-server.cpp:640-706 | SUBSCRIBE by name, over the whole command: the kinds that the client listens to afterwards |
| `Protocol.UnsubscribeGets` | src/ipc/server/i3-ipc-server.cpp:708-745 | UNSUBSCRIBE: success if and only if every string is a name, and the kinds that are left |
| `Protocol.OthersGet` | src/ipc/server/i3-ipc-server.cpp:555-827 | every other request gets one reply, the text asked for or a failure, and changes nothing else |
| `Server.IpcClient.constructor` | src/ipc/server/i3-ipc-server.cpp:274-286 | a new client object stands for the initial connection |
| `Server.IpcClient.Reserve` | src/ipc/server/i3-ipc-server.cpp:168-172 | the doubling loop ends at the specified size without 64-bit overflow |
| `Server.IpcClient.Reallocate` | src/ipc/server/i3-ipc-server.cpp:182-191 | the new buffer has the new size and the queued bytes |
| `Server.IpcClient.Append` | src/ipc/server/i3-ipc-server.cpp:193-196 | the bytes are copied behind the queue and nothing in it changes |
| `Server.IpcClient.Enqueue` | src/ipc/server/i3-ipc-server.cpp:156-203 | send_reply on its array buffer does what the step function for sending says, in every case |
| `Server.IpcClient.Flush` | src/ipc/server/i3-ipc-server.cpp:316-366 | client_handle_writable moves the unwritten bytes to the front of the array, as the step function for writing says |
| `Server.IpcClient.Collect` | src/ipc/server/i3-ipc-server.cpp:388-449 | client_handle_readable does what the step function for reading says, with the same faults |
| `Server.IpcClient.SubscribeOne` | src/ipc/server/i3-ipc-server.cpp:655-690 | one string of the array sets its bit, or empties the mask if it is unknown; anything else is skipped |
| `Server.IpcClient.HandOver` | src/ipc/server/i3-ipc-server.cpp:402-406 | the pending values are reset before the payload is read |
| `Server.IpcClient.Subscribe` | src/ipc/server/i3-ipc-server.cpp:651-691 | the loop over the array reaches the specified mask, stops at an unknown name, and tells whether tick was named |
| `Server.IpcClient.Unsubscribe` | src/ipc/server/i3-ipc-server.cpp:719-741 | the loop over the array reaches the specified mask and stops at an unknown name |
| `Server.IpcServer.Accept` | src/ipc/server/i3-ipc-server.cpp:274-290 | the new client goes to the end of the list |
| `Server.IpcServer.Disconnect` | src/ipc/server/i3-ipc-server.cpp:469-478 | the erase loop removes every occurrence of the client and keeps the order of the others |
| `Server.IpcServer.Drop` | src/ipc/server/i3-ipc-server.cpp:452-484 | exactly one place of the list goes, and every other client still stands for its own connection |
| `Server.IpcServer.SendReply` | src/ipc/server/i3-ipc-server.cpp:156-209 | send_reply updates one client or removes it from the list, and reports which |
| `Server.IpcServer.HasEventListeners` | src/ipc/server/i3-ipc-server.cpp:486-498 | true if and only if send_event would select some client |
| `Server.IpcServer.SendEvent` | src/ipc/server/i3-ipc-server.cpp:26-53 | the loop over the shrinking list, with its index decrement, does what the simultaneous broadcast on the old list does |
| `Server.IpcServer.SendTick` | src/ipc/server/i3-ipc-server.cpp:10-24 | the tick is broadcast if and only if somebody listens |
| `Server.IpcServer.HandleWritable` | src/ipc/server/i3-ipc-server.cpp:316-366 | the callback keeps or drops the client as its step says, the rest of the list unchanged |
| `Server.IpcServer.HandleReadable` | src/ipc/server/i3-ipc-server.cpp:368-450 | the callback keeps or drops the client as its step says and returns the command it dispatched |
| `Server.IpcServer.Publish` | src/ipc/ipc.cpp:79-93 | asking for listeners first and then sending is the same as the broadcast in every case |
| `Server.IpcServer.HandleRun` | src/ipc/server/i3-ipc-server.cpp:529-546 | the command makes exactly its specified steps: the events that the compositor publishes while it is carried out, then the reply |
| `Server.IpcServer.HandleSendTick` | src/ipc/server/i3-ipc-server.cpp:548-553 | the command makes exactly its specified steps: broadcast first, status after it |
| `Server.IpcServer.HandleSubscribe` | src/ipc/server/i3-ipc-server.cpp:640-706 | the command makes exactly its specified steps: mask, status, then the first tick if tick was named |
| `Server.IpcServer.HandleUnsubscribe` | src/ipc/server/i3-ipc-server.cpp:708-745 | the command makes exactly its specified steps: mask, then status |
| `Server.IpcServer.HandleCommand` | src/ipc/server/i3-ipc-server.cpp:503-827 | every command type makes exactly its specified steps on the list |
| `Server.IpcServer.Serve` | src/ipc/server/i3-ipc-server.cpp:368-450 | a readable callback with the command it dispatches is one turn of the run model |
| `Server.IpcServer.Take` | src/ipc/server/i3-ipc-server.cpp:243-450 | every turn of the event loop, on the objects, does what the turn of the run model does |
| `Server.EventLoop` | src/ipc/server/i3-ipc-server.cpp:243-450 | over any turns the objects end exactly where the run of the model ends, so what holds of every run holds of them |
| `Server.WithoutOne` | src/ipc/server/i3-ipc-server.cpp:469-478 | erasing from a list of distinct clients removes exactly one place |
| `Server.AcceptStep` | src/ipc/server/i3-ipc-server.cpp:274-290 | appending the fresh client is the step of the run model for a new connection, and keeps its invariants |
| `Server.IpcServer.OfferNext` | src/ipc/server/i3-ipc-server.cpp:30-52 | one round of the broadcast loop on the objects, with the index kept if the client was dropped |
| `Server.LoopStep` | src/ipc/server/i3-ipc-server.cpp:30-52 | whether the client at the loop index stays or goes, the next client served is the next one of the old list: nobody is skipped or served twice |
| `Server.MemberStep` | src/ipc/server/i3-ipc-server.cpp:452-484 | the list after a callback is the next list of the run model |
| `ArgSep.NextInterestingIsFirst` | src/include/ipc/tools.hpp:102-118 | the position is that of the first special character or delimiter, none if and only if there is none |
| `ArgSep.FindCut` | src/include/ipc/tools.hpp:120-182 | the skip-ahead loop finds the cut that the one-character-at-a-time scanner finds, and always advances |
| `ArgSep.Argsep` | src/include/ipc/tools.hpp:120-182 | in place: one NUL is written at the matched delimiter and nothing else changes, the token and the rest are the two parts of the text |
| `ArgSep.CutIsInside` | src/include/ipc/tools.hpp:150-165 | the cut is behind the leading delimiters and inside the text, at a delimiter; no token in front of a delimiter is empty |
| `ArgSep.SeparateIsFirst` | src/include/ipc/tools.hpp:120-182 | for every text the cut is at the first delimiter after the leading run that has no quote open and no escape pending in front of it, none if and only if there is none |
| `ArgSep.SeparateCuts` | src/include/ipc/tools.hpp:120-182 | for every text the cut is at the first delimiter, behind the leading ones, that has no quote open and no escape pending in front of it, in terms of the characters alone: quotes count unless escaped, and an escape is forgotten only at a plain character |
| `ArgSep.SeparateSkipsDelimiters` | src/include/ipc/tools.hpp:120-182 | delimiters in front of a text do not change where it is cut |
| `ArgSep.SeparateWithoutBackslash` | src/include/ipc/tools.hpp:120-182 | without backslashes the cut is at the first delimiter after the leading run that has no quote open in front of it, none if and only if there is none |
| `SplitArgs.SplitArgs` | src/include/ipc/tools.hpp:240-323 | the pointer loop fills a doubling vector with the specified arguments; every write, the final null included, is inside the allocation |
| `SplitArgs.SplitPartitions` | src/include/ipc/tools.hpp:240-323 | the text is the arguments with white space around them and some between any two; an argument is non-empty and has white space only inside quotes, brackets or escapes |
| `SplitArgs.TokenEndsWhereNothingIsOpen` | src/include/ipc/tools.hpp:240-323 | for every text the first argument ends at the first white space where no quote and no bracket is open and no backslash escapes it, in terms of the characters alone |
| `SplitArgs.ArgumentIs` | src/include/ipc/tools.hpp:240-323 | being one argument, and leaving nothing open, in the same terms |
| `SplitArgs.TrimSkips` | src/include/ipc/tools.hpp:240-250 | white space in front of a text does not matter |
| `SplitArgs.JoinArgs` | src/include/ipc/tools.hpp:213-234 | the loop builds the arguments with one space between any two, and has no result for an empty vector |
| `SplitArgs.SplitOfJoin` | src/include/ipc/tools.hpp:213-323 | joining and splitting gives back a list of texts if and only if each is one argument and all but the last leave nothing open |
| `SplitArgs.SplitJoinSplit` | src/include/ipc/tools.hpp:213-323 | splitting, joining and splitting again gives the same arguments, for every text |
| `StripQuotes.StripQuotes` | src/include/ipc/tools.hpp:335-366 | in place, with one memmove a quote, the buffer becomes what the quote-dropping automaton makes of the text; behind the old end nothing changes |
| `StripQuotes.OnlyQuotesGo` | src/include/ipc/tools.hpp:335-366 | the other characters all stay, in their order |
| `StripQuotes.UntouchedIff` | src/include/ipc/tools.hpp:343-356 | an argument is left as it is if and only if no quote in it opens or closes anything |
| `StripQuotes.StripIsUnquoting` | src/include/ipc/tools.hpp:335-366 | for every text exactly those characters go at which a quote of either kind opens or closes, in terms of the characters alone |
| `CommandLine.ParseCommand` | src/ipc/commands/command_impl.cpp:288-301 | splitting and unquoting the arguments one by one gives the specified argument vector |
| `CommandLine.CommandHasAWord` | src/ipc/commands/command_impl.cpp:288-311 | a command that is not blank has a first argument, so reading it before the check of the count is safe |
| `CommandLine.LineIsSplit` | src/include/ipc/tools.hpp:240-323 | a line with every argument as it is or in quotes that protect it is split into one argument each |
| `CommandLine.UnquoteQuote` | src/include/ipc/tools.hpp:335-366 | strip_quotes undoes quotes of either kind around any text without that quote, backslash and NUL |
| `CommandLine.LineIsLeftWhole` | src/include/ipc/tools.hpp:120-182 | argsep leaves such a line whole, alone or in front of a delimiter and anything else |
| `CommandLine.BareWords` | src/ipc/commands/command_impl.cpp:274-301 | every non-empty text without quotes, backslashes, delimiters, white space, NUL and opening bracket is a command word |
| `CommandLine.QuotingRoundTrip` | src/ipc/commands/command_impl.cpp:274-301 | for every command word but exec, exec_always and mode, and all arguments, each as it is or in quotes of a kind that protects it, the whole tokenizer restores the list that was written |
| `CommandLine.QuotesAreKept` | src/ipc/commands/command_impl.cpp:289-301 | exec, exec_always and mode get the same arguments as they were written, quotes included |
| `CommandLine.BracketsProtect` | src/include/ipc/tools.hpp:268-276 | any text in brackets, white space included, is one word |
| `CommandLine.BackslashProtects` | src/include/ipc/tools.hpp:278-296 | a backslash makes the white space behind it part of a word |
| `Lines.SplitString` | src/include/ipc/tools.hpp:83-100 | the loop returns the pieces between the occurrences of a non-empty delimiter |
| `Lines.PiecesRejoin` | src/include/ipc/tools.hpp:83-100 | the pieces with the delimiter between them are the text again, and no piece contains the delimiter |
| `Lines.CommandList` | src/ipc/server/i3-ipc-server.cpp:531-538 | the text for execute_command is the payload with each newline replaced by a semicolon, and one more at its end |
| `Criteria.ParseTokenRejectsEmptyName` | src/ipc/commands/criteria.cpp:759-831 | an empty name is no token, whatever the fields and the value: the one thing that the scanner needs of parse_token in order to terminate |
| `Criteria.CriteriaObject.SkipSpaces` | src/ipc/commands/criteria.cpp:964-970 | the loop stops at the first character that is not a blank |
| `Criteria.CriteriaObject.Unescaped` | src/ipc/commands/criteria.cpp:973-1003 | the copying loop takes away exactly the backslashes in front of quotes |
| `Criteria.CriteriaObject.ReadPair` | src/ipc/commands/criteria.cpp:1060-1121 | one round of the loop reads the specified name and value, or finds the quote open |
| `Criteria.CriteriaObject.ParseText` | src/ipc/commands/criteria.cpp:1012-1162 | the object ends with the fields and the raw text, or the error, of the specified parse; the loop terminates on every text |
| `Criteria.ParseIsLocal` | src/ipc/commands/criteria.cpp:1139-1161 | a successful parse uses exactly raw: whatever follows it, the result and the closing bracket are the same |
| `Criteria.UnescapeEscape` | src/ipc/commands/criteria.cpp:973-1003 | unescaping undoes a backslash in front of each quote, for every value |
| `Criteria.QuotedEndAt` | src/ipc/commands/criteria.cpp:1088-1093 | the scan for the closing quote stops right behind an escaped value if and only if the value does not end in a backslash |
| `Criteria.ReadItemOfPair` | src/ipc/commands/criteria.cpp:1060-1121 | a printed pair with a quoted value is read back, up to its end, if and only if the value does not end in a backslash |
| `Criteria.ParsePrint` | src/ipc/commands/criteria.cpp:1012-1162 | for every list of pairs, with the value in quotes, without them or absent, parse hands parse_token exactly the printed pairs in order, and stops behind the bracket |
| `Criteria.TokenNamesAreRead` | src/ipc/commands/criteria.cpp:759-814 | each token is read from its name and from nothing else |
| `Criteria.OnlyTheNamedFieldChanges` | src/ipc/commands/criteria.cpp:816-960 | a pair that parse_token accepts changes at most the field of its name |
| `Criteria.TheNamedFieldIsSet` | src/ipc/commands/criteria.cpp:816-960 | and has set this field to what the value says: a pattern, the focused node, a number modulo 2^32, the newest or the oldest urgent view, a flag |
| `Criteria.AcceptedIff` | src/ipc/commands/criteria.cpp:816-960 | a pair is accepted if and only if its name is a token and its value, which only all, floating and tiling can do without, is of the right kind |
| `Criteria.EmptyIff` | src/ipc/commands/criteria.cpp:23-48 | criteria are empty if and only if no field is set |
| `Criteria.ParseDescribes` | src/ipc/commands/criteria.cpp:1012-1162 | criteria written from the fields of an object, each under its documented name, are parsed into an object with exactly these fields, for all fields that have a text |
| `Commands.ForEachIsSound` | src/ipc/commands/command_impl.cpp:337-376 | the calls for selected nodes go to them one by one from the first, and stop at the first failure |
| `Commands.RunCommandIsSound` | src/ipc/commands/command_impl.cpp:313-376 | one command adds at most one failure, as the last result, and calls only nodes of its scope in order |
| `Commands.EveryRunIsSound` | src/ipc/commands/command_impl.cpp:221-384 | in every run all results but the last are success or no matching node, all handler calls but the last succeeded and a failing last call is the last result; a scope chosen behind a semicolon is the scope until the next one |
| `Commands.EveryRoundIsBehindItsDelimiter` | src/ipc/commands/command_impl.cpp:246-274 | each round starts further on, right behind the semicolon or comma that decides whether it may choose a new scope |
| `CommandRuns.RunCommandIsExact` | src/ipc/commands/command_impl.cpp:303-379 | one command makes exactly the calls that its scope asks for, on the active view or on every selected node in order, up to the first failure; the list goes on if and only if the command is known and no call failed; there is one answer, which says which of these it was |
| `CommandRuns.EveryRunIsExact` | src/ipc/commands/command_impl.cpp:221-384 | every run: each round cuts the first command out of what the round before left, makes exactly its calls and leaves the rest to the next round, unless it failed or the criteria that follow are in error; the results are one answer for each command |
| `CommandRuns.FineRunsAreComplete` | src/ipc/commands/command_impl.cpp:221-384 | the results of a run are all fine if and only if every round made all its calls without failure and the last round got to the end of the list |
| `CommandLists.ListRuns` | src/ipc/commands/command_impl.cpp:221-384 | running the text of any list of written commands, with criteria, quoted arguments, white space and delimiters, makes exactly the calls and gives exactly the results that the list means, command by command up to the first error |
| `CommandLists.PayloadRuns` | src/ipc/server/i3-ipc-server.cpp:529-546 | the same from the payload of a COMMAND on, in which any of the semicolons may be newlines |
| `CommandLists.ListIsRun` | src/ipc/commands/command_impl.cpp:242-379 | without criteria, and if no handler fails, every command of the list is run once, in order, with the arguments that were written |
| `Commands.FirstPieceSkipsDelimiters` | src/ipc/commands/command_impl.cpp:274-277 | empty commands between delimiters are skipped |
| `Commands.QuotedLineRuns` | src/ipc/commands/command_impl.cpp:242-379 | a written command line runs its handler with exactly the written arguments, and the next round starts behind the delimiter |
| `Commands.SelectedLineRuns` | src/ipc/commands/command_impl.cpp:246-272 | printed criteria in front of a written line select that line's nodes, or end the list with their error |
| `Commands.NextCommand` | src/ipc/commands/command_impl.cpp:274-277 | the buffer is cut in place into the next command and the rest that the specified round has |
| `Commands.OpenScope` | src/ipc/commands/command_impl.cpp:243-272 | white space and criteria are read from the buffer as specified, and reading goes on right behind raw |
| `Commands.Perform` | src/ipc/commands/command_impl.cpp:288-376 | one command does the specified calls and adds the specified results |
| `Commands.ExecuteCommand` | src/ipc/commands/command_impl.cpp:221-384 | the do-while loop over the buffer terminates with the results and calls of the specified run; if the text cannot be copied there is no list and no call |
| `Workspaces.IndexOfPointAt` | src/include/ipc/tools.hpp:47-66 | every number from 1 to w*h belongs to a valid point |
| `Workspaces.PointAtIndex` | src/include/ipc/tools.hpp:74-81 | every valid point has a number from 1 to w*h, and is the point of that number |
| `Workspaces.GetWorkspaceAtIndex` | src/include/ipc/tools.hpp:47-66 | the search in columns finds the point counted in rows, and INVALID exactly outside 1..w*h |
| `Workspaces.WorkspaceNext` | src/ipc/commands/workspace.cpp:23-31 | the method returns the specified neighbour |
| `Workspaces.WorkspacePrev` | src/ipc/commands/workspace.cpp:13-21 | the method returns the specified neighbour |
| `Workspaces.NextMoves` | src/ipc/commands/workspace.cpp:23-31 | next goes to number min(i+1, w*h), always a valid point |
| `Workspaces.PrevMoves` | src/ipc/commands/workspace.cpp:13-21 | prev goes to number max(i-1, 1), always a valid point |
| `Workspaces.NextIsToTheRight` | src/ipc/commands/workspace.cpp:23-31 | next is the workspace to the right, from the last column the first of the row below, and the last workspace stays |
| `Workspaces.PrevIsToTheLeft` | src/ipc/commands/workspace.cpp:13-21 | prev is the workspace to the left, from the first column the last of the row above, and the first workspace stays |
| `Workspaces.ThereAndBack` | src/ipc/commands/workspace.cpp:13-31 | k times next and k times prev end at the start if and only if the way was not cut short by the last workspace or the start is the first one |
| `Workspaces.IdIsNumber` | src/include/ipc/tools.hpp:68-72 | the id is output * 10^digits(index) + index, and fails if and only if that exceeds the int range |
| `Workspaces.IdsGrow` | src/include/ipc/tools.hpp:68-81 | on one output ids are strictly increasing in the number, across digit lengths and for output 0; if a higher one fits, so do the lower ones |
| `Workspaces.SortById` | src/ipc/json/ipc-json.cpp:1503-1526 | the result is a permutation in the order of ids |
| `Workspaces.NumbersAreInOrder` | src/ipc/json/ipc-json.cpp:1503-1526 | any list of all workspaces sorted by id has the numbers 1, 2, ... w*h |
| `Workspaces.GetWorkspacesNodes` | src/ipc/json/ipc-json.cpp:1477-1534 | the column-by-column enumeration, sorted, is workspace 1 to w*h in order with their ids and points; it fails if and only if the last id does not fit an int |
| `OutputCommand.TheHandlersAreSane` | src/ipc/commands/output/mode.cpp:55-61 | every handler that succeeds uses one to three words behind its key, a refusal is no success, and only mode with nothing but --custom behind it reads on |
| `OutputCommand.SettingsPartitionTheWords` | src/ipc/commands/output.cpp:113-143 | the settings that were applied are, in order and without gaps, the words behind the output's name: all of them if and only if the command succeeds |
| `OutputCommand.TheHandlersAreLocal` | src/ipc/commands/output/transform.cpp:118-145 | no handler that succeeds looks at words of the next setting, but for the words that a power signal carries |
| `OutputCommand.TheHandlersAreTight` | src/ipc/commands/output/transform.cpp:118-145 | a handler that succeeds does the same if all words behind those it uses are gone |
| `OutputCommand.ReadsOnIff` | src/ipc/commands/output/mode.cpp:55-66 | the command reads on behind --custom if and only if the last two words are mode and --custom and the words in front of them succeed |
| `OutputCommand.GroupsCompose` | src/ipc/commands/output.cpp:113-143 | settings that succeed followed by others that start with a key do what the two groups do one after the other |
| `OutputSettings.KeysAreRead` | src/ipc/commands/output.cpp:64-70 | a word is the key of a setting if and only if it is one of its names |
| `OutputSettings.RotationsAreRead` | src/ipc/commands/output/transform.cpp:72-104 | a word is a transform if and only if it is one of its names |
| `OutputSettings.InvertTurnsBack` | src/ipc/commands/output/transform.cpp:32-52 | inverting the direction makes the angles add up to a full turn and keeps the flip |
| `OutputSettings.PowerIsRead` | src/ipc/commands/output/power.cpp:16-48 | power and dpms signal the word and all that follows it |
| `OutputSettings.ScaleIsRead` | src/ipc/commands/output/scale.cpp:30-69 | scale sets the number |
| `OutputSettings.TransformIsRead` | src/ipc/commands/output/transform.cpp:54-150 | a transform by name sets the one with the opposite direction |
| `OutputSettings.RelativeTransformIsRead` | src/ipc/commands/output/transform.cpp:120-145 | with a direction behind it the transform, turned that way, is composed with the one of the output |
| `OutputSettings.PositionIsRead` | src/ipc/commands/output/position.cpp:45-106 | for all 32-bit numbers x and y, written in one word with a comma or in two, the position is set to x and y |
| `OutputSettings.FindModeIsFirst` | src/ipc/commands/output/mode.cpp:130-153 | the first mode of the output with the size and, if one is given, the refresh rate; none if and only if there is none |
| `OutputSettings.ModeIsRead` | src/ipc/commands/output/mode.cpp:45-167 | for all 32-bit sizes, written in one word or two, with or without --custom: the custom mode or the first that fits is set |
| `OutputSettings.ModeWithRateIsRead` | src/ipc/commands/output/mode.cpp:65-100 | the same for a size with a refresh rate in hertz |
| `Numbers.ReadNumberOfShow` | src/ipc/commands/output/position.cpp:55-83 | a number written in decimal is read back, up to where it ends |
| `Numbers.StrtolOfShow` | src/ipc/commands/output/position.cpp:55-83 | strtol, cast to 32 bits, gives back every 32-bit number |
| `Numbers.ReadNumberBehindSpace` | src/ipc/commands/output/position.cpp:55-83 | white space and a plus sign in front of a number do not matter |
| `Numbers.StrtolIsNearest` | src/ipc/commands/output/position.cpp:55-83 | strtol gives the nearest 64-bit number |
| `Numbers.Int32Wraps` | src/ipc/commands/output/position.cpp:55-83 | the cast to 32 bits keeps a number modulo 2^32 |
| `Numbers.StrtoulIsModular` | src/ipc/commands/criteria.cpp:866-880 | strtoul gives the number modulo 2^64 if it has at most 64 bits, and else the largest one |
| `OutputCommand.CommandHandlerContext.HandlePower` | src/ipc/commands/output/power.cpp:16-48 | one word is used and the signal carries the output's name and all words; without a configuration the handler aborts and leaves the leftovers |
| `OutputCommand.CommandHandlerContext.HandleScale` | src/ipc/commands/output/scale.cpp:30-69 | the factor is set and one word used exactly if all of it is a number and the output is there; without a configuration the handler aborts |
| `OutputCommand.CommandHandlerContext.HandleTransform` | src/ipc/commands/output/transform.cpp:54-150 | one word is used, or two with a direction, which is composed with the output's own transform; refusals and the missing configuration as in the source |
| `OutputCommand.CommandHandlerContext.HandlePosition` | src/ipc/commands/output/position.cpp:31-106 | one word with a comma or two words are used and set the position; refusals and the missing configuration as in the source |
| `OutputCommand.CommandHandlerContext.HandleSizedMode` | src/ipc/commands/output/mode.cpp:65-167 | leftovers and status are the specified ones, for one and for two words |
| `OutputCommand.CommandHandlerContext.HandleMode` | src/ipc/commands/output/mode.cpp:31-63 | --custom is counted and the rest is read as a size; without a configuration the handler aborts |
| `OutputCommand.CommandHandlerContext.Cleanup` | src/ipc/commands/output.cpp:85-95 | the configuration is gone and the leftovers are zero |
| `OutputCommand.CommandHandlerContext.OutputHandler` | src/ipc/commands/output.cpp:97-152 | the loop terminates for every vector with the status and settings of the specified run, and leaves a clean context on both exits it reaches |

## Left out

- Sockets, epoll, fork and exec, environment variables, logging, and handle_display_destroy: callbacks start where their file descriptor is ready.
- The JSON library, the description builders and all reply texts but the two of send_status: the texts are parameters.
- Server.IpcServer.Answer: COMMAND (whose events can drop the client), SEND_TICK and SUBSCRIBE send to a client that an earlier send may have dropped and freed; the model ends the command for that client there. `Server.IpcServer.HandleRun`, `Server.IpcServer.HandleSendTick` and `Server.IpcServer.HandleSubscribe` inherit this.
- Server.IpcClient.Collect: the count that the kernel reports is at most the number of bytes that are there, and fits an int.
- Subscriptions.SubscribeIsUnion: the mask is the low byte of the field, which is a long in the source; no event's bit is above it (`Subscriptions.EventMaskIsTheMacro`).
- Wire.IntegersSurviveTheWire: fixed to little-endian, while the source copies integers in native order.
- Receiver.RecvResponse: the terminating NUL and the wrap-around of size + 1 at the largest size are not modelled; the payload loop that never gets its bytes is the outcome `Stuck`, and receive errors are streams that end.
- SplitArgs.SplitArgs: failing malloc and realloc are not modelled; in send_reply they are.
- Lines.SplitString: an empty delimiter, which the code would find forever, is excluded; all callers pass a newline.
- ArgSep.SeparateWithoutBackslash: only texts without backslashes, for which the condition is about quotes alone; with backslashes the escape flag survives runs of special characters, and `ArgSep.SeparateCuts` covers every text.
- CommandLine.QuotingRoundTrip: a command word, or an argument without quotes around it, is any text that the tokenizer takes as one word and that leaves nothing open; quotes, brackets and escapes may be in it. Words for which the three automata disagree on what is open are outside the statement; for exec, exec_always and mode `CommandLine.QuotesAreKept` says what they get.
- CommandLists.ListRuns: criteria are written with the printer of `Criteria.ParsePrint`, without blanks between a name, the equals sign and the value; `CommandRuns.EveryRunIsExact` covers every text.
- Criteria.CriteriaObject.ParseText: names and values are strings instead of heap buffers, the wording of errors is a datatype, and allocation failure is not modelled. The criteria for X11 windows, which the source disables, are absent.
- Commands.ExecuteCommand: of the handler context the node and its origin are modelled; container, workspace and seat are not.
- Matching criteria against live views: regular expressions are external, the comparison for urgent views is not an ordering, and the workspace criterion compares ids the wrong way round.
- Workspaces.GetWorkspaceAtIndex: numbers are unbounded, so a grid of more than 2^31 workspaces does not wrap around.
- Workspaces.SortById: an insertion sort stands for std::sort; only that the result is a sorted permutation is used.
- Workspaces.GetWorkspacesNodes: of a workspace its id, number, name and grid position are modelled; an id that does not fit makes the enumeration fail, where the source throws.
- Ids of different outputs can collide; convert_workspace_index_to_coords, unescape_string and strip_whitespace have no callers; names for workspaces other than numbers, next and prev are not modelled.
- OutputCommand.CommandHandlerContext.OutputHandler: for a final --custom, where the mode handler reads the null pointer behind the vector as a number, the model ends with no status and without cleanup (`OutputCommand.ReadsOnIff` says exactly when); `OutputCommand.CommandHandlerContext.HandleMode` does the same. A configuration without a name does not occur, since it is made with one.
- OutputSettings.ModeWithRateIsRead: what strtof makes of the text of the rate is a parameter.
- OutputCommand.CommandHandlerContext.HandleScale: the conversion to a floating-point number and, for transforms, their composition are an environment.
- Workspaces.IdIsNumber: the output's number is unbounded, while the source takes 32 bits.
- The power plugin, the wiring of compositor signals to events, and the wf-msg program: they depend on timers and layout, or print.
