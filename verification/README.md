# Verified model of the chat server

A Dafny model of a C++ instant-messaging server and proofs of what it promises. The server is a single
epoll reactor with a pool of workers; clients send length-prefixed JSON commands; a chat service keeps
sessions, groups, users and a message log, in memory or behind a pool of MySQL connections.

`dafny verify dfyconfig.toml` checks everything.

## How it is built

Each component has a specification on values, the theorems about it, and, where the source changes
state in place, a class or a method with loops that is proved to compute the specification.

- **Framing** (`PacketCodec`, `PacketIo`): the 4-byte length prefix, decoded incrementally from whatever
  `recv` returns, and `send` in whatever portions the kernel takes.
- **Network machine** (`ServerState`, `ServerInvariant`, `ServerTheorems`, `ServerOutcomes`, `ServerWork`, `TcpServer`,
  `ServerRounds`): the reactor's maps, buffers and queues, with the kernel as an adversary that returns any
  chunk, any positive prefix, EINTR, EAGAIN or an error, lets `epoll_ctl` fail, and reuses descriptor
  numbers. Every step has its exact outcome, every round its list of steps. A history records the
  bytes each accepted socket received and took and the responses ever queued; the theorems relate it to
  the state of every run.
- **Worker pool** (`ThreadPool`): bounded FIFO hand-off and a destructor that waits.
- **Protocol** (`Json`, `JsonGrammar`, `Protocol`, `ReplySizes`, `Commands`): the parser for the JSON subset against a
  grammar of derivation trees, the formatter against the parser, and the client commands.
- **Stores** (`MessageStore`, `Paging`, `BitWords`, `ConversationIndex`, `Sessions`, `GroupMembers`,
  `Passwords`, `UserStore`): each with its invariant; paging and unread draining are proved for a client
  that loops while other messages arrive; the packed conversation key with its exact bound.
- **Chat** (`Chat`, `ChatTheorems`, `ChatCommands`, `ChatNumbers`, `ChatPaging`, `ChatService`): the command machine, its
  runs, and the service object over the stores. `ChatServer` puts it behind the network machine's
  workers; `ChatLiveness` says when its sessions are on live connections, and `ChatRaces` shows a race.
- **MySQL pool** (`ConnectionPool`): slots and handles under any interleaving of `acquire` calls, and when a
  call gets a connection.

What comes from outside is a parameter: the results of system calls and of the database server, clocks,
the random salt, and PBKDF2 (section 5.2 of RFC 8018) as a function that returns 32 bytes or fails.
A `char` of the source is a Dafny `char`; the two results about re-encoding a decoded buffer ask that it
holds bytes. Ids and counters are naturals.

## What turned out not to hold

- The packed key `(min << 32) | max` identifies a conversation only while user ids stay below 2^32:
  users 1 and 2^32 share a key with user 2^32 alone. The project's documentation (README.md, line 373)
  states it without a bound. The bound is exact:
  `ConversationIndex.KeyBoundIsExact`, `ConversationIndex.QueryBoundIsExact`.
- The read-buffer limit does nothing when it is at least 1 MiB + 3 bytes, as with the default of 2 MiB:
  `ServerTheorems.OverflowReachable`.
- Comparing generations when a response is drained never changes the answer, because a connection's
  generation is always its id: `ServerInvariant.GenerationNeverDecides`.
- A message the server accepts can be one it cannot deliver: escaping can double it, and a reply above
  1 MiB closes the connection of its receiver. Which replies those are, and exactly when a queued
  response closes its connection: `ReplySizes.AcceptedButUnsendable`, `ReplySizes.ReplyIsEncodable`,
  `ServerTheorems.ResponseCloses`.
- The check for duplicate logins holds only for commands that are not interleaved
  (`Sessions.RacingLogins`): a bind ends no other session exactly when the check still holds at the bind
  (`Sessions.BindEvictsNobody`).
- A session can be bound to a connection that is closed already (`ChatRaces.SessionOutlivesConnection`).
  Sessions stay on live connections exactly in the runs in which no worker comes to a valid login of a
  connection closed meanwhile (`ChatLiveness.LiveUnlessLate`, `ChatLiveness.LiveExactlyWithoutLate`).
  Such a session lasts until a restart exactly when no logout of its connection is waiting
  (`ChatLiveness.StuckIsForever`), and then nobody can log in under its name
  (`ChatLiveness.StuckLocksOut`). The bijection of the session indexes survives both races:
  `Sessions.IndexesStayInverse`, `ChatTheorems.AlwaysSound`.
- A pool constructed with zero workers accepts tasks it never runs: `ThreadPool.NoWorkersLoseTasks`. Only
  the `ThreadPool` constructor allows that: the server never reads its worker count from configuration.
- The comment in `include/cpp_chat/protocol/message.h` (lines 8-9) that only login and direct chat are
  implemented is out of date; the model follows the twelve commands of the parser.

## Model

| member | source | states |
|---|---|---|
| ChatServer.ClientsReceiveReplies | src/network/tcp_server.cpp:483-558 | End to end, over every run of the network machine with the chat service behind its workers: what the kernel took on any accepted socket is whole frames and one incomplete one, each frame holds a formatted reply, which parses to its intended fields as long as the server's counters fit 64 bits, and they are, in order, the first replies queued for that connection. |
| ChatServer.ServerRuns | src/network/tcp_server.cpp:347-373 | Every run of the composed server is a run of the network machine, so the network theorems need no assumption about the chat service. |
| ChatServer.WorkIsEnabled | src/chat/chat_service.cpp:39-47 | Whatever a worker hands back is addressed to connection ids already given out, which is all the network machine asks of its workers. |
| ChatServer.ActKeeps | src/network/tcp_server.cpp:586-605 | Every action of the composed server keeps the network invariant, the soundness of the chat state and the fact that all queued payloads are replies. |
| ChatServer.AnswersAreQueued | src/network/tcp_server.cpp:347-373 | A worker's step end to end: all answers of the chat service to the packet enter the queue together, each for the connection it is meant for, readable as what it says while the counters are small, and asking for a close exactly if it does; or none does and the sender is asked to close. |
| ChatNumbers.RepliesFit | src/chat/chat_service.cpp:39-306 | As long as the counters fit 64 bits after a line, every number in its answers does. |
| ChatLiveness.LiveUnlessLate | src/network/tcp_server.cpp:586-605 | From a state where every session is on a live connection, an action leads to such a state if and only if it is not a login that passes its checks on a connection closed meanwhile. |
| ChatLiveness.LiveExactlyWithoutLate | src/chat/chat_service.cpp:66-88 | In all states of a run of the whole server every session is on a live connection if and only if the run has no late login. |
| ChatLiveness.OnlySubjectLeaves | src/network/tcp_server.cpp:586-605 | A network step ends no connection but the one it is about, whatever the kernel answers. |
| ChatLiveness.StuckIsForever | src/chat/chat_service.cpp:95-100 | A session on a closed connection can never end, in any continuation, if and only if no logout of that connection is waiting for a worker; if one is waiting, some continuation ends the session. |
| ChatLiveness.StuckLocksOut | src/chat/chat_service.cpp:66-72 | From a state with such a session on, every login for its name in the rest of the run is refused, from any connection and with any password, and changes nothing in the chat state. |
| ChatRaces.SessionOutlivesConnection | src/network/tcp_server.cpp:586-605 | In every configuration some run of the whole server ends with a user logged in on a closed connection and no logout waiting, so for good. |
| ServerTheorems.OutputRefinement | src/network/tcp_server.cpp:483-558 | For every connection id in every reachable state the bytes taken by the kernel decode, without protocol error, to a prefix of the payloads queued for that id; with the write buffer appended they are exactly the frames of all payloads dealt with. |
| ServerTheorems.OnlyOwnerWrites | src/network/tcp_server.cpp:375-401 | A step changes the bytes of a socket only by handling a response of its own connection or flushing its own buffer, and never brings a closed id back. |
| ServerTheorems.ClosedForGood | src/network/tcp_server.cpp:586-605 | Once an id is closed it gets no connection, payload or byte for the rest of the run, also when its descriptor number is used again. |
| ServerTheorems.DescriptorsAreOwned | src/network/tcp_server.cpp:262-283 | Live connections and open descriptors correspond one to one, through the accept that created each; none leaks and none is shared. |
| ServerTheorems.BuffersAreWatched | src/network/tcp_server.cpp:492-574 | Between steps EPOLLOUT is armed exactly when bytes are unsent, a closing connection has some, and neither buffer exceeds its limit. |
| ServerTheorems.ClosingFinishes | src/network/tcp_server.cpp:391-401 | The flush that empties the buffer of a closing connection closes it, with every payload handed over on the wire. |
| ServerTheorems.InputRefinement | src/network/tcp_server.cpp:287-345 | However the input was cut into reads, the packets submitted for a connection are a prefix of the packets of the stream received; for a live connection exactly its complete packets, the rest being its read buffer. |
| ServerTheorems.OverflowReachable | src/network/tcp_server.cpp:313-320 | Some read, starting from what an earlier one can have left, takes the overflow branch exactly when the limit is below 1 MiB + 3 bytes. |
| ServerTheorems.ResiduesAreKept | src/network/tcp_server.cpp:313-320 | Between reads every connection holds an incomplete frame within the limit. |
| ServerTheorems.ResponseCloses | src/network/tcp_server.cpp:382-401 | Handling a response closes its connection exactly when the payload cannot be framed, sending fails or leaves more than the write limit, or the response asked for it and everything is out; a payload that cannot be framed does nothing but close. |
| ServerWork.PacketsAreHandledOnce | src/network/tcp_server.cpp:333-345 | In every reachable state the packets submitted for a connection are, in order, those of its batches, each in one batch, once: first the handled ones, then the waiting ones. |
| ServerTheorems.HandoffIsExact | src/network/tcp_server.cpp:375-382 | All responses ever queued are, in order, dealt with, on the list being drained, or in the shared queue, which respects its limit. |
| ServerTheorems.AllOrNothing | src/network/tcp_server.cpp:347-373 | One packet's responses enter the queue together, in order, with their receivers, data and close flags, or none does and the connection is asked to close. |
| ServerOutcomes.ReadOutcome | src/network/tcp_server.cpp:287-345 | A read closes its connection if and only if the peer or socket is gone, a length is refused, the incomplete rest is above the limit or the pool refuses the batch; otherwise exactly the complete packets go to the workers as one batch, the rest is kept, and the connection counts as heard from now exactly if there were packets. |
| ServerOutcomes.ResponseOutcome | src/network/tcp_server.cpp:382-401 | Whatever the kernel takes of a response's frame is on the wire; if the connection stays, everything else is buffered behind what was, and it is closing exactly if it was or the response asks for it. |
| ServerOutcomes.FlushOutcome | src/network/tcp_server.cpp:528-558 | A flush puts what the kernel takes on the wire; it closes the connection if and only if there is an error, or everything is out and it was closing or EPOLLOUT cannot be switched off; else exactly the rest stays buffered. |
| ServerOutcomes.AcceptOutcome | src/network/tcp_server.cpp:236-285 | A client is taken in exactly if epoll takes its descriptor, with the next id, empty buffers and the time of now; no other connection notices, and a refused descriptor is not left open. |
| ServerOutcomes.ProcessOutcome | src/network/tcp_server.cpp:333-342 | A worker's step moves exactly the first waiting packet of its batch to the handled ones. |
| ServerOutcomes.ReadStopsAt | src/network/packet_codec.cpp:38-61 | Reading goes on over data and EINTR until the first other return of recv, which decides how it ends; no byte before it is lost. |
| ServerOutcomes.SendStopsAt | src/network/packet_codec.cpp:88-119 | Sending takes all the room the kernel offers up to the first return other than a positive count or EINTR, which decides whether the rest waits. |
| ServerOutcomes.TimeIsLastHeard | src/network/tcp_server.cpp:329-332 | In every run the time a connection carries is that of the last step in which it was accepted or packets came in from it. |
| ServerRounds.DrainServesAll | src/network/tcp_server.cpp:375-405 | After a drain, whatever the kernel does, the queues are empty and everything ever queued has been dealt with; a live connection has exactly all of its responses on the wire or buffered; one that was asked to close is gone without a further byte; and one that nothing was for has not noticed. |
| ServerRounds.DrainDelivers | src/network/tcp_server.cpp:375-405 | With room in the sockets, a drain leaves a connection without unsent bytes open if and only if nobody asked to close it and all its responses can be framed and ask for no close; then every response ever queued for it is on the wire. |
| ServerRounds.DrainIsPerformed | src/network/tcp_server.cpp:375-419 | A drain performs exactly: swap the close requests and serve each, swap the responses and handle each, swap the close requests again. |
| ServerRounds.RoundIsPerformed | src/network/tcp_server.cpp:179-234 | A round performs exactly the steps of its events in order, input before output on one descriptor, and then those of a drain; without events it first drops exactly the connections that were silent too long, each once. |
| ServerRounds.HeartbeatsCloseTheSilent | src/network/tcp_server.cpp:607-624 | In every run the heartbeat check closes a live connection if and only if it was last heard from longer than the timeout ago. |
| ServerInvariant.GenerationNeverDecides | src/network/tcp_server.cpp:475-481 | For everything queued the test of the generation gives the same answer as looking the id up. |
| ServerInvariant.AcceptKeeps | src/network/tcp_server.cpp:236-285 | Accepting a client on a descriptor that is not open keeps the whole network invariant, also when epoll registration fails. |
| ServerInvariant.CloseKeeps | src/network/tcp_server.cpp:586-605 | Closing a connection keeps the invariant of all others. |
| ServerInvariant.ReadKeeps | src/network/tcp_server.cpp:287-345 | Any sequence of recv results, with the thread pool accepting the batch or not, keeps the network invariant. |
| ServerInvariant.RespondKeeps | src/network/tcp_server.cpp:382-401 | Handling one queued response, under any send and epoll_ctl results, keeps the network invariant. |
| ServerInvariant.FlushKeeps | src/network/tcp_server.cpp:528-558 | Flushing a write buffer, under any send and epoll_ctl results, keeps the network invariant. |
| ServerInvariant.ProcessKeeps | src/network/tcp_server.cpp:347-373 | A worker queueing a packet's responses or a close request keeps the network invariant. |
| ServerInvariant.StepKeeps | src/network/tcp_server.cpp:236-605 | Every atomic step keeps the invariant that ties indexes, kernel, buffers, queues and history together. |
| ServerInvariant.Always | src/network/tcp_server.cpp:179-234 | The invariant holds in every state of every interleaving of workers and reactor. |
| TcpServer.TcpServer.AcceptConnections | src/network/tcp_server.cpp:236-285 | The accept loop performs the machine's accept step for each client until accept4 has no more. |
| TcpServer.TcpServer.HandleClientRead | src/network/tcp_server.cpp:287-345 | Performs exactly the machine's read step on the server's fields. |
| TcpServer.TcpServer.ProcessPacketAsync | src/network/tcp_server.cpp:347-373 | The worker's loop under the queue mutex performs exactly the machine's step for one packet. |
| TcpServer.TcpServer.SendToClient | src/network/tcp_server.cpp:483-526 | Performs the machine's send and reports whether the connection may stay. |
| TcpServer.TcpServer.FlushWriteBuffer | src/network/tcp_server.cpp:528-558 | Performs exactly the machine's flush step. |
| TcpServer.TcpServer.CloseConnection | src/network/tcp_server.cpp:586-605 | Removes the connection from both indexes and closes its descriptor; an unknown id changes nothing. |
| TcpServer.TcpServer.CloseClient | src/network/tcp_server.cpp:576-584 | Closes the connection registered for a descriptor, or just the descriptor when none is. |
| TcpServer.TcpServer.HandleResponse | src/network/tcp_server.cpp:382-401 | One pass of the drain loop is one respond step of the machine. |
| TcpServer.TcpServer.DrainCloseRequests | src/network/tcp_server.cpp:407-419 | Swaps the close queue out and serves each request in turn. |
| TcpServer.TcpServer.DrainResponses | src/network/tcp_server.cpp:375-405 | The object goes through exactly the specified drain, and both shared queues are empty afterwards. |
| TcpServer.TcpServer.CheckHeartbeats | src/network/tcp_server.cpp:607-624 | Closes exactly the connections idle for longer than the timeout. |
| TcpServer.TcpServer.Stop | src/network/tcp_server.cpp:73-89 | Leaves no connection, no index entry and no open client descriptor. |
| TcpServer.TcpServer.Serve | src/network/tcp_server.cpp:179-234 | One round of the event loop, with any events, also stale ones, takes the object from a reachable state of the machine to the specified reachable state, with both shared queues empty. |
| TcpServer.DrainRuns | src/network/tcp_server.cpp:375-405 | A whole drain is a run of steps. |
| TcpServer.DrainEmpties | src/network/tcp_server.cpp:375-405 | A drain leaves nothing in the queues and nothing swapped out of them. |
| TcpServer.RoundRuns | src/network/tcp_server.cpp:179-234 | A whole round of the event loop is a run of steps: from a reachable state it leads to a reachable one, between handlers, with empty queues. |
| PacketCodec.DecodeEncodeAll | src/network/packet_codec.cpp:17-86 | Decoding the frames of any accepted payloads gives them back in order, whatever follows. |
| PacketCodec.DecodeAppend | src/network/packet_codec.cpp:63-85 | Decoding may stop after any part of the stream and resume with the residue: nothing is lost or read twice; after a bad length the answer is settled. |
| PacketCodec.DecodeTwice | src/network/packet_codec.cpp:63-85 | What decoding leaves is an incomplete frame: decoding it again finds nothing. |
| PacketCodec.DecodeConserves | src/network/packet_codec.cpp:63-85 | The frames of the extracted packets followed by the residue are the buffer, also after a protocol error. |
| PacketCodec.DecodeBounds | src/network/packet_codec.cpp:63-85 | Extracted packets are within the length limits, and without an error the residue is at most the maximum payload plus 3 bytes. |
| PacketCodec.PrefixDecodes | src/network/packet_codec.cpp:17-86 | A receiver of any part of an encoded stream sees a prefix of the payloads and no error. |
| PacketIo.ChunkingIndependence | src/network/packet_codec.cpp:32-86 | For every way of cutting a stream into reads, the packets and residue are those of one decode of the whole, or, when the whole has a bad length, the connection fails and what was dispatched is a prefix. |
| PacketIo.RecvPackets | src/network/packet_codec.cpp:32-86 | The recv loop and the extraction loop return exactly the status, packets and buffer of the specification, for any chunks, EINTR, end of stream or error. |
| PacketIo.TakeFrames | src/network/packet_codec.cpp:63-85 | The loop that erases frames from the front of the buffer computes the decoder. |
| PacketIo.Sending | src/network/packet_codec.cpp:88-119 | The number of bytes sent never exceeds the data, and the status is Ok exactly when all were. |
| PacketIo.SendAll | src/network/packet_codec.cpp:88-119 | The kernel took exactly the first bytes of the data, as many as the result says, under any partial sends, EINTR, EAGAIN or error. |
| ThreadPool.HandoffIsFifo | src/core/thread_pool.cpp:9-20 | Over every interleaving the queue is bounded, tasks are dequeued in the order they were enqueued, and every accepted task is done, running or queued. |
| ThreadPool.AllTasksRun | src/core/thread_pool.cpp:30-41 | With at least one worker, when the destructor returns every accepted task has run as often as it was enqueued. |
| ThreadPool.RefusedExactlyWhenFull | include/cpp_chat/core/thread_pool.h:45-55 | Over every run a task is refused if and only if the pool was told to stop before, or as many accepted tasks as the queue holds have not been started. |
| ThreadPool.StopWindsDown | src/core/thread_pool.cpp:30-41 | The destructor comes to an end: as long as it waits some worker can go on, every step of a worker leaves one less to do, and nothing adds to that. |
| ThreadPool.NoWorkersLoseTasks | src/core/thread_pool.cpp:5-23 | Without workers an accepted task can be lost, so the condition of the previous result is needed. |
| ThreadPool.StepKeeps | src/core/thread_pool.cpp:9-41 | Each critical section keeps the pool's invariant. |
| ThreadPool.ThreadPool.Enqueue | include/cpp_chat/core/thread_pool.h:45-55 | Refuses exactly when stopping or full, else appends. |
| ThreadPool.ThreadPool.Take | src/core/thread_pool.cpp:12-18 | A worker takes the oldest task, or ends when the pool stops and the queue is empty. |
| JsonGrammar.ParserMeetsGrammar | src/protocol/message.cpp:113-168 | The parser accepts a line with fields m exactly when the grammar derives the line with m as the last-wins map of its members. |
| JsonGrammar.DerivableParses | src/protocol/message.cpp:113-168 | Every derivable text is accepted with its meaning. |
| JsonGrammar.ParsedIsDerivable | src/protocol/message.cpp:113-168 | Every accepted line has a derivation with the parsed meaning. |
| JsonGrammar.PiecesParse | src/protocol/message.cpp:51-86 | The string parser reads every sequence of plain characters and escapes and stops behind the closing quote. |
| JsonGrammar.MembersParse | src/protocol/message.cpp:128-161 | The member loop reads every list of members into its last-wins map. |
| Json.RunSkipWs | src/protocol/message.cpp:30-34 | The white-space loop stops at the first other character. |
| Json.RunParseString | src/protocol/message.cpp:44-86 | The string loop returns the value and position, or the error, of the specification. |
| Json.RunParseNumber | src/protocol/message.cpp:88-98 | The digit loop and stoull return the decimal value below 2^64, or the error. |
| Json.RunParseValue | src/protocol/message.cpp:131-148 | The three kinds of values are told apart by their first character, else the error. |
| Json.RunParseMembers | src/protocol/message.cpp:128-161 | The member loop fills the map and stops behind the closing brace, or the error. |
| Json.RunParseObject | src/protocol/message.cpp:113-168 | The whole parser computes the specification, with pos never past the end and every loop ending. |
| Json.DecimalRoundTrip | src/protocol/message.cpp:88-98 | Parsing the printed decimal of any number gives it back. |
| Protocol.RunEscapeJson | src/protocol/message.cpp:203-228 | The escaping loop computes the specification. |
| Protocol.ParseUndoesEscape | src/protocol/message.cpp:203-228 | parse_string reads back what escape_json wrote, and leaves any following text alone. |
| Protocol.FormatRoundTrip | src/protocol/message.cpp:230-248 | Whatever fields are formatted, the parser gives back exactly those fields. |
| Protocol.IntendedFields | src/protocol/message.cpp:409-500 | The fields every format function writes are the ones its reply is meant to have. |
| Protocol.ReplyRoundTrip | src/protocol/message.cpp:409-500 | For all field values, every formatted reply parses to exactly its intended fields. |
| ReplySizes.FormatLength | src/protocol/message.cpp:230-248 | The exact length of any formatted object, from its names, texts, escapes and digits. |
| ReplySizes.ReplyIsEncodable | src/network/packet_codec.cpp:17-30 | A reply can be framed exactly when its size, escapes counted, is at most 1 MiB. |
| ReplySizes.DirectMessageIsEncodable | src/protocol/message.cpp:448-451 | For a direct message: exactly when name and text, escapes counted, leave 33 bytes. |
| ReplySizes.AcceptedButUnsendable | src/protocol/message.cpp:203-228 | A direct message of 524272 raw newlines or more, in a packet within the limit, is accepted, and the message it has to deliver cannot be framed. |
| Commands.CommandMeetsGrammar | src/protocol/message.cpp:282-407 | A command is read from a line exactly when the grammar derives from the line an object that describes it: right type, required texts present and not empty, numbers, defaults and the cap on limits. |
| Commands.ReadMeansDescribed | src/protocol/message.cpp:288-401 | The branch for each command type reads exactly the objects that describe the command. |
| Commands.TrimIsRedundant | src/protocol/message.cpp:24-28 | Removing a trailing carriage return never changes which fields a line has. |
| Commands.CommandRoundTrip | src/protocol/message.cpp:282-407 | Printed commands are read back as themselves, and the commands that can be read are exactly those with non-empty texts, 64-bit numbers and limits up to 100. |
| Commands.RunParseClientCommand | src/protocol/message.cpp:282-407 | The branch-by-branch reader returns the command or the first error of the specification. |
| MessageStore.MatchingIsExact | src/storage/message_store.cpp:678-688 | The simple filter holds exactly the matching messages of a range of ids, each once, in id order. |
| MessageStore.PageSizes | src/storage/message_store.cpp:690-744 | A page has as many messages as asked for, 20 when the limit is 0, unless fewer match. |
| MessageStore.MessageStore.Append | src/storage/message_store.cpp:550-567 | Appends the message and returns its position as id. |
| MessageStore.MessageStore.DirectHistory | src/storage/message_store.cpp:678-688 | All direct messages between two users, oldest first. |
| MessageStore.MessageStore.GroupHistory | src/storage/message_store.cpp:764-772 | All messages of a group, oldest first. |
| MessageStore.MessageStore.DirectHistoryPage | src/storage/message_store.cpp:730-744 | The newest `limit` of the filtered messages below the cursor, newest first; limit 0 is 20 and cursor 0 is no cursor. |
| MessageStore.MessageStore.GroupHistoryPage | src/storage/message_store.cpp:812-824 | The same for a group. |
| MessageStore.MessageStore.FindUnread | src/storage/message_store.cpp:843-862 | The oldest `limit` of the unread messages above the cursor, in id order. |
| Paging.HistoryPagingIsComplete | src/chat/chat_service.cpp:177-235 | For any limits and any messages appended between pages: the cursor strictly decreases until a page has no more, and the pages put together are the conversation as of the first request, each message once, in id order. |
| Paging.NoMoreMeansNothingOlder | src/chat/chat_service.cpp:203-204 | A page without more holds everything below its cursor. |
| Paging.UnreadDrainIsComplete | src/chat/chat_service.cpp:265-301 | With fixed memberships, repeating the unread query ends and returns exactly the unread messages above the start cursor, each once, ascending. |
| Paging.FinalCursorSkipsNothing | src/chat/chat_service.cpp:272-299 | What the final cursor leaves unread in any longer log, after the pages returned, is everything above the start cursor. |
| Paging.NormalizeHistoryLimit | src/chat/chat_service.cpp:12-17 | The limit is between 1 and 100: the asked one, 20 for 0, 100 for more. |
| ChatPaging.PagingByCommandsIsComplete | src/chat/chat_service.cpp:177-235 | A logged-in client that pages by history commands is shown exactly the conversation as of its first command, whatever all users do between its commands. |
| ChatPaging.UnreadByCommandsIsComplete | src/chat/chat_service.cpp:265-301 | A logged-in client with fixed memberships that drains by unread commands ends once the log stops growing, and is shown exactly its unread messages above the start cursor. |
| ChatPaging.LogOnlyGrows | src/chat/chat_service.cpp:39-310 | No command, disconnect or restart removes or changes a stored message. |
| ConversationIndex.KeyBoundIsExact | src/storage/message_store.cpp:40-44 | The packed key is injective on unordered pairs of user ids, from 1 up to below a bound, exactly when the bound is at most 2^32. |
| ConversationIndex.KeyIsInjective | src/storage/message_store.cpp:40-44 | Below 2^32 two pairs have the same key exactly when they are the same unordered pair. |
| ConversationIndex.KeysCollide | src/storage/message_store.cpp:40-44 | Users 1 and 2^32, and user 2^32 with itself, share a key. |
| ConversationIndex.MigrationEstablishes | src/storage/message_store.cpp:129-139 | The UPDATE leaves every row with the columns of conversation_type_for and conversation_id_for exactly when the rows it passes over had them. |
| ConversationIndex.InsertKeepsIndex | src/storage/message_store.cpp:593-595 | An appended row has those columns, and the others keep theirs. |
| ConversationIndex.AlwaysIndexed | src/storage/message_store.cpp:114-140 | From the first migration of a legacy table on, through any migrations and inserts, every row is indexed. |
| ConversationIndex.QueryBoundIsExact | src/storage/message_store.cpp:702-726 | The paged query by key and the newest-first pair query below the cursor agree on every indexed table, for user ids from 1 up to below a bound, exactly when the bound is at most 2^32; group ids do not matter. |
| ConversationIndex.IndexMissesNothing | src/storage/message_store.cpp:702-726 | Without any bound the query by key selects every row that the query by pair selects. |
| ConversationIndex.IndexFindsGroup | src/storage/message_store.cpp:786-808 | The group query by key agrees with the one by type and receiver for all group ids. |
| BitWords.PackSmall | src/storage/message_store.cpp:40-44 | For halves below 2^32, shift and bitwise or is low * 2^32 + high. |
| Sessions.BindKeeps | src/session/session_manager.cpp:5-26 | With mutually inverse indexes, bind keeps them so exactly when nobody who stays logged in uses the name. |
| Sessions.BoundUsers | src/session/session_manager.cpp:5-26 | bind ends the sessions of its user and of its connection, keeps all others and adds the new one. |
| Sessions.UnbindKeeps | src/session/session_manager.cpp:28-37 | unbind ends exactly that user's session and keeps the bijection. |
| Sessions.UnbindConnectionKeeps | src/session/session_manager.cpp:39-53 | unbind_connection ends exactly the session on the connection and keeps the bijection. |
| Sessions.IndexesStayInverse | src/session/session_manager.cpp:5-53 | For every interleaving of the mutex blocks whose sessions carry registered names, users, connections and usernames stay in one bijection. |
| Sessions.RacingLogins | src/chat/chat_service.cpp:66-88 | When two logins of a user on two connections both check before either binds, both succeed and the second ends the session of the first. |
| Sessions.BindEvictsNobody | src/session/session_manager.cpp:5-26 | With registered names, a bind ends no session if and only if what the login checked still holds at the bind, or this very session is bound already. |
| Sessions.LookupsAgree | src/session/session_manager.cpp:55-93 | Under the bijection the three lookups find the same session. |
| Sessions.GroupsKeepNonEmpty | src/session/session_manager.cpp:99-114 | Joining and leaving change exactly one membership and leave no empty group. |
| Sessions.SessionManager.Bind | src/session/session_manager.cpp:5-26 | The step-by-step erasures and insertions amount to the specified bind. |
| Sessions.SessionManager.UnbindConnection | src/session/session_manager.cpp:39-53 | Performs the specified unbind and leaves groups alone. |
| Sessions.SessionManager.LeaveGroup | src/session/session_manager.cpp:104-114 | Removes the member and erases a group that becomes empty. |
| GroupMembers.ViewsAgree | src/storage/group_member_store.cpp:219-306 | is_group_member, load_group_members and load_user_groups agree. |
| GroupMembers.GroupMemberStore.JoinGroup | src/storage/group_member_store.cpp:59-64 | Adds the member and says whether it was one already. |
| GroupMembers.GroupMemberStore.LeaveGroup | src/storage/group_member_store.cpp:105-116 | Removes a member and an emptied group; refuses someone who is none and changes nothing. |
| GroupMembers.GroupMemberStore.LoadGroupMembers | src/storage/group_member_store.cpp:219-230 | The strictly ascending list of exactly the members, also for an unknown group. |
| GroupMembers.GroupMemberStore.LoadUserGroups | src/storage/group_member_store.cpp:295-306 | The strictly ascending list of exactly the groups of the user. |
| GroupMembers.ListIsUnique | src/storage/group_member_store.cpp:227-228 | A strictly ascending list is determined by its elements, so the order of the hash set does not show. |
| UserStore.RegisterKeeps | src/storage/user_store.cpp:268-290 | Registration succeeds exactly for a new name of 1 to 64 bytes with a password and a hash; it then takes an unused id, keeps all other records and the one-to-one relation of names and ids; otherwise nothing changes. |
| UserStore.RegisteredUserLogsIn | src/storage/user_store.cpp:268-392 | After a successful registration, at any later time, the name logs in as the returned id with exactly the passwords that derive the same key. |
| UserStore.RecordsLast | src/storage/user_store.cpp:276-290 | Later registrations never change a registered record. |
| UserStore.LookupsAgree | src/storage/user_store.cpp:342-378 | Finding by name and by id give the same record. |
| UserStore.UserStore.RegisterUser | src/storage/user_store.cpp:268-290 | Performs the specified registration with the same refusals in the same order. |
| Passwords.RecordRoundTrip | src/storage/user_store.cpp:63-80 | With a non-empty salt and a derivable key, a record accepts exactly the passwords that derive the same key, so always its own; otherwise none. |
| Passwords.VerifyIsExact | src/storage/user_store.cpp:222-244 | A stored text is accepted exactly when it is the canonical record of the password for some iteration count and salt. |
| Passwords.RecordSplits | src/storage/user_store.cpp:53-80 | split recovers exactly the four parts of a record. |
| Passwords.RecordIsInjective | src/storage/user_store.cpp:78-79 | Two equal records have the same iteration count, salt and key. |
| Passwords.FromHexUndoesToHex | src/storage/user_store.cpp:26-51 | from_hex undoes to_hex for all bytes. |
| Passwords.StoiOfDecimal | src/storage/user_store.cpp:228-236 | stoi undoes the printing of every positive int. |
| Passwords.RunToHex | src/storage/user_store.cpp:26-33 | The loop computes the specified hexadecimal text. |
| Passwords.RunFromHex | src/storage/user_store.cpp:35-51 | The loop computes the specified bytes, with what strtol lets pass in place of a digit. |
| ChatTheorems.AlwaysSound | src/chat/chat_service.cpp:39-310 | In every run of lines, disconnects and restarts: one bijection between users, connections and usernames, the names being those registered; sessions only on connection ids given out; no empty group; the session manager's groups contained in the member store's. |
| ChatTheorems.GroupMapsAgree | src/chat/chat_service.cpp:102-141 | Until a restart the session manager's group map equals the member store's. |
| ChatTheorems.SessionsEndByTheirOwn | src/chat/chat_service.cpp:66-100 | A session ends or changes only by a logout or disconnect of its own connection, or a restart; no login evicts anyone. |
| ChatTheorems.LoginIsExclusive | src/chat/chat_service.cpp:66-88 | A login succeeds exactly on a connection without a session, for a name nobody is online with, and an accepted password; then the connection carries that session, else nothing changes. |
| ChatCommands.RegisterIsExact | src/chat/chat_service.cpp:53-64 | A registration succeeds if and only if the connection has no session, the name is new and has 1 to 64 characters, and the password is not empty and can be hashed; then the name has a record with a new id, and nothing else changes; otherwise nothing does, and the answer gives the first reason that applies. |
| ChatCommands.LoginIsExact | src/chat/chat_service.cpp:66-88 | The one answer to a login, in each of its four cases, and that it changes the sessions by exactly the one it names. |
| ChatCommands.LogoutIsExact | src/chat/chat_service.cpp:95-100 | A logout ends exactly the session of its connection, and its answer asks for the connection to be closed. |
| ChatCommands.OnlyLogoutCloses | src/chat/chat_service.cpp:39-306 | Some answer to a line asks for a close if and only if the line is a logout on a connection with a session. |
| ChatCommands.RefusalsAreExact | src/chat/chat_service.cpp:39-51 | A line that cannot be read, a command without a login, and a ping change nothing and get exactly one answer. |
| ChatCommands.JoinIsExact | src/chat/chat_service.cpp:119-128 | After a join, in both group maps, exactly the sender's membership of the group named is added; nothing else changes, and the answer names the group. |
| ChatCommands.LeaveIsExact | src/chat/chat_service.cpp:130-141 | After a leave by a member exactly that membership is gone from both group maps; by anyone else the command is refused and nothing changes. |
| ChatCommands.CreateIsExact | src/chat/chat_service.cpp:102-117 | A group with a name gets an id, exactly its creator's membership is added to both maps, and the answer carries that id and name; without a name nothing changes. |
| ChatCommands.GroupIdsAreNew | src/storage/group_store.cpp:42-55 | Over every run a new group gets a higher id than any group created before it. |
| ChatCommands.StrangersAreRefused | src/chat/chat_service.cpp:143-147 | Messages to a group one is not in or to a name nobody has, and histories of such, are refused and stored nowhere. |
| ChatCommands.HistoryIsExact | src/chat/chat_service.cpp:177-235 | An accepted history request is answered with the newest matching messages below the cursor, at most the limit, nothing left out between, each with its id, type, text and time, its sender by registered name and its receiver by name or group number; then whether the page is full and its lowest id. |
| ChatCommands.HistoryIsAbout | src/chat/chat_service.cpp:177-213 | The messages a history request is about are the direct messages between exactly these two users, in either direction, or the messages of a group the user is a member of. |
| ChatCommands.UnreadIsExact | src/chat/chat_service.cpp:266-302 | The same for unread messages: the oldest ones above the cursor, shown in full, then whether the page is full and the highest id. |
| ChatCommands.UnreadIsAbout | src/chat/chat_service.cpp:266-270 | The messages an unread request is about are those to the user, and those by others to the groups the user is a member of. |
| ChatTheorems.GroupFanOutIsExact | src/chat/chat_service.cpp:143-175 | An accepted group message yields one copy to each online member but the sender, on pairwise distinct connections other than the sender's, then one ack with the position of the appended message, marked delivered exactly when there was a copy. |
| ChatTheorems.DirectMessageIsExact | src/chat/chat_service.cpp:237-263 | A direct message goes to the session of exactly the registered receiver if online, is stored in any case, and the ack says which. |
| ChatTheorems.AnswersAreAddressable | src/chat/chat_service.cpp:39-306 | Everything a line makes the server send is addressed to a connection id given out before. |
| ChatTheorems.LineSound | src/chat/chat_service.cpp:39-306 | Handling any line keeps the chat state sound. |
| ChatService.ChatService.HandleClientLine | src/chat/chat_service.cpp:39-306 | The service over its stores, branch by branch, changes its state and answers exactly as the command machine. |
| ChatService.ChatService.FanOut | src/chat/chat_service.cpp:158-170 | The loop over the members produces the copies and sets the flag exactly when there is one. |
| ChatService.ChatService.ShowPage | src/chat/chat_service.cpp:186-204 | Reversing the page and tracking the lowest id gives the specified items and end marker. |
| ChatService.ChatService.ShowUnreadPage | src/chat/chat_service.cpp:268-300 | Tracking the highest id gives the specified items and end marker. |
| ChatService.ChatService.SendDirect | src/chat/chat_service.cpp:237-263 | Stores, looks the receiver's session up by name and answers as specified. |
| ChatService.ChatService.HandleDisconnected | src/chat/chat_service.cpp:308-310 | A disconnect unbinds exactly the connection. |
| ConnectionPool.SlotsAndHandlesAreConserved | src/storage/mysql_connection_pool.cpp:120-160 | In every interleaving of any number of acquire calls, guards, releases, reconnects, inits and shutdowns: every slot is in the queue or with exactly one call or guard; the open handles are exactly those in the slots, no two slots sharing one; a non-empty guard has an open handle that no other guard has. |
| ConnectionPool.InitKeeps | src/storage/mysql_connection_pool.cpp:71-118 | A successful init fills and queues every slot; a failed one leaves no slot and no open handle. |
| ConnectionPool.HealKeeps | src/storage/mysql_connection_pool.cpp:236-271 | Looking after a slot touches no other slot, leaks no handle whatever the server answers, and reports success exactly when the slot has a handle. |
| ConnectionPool.HealIsExact | src/storage/mysql_connection_pool.cpp:236-271 | Nothing happens to a slot checked lately; a handle that answers the ping is kept; otherwise the old handle is closed, and looking after the slot succeeds if and only if one of the attempts allowed connects, with a new handle and a new generation. |
| ConnectionPool.CallsProceed | src/storage/mysql_connection_pool.cpp:128-159 | A call leaves the idle check only when every candidate was looked after and went back, one by one in order; it ends only by giving up its wait, or by putting back or passing on the slot it could not make healthy or its guard held. |
| ConnectionPool.GuardExactlyIfUsable | src/storage/mysql_connection_pool.cpp:146-159 | In every interleaving a call that has taken a slot becomes a guard if and only if the slot was checked lately, answers the ping or can be reconnected. |
| ConnectionPool.InitIsExact | src/storage/mysql_connection_pool.cpp:71-118 | init succeeds if and only if the pool is ready already, or the configuration is positive and the first pool_size attempts all connect; then every slot counts as used and checked now. |
| ConnectionPool.IdleCheckIsExact | src/storage/mysql_connection_pool.cpp:302-333 | When the check is due, exactly the waiting slots without a handle or not checked for the ping interval leave the queue, both parts in their order; otherwise nothing happens. |
| ConnectionPool.ReleaseIsExact | src/storage/mysql_connection_pool.cpp:273-287 | A slot released to a running pool waits behind all others with its handle; one released to a stopped pool has its handle closed and does not wait. |
| ConnectionPool.SlotsAreTakenInTurn | src/storage/mysql_connection_pool.cpp:146-147 | Whatever a call does, slots that go on waiting keep their order, and the slot taken is one that no other waited in front of. |
| ConnectionPool.ShutdownCloses | src/storage/mysql_connection_pool.cpp:162-172 | After a shutdown the pool is stopped and empty and no handle is open. |
| ConnectionPool.CloseAllKeeps | src/storage/mysql_connection_pool.cpp:289-300 | Closing all slots closes every open handle. |
| ConnectionPool.StepKeeps | src/storage/mysql_connection_pool.cpp:120-333 | Every step of every call keeps the pool's invariant. |
| ConnectionPool.CandidatesSplit | src/storage/mysql_connection_pool.cpp:302-333 | The idle check splits the queue into the stale slots and the others, none twice and none lost. |
| ConnectionPool.MySqlConnectionPool.Init | src/storage/mysql_connection_pool.cpp:71-118 | The creation loop, and the cleanup after a failure, amount to the specified init. |
| ConnectionPool.MySqlConnectionPool.IdleHealthCheckUnlocked | src/storage/mysql_connection_pool.cpp:302-333 | The loop that empties and refills the queue takes out exactly the stale slots in order. |
| ConnectionPool.MySqlConnectionPool.ReconnectConnection | src/storage/mysql_connection_pool.cpp:236-254 | The retry loop amounts to the specified reconnect. |
| ConnectionPool.MySqlConnectionPool.Release | src/storage/mysql_connection_pool.cpp:273-287 | Queues the slot, or closes its handle when the pool has stopped. |
| ConnectionPool.MySqlConnectionPool.Acquire | src/storage/mysql_connection_pool.cpp:120-160 | A call nobody interrupts returns a slot if and only if the pool runs, a slot is waiting and the one whose turn it is after the idle check was checked lately, answers the ping or can be reconnected; its handle is the old one in the first two cases or a new one; every other slot is back in the queue. |
| ConnectionPool.PooledMySqlConnection.MoveFrom | src/storage/mysql_connection_pool.cpp:34-61 | The slot changes hands, the other guard is empty, and only the slot held before is put back; moving to itself changes nothing. |

## Left out

- ChatServer.ClientsReceiveReplies: says nothing about parsing once a counter leaves 64 bits, because ids are unbounded naturals here; the source's ids are 64-bit words.
- ServerTheorems.InputRefinement: does not say that every frame received is processed: packets that arrive in the same read as the end of the stream, an error or a bad length are dropped, as the source drops them.
- ThreadPool.HandoffIsFifo: tasks are dequeued in order, but batches of one connection may run on different workers, so responses of different batches can be queued in either order.
- ChatServer.ServerRuns: a worker's change of the chat state and the push of its responses are one atomic step; in the source they are separate blocks under different mutexes, so two workers can push in the opposite order to their changes. `ServerState.Processed` alone allows that.
- ChatTheorems.AlwaysSound: a command is one atomic step; what remains under interleaved mutex blocks is `Sessions.IndexesStayInverse`.
- ChatLiveness.LiveExactlyWithoutLate: a command and a close are one step each; in the source a close can also fall between a login's checks and its bind, with the effect of a late login.
- ConnectionPool.SlotsAndHandlesAreConserved: initialising or shutting down while slots are leased or being checked is excluded; the source then closes handles that are in use.
- ConnectionPool.MySqlConnectionPool.Acquire: one call alone, with one time of now and answers of the server that do not change during it; what holds for interleaved calls is `ConnectionPool.GuardExactlyIfUsable`, `ConnectionPool.CallsProceed` and `ConnectionPool.SlotsAndHandlesAreConserved`.
- TcpServer.TcpServer.CloseClient: for an unknown descriptor the source closes whatever the number stands for by then; only client descriptors are modelled, of which an unknown one is not open.
- Paging.UnreadDrainIsComplete: for fixed memberships, and a log that stops growing, since a drain that is always outrun never ends.
- Passwords.RecordRoundTrip: iteration counts are positive ints, as in the source.
- Endless runs of EINTR: the results of a call are a finite list.
- Wrap-around of 64-bit ids and counters.
- The stores and the chat service in MySQL mode, their fallback to memory when no connection is available, and SQL errors; the database appears only as the rows of `ConversationIndex` and the slots of `ConnectionPool`.
- `created_at` of stored messages, which memory mode leaves empty.
- `group_store.cpp` beyond its fresh ids: a group's name and owner are kept nowhere else; and a numeric group id can be joined before it is created.
- `server_config.cpp`, the logger, listener and epoll setup, the wake-up descriptor, `main` and wiring.
- Log texts, and `errno` values beyond the cases they select.
- RFC 8259 beyond the subset: `\b`, `\f` and `\u` escapes, nesting, negative numbers, fractions, exponents and null are refused, and other control characters are emitted raw; the proofs are about the subset.
- Bytes above 127 under other locales: `isspace` and `isdigit` are those of the C locale.
- Timestamps and condition variables: a wait ends when the model says its condition can be seen.
- Data races: every block under a mutex is one atomic step.
