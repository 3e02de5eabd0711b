# A verified model of a parameter-server runtime

This project models the parts of the repository that carry state and can go wrong: the messaging protocols
of a parameter-server node, the two stream framings below them, the scheduler that admits and dismisses
nodes, the thread pool, the sharding of embedding tables with the slicers built on it, the consistent-hash
ring, and the parser of the log-level configuration. It is written in Dafny 4.11; every `.dfy` file is part
of it, and `dafny verify dfyconfig.toml` checks the whole.

Each component has the same three layers.

- A *value model*: the state as a datatype and every locked section, handler or loop as a function on it.
  For the concurrent components a `System` adds the threads or nodes that are between two steps, the
  messages on their way and the history of the run; `Next` takes any step of any participant, and `Exec` runs
  any list of events. An event that cannot happen leaves the system as it is, so every list of events is a run.
- *Laws*: lemmas about all inputs, all runs and all ways of cutting a stream. An invariant is split into a
  statement about one key, id or node, shown to survive every step, and carried over all runs by `Reachable`.
- The code *as written*: classes whose methods update fields, buffers and maps, with loops and invariants.
  Each method is proved equal to its step function on the old state. For the framings, the sharding, the ring
  and the log configuration the laws thereby hold of the imperative code. For the concurrent components a
  method is one locked section or handler, and `Next` says when each may happen; that the threads of the source
  take these sections in that order is read off the source, not proved (`RunReceiveCallback` does it for one
  undisturbed handler).

## What is proved

- **Collective rendezvous.** Whatever the interleaving of posted receives, arriving messages and half-done
  handlers, the k-th receive from a rank is completed once, with the k-th message of that rank; the maps hold
  exactly the unmatched rest. This fails for a message `memcpy_s` refuses (an empty one, say): it leaves the
  mutex locked, and nothing else does. Every other receive whose message has arrived is completed.
- **Request tracker.** A gathering request has output if and only if all its responses came in before a
  waiter gave up, and the waiter never sees success before the callback ran: in all runs, if and only if the
  number of ranks fits the 32-bit count. Other requests never interfere; responses
  after a waiter gave up or a send threw never produce output, with exact conditions.
- **Framing.** `TcpMessageHandler` delivers exactly the sent messages, for every chunking, if and only if none
  is empty; the second parser does so if and only if every message is shorter than its reserved length.
- **Scheduler.** With requests and replies in flight: flags never revert, whoever thinks the cluster is
  finished is right, ranks are dense and stable, and a node that fetched servers can reach exactly the ranks
  the rank check accepts. Exactly when each flag rises is stated in terms of what an observer of the messages
  and the clock knows, apart from the manager's own fields; and from every reachable state a node that asks
  gets its rank, the flags as they are, its start and the servers.
- **Thread pool.** Tasks start once, in order, woken workers find a task, the queue can always be emptied, and
  the task count has an exact bound.
- **Sharding.** Ranges partition a table; every slicer preserves the meaning of the message it cuts.
- **Hash ring.** The lookup is "nearest clockwise"; a joining node takes exactly the hashes it is nearer to.
  What a run leaves at a hash is stated for every hasher; the ring shows who is a member if and only if no two
  nodes collide.
- **Log configuration.** A text is accepted if and only if it starts with a well-formed configuration, and it
  then means its entries, the last one for a name counting.

## Assumptions

- Requests and replies of one connection arrive in order, unaltered. A protobuf message is its bytes.
- The handling of one response is one step, because all clients of a node share one event loop; it is also
  taken as one step relative to a waiter's timeout. The scheduler's handlers and each of the timer's three
  parts are steps.
- A sleeping thread-pool worker wakes only when notified. `SpuriousWakeupEndsWorker` shows why.
- A timeout may happen at any time; the clock is an input that never runs backwards.
- A node registers before it sends anything else, as `worker_node.cc` and `server_node.cc` do.
  `HeartbeatBeforeRegistering` shows why.
- A table is added once per key. `AddedTwiceOverlaps` shows why.

## Model

| member | source | states |
|---|---|---|
| Rendezvous.RendezvousLaw | even-http/ps/core/abstract_node.cc:237-266 | In every interleaving the k-th receive of a rank is completed by exactly one write, of the k-th message from that rank into its own output; once no handler is midway, it is complete iff that message has arrived; no erased callback is ever run |
| Rendezvous.OutputLaw | even-http/ps/core/abstract_node.cc:248-259 | An output that one receive was posted with holds that receive's message in every reachable state in which that receive is complete |
| Rendezvous.QuiescentLaw | even-http/ps/core/abstract_node.cc:573-603 | With no handler midway, received data, callbacks and done flags hold exactly the keys (and values) that the counts of posts and arrivals leave unmatched or matched |
| Rendezvous.InterleavingIrrelevant | even-http/ps/core/abstract_node.cc:244-264 | Two interleavings of the same posts and messages end with the same maps and flags |
| Rendezvous.WedgedIffRefused | even-http/ps/core/abstract_node.cc:577-586 | The mutex is left locked iff some arriving message was empty or larger than 0x7fffffff bytes |
| Rendezvous.WedgedForever | even-http/ps/core/abstract_node.cc:577-586 | After that, no further event changes anything |
| Rendezvous.RefusedMessageLaw | even-http/ps/core/abstract_node.cc:577-586 | After a message of such a size, in any run, no receive that is still open ever completes |
| Rendezvous.EmptyMessageLost | log/utils/memcpy_s.c:442-447 | For every accepted role, rank and output: a receive is posted, one empty message arrives, and the receive never completes, whatever follows |
| Rendezvous.HistoriesAreEvents | even-http/ps/core/abstract_node.cc:605-627 | The histories the laws speak of are the accepted posts and the messages of the run, in order |
| Rendezvous.HandlersFinish | even-http/ps/core/abstract_node.cc:590-602 | From every reachable state the handlers midway can finish without any new post or message |
| Rendezvous.CompletionLaw | even-http/ps/core/abstract_node.cc:582-602 | In any run whose messages have 1 to 0x7fffffff bytes, a receive that was posted and whose message has arrived is completed by the handlers under way, with that message |
| Rendezvous.OneMessage | even-http/ps/core/abstract_node.cc:244-264 | One receive and one message of 1 to 0x7fffffff bytes, in either order, end with the message in the output, done, and nothing left over |
| Rendezvous.Reachable | even-http/ps/core/abstract_node.cc:573-603 | The per-key invariant (data, callback, done flag, phase and writes as a function of the two histories) holds after every run |
| Cluster.AcceptedRanks | even-http/ps/core/comm_util.cc:124-131 | For servers and workers alike, exactly the ranks below the configured number are accepted; with none configured, every 32-bit rank; for the scheduler, every rank |
| Rendezvous.CollectiveNode.NextExpectedRankRequestId | even-http/ps/core/abstract_node.cc:605-615 | Numbers the posts of a rank from 1, and advances that rank's counter only |
| Rendezvous.CollectiveNode.NextActualRankRequestId | even-http/ps/core/abstract_node.cc:617-627 | Numbers the messages of a rank from 1, and advances that rank's counter only |
| Rendezvous.CollectiveNode.CollectiveReceiveAsync | even-http/ps/core/abstract_node.cc:237-266 | Throws without effect iff the rank check fails; otherwise performs the step `Post` on the whole state |
| Rendezvous.CollectiveNode.BeginReceiveCallback | even-http/ps/core/abstract_node.cc:573-592 | First locked section of the handler: the step `Arrive`, and whether a callback was found |
| Rendezvous.CollectiveNode.RunCallback | even-http/ps/core/abstract_node.cc:254-262 | Second section: the step `Fire` |
| Rendezvous.CollectiveNode.EraseCallback | even-http/ps/core/abstract_node.cc:598-602 | Third section: the step `Erase` |
| Rendezvous.CollectiveNode.RunReceiveCallback | even-http/ps/core/abstract_node.cc:573-603 | The three sections in the source's order, undisturbed, are the steps arrive, fire and erase of the system |
| Rendezvous.CollectiveNode.CollectiveWaitPredicate | even-http/ps/core/abstract_node.cc:268-273 | The wait predicate is the done flag; looking up an unknown request creates its entry |
| RequestTracker.GatherLaw | even-http/ps/core/abstract_node.cc:166-209 | In every run and for any number of ranks a gathering request has output iff its callback has run; entry i is the latest response of rank i up to that moment, or null; until a waiter returns, its predicate compares the counts modulo 2^32 |
| RequestTracker.CountLaw | even-http/ps/core/abstract_node.cc:636-646 | What callers are promised (output iff all responses came in before a waiter gave up, entry i from rank i, waiter's predicate iff output) holds in all runs iff the number of ranks is below 2^32 |
| RequestTracker.DistinctRanksLaw | even-http/ps/core/abstract_node.cc:178-186 | With distinct ranks, whatever the order of the responses, output i is the one response of `rank_ids[i]` that came in until the callback ran |
| RequestTracker.AbortedSendLaw | even-http/ps/core/abstract_node.cc:170-191 | A send that threw never produces output, in any run, iff it threw before the callback was set or before reaching as many ranks as the 32-bit count takes for all |
| RequestTracker.LateResponsesLaw | even-http/ps/core/abstract_node.cc:211-219 | Once a waiter gave up, no continuation of the run produces output for that request, iff fewer than 2^32 of its responses can still follow that waiter |
| RequestTracker.IsolationLaw | even-http/ps/core/abstract_node.cc:537-571 | Ids are fresh; a step for one id leaves count, callback, stored responses and output of every other id as they were |
| RequestTracker.RunGrows | even-http/ps/core/abstract_node.cc:636-641 | A request keeps its id and parameters for ever; its responses are only appended |
| RequestTracker.RespondUntil | even-http/ps/core/abstract_node.cc:511-535 | In every reachable state the ranks sent to can go on answering until any number of them has |
| RequestTracker.WrappedCount | even-http/ps/core/abstract_node.cc:643-646 | A concrete request that breaks it: with 2^32 + 1 ranks one response yields an output with null entries |
| RequestTracker.WaitLaw | even-http/ps/core/abstract_node.cc:211-219 | For every kind of request a waiter's predicate compares the counts since the last waiter, modulo 2^32 |
| RequestTracker.StoredLaw | even-http/ps/core/abstract_node.cc:528-534 | A request without a callback keeps the latest response of every rank |
| RequestTracker.Reachable | even-http/ps/core/abstract_node.cc:511-571 | The per-request invariant holds after every run |
| RequestTracker.MessageTracker.AddMessageTrack | even-http/ps/core/abstract_node.cc:636-641 | Takes the next id and tracks the expected number in 32 bits |
| RequestTracker.MessageTracker.BeginSend | even-http/ps/core/abstract_node.cc:166-186 | Takes an id, throws iff the sizes differ, then sets a gathering callback: the tracker after the step `NextSend` |
| RequestTracker.MessageTracker.ProcessSendDataResp | even-http/ps/core/abstract_node.cc:511-535 | Stores the response under id and rank, or throws without effect iff it is too large to copy |
| RequestTracker.MessageTracker.CheckMessageTrack | even-http/ps/core/abstract_node.cc:643-646 | Whether this response is the last; an unknown id gets an entry |
| RequestTracker.MessageTracker.RunMessageCallback | even-http/ps/core/abstract_node.cc:537-555 | On the last response, gathers the outputs in rank order and drops callback and responses; otherwise only looks |
| RequestTracker.MessageTracker.HandleSendData | even-http/ps/core/abstract_node.cc:453-467 | Store, callback and count in this order, as one step `Respond` |
| RequestTracker.MessageTracker.WaitReturns | even-http/ps/core/abstract_node.cc:211-219 | Succeeds iff the counts agree, and erases the entry either way |
| TcpFraming.FramingLaw | even-http/ps/core/tcp_message_handler.cc:28-78 | For every list of messages and every cut of the stream, exactly the sent messages are delivered iff none is empty; an empty one blocks all behind it |
| TcpFraming.ChunkingIrrelevant | even-http/ps/core/tcp_message_handler.cc:32-77 | Receiving chunks is receiving their concatenation, from any receiver state |
| TcpFraming.HeaderRoundTrip | even-http/ps/core/tcp_message_handler.cc:38-43 | The three header fields are read back as they were sent |
| TcpFraming.HeaderLayout | even-http/ps/core/tcp_client.cc:348-364 | A frame on the wire: 4 bytes of protocol, 4 of meta length, 8 of length, least byte first, then meta, then data |
| TcpFraming.FrameReceived | even-http/ps/core/tcp_message_handler.cc:33-75 | A frame received at a boundary is delivered, or leaves the header full when it is empty |
| TcpFraming.StreamReceived | even-http/ps/core/tcp_message_handler.cc:32-77 | A stream of non-empty frames is delivered in order and leaves the receiver at a boundary |
| TcpFraming.EmptyFrameBlocks | even-http/ps/core/tcp_message_handler.cc:33-48 | After an empty frame nothing more is delivered, and the header buffer is overrun iff any byte follows |
| TcpFraming.TcpSender.SendMessage | even-http/ps/core/tcp_client.cc:341-368 | Appends header, meta and data as `Encode` defines, or throws before any write iff the meta is too long |
| TcpFraming.TcpSender.SendAll | even-http/ps/core/tcp_client.cc:341-368 | A list of sends leaves the encoded stream of the list |
| TcpFraming.TcpMessageHandler.StoreHeaderBytes | even-http/ps/core/tcp_message_handler.cc:34-37 | Header bytes are appended in order; the index never leaves the buffer |
| TcpFraming.TcpMessageHandler.FillHeader | even-http/ps/core/tcp_message_handler.cc:33-49 | Equals feeding those bytes one at a time; a full header allocates the announced length |
| TcpFraming.TcpMessageHandler.FillBody | even-http/ps/core/tcp_message_handler.cc:51-76 | Equals feeding those bytes one at a time; the copy stays in the buffer, copied plus remaining is the announced length |
| TcpFraming.TcpMessageHandler.ReceiveRun | even-http/ps/core/tcp_message_handler.cc:32-77 | One loop round makes progress and equals feeding the bytes it used |
| TcpFraming.TcpMessageHandler.ReceiveMessage | even-http/ps/core/tcp_message_handler.cc:28-78 | The bulk-copying receiver refines the byte-at-a-time one; if a copy is refused, which takes a chunk larger than one copy accepts, what was delivered is what a prefix of the chunk leads to |
| TcpFraming.TcpMessageHandler.ReadAll | even-http/ps/core/tcp_client.cc:180-195 | The read loop turns any cut of a stream of non-empty messages into exactly those messages |
| TcpFraming.Exchange | even-http/ps/core/tcp_client.cc:180-195 | Sender and receiver composed: for every cut of the stream the non-empty messages sent are the messages delivered |
| Bytes.LittleEndianRoundTrip | even-http/ps/core/tcp_client.cc:348-353 | A field stored as the host stores it is read back |
| Bytes.BigEndianRoundTrip | event-tcp/proto_client.cpp:298-300 | A field stored in network order is read back |
| MsgParser.FramingLaw | event-tcp/proto_utils.cpp:64-105 | For every list of messages, empty ones included, and every cut of the stream, exactly the sent messages arrive without format error iff each is shorter than 0xFFFFFFFF |
| MsgParser.ChunkingIrrelevant | event-tcp/proto_utils.cpp:64-69 | Parsing chunks is parsing their concatenation |
| MsgParser.DrainAppend | event-tcp/proto_utils.cpp:69-104 | Draining early makes no difference to what is drained in the end |
| MsgParser.MessageTaken | event-tcp/proto_utils.cpp:71-103 | An encoded message at the front of the buffer is taken whole, in two rounds |
| MsgParser.OnlyShortMessages | event-tcp/proto_utils.cpp:69-103 | Whatever comes in, no message of the reserved length or more is delivered |
| MsgParser.HeaderLayout | event-tcp/proto_client.cpp:298-303 | A message on the wire: 00 37 29 47, the length with its most significant byte first, the message |
| MsgParser.FormatErrorLaw | event-tcp/proto_utils.cpp:76-92 | Wherever a header is due, other first four bytes raise a format error; the magic number with a readable length raises none |
| MsgParser.MsgClient.SendMsg | event-tcp/proto_client.cpp:296-304 | Appends magic number, length in 32 bits and message |
| MsgParser.MsgClient.SendAll | event-tcp/proto_client.cpp:296-304 | A list of sends leaves the encoded stream of the list |
| MsgParser.Parser.Receive | event-tcp/proto_utils.cpp:64-105 | The loop terminates on (buffer size, header known) and equals `Parse` |
| MsgParser.Parser.ReceiveAll | event-tcp/proto_client.cpp:291-294 | Every cut of an encoded list of short messages comes out as that list |
| MsgParser.Exchange | event-tcp/proto_client.cpp:291-304 | Sender and receiver composed: for every cut of the stream the short messages sent are the messages that arrive |
| NodeManager.NodeManager.NextRankId | even-http/ps/core/node_manager.cc:24-59 | The rank on record, else the next one of the role with its entry; other roles get -1 and no entry |
| NodeManager.NodeManager.UpdateHeartbeat | even-http/ps/core/node_manager.cc:61-69 | Records the time; an unknown id is entered with default data |
| NodeManager.NodeManager.FetchServersMeta | even-http/ps/core/node_manager.cc:75-87 | Lists rank and address of every server exactly once and of nobody else |
| NodeManager.NodeManager.CollectTimeouts | even-http/ps/core/node_manager.cc:91-99 | Collects exactly the nodes past their deadline |
| NodeManager.NodeManager.FinishTimeouts | even-http/ps/core/node_manager.cc:100-105 | Counts exactly these as finished, and raises the timeout flag iff there are any |
| NodeManager.NodeManager.UpdateFlags | even-http/ps/core/node_manager.cc:107-116 | Raises finish and ready as `Settle` says, lowers neither |
| NodeManager.NodeManager.UpdateClusterState | even-http/ps/core/node_manager.cc:89-117 | The three parts in order, as the step `Update` |
| NodeManager.NodeManager.CheckClusterTimeout | even-http/ps/core/node_manager.cc:119-127 | An incomplete cluster is cut down to the nodes present |
| Scheduler.SchedulerNode.ProcessRegister | even-http/ps/core/scheduler_node.cc:114-138 | Rank, then heartbeat, then reply; a role without a rank throws with nothing recorded |
| Scheduler.SchedulerNode.ProcessHeartbeat | even-http/ps/core/scheduler_node.cc:40-72 | Records the heartbeat, finishes when all nodes said so, and reports the three flags |
| Scheduler.SchedulerNode.ProcessFinish | even-http/ps/core/scheduler_node.cc:140-151 | Records the node as finished and echoes |
| Scheduler.SchedulerNode.ProcessFetchServers | even-http/ps/core/scheduler_node.cc:153-166 | Replies with the listing of all servers |
| Scheduler.SchedulerNode.CheckAvailability | even-http/ps/core/scheduler_node.cc:173-177 | First part of a timer round: the step `TimerCheck` once the availability time is over |
| Scheduler.SchedulerNode.UpdateState | even-http/ps/core/scheduler_node.cc:179-185 | Second part: the step `TimerUpdate`, and whether the cluster is finished |
| Scheduler.SchedulerNode.DeclareFinish | even-http/ps/core/scheduler_node.cc:186-190 | Third part: the step `TimerFinish` |
| Scheduler.ClientNode.ProcessRegisterResp | even-http/ps/core/abstract_node.cc:43-57 | Throws without effect iff the reply names another node; otherwise takes the rank over, as the step `OnReply` |
| Scheduler.ClientNode.ProcessHeartbeatResp | even-http/ps/core/abstract_node.cc:333-360 | Ready follows the report or a timeout somebody listens to, finish only rises and is answered with a finish heartbeat: the step `OnReply`; the event callback is called for cluster and node timeouts |
| Scheduler.ClientNode.ProcessFetchServersResp | even-http/ps/core/abstract_node.cc:374-385 | Enters every listed server under its rank: the step `OnReply` |
| Scheduler.ClientNode.GetOrCreateTcpClient | even-http/ps/core/abstract_node.cc:442-471 | Reuses a connection, else connects to the rank's address; throws iff there is neither, which `FetchLaw` excludes for accepted ranks |
| SchedulerLaws.FlagsLaw | even-http/ps/core/abstract_node.cc:333-360 | In every run ready and finish never revert, finish implies ready, and a scheduler or node that considers itself finished (or, without a timeout, ready) is right |
| SchedulerLaws.DeadlineLaw | even-http/ps/core/node_manager.cc:94-99 | An update gives up exactly the nodes not served a registration or heartbeat for longer than the limit |
| SchedulerLaws.FinishedLaw | even-http/ps/core/node_manager.cc:102-104 | In every run the finished nodes are those whose FINISH was served and those that were overdue at an update; registry and heartbeat times are what an observer of the messages knows |
| SchedulerLaws.FlagsStep | even-http/ps/core/node_manager.cc:89-127 | After every step of every run: exactly when finish, ready and timeout rise and the node number is cut, from what an observer knows |
| SchedulerLaws.FinishStep | even-http/ps/core/scheduler_node.cc:51-59 | After every step of every run: exactly when the scheduler itself finishes or is ready; a finish heartbeat finishes it iff every registered node has sent one |
| SchedulerLaws.FinishLaw | even-http/ps/core/node_manager.cc:89-117 | With no more nodes than configured and no availability timeout, finish means every node registered and had its FINISH served or was overdue at an update |
| SchedulerLaws.FinishIsDeclared | even-http/ps/core/node_manager.cc:107-111 | Once every node of a full-sized cluster had its FINISH served or was overdue, the next update declares finish and the timer makes the scheduler finish |
| SchedulerLaws.FinishIff | even-http/ps/core/node_manager.cc:107-111 | With no more nodes than configured and no availability timeout, an update declares finish iff the cluster has its full size and every node is over |
| SchedulerLaws.ReadyIsDeclared | even-http/ps/core/node_manager.cc:113-116 | A registry of the configured size is ready after the next update, and so is the scheduler |
| SchedulerLaws.GiveUpLaw | even-http/ps/core/node_manager.cc:119-127 | After the availability timeout, as many nodes over as were present then finish the cluster, whatever happens in between |
| SchedulerLaws.HeartbeatBeforeRegistering | even-http/ps/core/node_manager.cc:61-63 | A heartbeat before registering makes the node rank 0 and keeps it out of the server listing |
| SchedulerLaws.RankLaw | even-http/ps/core/node_manager.cc:35-57 | In every run the registered nodes are those in registration order, each once, and the rank of each is the number of earlier registrations of its role |
| SchedulerLaws.RankOrder | even-http/ps/core/node_manager.cc:35-57 | Within a role whoever registered earlier has the lower rank, so ranks of a role are distinct |
| SchedulerLaws.RanksAreDense | even-http/ps/core/node_manager.cc:35-57 | Every number below a role's count is some node's rank |
| SchedulerLaws.RanksAreBounded | even-http/ps/core/node_manager.cc:35-57 | No rank reaches its role's count |
| SchedulerLaws.RegisterAgain | even-http/ps/core/node_manager.cc:28-33 | Registering again returns the rank on record and leaves the registry as it is |
| SchedulerLaws.RegisteredRankLaw | even-http/ps/core/scheduler_node.cc:114-138 | In every run a node whose registration was answered knows the rank on record, and would get the same again |
| SchedulerLaws.FetchLaw | even-http/ps/core/abstract_node.cc:374-385 | In every run a node whose fetch was answered has an address for exactly the ranks `ValidateRankId` accepts, each that of the server with that rank |
| SchedulerLaws.ReadyMeansAllServers | even-http/ps/core/node_manager.cc:113-116 | In a ready cluster of the configured size exactly the configured number of servers registered |
| SchedulerLaws.RunGrows | even-http/ps/core/node_manager.cc:24-131 | Along every run flags only rise and registry entries are only added |
| SchedulerLaws.Reachable | even-http/ps/core/scheduler_node.cc:40-193 | The invariant of scheduler, nodes and messages in flight holds after every run |
| SchedulerRuns.RegisterLaw | even-http/ps/core/scheduler_node.cc:114-138 | From every reachable state a server or worker that registers is answered, is entered last unless known, and knows its rank |
| SchedulerRuns.HeartbeatLaw | even-http/ps/core/scheduler_node.cc:61-71 | From every reachable state a heartbeat tells a node that has not finished all three flags as they are, and renews its time |
| SchedulerRuns.StartLaw | even-http/ps/core/abstract_node.cc:339-343 | From every reachable state with a ready cluster a waiting node can start |
| SchedulerRuns.NodeFinishes | even-http/ps/core/abstract_node.cc:344-349 | From every reachable state with a finished cluster a node that asks finishes and answers with a finish heartbeat |
| SchedulerRuns.FetchReached | even-http/ps/core/abstract_node.cc:362-385 | From every reachable state a started node without a timeout can fetch, and holds the addresses of a listing of all servers |
| ThreadPool.FifoLaw | even-http/ps/core/thread_pool.cc:29-66 | In every interleaving submitted tasks are the started ones followed by the queued ones; a woken worker finds a task and none exits |
| ThreadPool.ProgressLaw | even-http/ps/core/thread_pool.cc:29-66 | From every reachable state, with any worker at all, some run without another submission starts all queued tasks, in order |
| ThreadPool.StartOldest | even-http/ps/core/thread_pool.cc:52-66 | From every balanced state with a queued task and a worker, some run without another submission starts the oldest task |
| ThreadPool.TaskBound | even-http/ps/core/thread_pool.h:40-51 | With S submitters the task count never exceeds the limit plus S - 1 |
| ThreadPool.TaskBoundReached | even-http/ps/core/thread_pool.h:40-51 | For every limit and every number of submitters some run reaches that bound |
| ThreadPool.SpuriousWakeupEndsWorker | even-http/ps/core/thread_pool.cc:41-44 | A worker woken without a notification on an empty queue exits |
| ThreadPool.Reachable | even-http/ps/core/thread_pool.cc:29-66 | The balance of sleeping workers, counted, announced and delivered wake-ups and queued tasks holds after every run |
| ThreadPool.ThreadPool.TakeTask | even-http/ps/core/thread_pool.cc:42-46 | Takes the oldest task, or none from an empty queue |
| ThreadPool.ThreadPool.PairIdleWithTask | even-http/ps/core/thread_pool.cc:56-62 | Uncounts one idle worker and one task iff there are both |
| Sharding.AllRankLocalShard | mindspore/ps/util.cc:78-101 | Dealing rows round robin gives server i the quotient, and one more for the first remainder servers; invalid input throws exactly as guarded |
| Sharding.LocalShard | mindspore/ps/util.cc:70-76 | The same for one rank |
| Sharding.RoundRobinShares | mindspore/ps/util.cc:92-96 | The closed form counts the rows k with k modulo n equal to the rank; no two shares differ by more than one |
| Sharding.OffsetTotal | mindspore/ps/worker.cc:13-32 | The shares add up to the table |
| Sharding.PartitionLaw | mindspore/ps/worker.cc:13-32 | Every row lies in exactly one range, nothing else in any, and lower servers hold lower rows |
| Sharding.AddedTwiceOverlaps | mindspore/ps/worker.cc:25-29 | Adding a table twice under one key makes ranges overlap |
| Slicers.LookupLaw | mindspore/ps/worker.cc:69-100 | A requested row of the table is asked of exactly one server, and once; any other id of none |
| Slicers.InitLaw | mindspore/ps/worker.cc:102-121 | The slices concatenate to the values iff the values fill whole rows, and to a prefix of them always |
| Slicers.SelectLaw | mindspore/ps/worker.cc:280-288 | A slice keeps every update that hits its range, repeated ones included, in order |
| Slicers.SelectOne | mindspore/ps/worker.cc:281-282 | Of one update a slice keeps it iff its id, as an unsigned number, is in the range |
| Slicers.ApplyLaw | mindspore/ps/worker.cc:261-296 | Applying updates leaves every row with the last update of its id, and other rows as they were |
| Slicers.ShardUpdate | mindspore/ps/worker.cc:274-288 | Selecting the updates of a range and applying them to that part equals applying all and looking at that part |
| Slicers.SliceDecodes | mindspore/ps/worker.cc:279-288 | A slice's ids and values decode to the updates it was made of |
| Slicers.UpdateLaw | mindspore/ps/worker.cc:261-296 | Every server that applies its decoded slice to its rows ends with the rows of the table updated as a whole, repeated ids included |
| Slicers.ShardedTableLaw | mindspore/ps/worker.cc:261-296 | Together the servers hold the updated table: every row is held by exactly one server, with its updated value, and nothing else by any |
| Slicers.PackRoundTrip | mindspore/ps/worker.cc:140-149 | Triples packed into a message are read back |
| Slicers.OwnedLaw | mindspore/ps/worker.cc:133-150 | A server gets every triple whose key is its own, in order |
| Slicers.OwnedOne | mindspore/ps/worker.cc:135-135 | A key without a server belongs to server 0 |
| Slicers.TripleLayout | mindspore/ps/worker.cc:142-148 | The values of a key follow those of the keys before it |
| Slicers.RoundRobinLaw | mindspore/ps/worker.cc:123-151 | A server's slice decodes to exactly the triples it owns, in their order |
| Slicers.LengthConserved | mindspore/ps/worker.cc:123-151 | The lengths of all slices add up to the message's |
| Worker.Worker.AddEmbeddingTable | mindspore/ps/worker.cc:13-32 | Appends the ranges of the table; throws with nothing changed iff there are servers and the size is zero or negative as signed |
| Worker.Worker.AddKeyByHashMod | mindspore/ps/worker.cc:36-42 | Assigns key modulo servers, so that assigned servers exist; throws iff there are none |
| Worker.Worker.LookupIdSlicer | mindspore/ps/worker.cc:69-100 | Slice i holds the distinct requested ids of range i; the flag says whether there are any |
| Worker.Worker.WorkerInitEmbeddingSlicer | mindspore/ps/worker.cc:102-121 | Slice i is the values of the rows in range i, whatever the ranges; throws iff there are more ranges than servers |
| Worker.Worker.InitTable | mindspore/ps/worker.cc:102-121 | For a table added once it does not throw, and the slices are those `InitLaw` speaks of |
| Worker.Worker.UpdateEmbeddingSlicer | mindspore/ps/worker.cc:261-296 | Slice i is the key, the ids of range i in order and their values; the flag says whether there are any |
| Worker.Worker.RoundRobinSlicer | mindspore/ps/worker.cc:123-151 | Slice s is the packed triples that server s owns; unassigned keys are assigned server 0 and no other assignment changes |
| HashRing.ClockwiseLaw | consistent_hash/consistent_hash.h:46-58 | Lower bound with wrap-around is the node nearest clockwise, both ways |
| HashRing.OwnerUnique | consistent_hash/consistent_hash.h:46-58 | A hash has one owner |
| HashRing.JoinLaw | consistent_hash/consistent_hash.h:34-37 | A joining node takes exactly the hashes it is nearer to than their owner was; every other hash keeps its owner |
| HashRing.FirstNodeOwnsAll | consistent_hash/consistent_hash.h:46-58 | The first node owns every hash |
| HashRing.LeaveLaw | consistent_hash/consistent_hash.h:41-44 | A leaving node gives up its own hashes only |
| HashRing.InsertEraseLaw | consistent_hash/consistent_hash.h:34-44 | Erasing undoes inserting iff the hash was free |
| HashRing.RingLaw | consistent_hash/consistent_hash.h:34-44 | For every hasher and every run: a hash holds the node whose insertion was the first there since the hash was free, if nothing left there since; it is free iff nothing was inserted there since |
| HashRing.EntryIsMember | consistent_hash/consistent_hash.h:34-44 | Whoever is on the ring is a member and sits at its own hash, collisions or not |
| HashRing.MembershipLaw | consistent_hash/consistent_hash.h:34-44 | In all runs of given nodes those on the ring are the members (last operation an insertion), iff no two of these nodes share a hash |
| HashRing.HistoryIrrelevant | consistent_hash/consistent_hash.h:34-44 | In all runs of given nodes the ring depends on membership only, iff no two of these nodes share a hash |
| HashRing.CollisionRemovesOther | consistent_hash/consistent_hash.h:34-44 | With a shared hash, the second node is not added and erasing it removes the first |
| HashRing.ConsistentHashMap.Insert | consistent_hash/consistent_hash.h:34-37 | An entry already there is kept and reported |
| HashRing.ConsistentHashMap.Erase | consistent_hash/consistent_hash.h:41-44 | Removes the entry at the node's hash and returns how many were removed |
| HashRing.ConsistentHashMap.Find | consistent_hash/consistent_hash.h:46-58 | Ends at the owner, or at the end iff there are no nodes |
| LogConfig.ParseLaw | log/utils/log_adapter.cc:371-418 | A text that starts with a well-formed configuration, with any blanks and any tail, means its entries, later ones winning |
| LogConfig.AcceptLaw | log/utils/log_adapter.cc:371-418 | The result is non-empty iff the text starts with a well-formed configuration, the grammar being given by literal characters |
| LogConfig.RoundTrip | log/utils/log_adapter.cc:371-418 | Any listing of a table, in any order and with any blanks, parses to that table |
| LogConfig.Classes | log/utils/log_adapter.cc:266-268 | The lexer's character classes are the literal ones: letters of both cases, digits, underscore; space and tab |
| LogConfig.EntryRead | log/utils/log_adapter.cc:386-407 | The tokens of a written entry are read back |
| LogConfig.EntryWritten | log/utils/log_adapter.cc:386-407 | Tokens accepted as an entry were written as one |
| LogAdapter.LogConfigLexer.SkipWhiteSpace | log/utils/log_adapter.cc:279-289 | Skips exactly the leading blanks and returns the first character after them, or NUL |
| LogAdapter.LogConfigLexer.GetNext | log/utils/log_adapter.cc:291-344 | Token, text and cursor are those of `Next` on the text left to read |
| LogAdapter.LogConfigParser.ParseEntry | log/utils/log_adapter.cc:387-407 | Succeeds iff name, colon and number follow, and returns them with the token behind |
| LogAdapter.LogConfigParser.Parse | log/utils/log_adapter.cc:371-418 | The loop ends and its table is `Parse` of the text |
| LogAdapter.ParseLogLevel | log/utils/log_adapter.cc:424-436 | Exactly the four one-digit levels are accepted, with their value |
| LogAdapter.SubmodulesDistinct | log/utils/log_adapter.cc:159-188 | No two submodules share a name |
| LogAdapter.SubmoduleLaw | log/utils/log_adapter.cc:159-188 | For every submodule and digit, the text that gives it that level means exactly that |
| LogAdapter.LevelLaw | log/utils/log_adapter.cc:455-486 | A submodule's level is that of the last entry naming it when legal, else the global one |
| LogAdapter.FindModule | log/utils/log_adapter.cc:468-474 | The first submodule of that name, or -1 |
| LogAdapter.FillLevels | log/utils/log_adapter.cc:467-485 | Whatever the order of the entries, each legal one sets its own submodule only |
| LogAdapter.InitSubModulesLogLevel | log/utils/log_adapter.cc:455-486 | From text to table: legal entries replace the global level, nothing else does |

## Left out

- libevent, sockets, SSL, HTTP, DNS and the event loops: foreign calls; the network is a byte stream or a queue per connection.
- `SendMessage(CommMessage)` of client and server: what it writes does not match what `ReceiveMessage` reads, so it is no encoder for it.
- Protobuf encoding: a meta is its bytes.
- Real clocks and condition-variable timing: see the assumptions.
- Thread teardown (`Stop`, destructors, the detached notifier) and outputs that dangle after a wait timed out.
- The single-rank `Send` with an output, and the synchronous and asynchronous sends: the gathering send covers their protocol.
- `SparseSlicer`, `DoPSEmbeddingLookup`: unfinished in the source.
- `memcpy_s` and its relatives: only the return code is used.
- 64-bit wrap-around of request ids and rank sequence numbers: out of reach of any run.
- The branch for a failed heartbeat (abstract_node.cc:282-291): `Heartbeat` always returns true, so this branch, and with it the scheduler-timeout event, is unreachable; the model follows the code.
- `Broadcast`: it adds no protocol of its own.
- A callback that is not set (`if (it->second)`): the sends always set one.
- `nodes_info_` and its relatives are read without a common lock in the source; the model takes each handler and timer part as one step.
- Node ids are numbers, not strings; only their equality matters.
- The grpc, brpc, zeromq, asio, seastar and ps-lite programs, builder, fsm, retry: wrappers or demonstrations.
- `CountDownLatch`, `ClusterConfig`, `FileConfiguration`, UUID generation, the IP check: they would only add easy members.
- `GetGlobalLogLevel`: the global level is a parameter.
- TcpFraming.TcpMessageHandler.ReceiveMessage: of the state after a refused copy it gives only what was delivered, because the source throws there and the receiver is not used again.
- TcpFraming.TcpSender.SendMessage: a failing buffer write is not modelled, because it is libevent's.
- Worker.Worker.LookupIdSlicer: a key without a table is excluded, because the source dereferences a null pointer there; the same holds for the other embedding slicers.
- Worker.Worker.WorkerInitEmbeddingSlicer: ranges that exceed the values are excluded, because the source reads past the values there.
- Worker.Worker.UpdateEmbeddingSlicer: a message without ids is excluded, because the source divides by their number.
- Worker.Worker.RoundRobinSlicer: lengths are unbounded, while the source adds them up in 32 bits; a message whose values do not cover its lengths is excluded, because the source reads past them.
- HashRing.ConsistentHashMap.Erase: the overload that takes an iterator and the iterators themselves are left out.
