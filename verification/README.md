# NexFile: a verified model of the server, the client and what passes between them

NexFile is a network file store: a server with a pool of worker threads, and a command-line
client that logs in and sends commands. This project models the parts of it that carry
state, loops or protocol, and proves what the two programs rely on. `dafny verify
dfyconfig.toml` checks everything.

C code that works in place is modelled in place: the task queue is a linked structure on the
heap whose dangling and uninitialised links are represented; strings are NUL-terminated
bytes in arrays; the transfer loops run over sockets whose kernel may split, interrupt or
fail any call. Each such method is proved against a function on values, and the properties
are proved of those functions, or of step systems that range over every interleaving.

## What is proved

**Threads** (`TaskQueue`, `ThreadPool`, `WorkerPool`). `ThreadPool` is the main thread and
any number of workers as a step system with POSIX.1 mutex and condition-variable semantics,
spurious wakeups included. Over whole runs clients are served as `accept` returned them: the
k-th task taken is the k-th client accepted, no two workers hold the same one, and none is
lost on the way. In every reachable state no wakeup is lost; tasks are taken up until the
queue is empty or every worker is busy; every read of the head and every pop happens under
the mutex on a non-empty queue. The exit event, and nothing else, sets the exit flag; from
then on nothing is pushed or popped, every run is bounded by a measure, and a run that
cannot go on has joined every worker. `TaskQueue` is the linked list with garbage in each
new link and in the pointers of an empty queue; it refines a sequence under every history
and never follows such a link or reads a freed node. `WorkerPool` runs any interleaving on
that list and is shown to be the same run of the step system.

**Login** (`SocketIO`, `Frames`, `Authen`, `LoginSession`, `ClientLogin`, `LoginProtocol`,
`LoginHalves`). The loops `recvn` and `sendn` deliver exactly the bytes of the buffer under
every fragmentation and finitely many interruptions. Frames stay in sync for every sequence
of credentials. `LoginProtocol` is client and server as a two-party step system at byte
level: both channels are empty whenever a round begins, the two never block on each other,
every dialogue ends within a bound, and its outcome is the same for every interleaving: that
of a dialogue with no network in it. That outcome is stated by the keyboard and the password
table alone: the first typed pair that the table holds connects the client if its name has
room, and with no such pair nobody is let in. A connected client was accepted on its latest
pair, except where the server closes for want of room: then the client compares
uninitialised memory, and the inputs for which that can connect it are exactly
characterised. The in-place programs of the two sides, each fed with what the other sends,
carry out that dialogue (`LoginHalves.LogIn`), and the global `clientPath` is the fold of
the accepted names.

**Sessions and commands** (`Command`, `CmdHandle`, `Session`). Every line is words printed
with spaces, tabs, carriage returns and newlines, and is cut back into exactly those words;
`cmdCheck` accepts exactly the command lines, and a packet is its 1036 bytes, field by
field. Any lines typed reach the handlers the user meant, in order and with their arguments,
up to the first `put` or the first `get` that ends the server. The handler of `put` reads
from the same connection, so it moves the boundary at which the next packet is looked for;
when the boundary holds is characterised exactly, and a bare `put` followed by another
command is shown to end the server. In a session every command comes after a pair that the
password table holds, the commands and the end of the session are a function of the stream
and the waits, and every descriptor is closed once, on every path.

**Paths** (`FilePath`). Any run of pushes and pops, with any names, keeps the path rooted
and the index in step with it, and acts on the path, cut at its slashes, as on the list of
its components; with single-component names that list is exactly a stack, and a balanced run
restores the string. A pop undoes a push if and only if the pushed name was one component.

**Files** (`FileTransfer`). A file sent is received with exactly its name and content
whatever file was there before; and on any stream at all, and any leftovers in its
variables, what `recvFile` does to the files is determined.

**Client configuration** (`ClientConfig`). In-place trimming yields the unique tight
stretch, a value between its tags is read back, which tag of a line counts is stated with
the tags spelled out, and the line loop is characterised for all files: last line wins, and
a bad port anywhere rejects. A file written with the four settings is loaded as written.

## Where the code and its words differ

The model follows the code.

- `cmdVeri` (`NexFile/client/cmdOpt.c:72-79`) speaks of the command codes 4 to 7 but compares
  the argument flag, so a bare `rm`, `put`, `get` or `mkdir` is accepted.
  `Command.BareCommandsSlipThrough` shows that this is exactly where code and comment part.
- A bare `put` is sent (`NexFile/client/fileOpt.c:15-17`) before `putFile` refuses it. The
  server's `PutFile` then takes the next command for a file name and a size:
  `CmdHandle.PutThenCommandEndsServer` has the server exit, and
  `CmdHandle.PutMovesTheBoundary` says exactly when packet boundaries hold.
- A `put` with an argument ends the client: `putFile` opens the command's number as an address
  (`NexFile/client/fileOpt.c:176-177`).
- A server that has no room for the name closes without a reply. The client's receives then
  leave its `train` uninitialised (`NexFile/client/encryption.c:57-67`);
  `LoginProtocol.ConnectsWithoutOkExactlyWhen` says for which inputs that can set `is_connected`.
- `handle_authen_event` of the server speaks of a disconnected client
  (`NexFile/server/clientHandle.c:46`), but a client that has closed is judged as the empty
  name with the empty hash, again and again; `LoginSession.ServeDisconnected` says when the
  loop ends.
- `authenticateUser` ends with the comment that 1 means success
  (`NexFile/server/authen.c:27`); it returns 0, and its caller takes 0 as success.
- The client's `recvn` adds a failed call's -1 to its cursor
  (`NexFile/client/clientsendMessage.c:15-20`), so a failed call takes back the byte before it.
  `SocketIO.UnderrunsExactlyWhen` says when the cursor leaves the buffer in front (a failing
  first call suffices, `SocketIO.UnderrunsOnFirstFailure`), and
  `SocketIO.InterruptionDropsAByte` what one interruption does to the data.
- A pop of `filePath.c` does not undo the push of a name with a slash inside
  (`FilePath.PopAfterTwoComponents`); `FilePath.PopUndoesPushExactly` gives the condition.
- `recvFile` maps the file with its size, which fails for an empty file and ends the process
  (`NexFile/server/fileHandle.c:33-34`); `FileTransfer.RecvFile` has that outcome.

## Model

| member | source | states |
|---|---|---|
| TaskQueue.FifoHistory | NexFile/server/taskQueue.c:16-50 | over any history of pushes and pops, what was there and what was pushed is what was popped and what is left, in order |
| TaskQueue.Node.Malloc | NexFile/server/taskQueue.c:18-21 | a new node's link is arbitrary garbage |
| TaskQueue.TaskQueue.constructor | NexFile/server/taskQueue.c:8-14 | the initial queue is empty |
| TaskQueue.TaskQueue.Push | NexFile/server/taskQueue.c:16-33 | appends to the sequence whatever link malloc left, without following the tail's link |
| TaskQueue.TaskQueue.Pop | NexFile/server/taskQueue.c:35-50 | removes the front and frees exactly its node; -1 and no change on empty; reads only live nodes |
| TaskQueue.TaskQueue.HeadFd | NexFile/server/worker.c:61-61 | with a positive size the head is live and is the oldest descriptor |
| TaskQueue.TaskQueue.RunHistory | NexFile/server/taskQueue.c:16-50 | every history with every garbage refines the sequence: same descriptors out, same left, conservation |
| ThreadPool.InitInv | NexFile/server/threadPool.c:3-14 | the initial pool satisfies the invariant for every number of workers |
| ThreadPool.MutexStep | NexFile/server/worker.c:48-63 | every step keeps mutual exclusion: the owner is exactly the one thread in a critical section |
| ThreadPool.PopStep | NexFile/server/worker.c:54-62 | every step keeps the queue non-empty between a worker's check and its pop, with the same head |
| ThreadPool.HistoryStep | NexFile/server/worker.c:61-63 | every step keeps pushes equal to pops followed by the queue, and each task with its position |
| ThreadPool.WakeupStep | NexFile/server/server.c:84-87 | every step keeps the wakeup count, including the gap between push and signal |
| ThreadPool.SpawnStep | NexFile/server/worker.c:30-40 | every step keeps workers created in order, before anything is pushed |
| ThreadPool.ExitStep | NexFile/server/server.c:89-107 | every step keeps: after the broadcast nobody waits, joined workers have exited, nobody exits before the flag |
| ThreadPool.StepKeepsInv | NexFile/server/worker.c:43-70 | every step of every thread keeps the whole invariant |
| ThreadPool.RunKeepsInv | NexFile/server/worker.c:43-70 | every run does |
| ThreadPool.CountAwakeWoken | NexFile/server/server.c:86-86 | a signal that meets a waiter raises the number of awake workers |
| ThreadPool.NoLostWakeup | NexFile/server/worker.c:48-63 | in every reachable state with a sleeper and the flag clear, queued tasks are at most the awake workers, plus one between push and signal; and a queued task always leaves an internal step to take |
| ThreadPool.AtRest | NexFile/server/worker.c:46-67 | a pool that waits only for outside events and handlers, before any exit, has main idle and an empty queue, or every worker busy |
| ThreadPool.OutsideSteps | NexFile/server/server.c:62-91 | an idle main accepts any descriptor or takes the exit, a waiter may wake, a handler may return; none of them at any other time |
| ThreadPool.InternalStep | NexFile/server/worker.c:46-67 | every step that waits for nothing outside lowers a measure |
| ThreadPool.TasksAreTakenUp | NexFile/server/server.c:84-87 | from every reachable state the internal steps end within that measure; then a task is left queued only if every worker is in a handler, and main accepts any client |
| ThreadPool.OwnerCanMove | NexFile/server/worker.c:49-63 | the worker that owns the mutex always has a step to take |
| ThreadPool.PopsAreSafe | NexFile/server/worker.c:48-62 | in every interleaving the head is read and popped by the sole owner of the mutex, on a non-empty queue, and the pop removes what was read |
| ThreadPool.TasksTakenOnceInOrder | NexFile/server/worker.c:61-63 | over whole runs the k-th pop takes the k-th push, and no push position is held by two workers |
| ThreadPool.AcceptedArePushed | NexFile/server/server.c:76-87 | along every run, what is pushed and what main is about to push are the descriptors accept returned, in order |
| ThreadPool.ClientsServedInOrder | NexFile/server/server.c:76-87 | over whole runs the pushes are the accepted descriptors, less the last exactly while main wants to push or is pushing it; the k-th task taken, and the one the worker at position k serves, is the k-th client accepted |
| ThreadPool.TakenAreHandled | NexFile/server/worker.c:61-66 | every task taken is in its worker's hands or its handler has returned |
| ThreadPool.NoClientIsLost | NexFile/server/worker.c:43-70 | every accepted client is in main's hand, queued, with a worker, or its handler has returned: the counts add up |
| ThreadPool.TakenOnlyGrows | NexFile/server/worker.c:61-62 | a position once taken stays taken by the same worker |
| ThreadPool.ShutdownQuiet | NexFile/server/worker.c:54-59 | with the flag set no step pushes or pops, whatever is queued |
| ThreadPool.ShutdownStep | NexFile/server/server.c:93-101 | with the flag set every step of every thread lowers a natural-number measure |
| ThreadPool.ShutdownIsBounded | NexFile/server/server.c:93-101 | so a run after the flag has at most that many steps and leaves queue and histories alone |
| ThreadPool.ShutdownProgress | NexFile/server/server.c:98-101 | until main returns a step is enabled; if only handler returns are, main is joining a worker in its handler |
| ThreadPool.ShutdownCompletes | NexFile/server/server.c:89-107 | from any reachable state with the flag set: bounded runs, no waiter after the broadcast, every worker exited when main returns, and a run that cannot continue has main returned |
| ThreadPool.ExitIsHeeded | NexFile/server/server.c:89-96 | main is on its way out exactly if the exit event has come |
| ThreadPool.ExitBringsShutdown | NexFile/server/server.c:89-107 | without the exit event the flag stays clear and main does not return; after it the internal steps end with the flag set and main returned, every worker exited, unless main is joining a worker in its handler; a run that cannot go on has main returned |
| WorkerPool.SharedPool.constructor | NexFile/server/threadPool.c:3-14 | the pool object starts as the initial state of the step system |
| WorkerPool.SharedPool.PushTask | NexFile/server/server.c:85-85 | the linked push is the push step, with any garbage link |
| WorkerPool.SharedPool.TestCondition | NexFile/server/worker.c:49-59 | the tests of flag and size choose exactly one enabled step: wait, leave, or go on |
| WorkerPool.SharedPool.PeekTask | NexFile/server/worker.c:61-61 | the invariant alone makes the read of the head safe |
| WorkerPool.SharedPool.PopTask | NexFile/server/worker.c:62-62 | the linked pop is the pop step |
| WorkerPool.SharedPool.Execute | NexFile/server/worker.c:43-70 | any enabled step on the linked queue refines the step system; the descriptor accepted is the one main carries to the queue and appends |
| WorkerPool.SharedPool.Interleave | NexFile/server/worker.c:43-70 | any interleaving on the linked queue, with any garbage links, is the same run of the step system, and what it has pushed or holds ready to push is what the steps accepted |
| CTypes.IntRoundTrip | NexFile/shared/protocol.h:8-12 | the four wire bytes of an int and the 32-bit integers are in bijection |
| CTypes.OffRoundTrip | NexFile/server/fileHandle.c:56-57 | likewise an off_t and its eight bytes |
| CTypes.IntBytes | NexFile/shared/protocol.h:8-12 | the four bytes of an int weigh 1, 256, 65536 and 16777216, and the upper half of the range is negative |
| CTypes.OffBytes | NexFile/server/fileHandle.c:56-57 | likewise the eight bytes of an off_t |
| CTypes.FGetsOfLine | NexFile/client/client.c:93-107 | fgets takes a line with its newline if it fits, else exactly what there is room for |
| SocketIO.RecvN | NexFile/server/sendMessage.c:14-36 | what was received is always a prefix of the stream in a prefix of the buffer; complete, end of file (0) and error (-1) told apart, and the first failed call ends the loop; without errors the stream alone decides; total 0 gives 0 |
| SocketIO.SendN | NexFile/server/sendMessage.c:38-56 | what was sent is always a prefix of the buffer, all of it unless a call fails, which ends the loop with -1 |
| SocketIO.Deliver | NexFile/server/sendMessage.c:14-56 | sendn then recvn under any two fragmentations copies the buffer exactly and consumes exactly its bytes |
| SocketIO.ClientRecvN | NexFile/client/clientsendMessage.c:9-23 | for every schedule of chunks, interruptions and failures: exactly what is in the buffer, what is consumed, the result, and whether the cursor leaves the buffer |
| SocketIO.EveryFailureCosts | NexFile/client/clientsendMessage.c:15-20 | bytes consumed are the bytes delivered and one for every failed call |
| SocketIO.UnderrunsExactlyWhen | NexFile/client/clientsendMessage.c:15-20 | the cursor leaves the buffer if and only if after some of the calls more have failed than bytes have come |
| SocketIO.UnderrunsOnFirstFailure | NexFile/client/clientsendMessage.c:15-20 | a failing first call does it |
| SocketIO.DeliversWithoutFailures | NexFile/client/clientsendMessage.c:9-23 | when no call fails the next bytes are delivered, or all there are before the end of file |
| SocketIO.InterruptionDropsAByte | NexFile/client/clientsendMessage.c:15-20 | after one interruption the data lacks a byte of the stream and one too many is consumed |
| Frames.FrameDecodes | NexFile/server/sendMessage.c:66-69 | one frame is read back as its text and the rest of the stream |
| Frames.FrameBytes | NexFile/shared/protocol.h:8-12 | a frame is four bytes of length, least significant first, and the data |
| Frames.CredentialsDecode | NexFile/server/sendMessage.c:63-77 | one sendPassword is read back as its pair, name first, with the lengths of name and hash, at a frame boundary |
| Frames.EndOfStreamReadsAsEmpty | NexFile/server/sendMessage.c:63-77 | past the end of the stream the server reads the empty pair |
| Frames.OnePairDecodes | NexFile/server/sendMessage.c:63-77 | a pair that ends the stream, the empty one included, is read back |
| Frames.StreamInSync | NexFile/client/clientsendMessage.c:45-73 | the i-th read recovers the i-th pair of any sequence of logins, empty strings included |
| Frames.SendFrame | NexFile/client/clientsendMessage.c:57-63 | exactly the used part of the train leaves, or a prefix and a failure |
| Frames.SendPassword | NexFile/client/clientsendMessage.c:45-73 | the two frames leave in order; 0 exactly when all of both left |
| Frames.ReceiveField | NexFile/server/sendMessage.c:63-69 | on any stream: the field the stream decodes to, or undefined exactly when its length does not fit the buffer |
| Frames.Receive | NexFile/server/sendMessage.c:66-67 | a receive whose result is ignored lays what there is of the stream over the buffer |
| Authen.Server.constructor | NexFile/server/clientHandle.c:20-20 | the global path starts as the fixed directory |
| Authen.StrNCat | NexFile/server/sendMessage.c:95-95 | strncat appends at most n bytes and terminates inside the buffer |
| Authen.Server.ExtendPath | NexFile/server/sendMessage.c:83-95 | with room, the whole name is appended after exactly one slash, terminated, never cut by strncat |
| Authen.Server.Reply | NexFile/server/sendMessage.c:96-103 | one reply frame; success exactly when the send does not fail, a partial send included |
| Authen.VerdictByTable | NexFile/server/authen.c:12-28 | a user of the table with the stored hash is let in (0) if the name fits the path, which ends in it after one slash; another hash gives -1, another name 1, no room or a lost reply -2; the replies are AUTH_RESULT_OK, AUTH_FAIL or none |
| Authen.Server.Judge | NexFile/server/sendMessage.c:79-122 | the same of the code in place, by the table alone: result, reply and path |
| Authen.Server.UserAuthen | NexFile/server/sendMessage.c:59-122 | for any stream and any failing calls, and by the password table alone: result 0, -1, 1 or -2, the frame of AUTH_RESULT_OK, of AUTH_FAIL or none, and the path with the name joined or unchanged; undefined exactly when a length exceeds 63 (127) |
| Authen.PathAfterOneMore | NexFile/server/sendMessage.c:81-95 | one more judged pair extends the fold over the accepted users |
| Authen.LoginsBounded | NexFile/server/sendMessage.c:85-88 | after any logins the path is shorter than 1024 bytes and begins with what it was |
| Authen.LoginsAppendNames | NexFile/server/sendMessage.c:83-95 | while names fit, the path is the start followed by every name with a slash before it |
| Authen.Server.ServeLogins | NexFile/server/sendMessage.c:59-122 | over logins on any connections, failing ones included, the in-place path is the fold of the accepted names; only a length beyond a buffer stops the server |
| LoginProtocol.TypedLine | NexFile/client/client.c:93-110 | a typed line that fits is the field; a longer one is cut at 63 (127) bytes and its rest is what the next field reads |
| LoginProtocol.StepKeepsInv | NexFile/client/encryption.c:45-75 | every step of either side keeps: consumed, in the channel and unsent make up the pair under way, or the reply |
| LoginProtocol.RunKeepsInv | NexFile/client/encryption.c:45-75 | every run does |
| LoginProtocol.Lockstep | NexFile/client/client.c:93-122 | for every input and fragmentation a round begins with both channels empty, judged pairs are the sent ones in order, and the two are never both blocked |
| LoginProtocol.NeverBothBlocked | NexFile/server/sendMessage.c:59-122 | a client blocked on an empty channel has a server that can still move |
| LoginProtocol.ConnectedMeansAccepted | NexFile/client/encryption.c:63-67 | is_connected implies that the last pair checked is right by the table and all earlier ones wrong; it is the latest pair and the server past its OK, unless the server closed on it for want of room |
| LoginProtocol.ConnectedWithoutOk | NexFile/client/encryption.c:57-67 | a run connects the client of a closed server if and only if it contains an end-of-file read of leftovers that read as OK |
| LoginProtocol.ConnectsWithoutOkExactlyWhen | NexFile/server/sendMessage.c:85-88 | such a run exists for exactly the inputs whose dialogue ends with the server closing for want of room |
| LoginProtocol.NotStuck | NexFile/server/clientHandle.c:23-49 | a client that is not done has a step to take, or its server has |
| LoginProtocol.StepMakesProgress | NexFile/client/client.c:93-122 | every step lowers a measure |
| LoginProtocol.RunIsBounded | NexFile/client/client.c:93-122 | so runs are bounded from any state of the invariant |
| LoginProtocol.LoginEnds | NexFile/client/client.c:86-124 | every dialogue ends within 500 steps a typed byte: connected, out of input, or at a length beyond the response buffer, which takes a closed server; a server closes only on a right pair without room |
| LoginProtocol.StepKeepsFuture | NexFile/client/encryption.c:45-75 | no step changes what the dialogue is bound for |
| LoginProtocol.LoginDetermined | NexFile/client/client.c:86-124 | every interleaving that ends gives the checked pairs, the path and the close of the dialogue without a network, and, if the server did not close, its sent pairs and outcome |
| LoginProtocol.DialogueByTable | NexFile/client/client.c:93-122 | the dialogue is decided by the pairs typed and the table: it goes on to the first pair the table holds, which connects the client if its name has room and else closes the server; with none every pair is turned down |
| LoginProtocol.LoginByTable | NexFile/client/client.c:86-124 | so is every interleaving under every fragmentation that has come to its end: pairs judged, connection, path and close |
| LoginProtocol.LinesArePairs | NexFile/client/client.c:93-110 | lines of at most 62 and 126 bytes are the pairs, whole and in order, those whose password crypt refuses left out |
| ClientLogin.HandlePassword | NexFile/client/encryption.c:24-42 | nothing is sent if crypt fails; else the name and the hash, 0 exactly when all left |
| ClientLogin.ReceiveReply | NexFile/client/encryption.c:57-62 | for any stream and any leftovers in the train, the text compared and the bytes consumed; undefined exactly when the length read does not fit |
| ClientLogin.ReplyIsRead | NexFile/client/encryption.c:57-62 | a reply of up to 63 bytes is read whole with nothing behind it; a longer one does not fit |
| ClientLogin.HandleAuthentication | NexFile/client/encryption.c:45-75 | connected exactly when the request left whole and what is read for a reply is AUTH_RESULT_OK; nothing is read after a failed send |
| ClientLogin.ReplayIsDialogue | NexFile/client/client.c:93-122 | on a server's replies the loop sends the pairs and reaches the outcome of the dialogue without a network; when the server closes, the leftovers of the train alone decide |
| ClientLogin.DialogueExtends | NexFile/client/client.c:93-122 | a dialogue never takes back a pair, and all its pairs fit the buffers |
| ClientLogin.HandleAuthenEvent | NexFile/client/client.c:86-124 | the in-place loop, on any stream of replies: the pairs sent, the outcome and what is left unread; 0 exactly when connected |
| LoginSession.HandleAuthenEvent | NexFile/server/clientHandle.c:23-49 | for any stream and any failing calls every result, the replies, the end of the loop and the path follow from the pairs read, which are the ones on the stream; it goes on exactly while results are retryable |
| LoginSession.ResultsByTable | NexFile/server/sendMessage.c:79-118 | each result by the table, room and lost replies, as 0, -1, 1 or -2; every pair but the last was turned down and told so |
| LoginSession.EndByTable | NexFile/server/clientHandle.c:23-49 | the loop ends with the client in exactly after a pair of the table with room and a reply that left, and drops it exactly after a lost reply or for want of room |
| LoginSession.ReadsWhatWasSent | NexFile/server/sendMessage.c:63-77 | reading a client's stream yields the pairs it sent, in order, at a boundary, whatever follows |
| LoginSession.ClientStreamsAreReadable | NexFile/server/sendMessage.c:63-77 | on the stream of a client no round, however late, meets a length beyond the buffers |
| LoginSession.ServeDisconnected | NexFile/server/clientHandle.c:25-48 | for a client that has closed the loop is over exactly when the table holds the empty name with the empty hash or a reply is lost |
| LoginHalves.RepliesAreAnswers | NexFile/server/sendMessage.c:96-117 | the server's replies to the pairs of a dialogue are the answers its client awaits |
| LoginHalves.ServeDialogue | NexFile/server/clientHandle.c:23-49 | on the pairs of one dialogue the login loop, driven by its results, answers them in order, ends as the last demands, and leaves the folded path |
| LoginHalves.DialogueIsServed | NexFile/server/sendMessage.c:81-95 | of every dialogue's pairs only the last can be right, and its path is the fold of the accepted names, also when the server closes for want of room |
| LoginHalves.LogIn | NexFile/client/client.c:86-124 | fed with each other's bytes the two programs agree with the dialogue; by keyboard and table alone, a client that types a pair of the table, none before it, with room for its name is connected and the path ends in the name, and one that types none is not; when the server closes, the leftovers of the train decide |
| FilePath.StripNonEmpty | NexFile/server/filePath.c:34-51 | a name is refused exactly if it is all slashes; else it is stored without slashes at its ends |
| FilePath.PopDepth | NexFile/server/filePath.c:91-104 | cutting at the last slash takes one component away and keeps the path rooted |
| FilePath.RunsAreSound | NexFile/server/filePath.c:7-108 | after any run with any names: rooted, no double slash in front, 1 <= top <= components + 1, so strrchr never fails and the root test follows from the index test |
| FilePath.IndexIsDepth | NexFile/server/filePath.c:27-108 | with single-component names top is exactly components + 1 |
| FilePath.PopUndoesPush | NexFile/server/filePath.c:91-106 | a pop restores path and index after a single-component push |
| FilePath.PopUndoesPushExactly | NexFile/server/filePath.c:91-106 | and after no other push |
| FilePath.PopAfterTwoComponents | NexFile/server/filePath.c:91-106 | after a push of a/b a pop leaves /a |
| FilePath.PushIsStackPush | NexFile/server/filePath.c:27-77 | on the string, which is the names with a slash before each on top of the start, a push is a stack push of the stripped name |
| FilePath.PopIsStackPop | NexFile/server/filePath.c:79-108 | and a pop a stack pop |
| FilePath.SplitGlues | NexFile/server/filePath.c:91-97 | a path cut at its slashes and glued again is the path |
| FilePath.SplitOfTwo | NexFile/server/filePath.c:63-71 | cutting two texts with a slash between gives the pieces of both |
| FilePath.PushSpelledOut | NexFile/server/filePath.c:53-71 | a pushed name with any slashes around it ends the path, bare, after one slash that the root already has; nothing else is added |
| FilePath.PopSpelledOut | NexFile/server/filePath.c:86-106 | a pop takes the last component and its slash, but for the root's; none at index 1 |
| FilePath.PushAddsComponents | NexFile/server/filePath.c:27-77 | with any name, the components of the path grow by those of the stripped name |
| FilePath.PopDropsComponent | NexFile/server/filePath.c:79-108 | and a pop drops exactly the last component |
| FilePath.RunIsList | NexFile/server/filePath.c:27-108 | every run of pushes and pops with any names acts on the path as on the list of its components and the index |
| FilePath.SingleNamesAreComponents | NexFile/server/filePath.c:27-108 | after any run of single names the components read off the path are the stack of the names, and the index counts them |
| FilePath.RunIsStack | NexFile/server/filePath.c:27-108 | from any sound path, runs of single names not going below it leave the start followed by the names on the stack, a slash before each |
| FilePath.BalancedRunRestores | NexFile/server/filePath.c:27-108 | a balanced run that never goes below its start restores path and index |
| FilePath.SkipLeading | NexFile/server/filePath.c:34-41 | the loop drops exactly the leading slashes |
| FilePath.DropTrailing | NexFile/server/filePath.c:43-51 | the loop drops exactly the trailing slashes |
| FilePath.BuildPath | NexFile/server/filePath.c:53-71 | the new buffer holds the path, a slash unless it is the root, the name, and a terminator |
| FilePath.FilePath.constructor | NexFile/server/filePath.c:7-25 | starts as the root with index 1 |
| FilePath.FilePath.Push | NexFile/server/filePath.c:27-77 | in place: -1 and no change exactly for a name of nothing but slashes; else the path grows by one slash, unless it is the root, and the stripped name, and the index by one |
| FilePath.FilePath.Pop | NexFile/server/filePath.c:79-108 | in place, the pop that PopSpelledOut describes; -1 and no change exactly at index 1 |
| Command.FirstToken | NexFile/client/cmdOpt.c:28-35 | the first word and what is left make up the words of the line |
| Command.NextToken | NexFile/client/cmdOpt.c:28-35 | writing one NUL leaves the word and the rest as two strings |
| Command.StrTokR | NexFile/client/cmdOpt.c:28-35 | each call of strtok_r yields the next word, or none exactly when there is none, and touches nothing before its start (TokensOfPrinted says what words are) |
| Command.CmdCut | NexFile/client/cmdOpt.c:11-62 | accepts exactly one word, or two with the second under 1024 bytes; the packet has the words and their length, or nothing on refusal |
| Command.CmdCheck | NexFile/client/cmdOpt.c:91-100 | accepts exactly the command lines, and then the packet says what was typed |
| Command.KeywordsHaveCodes | NexFile/shared/protocol.h:58-77 | exactly cd, ls, pwd, rm, put, get and mkdir have codes, 1 to 7 in that order |
| Command.TokensOfPrinted | NexFile/client/cmdOpt.c:28-51 | any words free of space, tab, carriage return, newline and NUL, printed with any such padding between and around, are cut back into those words |
| Command.EveryLineIsPrinted | NexFile/client/cmdOpt.c:28-51 | every line is its words printed with such padding, so no other words are ever read |
| Command.CdDocs | NexFile/client/cmdOpt.c:28-51 | "cd docs" is the command cd with the argument docs |
| Command.BareCommandsSlipThrough | NexFile/client/cmdOpt.c:72-79 | the documented rule and the code agree on a line if and only if it is not a bare rm, put, get or mkdir; the bare rm is accepted |
| Command.PrintedCommandReadsBack | NexFile/client/cmdOpt.c:28-100 | a word, or two, printed with any spaces, tabs, carriage returns and newlines are read back; accepted exactly if it is a keyword alone, or a keyword but pwd with an argument of at most 1023 bytes |
| Command.RequestsAreDistinct | NexFile/client/cmdOpt.c:34-48 | two commands give the same packet only if they are the same words |
| Command.PacketRoundTrip | NexFile/shared/protocol.h:28-34 | a packet decodes from its 1036 bytes |
| Command.PacketLayout | NexFile/shared/protocol.h:28-34 | a packet is 1036 bytes: code, flag and length in four bytes each, least significant first, then the data |
| Command.CommandIsSpelled | NexFile/client/cmdOpt.c:34-48 | what the packet of a command holds, field by field: the number of the keyword, 1 if there is an argument, its length, and the argument |
| Command.PacketsInPlace | NexFile/server/recvCmd.c:7-21 | the k-th packet of any stream sits at k times the packet size |
| Command.DispatchIsMeant | NexFile/server/cmdHandle.c:21-52 | the server's switch on a keyword's code selects the handler of that keyword |
| Command.DispatchByNumber | NexFile/server/cmdHandle.c:21-52 | the switch by the numbers: 1 to 7 are changeDir, listDir, printWorkingDir, removeFile, PutFile, GetFile and makeDir, any other number none |
| Command.CheckLine | NexFile/client/client.c:59-66 | the packet in memory after a line was checked, field by field when it was accepted |
| Command.SendLine | NexFile/client/fileOpt.c:15-65 | every accepted line sends its packet, a bare put included; a put with an argument sends the name as well and ends the client |
| Command.SendLines | NexFile/client/client.c:39-83 | any lines send the packets of their commands in order, up to a put with an argument and its name, and nothing else |
| Command.SentAreTheCommandLines | NexFile/client/client.c:39-83 | what is sent are the command lines, all and in order, up to and including the first put with an argument, which is the last |
| Command.RecvCmd | NexFile/server/recvCmd.c:7-21 | the next packet and its size, 0 at end of stream, -1 exactly for an error |
| CmdHandle.PutFile | NexFile/server/cmdHandle.c:146-175 | for any stream and leftovers, how the handler ends and what it leaves of the stream |
| CmdHandle.CmdParse | NexFile/server/cmdHandle.c:21-52 | for any packet, how its handler ends and what it leaves of the stream |
| CmdHandle.HandledByNumber | NexFile/server/cmdHandle.c:21-52 | for a packet with a string: only 5 takes from the stream, and of the others only 6 can end the server, exactly when it comes to its open and that fails |
| CmdHandle.PutTakes | NexFile/server/cmdHandle.c:151-171 | PutFile takes something whenever there is something to take |
| CmdHandle.PutMovesTheBoundary | NexFile/server/clientHandle.c:90-125 | packets are consecutive up to and including the first put; the boundary holds if and only if no put was met, or one at the very end |
| CmdHandle.CommandReadAsHeader | NexFile/server/cmdHandle.c:151-163 | PutFile takes a following cd, ls, pwd or rm for an empty name and an arbitrary size |
| CmdHandle.PutThenCommandEndsServer | NexFile/server/cmdHandle.c:146-175 | a bare put followed by such a command ends the server, which never sees the second |
| CmdHandle.UploadDecides | NexFile/server/cmdHandle.c:151-171 | a put followed by a name of at most 255 bytes and a size ends the server exactly if the name does not open or the size cannot be mapped; else the stream stands that many bytes on |
| CmdHandle.GetEndsServer | NexFile/server/cmdHandle.c:194-195 | a get whose open fails ends the server, which sees nothing behind it |
| CmdHandle.UploadIsTaken | NexFile/server/cmdHandle.c:151-171 | a put followed by a whole upload leaves the stream just past it |
| CmdHandle.CommandsArriveInOrder | NexFile/server/clientHandle.c:98-124 | packets of commands, with anything behind them, are taken in order up to the first put or ending get |
| CmdHandle.ReceiveCommands | NexFile/server/clientHandle.c:98-124 | the receive-and-handle loop in place takes exactly those packets, under any fragmentation |
| CmdHandle.Converse | NexFile/server/cmdHandle.c:21-52 | any typed lines reach the handlers meant, in order, with code, flag, length and argument, up to and including the first put or get whose open fails, which ends the server; without one all do and the stream stands behind the last packet |
| FileTransfer.HeaderReadsBack | NexFile/server/fileHandle.c:15-26 | a whole header is read back as name and size whatever the buffers held |
| FileTransfer.SendFile | NexFile/server/fileHandle.c:41-65 | of name frame, size frame and content a prefix each leaves, in order, all of them when the sends are complete; a file that does not open ends the process after its name has left |
| FileTransfer.ReceiveFrame | NexFile/server/fileHandle.c:18-19 | one frame into the train that is reused and not cleared, on any stream |
| FileTransfer.ReceiveHeader | NexFile/server/fileHandle.c:15-26 | name and size as read in place from any stream and leftovers |
| FileTransfer.ReceiveContent | NexFile/server/fileHandle.c:35-35 | the mapping receives a prefix; what a short stream does not reach is unchanged |
| FileTransfer.SizedBytes | NexFile/server/fileHandle.c:32-32 | a truncated file holds what it held up to the size and zeros beyond; below zero nothing changes |
| FileTransfer.InterruptedUpload | NexFile/server/fileHandle.c:28-37 | after an upload that breaks off the file has the announced size: the bytes that came, and behind them what was there before, or zeros |
| FileTransfer.RecvFile | NexFile/server/fileHandle.c:13-39 | on any stream and leftovers: which file, with which size and content, every other file unchanged; an empty file ends the process |
| FileTransfer.TransferFile | NexFile/server/fileHandle.c:13-65 | a non-empty file sent is received with exactly its name and content, and the stream stands just past it |
| Session.ServeBatch | NexFile/server/clientHandle.c:90-130 | one turn for each time the batch reports the client, stopping exactly when less than a packet is left or a handler does not return |
| Session.CommandLoop | NexFile/server/clientHandle.c:75-131 | the commands and the end of the loop are those of as many turns on the stream as the waits allow: closed by the client, by a failed wait, ended by a handler, or still running |
| Session.ReadiesConcat | NexFile/server/clientHandle.c:78-98 | every report of the client counts as often as the batch has it, up to the first wait that fails; other descriptors and interrupted waits do not |
| Session.FateByCauses | NexFile/server/clientHandle.c:51-135 | why a session is over: dropped login, no epoll descriptor, failed wait, less than a packet left, or a put, a get or a memory error that ended the process; otherwise it is running and every report was a command |
| Session.TraceIsGated | NexFile/server/clientHandle.c:51-124 | in a session's trace every command follows an OK on that descriptor |
| Session.TraceIsReleased | NexFile/server/clientHandle.c:51-135 | in a finished trace the client's descriptor is closed exactly once and last, the epoll one exactly if opened |
| Session.TraceParses | NexFile/server/clientHandle.c:98-124 | the trace parses exactly those packets, and begins with the results of the login in order |
| Session.HandleClient | NexFile/server/clientHandle.c:51-135 | every run is gated and released; pairs are judged against the table and read from the client's stream; commands come only after a pair the table holds and are the turns on the rest of the stream; when it is over, and why, is determined |
| ClientConfig.TrimSplits | NexFile/client/config.c:18-34 | around the trimmed stretch there are only spaces |
| ClientConfig.TrimIsTheTightStretch | NexFile/client/config.c:18-34 | it is the only non-empty stretch with that property, and trimming is idempotent |
| ClientConfig.TrimIsTight | NexFile/client/config.c:18-34 | what is left neither begins nor ends with space, tab, newline, vertical tab, form feed or carriage return |
| ClientConfig.TrimWhitespace | NexFile/client/config.c:18-34 | the in-place skip, move and cut compute it |
| ClientConfig.FirstOccurrence | NexFile/client/config.c:56-65 | strstr finds a tag right where it was written, if the prefix has none |
| ClientConfig.TagsDoNotOverlapThemselves | NexFile/client/config.c:45-48 | a tag without '<' gives open and close tags that cannot overlap themselves |
| ClientConfig.TagRoundTrip | NexFile/client/config.c:36-76 | a value written between a tag's open and close form is extracted, trimmed, whatever surrounds them |
| ClientConfig.ExtractXmlTagValue | NexFile/client/config.c:36-76 | 1 and the value in the buffer exactly when the line has one; else 0 and the buffer untouched |
| ClientConfig.DecimalReadsBack | NexFile/client/config.c:113-113 | a number printed in decimal is read back |
| ClientConfig.PortRoundTrip | NexFile/client/config.c:111-120 | a printed number is accepted as a port exactly if it lies in 1..65535 |
| ClientConfig.PortValues | NexFile/client/config.c:111-120 | a value is a port exactly if it is white space, perhaps a plus sign, and digits that spell a number in 1..65535, with nothing behind |
| ClientConfig.DecimalPlaces | NexFile/client/config.c:113-120 | 65535 is a port; 65536 and 0 are not |
| ClientConfig.LastLineWins | NexFile/client/config.c:100-127 | the loop keeps of each kind the last line's value, and stops exactly if some port line is bad |
| ClientConfig.FamilyLine | NexFile/client/config.c:101-104 | a line with a value between `<family>` and `</family>` sets the family, whatever else it has |
| ClientConfig.IpLine | NexFile/client/config.c:106-109 | one with `<ip>` sets the ip, unless it has a family |
| ClientConfig.PortLine | NexFile/client/config.c:111-121 | one with `<port>` sets the port, unless it has one of these |
| ClientConfig.PathLine | NexFile/client/config.c:123-126 | one with `<localPath>` sets the path, unless it has one of those |
| ClientConfig.OtherLine | NexFile/client/config.c:100-127 | a line with none of the four tags sets nothing |
| ClientConfig.LinesOfLine | NexFile/client/config.c:100-100 | lines of at most 510 bytes are read one by one |
| ClientConfig.LongLineIsCut | NexFile/client/config.c:100-100 | a longer line is read in pieces of 511 bytes, each taken for a line |
| ClientConfig.LastSetIsLast | NexFile/client/config.c:100-127 | the value kept of a kind is that of a line after which no line sets it |
| ClientConfig.WrittenFileIsLoaded | NexFile/client/config.c:79-153 | the file with AF_INET, an ip, a port in 1..65535 and a path between `<family>`, `<ip>`, `<port>` and `<localPath>` and their close tags, one a line, is loaded as that ip, port and path |
| ClientConfig.AcceptedFiles | NexFile/client/config.c:79-153 | exactly which files are accepted, and what is then loaded: no bad port line, an ip that is valid, a port and a path set, the last of each, cut at 63 and 1023 bytes and not empty, and no last family but AF_INET |
| ClientConfig.Config | NexFile/client/config.c:79-153 | the loop over fgets and the reused value buffer computes that function of the file |

## Left out

- UserAuthen: stops (`undefined`) at a length that does not fit its buffers, where the C code writes outside its arrays; when a receive fails, which bytes the pair is made of is not said. Its last return (lines 120-121) is not reached, as there are only three verdicts.
- ReceiveReply: stops (`undefined`) at a length that does not fit the response buffer, where the C code writes outside it; what it reads when a call fails is left to ClientRecvN.
- ClientRecvN: stops (`undefined`) when the cursor goes below zero, where the C code goes on in front of the buffer.
- Lockstep: failed and interrupted receives of the client are not steps (ClientRecvN gives their effect), each reply leaves by one complete send, and the server's reads after the client has closed are not steps of the dialogue (ServeDisconnected says what they come to).
- ClientLogin.HandleAuthenEvent: the full clause is for calls that do not fail; with failing ones the result is tied to is_connected only. The uninitialised train holds the same bytes in every round.
- LoginSession.HandleAuthenEvent: observed for any bounded number of rounds, as the loop need not end.
- LogIn: the two programs run one after the other on each other's whole output (LoginDetermined covers interleavings), with complete replies and calls that do not fail.
- ServeLogins: logins one after the other; two workers extending the global path at the same time race in C and are not modelled.
- CmdParse: what the handlers do to the file system, the terminal and the client's side of the connection is not modelled, only whether they return and what they read; a packet whose data has no terminator stops the model where a handler takes it for a string.
- Converse: each packet leaves by one complete send, as the client's sendCmd does not look at a short one; the lines are the ones the client comes to read, which its wait for a reply may cut short at any of them.
- HandleClient: observed for any finite list of epoll_wait results and any bounded number of login rounds; epoll descriptors are taken to differ from the client's; when receives fail, the trace, the judgement of the pairs and the gating are kept, but pairs and commands are not tied to the stream.
- RecvFile: a name or length that does not fit its buffer stops the model (`Undefined`); failed calls are covered only by its first clause.
- TransferFile: complete send and sendfile, the file does not change while it is sent, and names of at most 127 bytes as the receiver's buffer demands.
- ShutdownCompletes: a handler's return is a step that may be taken, so a handler blocked for ever on an idle client keeps main joining.
- RunsAreSound: the index is an unbounded integer; failed allocations and null arguments are not modelled here or elsewhere.
- TaskQueue: `malloc` is taken not to hand out the address of a freed node, and not to fail.
- crypt, getspnam and inet_pton are parameters: any function or table, crypt being allowed to fail.
- Sockets, epoll, fork, pipes, signals and stdin are byte sequences, schedules of chunks and events; the listening socket's own calls are not modelled.
- The client's reply reader recvSignal and the commands that depend on it: it takes recvn's success for a closed connection.
- The client's getFile, and what the server's GetFile sends: the two ends do not match.
- changeDir, listDir, printWorkingDir, removeFile and makeDir: stubs or single system calls.
- The server's configuration parser, which its main does not call.
- Logging, status.c, userStatus.c, tcpInit.c, epoll.c, SQL and the build files.
