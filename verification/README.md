# Verification of robot_ipc

robot_ipc lets processes on one machine share *host variables* (shared memory that any number
of processes read and write without a mutex) and call *host functions* (functions of another
process, reached through named pipes). This project models the parts of it whose correctness
depends on every interleaving, and proves what they promise.

## How it is organised

**The host variable**, `src/host_variable.c`

- `LockRecord` is the abstract lock word: a target and fifteen counts. `FlagWord` has the C
  expressions on the packed 64-bit word, as written, and `WordMeaning` proves that each is
  the corresponding update of the record, with no carry or borrow into a neighbour.
- `Protocol` is the step machine: any number of read and write calls, each step one atomic
  load, compare-and-swap, fetch-and, timestamp access or copied byte. A run is fixed by its
  schedule, the sequence of operations that take the steps, so a statement over all schedules
  is a statement over all interleavings. The number of buffers n is any of 2 to 15 (the
  repository configures 4), and the variable's size and the number of calls are unbounded.
- `Accounting`, `Copies`, `Register`, `Reads`, `LastWrite`, `ShortWrites`, `Progress`, `Capacity`,
  `Crowding`, `Ordering` and `Overtaking` prove properties of all runs of that machine.
- `HostVariable` is the C code in its own form: a class with the packed word, the timestamp
  array and one flat byte array, whose methods have the retry loops and the byte copies.
  Other operations step between any two of its accesses. Every access is proved to be one
  step of `Protocol`, so every call is a run of it; `Layout` and `Turns` carry that proof.
- `LinkHandshake` is the creation race of `link_host_variable`.

**Host functions**, `src/host_function_receiver.c` and `src/host_function_caller.c`

- `Pipeline` is the message system of one function name: callers, two byte pipes, dispatchers.
- `Dispatcher` is the dispatcher thread with its two nested loops, over all its functions at
  once and with everybody else interfering between its system calls.
- `Os`, `FunctionTable` and `Caller` are creation, attach, teardown, link and unlink over an
  operating system in which any call may fail, and the two calls of a linked caller.

**The Python layer**, `src/robot_ipc/robot_ipc.py` and `src/python_bindings.cpp`

- `PythonFraming` has the byte formats, over an abstract codec. `PythonVariable` and
  `PythonFunctions` have the C++ objects with their buffers, and the theorems that compose the
  layer with the two cores below it.

## Results a reader may not expect

- **The latest write does not always win.** The publish compares only the word, which has no
  version, so a writer that was held up can publish over a newer value when the word has come
  back to what it was. `Overtaking.LatestWinsExactly` proves when this can happen: some schedule
  loses the latest of a given list of calls if and only if there are at least three buffers and
  three of the writes can overtake each other. `Ordering.UndisturbedLatestWins` gives a condition
  on the run that suffices whatever the calls: every publish that succeeds has at most one other
  publish since its writer's last load. Runs without overlapping writes meet it
  (`Ordering.SerialWritesWin`). In every run, a write that returned 1 gave way to another at
  least as new (`Ordering.SupersededIsAnswered`).
- **Behind a short write readers see older bytes.** A read is never torn, and it has the bytes
  of the last write published before its acquire as far as that write went. A longer read gets,
  behind those, whatever earlier writes left in that buffer. `ShortWrites.StaleTail` is a run, for
  any number of buffers, in which those are the bytes of a write that returned 1 and was never
  readable. `ShortWrites.ReadsOneWriteExactly` says which calls are safe: under every schedule
  every read has the bytes of one write and no others if and only if no read asks for more than
  a write stores (a write with timestamp 0, which is never published, does not count).
  `Copies.ByteSource` says where each byte comes from.
- **A caller may be linked to a descriptor nobody opened.** When `mkfifo` fails,
  `_try_to_open_pipe` of the caller returns the positive constant 202, which passes for a
  descriptor. `Caller.LinkHostFunction` states exactly when the link is sound.
- **A failed creation of a dispatcher leaves pipes open**: `FunctionTable.CreateHostFunctionDispatcher`
  states how many.
- **Python raises on a superseded write**: a result of 1 (a newer value is there) raises like -1.
- The documents ask for equal sizes everywhere and say a mismatch stalls the pipe; the model
  takes equal sizes as given.

## Model

| member | source | states |
|---|---|---|
| WordMeaning.AcquireMeans | src/host_variable.c:208-212 | on every word whose target is not write-locked, the acquire's expressions refuse at fourteen readers and otherwise add one to the target's count and change nothing else |
| WordMeaning.ReleaseMeans | src/host_variable.c:232-233 | the release's expressions take one off the given count and change nothing else |
| WordMeaning.ClaimMeans | src/host_variable.c:287-288 | the or with 0xF sets exactly one count to 0xF |
| WordMeaning.PublishMeans | src/host_variable.c:310-311 | the publish sets the target and clears that buffer's count, and keeps the other fourteen |
| WordMeaning.BackOffMeans | src/host_variable.c:304 | the fetch-and clears one count and changes nothing else |
| WordMeaning.InitialMeans | src/host_variable.c:165-167 | for every n of 2 to 15 the initial word has target 0, counts below n zero and the others 0xF |
| WordMeaning.FreeMaskMeans | src/host_variable.c:281-288 | the free mask is zero exactly when no slot is free, and its lowest set bit selects the lowest free slot |
| FlagWord.FreeMaskFields | src/host_variable.c:282-284 | bit 4i of the free mask is set exactly when nibble i is zero and i is not the target |
| FlagWord.FreeMaskOnly | src/host_variable.c:284 | no other bit of the free mask is set |
| FlagWord.CountTrailingZeros | src/host_variable.c:287 | the result is the index of the lowest set bit |
| WordMeaning.DecodeEncode | src/host_variable.c:42-45 | every record comes back from its packed word |
| WordMeaning.EncodeDecode | src/host_variable.c:42-45 | every packed word comes back from its record |
| WordMeaning.DecodeInjective | src/host_variable.c:219 | a compare-and-swap on words succeeds exactly when the records are equal |
| Accounting.NextInv | src/host_variable.c:203-321 | every step of every operation keeps the lock accounting and what each operation believes its buffer holds |
| Accounting.LockAccounting | src/host_variable.c:203-238 | in every reachable state a usable count is 0xF exactly when one writer owns the buffer, with no reader and not the target, and otherwise is its number of readers, at most 14; reserved slots stay 0xF and the target below n |
| Register.RefinesRegister | src/host_variable.c:203-321 | every interleaving is one of an atomic register: a read takes the value at its acquire, a write returning 0 changes it at its publish, writes returning 1 or -1 never do; behind a short write's payload the register has zeros or bytes of writes that had returned 0 or 1 |
| Reads.ReadIsSnapshot | src/host_variable.c:249-262 | from its acquire on no byte or timestamp of a reader's buffer changes, and what it returns is what was there then |
| Reads.FrozenUnlessOwned | src/host_variable.c:279-296 | a buffer that no writer owns keeps its bytes and timestamp, wherever the target moves |
| LastWrite.ReadsAreWrites | src/host_variable.c:242-263 | every read that returns 0 has the bytes of one write that returned 0 as far as that write went, or zeros; and each of its bytes is zero or the byte at its place of a write that returned 0 or 1 |
| Copies.ByteSource | src/host_variable.c:296 | along every schedule each byte of each buffer is that of the last write that copied so far into it, which holds the buffer still or has returned 0 or 1, or the initial zero |
| LastWrite.ReadReturnsLastWrite | src/host_variable.c:242-321 | every read that returns 0 has a step at which it acquired; it returns the bytes of the write that had published last before it as far as that write went, and each byte is the last copied to its place in that buffer |
| ShortWrites.ReadsOneWriteExactly | src/host_variable.c:255-296 | for any list of calls: under every schedule every read that returns 0 has only bytes of the write that had published last before it acquired, or zeros before any, if and only if no read asks for more than a write with a timestamp stores |
| ShortWrites.StaleTail | src/host_variable.c:287-314 | for any three writes of which the second gives way to the first and the third is newer than both, and any read: run one after another, the read returns the third's payload and behind it the tail of the second, which returned 1 |
| Progress.FailuresPaidFor | src/host_variable.c:219-235 | an operation's failed compare-and-swaps never exceed the others' successful updates of the word |
| Progress.FailuresBounded | src/host_variable.c:207-221 | among m operations an operation's compare-and-swap fails at most 2(m - 1) times |
| Progress.EveryOperationReturns | src/host_variable.c:203-321 | an operation given its length plus 6 + 4(m - 1) steps has returned, whatever the others do and wherever they stop |
| Capacity.RefusedWrite | src/host_variable.c:281-286 | a write that returns -1 decided on the word as it loaded it at an instant of its first loop, when no slot was free and each of the n - 1 buffers besides the target was held by an operation in flight other than it, n - 1 in all |
| Capacity.WritesFindABuffer | src/config.h:24 | with never more than n - 1 operations in flight no write returns -1 |
| Capacity.RefusedRead | src/host_variable.c:207-222 | a read that returns -1 decided on the word as it loaded it at an instant of its first loop, when exactly 14 other reads in flight held the target |
| Capacity.ReadsAreAdmitted | src/host_variable.c:207-222 | with never more than 14 reads in flight no read returns -1, for any number of writers |
| Crowding.ReadsAdmittedExactly | src/host_variable.c:207-222 | for any list of calls: no schedule makes a read return -1 if and only if at most 14 of the calls are reads |
| Crowding.WritesFitExactly | src/host_variable.c:281-286 | for any list of writes: no schedule makes one return -1 if and only if there are fewer than n |
| Crowding.CrowdRefuses | src/host_variable.c:207-286 | whatever other calls there are, with fifteen reads some schedule refuses a read, and with n writes some schedule refuses a write |
| Ordering.UndisturbedLatestWins | src/host_variable.c:299-314 | for all calls and every schedule in which each publish that succeeds has at most one other publish since its writer's last load, overlap and failing swaps unrestricted: whenever no write is in progress the target's timestamp is the greatest of the writes that returned 0 or 1 and the initial one |
| Ordering.UndisturbedStepRises | src/host_variable.c:299-314 | after any schedule, a publish that has at most one other publish since its writer's last load strictly raises the target's timestamp, and a step that does not publish leaves it as it is |
| Ordering.SerialWritesWin | src/host_variable.c:299-314 | while writes do not overlap, whatever the readers do, the target's timestamp is the greatest of all writes that returned 0 or 1 and the initial one, whenever no write is in progress |
| Ordering.SupersededIsAnswered | src/host_variable.c:302-305 | in every interleaving a write that returned 1 has another at least as new that has published, or claimed later and not given up; once no write is in progress, one that has published |
| Overtaking.OvertakingRun | src/host_variable.c:302-312 | for any three writes that can overtake each other and at least three buffers, a concrete schedule ends with an older write over a newer one |
| Overtaking.LatestWinsExactly | src/host_variable.c:299-314 | the latest write wins under every schedule if and only if there are two buffers or no three of the calls can overtake each other |
| LinkHandshake.LinkedMeansInitialised | src/host_variable.c:133-177 | in every interleaving of any number of links, none has returned before the word and timestamps are initialised, and no link ever stores over what a linked process stored |
| LinkHandshake.StoreKept | src/host_variable.c:162-177 | once a process is linked no step of a link changes the word or the timestamps |
| LinkHandshake.EveryLinkReturns | src/host_variable.c:133-180 | in whatever interleaving all processes have taken n + 7 steps of their own, each has returned or returns at its next step |
| LinkHandshake.CreatorReturns | src/host_variable.c:162-173 | the process that creates the memory has returned after n + 7 steps of its own, whatever the others do |
| LinkHandshake.LinkerReturns | src/host_variable.c:174-180 | once `created` is set, any process that has taken four steps of its own returns at its next |
| Layout.Apart | src/host_variable.c:65-66 | the n buffers are disjoint and lie inside the allocation |
| Layout.ChunkStore | src/host_variable.c:296 | a byte stored at a buffer's offset changes that byte of that buffer and no other buffer |
| Layout.OffsetIsProduct | src/host_variable.c:255 | buffer b begins at b times the size |
| HostVariable.SharedVariable.Link | src/host_variable.c:161-171 | the initialised memory is the initial state of the protocol |
| HostVariable.SharedVariable.Step | src/host_variable.c:203-321 | every atomic access of every call is one step of the protocol on the decoded memory |
| HostVariable.SharedVariable.AcquireReadLock | src/host_variable.c:203-223 | under any interference, is a run of the protocol that ends refused with -1, or holding a read lock on the buffer it returns, the target at its last step |
| HostVariable.SharedVariable.ReleaseReadLock | src/host_variable.c:226-238 | under any interference, gives up the lock it holds and keeps the bytes read |
| HostVariable.SharedVariable.ReadHostVariable | src/host_variable.c:242-263 | is a run of the protocol; on 0 the buffer holds the prefix of the register at one instant during the call and is untouched behind it, on -1 it is untouched |
| HostVariable.SharedVariable.WriteHostVariable | src/host_variable.c:266-321 | is a run of the protocol; on 0 the register begins with the payload when the call returns, on 1 another write at least as new has published or claimed later and not given up, on -1 it found no buffer |
| HostVariable.FindFree | src/host_variable.c:281-288 | the search returns the lowest free slot of the record and the word that claims it |
| Pipeline.MessagesStayWhole | src/host_function_caller.c:100-107 | for any callers, dispatchers and interleaving each pipe holds whole messages, and delivered followed by queued is what was sent, in order, once each |
| Pipeline.AnswersInOrder | src/host_function_receiver.c:298-309 | with one dispatcher the answers are the callback over the requests in order without the NULL ones; if it always answers, the k-th answer is for the k-th call |
| Pipeline.AnswersConserved | src/host_function_receiver.c:298-309 | with any number of dispatchers each byte string is answered or owed exactly as often as the delivered requests call for; the requests are dealt out, each dispatcher's being its part of those delivered in their order, and so are the answers; and each dispatcher answers its own in order |
| Pipeline.AnswersAllCollected | src/host_function_caller.c:110-117 | when all is quiet and the pipes are empty, callers have exactly the multiset of answers due |
| Pipeline.FramedRead | src/host_function_receiver.c:291-296 | a read of one message's size from a pipe that is not empty is never short and gets exactly the next message |
| Dispatcher.Thread.Serve | src/host_function_receiver.c:289-309 | one ready request pipe: this thread, as its pipeline records it, reads exactly one whole request and writes exactly its answer, unless nothing happens any more and that request pipe is empty or that response pipe has no room |
| Dispatcher.Thread.Obey | src/host_function_receiver.c:275-285 | a control value is consumed and acknowledged, with 0 for EXIT, which alone ends the loop |
| Dispatcher.Thread.HandleEvents | src/host_function_receiver.c:270-311 | a batch reads and answers one request of each function reported readable and none of the others, as their pipelines record it, also behind an EXIT in the batch, unless the thread waits for good on an empty request pipe or a full response pipe |
| Dispatcher.Thread.EpollWait | src/host_function_receiver.c:264-268 | reports every readable source of a wake-up, each once, up to 16, and no others; or an error and no event |
| Dispatcher.Thread.Dispatch | src/host_function_receiver.c:253-315 | the thread only makes moves of the pipelines; it takes one request for each report of a function and obeys one control value for each report of the control pipe; what it wrote to each pipeline is exactly the answers to the requests it read there, in order, however many dispatchers there are; it exits exactly after the first EXIT; and it is stuck only in a read of an empty pipe or a write to a full one with nothing happening any more |
| FunctionTable.HostFunctionDispatcher.constructor | src/host_function_receiver.c:80-93 | an empty table over exactly the five descriptors of the dispatcher |
| FunctionTable.CreateHostFunctionDispatcher | src/host_function_receiver.c:57-110 | fails exactly when one of its six kinds of call fails, leaving 0, 2 or 4 descriptors open; otherwise a valid empty table |
| FunctionTable.HostFunctionDispatcher.AttachHostFunctionEx | src/host_function_receiver.c:162-217 | -5 exactly for sizes above PIPE_BUF, 0 exactly if the sizes fit and none of the six calls fails, and -1, -2 or -3 by the first that fails; on failure table, descriptors and epoll set are as before, on success exactly one slot more, open on the `_req` and `_res` pipes of the name and watched under its index |
| FunctionTable.HostFunctionDispatcher.AttachHostFunction | src/host_function_receiver.c:219-243 | the same with an owned context, -4 exactly if that cannot be allocated; a failed attach leaves no memory behind |
| FunctionTable.AttachCodeMeans | src/host_function_receiver.c:168-206 | each result of attach_host_function_ex belongs to exactly one cause: sizes, or the first of the six calls that fails |
| FunctionTable.PathsDiffer | src/host_function_receiver.c:185-192 | no request pipe is a response pipe, of whatever names, and different names have different pipes |
| FunctionTable.HostFunctionDispatcher.Delete | src/host_function_receiver.c:113-145 | releases every descriptor and every owned context exactly once and nothing else; returns the acknowledgement, or -1 exactly if some close reports an error |
| FunctionTable.AttachAll | src/host_function_receiver.c:162-243 | over any sequence of attaches of both kinds, made while a slot is free, the result of each is determined by which of the calls it makes fail, and the table has exactly the successful ones, in order, slot j watched by epoll under j, different names on different pipes; with no call failing all that fit are in it |
| FunctionTable.Lifetime | src/host_function_receiver.c:57-243 | from creation over any attaches to teardown: which calls fail determines every result, the table is the successful attaches (all that fit, if no call fails), and afterwards the process has exactly the descriptors and memory it had before |
| FunctionTable.DescriptorsGrow | src/host_function_receiver.c:184-207 | two new descriptors in a new slot keep all descriptors distinct, open and accounted for |
| FunctionTable.ClosedSlot | src/host_function_receiver.c:127-129 | both descriptors of a slot are open when teardown reaches it, and the rest stay accounted for |
| FunctionTable.ContextsSkip | src/host_function_receiver.c:130-131 | an owned context is live when teardown reaches it, and no later slot shares it |
| Caller.LinkHostFunction | src/host_function_caller.c:40-79 | exactly when it returns NULL, exactly when the caller it returns is connected to the `_req` and `_res` pipes of the name, two different ones, and what a failed link leaves open |
| Caller.TryToOpenPipe | src/host_function_caller.c:26-37 | 202 when the pipe cannot be made, -1 when it cannot be opened, else a new descriptor on it |
| Caller.HostFunctionCaller.Unlink | src/host_function_caller.c:82-97 | succeeds exactly on two distinct open descriptors whose close reports no error, and otherwise gives up at the first that fails |
| Caller.Connection.CallHostFunction | src/host_function_caller.c:100-107 | appends exactly the first szArg bytes as one request, or fails without effect; it never returns only if nothing happens any more and the pipe has no room |
| Caller.Connection.GetResponse | src/host_function_caller.c:110-117 | gets exactly the next answer into the front of the buffer and leaves the rest of the buffer; a function without answers succeeds at once; it never returns only if nothing happens any more and the pipe is empty |
| PythonFraming.IntRoundTrip | src/robot_ipc/robot_ipc.py:42 | to_bytes raises exactly on numbers too large; all others come back, in either byte order |
| PythonFraming.BytesRoundTrip | src/robot_ipc/robot_ipc.py:52 | every byte string comes back from its number |
| PythonFraming.EncodeCallFits | src/robot_ipc/robot_ipc.py:38-48 | exactly which calls can be encoded, and which exception the others raise |
| PythonFraming.CallRoundTrip | src/robot_ipc/robot_ipc.py:51-57 | every encoded call decodes to the same args and kwargs whatever bytes follow |
| PythonFraming.StructsSelfDelimiting | src/robot_ipc/robot_ipc.py:25-35 | ctypes structures of one size are a self-delimiting codec |
| PythonFraming.WholeObjectWritten | src/robot_ipc/robot_ipc.py:78-88 | a write hands over the whole object exactly when it fits and the length given is absent, zero or right |
| PythonFraming.LengthWritten | src/robot_ipc/robot_ipc.py:78-88 | with a length given exactly that many bytes are written, if the payload has as many and they fit, and else it raises, ValueError exactly if they do not fit |
| PythonFraming.CoreWriteMeans | src/python_bindings.cpp:40-55 | exactly which sizes raise, and how many bytes of the payload the others write |
| PythonFraming.CoreReadMeans | src/python_bindings.cpp:61-77 | a size of 0 reads the whole variable, others exactly their own, and too large ones raise |
| PythonFraming.ByteOrders | src/robot_ipc/robot_ipc.py:42 | little-endian has the low byte first, big-endian last |
| PythonVariable.PyHostVariable.Write | src/python_bindings.cpp:40-59 | raises without effect on bad sizes; returns exactly after a publish, with the first opSize bytes of the payload, all for 0, at the front of the register; raises when superseded or refused |
| PythonVariable.PyHostVariable.Read | src/python_bindings.cpp:61-78 | raises without effect on bad sizes, and else returns opSize bytes, the whole size for 0, of the register at one instant of the call |
| PythonVariable.ObjectsReadBack | src/robot_ipc/robot_ipc.py:78-95 | in every interleaving a full-size read decodes to the object published last before its acquire, whatever stale tail earlier objects left |
| PythonFunctions.CallbackBinding.DispatcherCallback | src/python_bindings.cpp:157-187 | NULL for None, an exception, no answer size or an answer too long; otherwise the payload and zeros, in the binding's buffer |
| PythonFunctions.PyHostFunctionCaller.Call | src/python_bindings.cpp:111-124 | sends the payload padded with zeros whatever was in the buffer, or raises without effect when it is too long |
| PythonFunctions.PyHostFunctionCaller.GetResponse | src/python_bindings.cpp:126-132 | returns exactly the next answer, or no bytes for a function without answers |
| PythonFunctions.RemoteCalls | src/robot_ipc/robot_ipc.py:159-178 | through one dispatcher the answers decode in order to the user's function on the calls sent, without those that give none |
| PythonFunctions.PickledCalls | src/robot_ipc/robot_ipc.py:119-134 | if the function always returns something that fits, the k-th answer decodes to its result on the k-th call's args and kwargs |

`Protocol.Operation.seen`, the histories of `Pipeline.System` and `Pipeline.Dispatcher`, and the
ghost fields of `Dispatcher.Thread` are history variables: no step reads them. `FunctionTable.AttachAll`
and `Lifetime` are a client of the table; the source has no such loop.

## Left out

- Weak memory: steps are sequentially consistent. The word and the timestamps are sequentially consistent atomics in the source; the copied bytes are ordinary accesses ordered by them.
- The order in which `memcpy` copies: bytes are copied one at a time in ascending order.
- The clock: a write's timestamp is an arbitrary natural number, not the compressed boot time of `get_compressed_timestamp`.
- Process death while holding a lock, and the debug-build signal wrapping meant to soften it.
- HostVariable.SharedVariable.ReadHostVariable: the calls that will happen on a variable are a list fixed when it is linked, and interference is an arbitrary finite script, so a call that never returns is covered by `Progress.EveryOperationReturns` rather than here.
- LinkHandshake.LinkedMeansInitialised: `shm_open`, `ftruncate` and `mmap` succeed and nobody unlinks; failures and `unlink_host_variable` are not modelled, and a linked process stores the word and timestamps in one move.
- Operations longer than the variable, attaching beyond the capacity of a table, and sizes that differ between processes: preconditions, as the documents ask.
- Pipeline.MessagesStayWhole: a request has at least one byte. Reads and writes of at most PIPE_BUF bytes are atomic, as POSIX requires of `write`; PIPE_BUF is 4096, as on Linux; a write that does not fit waits.
- Liveness of pipes: a thread or caller whose pipe never becomes ready is reported as stuck.
- Pipeline.AnswersInOrder: callbacks are deterministic and return buffers of at least the answer's size.
- Threads of a dispatcher starting and stopping: the table is filled before the loop runs and torn down after it acknowledged EXIT. `pthread_detach` is not modelled.
- FunctionTable.CreateHostFunctionDispatcher: the seven array allocations count as one call, and the thread already started when an allocation fails is not modelled.
- FunctionTable.HostFunctionDispatcher.Delete: the table's own arrays are not part of the modelled memory, only the contexts.
- Names are assumed to fit the path buffers.
- The codec of objects: `pickle` and `ctypes` are any pair of functions of which decoding ignores what follows a complete encoding. Reference counts, the interpreter lock, type checks of data formats and negative lengths are not modelled.
- The C++ templates, the logger, the examples, the shell scripts and the build files.
