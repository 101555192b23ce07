# Agent Runtime: a verified model

This project models the stateful core of the free4chat Agent Runtime (Go, `agent/internal`) and proves
properties of it over every input, every run and every interleaving. Check it with
`dafny verify dfyconfig.toml`.

## What is modelled

| module | part of the Runtime |
|---|---|
| `Framing`, `AdapterProtocol`, `ProcessAdapter` | the stdio protocol with the local capability Adapter: chunked frame reading, full writes, serialized exchanges, the handshake |
| `Controller` | the checks before and after an Adapter call |
| `Registration` | the Adapter registration, its file, and the atomic changes of the directory |
| `SeedText`, `HostSeedProtocol`, `HostSeed` | the private host seed: its text, the protocol by which many processes initialize it, the call itself |
| `DaemonState` | the critical sections of the daemon under its state mutex |
| `AdapterLifecycle`, `AdapterRuns` | register, remove, child death, stop, crash, failed startup and restart around the installed Adapter |
| `Residents` | join, create, leave, self-leave, room expiry and stop around the registry of residents |
| `TranscriptLeases` | the Live Transcript producer lease table |
| `HostLog` | the rotating bounded daemon log |
| `DaemonLock` | the lock retry loop, startup under the lock, and the socket afterwards |
| `LiveView`, `LiveViewDescriptor`, `LiveViewExamples` | the Live View preflight and its published contract, its rules type by type, and its examples |
| `RuntimeExecutables` | the names of executable copies and the scan that removes stale ones |
| `Text`, `Json`, `Wrappers` | bytes as characters, white space, decimal numbers; JSON values; `Option` and `Result` |

Where the Go code updates an object or loops over a buffer there is a class or a method, proved against a
specification function; the properties are lemmas about that function. Where many threads or processes
interleave there is a step function `Apply`, one step per atomic action, and a run is any sequence of
events. An event that is not enabled changes nothing, so a statement about all event sequences is a
statement about all interleavings. In `HostSeed`, `Registration` and `DaemonState` the methods are tied to the
very steps that the concurrent models use.

## Assumptions

- The file lock is exclusive and dies with its holder; `link`, `rename` and `remove` are atomic; an open
  file stays readable after its name is removed.
- The read of the seed file under the lock does not fail while a valid seed is published, and no leftover
  temporary name is a second name of a malformed published seed. Both are needed, exactly as stated:
  `SeedIsSafeIff` and `AgreementIff`.
- The registration file, if it loads at first, is one whose adapter was approved. A request is decoded from
  JSON, so JSON encoding and decoding give back the registrations it asks for; of others (text that is not
  UTF-8) nothing is assumed.
- A killed child has exited; a failing call of an Adapter sets its flag and then kills the child.
- A pause takes at least the requested time, and the clock does not run backwards.
- Instance ids, adapter ids and thread ids are fresh when allocated.
- The child of an Adapter is an arbitrary byte stream, given as all it will write until end of file.
- JSON values are a datatype; the JSON library, the payload pattern and descriptor validity are parameters.
  Two descriptors are equal when their encodings are. The encoding of numbers is not modelled: a number is
  a real. An object of an Adapter frame does not repeat a key: Go would keep an earlier
  `protocolVersion` or `id` before a later null, where the model reads the last.
- What the operating system does in a call (which operation fails, which arm of a select is taken) is an
  argument of the methods and a flag of the events; chunking, partial writes and elapsed time are
  nondeterministic choices.

## Where code and documents differ

- The protocol design (`docs/design/local-capability-adapter-protocol.md:73`) says that every fault fails
  the call as `unavailable`. The code tells timeout, oversized and malformed responses apart, and the model
  follows it. The same line counts a duplicate response among the faults of the current call; in the code
  the current call succeeds and the next one fails (`DuplicateFailsNextCall`).
- `Tail` and the `logs` command filter in different orders; `LogViewsAgree` says exactly how the results are
  related.
- The size bound of the log fails exactly by appends that overrun after a failed rotation, which is ignored
  (`LogStaysBoundedIff`); then the file can grow without bound (`FailedRotationsUnboundLog`).
- A child has a process group of its own, and once its daemon has ended nobody kills it. It outlives a
  daemon that crashes, at rest, in a handshake or in a close, or that fails in startup after the restore,
  exactly if it was running then and does not exit by itself (`AdapterOutlivesDaemon`,
  `FailedStartupLeavesAdapter`, `CrashDuringHandshake`, `CrashDuringClose`).
- A registration finds the daemon stopping only at its first check. The branch that undoes a saved
  registration is never taken (`UndoIsUnreachable`), since stop takes the lifecycle mutex.
- After a stop the registry of residents stays empty if and only if no admission was in flight
  (`StopLeavesRegistryEmptyIff`), since registering does not look at the stopping flag again.
- A daemon lets its lock go before it closes its listener, and closing removes the socket's name. A
  serving successor loses its socket exactly by such a late close (`SocketLostByLateClose`).
- The lease key joins room and host by a NUL. Two hosts collide exactly when one ends with the other after
  a NUL (`KeyCollision`); exclusivity is proved for NUL-free hosts, and fails otherwise
  (`NulHostStealsLease`).

## Model

| member | source | states |
|---|---|---|
| Framing.BufReader.ReadSlice | agent/internal/capability/process.go:361-368 | a slice is the next bytes of the stream, up to the first line feed, or a full buffer, or the end |
| Framing.ReadProtocolFrame | agent/internal/capability/process.go:361-380 | for every buffer size and chunking the frame read is the one the stream holds: the bytes before the first line feed, with the exact too-large, malformed and end-of-file cases; a frame is taken whole with its line feed, and nothing more |
| Framing.WriteFull | agent/internal/capability/process.go:342-354 | under any schedule of partial writes all data is delivered, unless a write fails, exactly then reported; a failure has delivered a prefix |
| Framing.FrameRoundTrip | agent/internal/capability/process.go:361-380 | a body plus line feed reads back, whatever follows, if and only if it is non-empty, free of line feeds and at most 65535 bytes |
| Framing.ReadBack | agent/internal/capability/process.go:342-380 | n written frames read n times give exactly those frames in order, leaving what follows untouched |
| Framing.EncodeInjective | agent/internal/capability/process.go:342-380 | the framing is unambiguous |
| Framing.LineIsFrame | agent/internal/capability/process.go:361-380 | a line of 1 to 65535 bytes is a frame |
| Framing.EmptyLineIsMalformed | agent/internal/capability/process.go:375-377 | an empty line is malformed |
| Framing.LongLineIsTooLarge | agent/internal/capability/process.go:365-367 | 65536 bytes without a line feed, and more to come, are too large |
| Framing.UnendedLineIsEof | agent/internal/capability/process.go:372-374 | a shorter line that the stream ends in is the end of file |
| AdapterProtocol.NoStalePairing | agent/internal/capability/process.go:275-340 | in every run against every child: frames taken are the first lines of the output; a success comes from the frame with the index of its own request and carrying its own id; no frame serves two calls; while open, frames taken equal requests written and no reader is outstanding |
| AdapterProtocol.RunKeepsInv | agent/internal/capability/process.go:275-340 | every exchange, close, child exit and abandoned read keeps alignment, pairing and order |
| AdapterProtocol.AbandonedReadKeepsInv | agent/internal/capability/process.go:298-309 | a reader left behind by a call that gave up never mispairs a later frame |
| AdapterProtocol.ReceivedKeepsInv | agent/internal/capability/process.go:310-339 | what is done with the frame of a request keeps every pairing |
| AdapterProtocol.ClosedIsForGood | agent/internal/capability/process.go:275-283 | once closed, every later exchange writes nothing, takes no id and is unavailable |
| AdapterProtocol.RequestIdsAreUnique | agent/internal/capability/process.go:284-287 | no two requests written in fewer than 2^64 calls share an id |
| AdapterProtocol.SuccessfulExchange | agent/internal/capability/process.go:275-340 | what a success proves: alive before and after, one request written, one frame taken, judged under the call's own id |
| AdapterProtocol.HonestChildNeverFails | agent/internal/capability/process.go:275-410 | a child that answers each written request by one fair frame (an answer of at most 4096 safe bytes under its id, or a refusal with one of the eight known codes) is never discarded, and the k-th written request gets the k-th response, though oversized requests use up ids |
| AdapterProtocol.HonestStep | agent/internal/capability/process.go:275-340 | one such request: its response is delivered and the child alive, or it was too large with the stream untouched |
| AdapterProtocol.FrameDecides | agent/internal/capability/process.go:310-339 | a frame leaves the adapter alive if and only if it is fair, and then its response is the outcome |
| AdapterProtocol.JudgeIff | agent/internal/capability/process.go:318-339 | exactly the fair responses keep the child |
| AdapterProtocol.CodeTable | agent/internal/capability/process.go:412-427 | the error of each of the eight codes; every other code is malformed |
| AdapterProtocol.EnvelopeIff | agent/internal/capability/process.go:382-410 | the fields of exactly the envelopes accepted as answers and as refusals |
| AdapterProtocol.CodeIsRead | agent/internal/capability/process.go:402-406 | an error object is read if it holds a non-empty code and nothing else |
| AdapterProtocol.WireIff | agent/internal/capability/process.go:288-292 | a request is sent if and only if it is encoded in at most 65535 bytes |
| AdapterProtocol.DuplicateFailsNextCall | agent/internal/capability/process.go:310-322 | a duplicate response leaves its own call alone and discards the child at the next call |
| AdapterProtocol.RejectsOtherId | agent/internal/capability/process.go:382-410 | a frame accepted under one id is malformed and fatal under every other |
| ProcessAdapter.ProcessAdapter.ExchangeCall | agent/internal/capability/process.go:275-340 | the call does what the protocol model says under the fate that befell it (a failed write, or the arm of the select taken) and returns the outcome recorded there; the request reaches the child whole, or not at all when refused; a fair frame keeps the adapter alive and is the outcome, any other frame closes it |
| ProcessAdapter.ProcessAdapter.Await | agent/internal/capability/process.go:298-340 | the three-way wait of a call that has sent its request |
| ProcessAdapter.ProcessAdapter.ReceiveFrame | agent/internal/capability/process.go:310-339 | the arm that received: one frame off the stream, judged and recorded |
| ProcessAdapter.ProcessAdapter.JudgeFrame | agent/internal/capability/process.go:318-339 | the checks of a frame in their order give the verdict of the protocol model |
| ProcessAdapter.ProcessAdapter.Close | agent/internal/capability/process.go:446-474 | closed afterwards; a second close changes nothing |
| ProcessAdapter.ListOne | agent/internal/capability/process.go:149-173 | the exact outcome of listing, every error told apart; success: exactly one valid, bounded descriptor, by one exchange; failure: closed |
| ProcessAdapter.DescribeOne | agent/internal/capability/process.go:174-183 | the exact outcome of describing; success: one more exchange returned the same descriptor; failure: closed |
| ProcessAdapter.NewProcessAdapter | agent/internal/capability/process.go:108-186 | invalid registrations and failed starts make no adapter; otherwise it succeeds if and only if its two calls listed and described the same valid, safe descriptor of at most 1024 bytes; the error is that of the first thing wrong, and an adapter that failed is closed |
| ProcessAdapter.FirstHalfIff | agent/internal/capability/process.go:155-173 | exactly a list of one valid, safe descriptor of at most 1024 bytes passes the first half |
| ProcessAdapter.SecondHalfIff | agent/internal/capability/process.go:174-183 | exactly a safe description of the same descriptor passes the second |
| Controller.ValidActionArgs | agent/internal/capability/controller.go:195-234 | accepts if and only if all required keys are present, all keys declared and all values of their kind, in any iteration order |
| Controller.CheckCall | agent/internal/capability/controller.go:133-161 | the checks in their order refuse with the exact error of the first that fails |
| Controller.RefusedIff | agent/internal/capability/controller.go:133-161 | exactly the good calls are not refused |
| Controller.RefusalTable | agent/internal/capability/controller.go:133-161 | the error of every other call |
| Controller.DeliveryTable | agent/internal/capability/controller.go:163-174 | results of 1 to 4096 valid bytes and the five safe errors are delivered unchanged to a live caller; what others become, deadline and cancellation included |
| Controller.FindSchema | agent/internal/capability/controller.go:143-152 | finds the first schema of that name if there is one |
| Controller.FirstSchema | agent/internal/capability/controller.go:143-152 | the first match of the loop is the schema of that name |
| Controller.Controller.Invoke | agent/internal/capability/controller.go:129-175 | refused with the exact error and the Adapter untouched, or exactly one exchange whose outcome is passed on; a good call (own id, a declared action of 1 to 32 trimmed bytes, 1 to 1024 bytes of conforming arguments) is always exchanged, and a result of 1 to 4096 valid bytes delivered as it is; a success comes from the frame paired with this call |
| Controller.Controller.Observe | agent/internal/capability/controller.go:103-127 | the same for observations, which check only the capability id |
| Controller.AnswerOfSuccess | agent/internal/capability/controller.go:163-174 | a successful outcome is the answer decoded from the frame the exchange took, under its own id |
| Registration.Valid | agent/internal/capability/process.go:39-51 | accepts exactly a non-blank command and arguments within all bounds, NUL-free, their total included |
| Registration.ValidIff | agent/internal/capability/process.go:39-51 | the bounds in numbers, for a visible command |
| Registration.BlankIsInvalid | agent/internal/capability/process.go:39-42 | a blank command is invalid |
| Registration.TotalAdds | agent/internal/capability/process.go:43-50 | the total is the sum over all arguments |
| Registration.SaveRegistration | agent/internal/capability/config.go:14-47 | succeeds if and only if the registration is valid, its encoding in bounds and no operation fails; after every single file operation of the save the file is the old one or the complete new one; replaced exactly on success; the temporary file stays exactly if the save fails after its creation and cannot remove it; a saved registration loads back |
| Registration.SaveData | agent/internal/capability/config.go:27-46 | the operations themselves, each entered into the history of the directory: only this temporary file is touched before the rename, and the data is published whole or not at all |
| Registration.WriteTempFile | agent/internal/capability/config.go:36-39 | any number of partial writes fill the temporary file, or fail, leaving the registration file alone |
| Registration.LoadRegistration | agent/internal/capability/config.go:51-64 | only a valid registration is ever loaded; oversized, malformed and invalid files fail closed |
| Registration.LoadTable | agent/internal/capability/config.go:51-64 | what loads, what is absent and what is broken |
| Registration.RemoveRegistration | agent/internal/capability/config.go:66-75 | succeeds exactly when the file is absent or can be removed; gone on success, untouched on failure |
| SeedText.NewHostSeed | agent/internal/daemon/hostid.go:123-131 | stamps the six fixed bits in place and returns the rendering |
| SeedText.RenderIsUuidV4 | agent/internal/daemon/hostid.go:123-131 | for all 16 bytes the seed is a 36-character version 4 UUID (section 4.4 of RFC 4122) |
| SeedText.RenderCollides | agent/internal/daemon/hostid.go:123-131 | two inputs render equally if and only if they agree off the six fixed bits |
| SeedText.RenderDigits | agent/internal/daemon/hostid.go:123-131 | the digits are the values of the random bytes in their order, but for the six fixed bits |
| SeedText.ValidHasNoSpace | agent/internal/types/types.go:511-526 | an id of the accepted charset is its own trimming, with or without a line feed behind it |
| SeedText.ReadSeedIsId | agent/internal/daemon/hostid.go:110-120 | what is read as a seed is 8 to 64 characters, each of the charset written out |
| SeedText.IdIsRead | agent/internal/types/types.go:511-526 | and every such text is read as a seed |
| SeedText.PublishedSeedReadsBack | agent/internal/daemon/hostid.go:93-131 | the published file reads back as exactly the rendered seed |
| SeedText.TornSeedWouldBeAccepted | agent/internal/daemon/hostid.go:110-120 | every prefix of 8 or more characters would pass validation, so publication in one step is needed |
| HostSeedProtocol.SeedAgreement | agent/internal/daemon/hostid.go:40-120 | for any number of callers, interleavings, failures and crashes, from an absent, malformed or valid file: all successful calls return the same seed, the one published; of all failures only a read under the lock that fails although a valid seed is published is excluded |
| HostSeedProtocol.ValidSeedIsNeverReplaced | agent/internal/daemon/hostid.go:54-72 | a valid seed at the path stays: the same file with the same contents for the rest of every run |
| HostSeedProtocol.ReadersSeeWholeFiles | agent/internal/daemon/hostid.go:88-107 | whatever a reader, locked or not, has open is the initial file unchanged or one complete fresh seed |
| HostSeedProtocol.RunKeepsInv | agent/internal/daemon/hostid.go:40-120 | every run without such a read keeps the invariant: one process in the critical section, what may be read is settled, what each process knows holds |
| HostSeedProtocol.StepKeepsInvIff | agent/internal/daemon/hostid.go:40-73 | a step breaks the invariant if and only if it is such a spurious read |
| HostSeedProtocol.SeedIsSafeIff | agent/internal/daemon/hostid.go:54-72 | with a valid seed published, it stays in all runs after a step if and only if the step is no spurious read |
| HostSeedProtocol.WriterStepKeepsInv | agent/internal/daemon/hostid.go:59-72 | the steps of the lock holder that change files keep the invariant |
| HostSeedProtocol.LockingKeepsInv | agent/internal/daemon/hostid_lock_unix.go:15-30 | taking, releasing and losing the lock by a crash keep the invariant |
| HostSeedProtocol.SpuriousReadReplacesSeed | agent/internal/daemon/hostid.go:56-69 | after a spurious read its caller can go on to replace the published seed by its own and return that |
| HostSeedProtocol.SpuriousReadBreaksAgreement | agent/internal/daemon/hostid.go:56-69 | then two successful callers hold different seeds |
| HostSeedProtocol.AgreementIff | agent/internal/daemon/hostid.go:40-107 | all callers agree in all runs from an initial state if and only if no leftover temporary name is a second name of a malformed published file |
| HostSeedProtocol.TwinBreaksAgreement | agent/internal/daemon/hostid.go:93-120 | with such a leftover a reader takes the first characters of a seed being written for a seed, while the writer returns the whole one |
| HostSeedProtocol.PublishedSeedIsReturned | agent/internal/daemon/hostid.go:40-45 | a caller that finds a valid seed can return it without the lock |
| HostSeedProtocol.FreshSeedIsPublished | agent/internal/daemon/hostid.go:46-73 | one that finds none and the lock free can publish a fresh seed and return it |
| HostSeed.RuntimeRoot.RuntimeHostSeed | agent/internal/daemon/hostid.go:40-73 | the call is a run of the protocol ending with the lock free; whichever of its eleven operations fail, its outcome and the seed published afterwards are exactly those expected; a success is that seed, 8 to 64 characters of the charset |
| HostSeed.SuccessIsPublished | agent/internal/daemon/hostid.go:40-73 | a success is the seed published afterwards; a published seed is lost exactly by a spurious read in a call that gets the lock, generates a seed and removes the file |
| HostSeed.FaultlessSucceeds | agent/internal/daemon/hostid.go:40-73 | a call without a fault returns the seed there is, or a fresh one |
| HostSeed.LockedReadSuffices | agent/internal/daemon/hostid.go:43-58 | so does one whose unlocked read fails |
| HostSeed.RuntimeRoot.ReadHostSeed | agent/internal/daemon/hostid.go:110-120 | one open and one read: exactly the published seed, or none when either fails |
| HostSeed.RuntimeRoot.ReplaceSeed | agent/internal/daemon/hostid.go:59-72 | generation, removal and publication under the lock: the rendering of the random bytes, a failure exactly when one of the operations fails, and which seed is published then |
| HostSeed.RuntimeRoot.PublishSeedFile | agent/internal/daemon/hostid.go:93-107 | write, link, unlink as protocol steps; succeeds exactly when none fails and the name is free; the seed is published even if only the unlink fails |
| HostSeed.RuntimeRoot.WriteFile | agent/internal/daemon/hostid.go:93-97 | any number of partial writes ends with the whole seed line in the file; otherwise an error, exactly when the writing fails |
| HostSeed.RuntimeRoot.LockedCall | agent/internal/daemon/hostid.go:46-73 | the call from the lock on has the expected outcome, publishes the expected seed and gives the lock back on every path |
| TranscriptLeases.TranscriptProducerCoordinator.AcquireLease | agent/internal/daemon/live_transcript.go:30-43 | the new table, and granted exactly when the pair is free, at another epoch, or held by the caller |
| TranscriptLeases.TranscriptProducerCoordinator.ReleaseLease | agent/internal/daemon/live_transcript.go:47-57 | only the exact epoch and instance is released; otherwise the table is unchanged |
| TranscriptLeases.TranscriptProducerCoordinator.ReleaseAllOf | agent/internal/daemon/live_transcript.go:60-71 | the deleting loop, in any order, removes exactly the instance's leases |
| TranscriptLeases.KeyCollision | agent/internal/daemon/live_transcript.go:23-25 | two different hosts can share a key if and only if one ends with the other after a NUL |
| TranscriptLeases.KeyInjective | agent/internal/daemon/live_transcript.go:23-25 | with NUL-free hosts the key determines room and host |
| TranscriptLeases.RunRefines | agent/internal/daemon/live_transcript.go:23-71 | with NUL-free hosts the table behaves over every run as a map keyed by pairs |
| TranscriptLeases.LeaseEnds | agent/internal/daemon/live_transcript.go:30-71 | a lease ends if and only if its holder releases it, the holder is released everywhere, or the pair is acquired at another epoch |
| TranscriptLeases.LeaseIsExclusive | agent/internal/daemon/live_transcript.go:30-71 | after any grant, through every run without such an event, exactly the holder is granted that epoch |
| TranscriptLeases.LeaseStays | agent/internal/daemon/live_transcript.go:30-71 | through such a run the lease itself stays as it is |
| TranscriptLeases.GrantStartsLease | agent/internal/daemon/live_transcript.go:30-43 | an acquisition is granted if and only if the table then holds the lease for this instance |
| TranscriptLeases.GrantTable | agent/internal/daemon/live_transcript.go:30-43 | a well-formed acquisition at an epoch of at least 1 is granted for a free pair, another epoch, or the own lease, and nothing else is |
| TranscriptLeases.NulHostStealsLease | agent/internal/daemon/live_transcript.go:23-43 | with a colliding host another pair's lease is taken over |
| HostLog.BoundedLog.Append | agent/internal/daemon/hostlog.go:45-61 | an append under any faults, a write cut short included, does what the log model says |
| HostLog.AppendWrites | agent/internal/daemon/hostlog.go:45-61 | an append without faults adds the line and a line feed to the file, or to a new one after 1 MiB |
| HostLog.RecordText | agent/internal/daemon/hostlog.go:60 | trailing line feeds are dropped and one is written |
| HostLog.AppendIsSeen | agent/internal/daemon/hostlog.go:45-94 | the line is then the last that is seen |
| HostLog.AppendIsTailed | agent/internal/daemon/hostlog.go:45-94 | and what a tail of length one shows |
| HostLog.BoundedLog.Tail | agent/internal/daemon/hostlog.go:70-94 | the last n visible lines, of the old and then the active file, that contain the filter; 200 for n of 0 or less |
| HostLog.VisibleRetained | agent/internal/daemon/hostlog.go:70-94 | unless a record was cut short, these are the lines of the retained text |
| HostLog.SplitLogLines | agent/internal/daemon/hostlog.go:96-105 | exactly the lines that are not blank, in order |
| HostLog.OneLineIsSeen | agent/internal/daemon/hostlog.go:96-105 | a line with a graphic character is seen, one of nothing but space is not |
| HostLog.TailIsLast | agent/internal/daemon/hostlog.go:70-94 | the unfiltered tail is the last n lines, or all; the last 200 without a number |
| HostLog.FilterIff | agent/internal/daemon/hostlog.go:83-89 | a filter keeps exactly the lines it accepts |
| HostLog.LogRetention | agent/internal/daemon/hostlog.go:45-61 | after any appends with any failures the two files are a suffix of all ever written, cut between two writes, and hold at least min(total, 1 MiB) bytes of it; unless a write was cut short they are whole records |
| HostLog.LogStaysBoundedIff | agent/internal/daemon/hostlog.go:45-61 | both files stay below 1 MiB plus the longest record throughout a run if and only if no append of it overruns: writes past that bound into a full file whose rotation failed, by its size check or its rename |
| HostLog.StepStaysBoundedIff | agent/internal/daemon/hostlog.go:52-60 | the same for one append |
| HostLog.LogStaysBounded | agent/internal/daemon/hostlog.go:45-61 | in particular, if rotations succeed, each file stays below 1 MiB plus the longest record throughout |
| HostLog.FailedRotationsUnboundLog | agent/internal/daemon/hostlog.go:52-54 | such a run: while rotations fail, a full file grows by every record |
| HostLog.AppendKeepsInv | agent/internal/daemon/hostlog.go:45-61 | rotation and writing keep both files aligned to records |
| HostLog.VisibleSplits | agent/internal/daemon/hostlog.go:70-105 | the visible lines of the two files in turn are those of their concatenation |
| HostLog.LogViewsAgree | agent/internal/cli/cli.go:1047-1059 | for the same log and n, the tagged lines of the unfiltered tail (the logs command) are a suffix of the tail filtered by the tag (diagnostics) |
| HostLog.EmptyFilterKeepsAll | agent/internal/daemon/hostlog.go:83-89 | an empty filter keeps every line |
| DaemonLock.LockDaemonWithRetry | agent/internal/daemon/daemon_lock_unix.go:28-57 | an unopened lock file is an error; otherwise at most ceil(window/10 ms) + 1 attempts on the lock, no pause asked of the clock past the deadline, giving up only after it, the result that of the last attempt |
| DaemonLock.AttemptsTable | agent/internal/daemon/daemon_lock_unix.go:14-17 | 76 attempts at most in the window of 750 ms |
| DaemonLock.StartupIsSingleton | agent/internal/daemon/daemon.go:90-140 | over any set of starting, failing and crashing daemons restore, cleanup, socket removal and bind are done only by the lock holder of that moment; a daemon that binds finds the name free |
| DaemonLock.ComesUp | agent/internal/daemon/daemon.go:90-158 | a daemon that finds the lock free comes up: restore, executable, workspaces, socket removal and bind in this order |
| DaemonLock.SocketLostByLateClose | agent/internal/daemon/daemon.go:994-1010 | a step takes the socket from a serving daemon if and only if another one closes its listener after it let the lock go |
| DaemonLock.SocketStays | agent/internal/daemon/daemon.go:119-158 | in every run without such a late close the serving daemon keeps its socket |
| DaemonLock.LateCloseHappens | agent/internal/daemon/daemon.go:999-1007 | a run in which it happens |
| DaemonState.Daemon.InstallAdapter | agent/internal/daemon/daemon.go:905-919 | installs controller and process together, handing back the previous one, unless stopping |
| DaemonState.Daemon.TakeAdapter | agent/internal/daemon/daemon.go:936-941 | clears both and hands the process back |
| DaemonState.Daemon.ClearExited | agent/internal/daemon/daemon.go:975-983 | clears both exactly when that adapter is still installed and the daemon not stopping |
| DaemonState.Daemon.BeginStop | agent/internal/daemon/daemon.go:852-864 | sets the flag, clears everything, hands back the process and all residents |
| DaemonState.Daemon.Register | agent/internal/daemon/daemon.go:797-801 | enters a record whatever the flag says, and keeps every other |
| DaemonState.Daemon.Unregister | agent/internal/daemon/daemon.go:803-810 | removes the record, whether or not it is there, and keeps every other |
| DaemonState.Daemon.Take | agent/internal/daemon/daemon.go:812-818 | hands the record to whoever finds it first and removes it, and keeps every other |
| AdapterLifecycle.NoAdapterLeak | agent/internal/daemon/daemon.go:852-986 | in every reachable state the child of an adapter of the running daemon, from its start on, belongs to the installed adapter, has exited, or is owed by an operation under way, closing ones included; controller and process belong together |
| AdapterLifecycle.QuietDaemonHasOneAdapter | agent/internal/daemon/daemon.go:852-986 | once operations have ended, a child of the daemon that still runs belongs to the installed, registered and watched adapter |
| AdapterLifecycle.AdapterOutlivesDaemon | agent/internal/capability/process_group_unix.go:10-12 | a child outlives its daemon if and only if it was running when the daemon ended, in a handshake or half closed as well, and has not exited since; no later daemon installs or kills it |
| AdapterLifecycle.FailedStartupLeavesAdapter | agent/internal/daemon/daemon.go:111-131 | a startup that fails after the restore leaves running exactly the child of the installed adapter, if it has not exited |
| AdapterLifecycle.StoppedDaemonLeavesNone | agent/internal/daemon/daemon.go:852-889 | a daemon that was stopped and whose operations have ended leaves no child running, then or later |
| AdapterRuns.OutlivingHappens | agent/internal/daemon/daemon.go:161-174 | a run that restores the adapter, and crashes: its child runs on, not installed and owed by nobody |
| AdapterRuns.CrashDuringHandshake | agent/internal/capability/process.go:126-183 | a crash before the handshake is over leaves a child running for which there never was an adapter to install |
| AdapterRuns.CrashDuringClose | agent/internal/capability/process.go:446-474 | so does a crash after a close has set the flag and before it has killed the child |
| AdapterRuns.CloseIsReachable | agent/internal/daemon/daemon.go:927-944 | a run that comes to such a close |
| AdapterLifecycle.WatcherClearsOnlyItsOwn | agent/internal/daemon/daemon.go:972-986 | the watcher of a dead adapter never clears a newer one |
| AdapterLifecycle.DeadAdapterIsWatched | agent/internal/daemon/daemon.go:917-920 | an installed adapter is watched or about to be |
| AdapterLifecycle.StoppedStaysEmpty | agent/internal/daemon/daemon.go:852-864 | once stopping, controller and process stay empty in every run, until this daemon has ended |
| AdapterRuns.RegistrationCompletes | agent/internal/daemon/daemon.go:891-925 | from any reachable serving state with the mutex free, a valid registration can run to its end: installed, running, watched and on disk, the previous child gone, everything else as it was |
| AdapterRuns.RemovalCompletes | agent/internal/daemon/daemon.go:927-949 | a removal can run to its end: nothing installed, no file, the child gone |
| AdapterRuns.StopCompletes | agent/internal/daemon/daemon.go:852-889 | so can a stop |
| AdapterRuns.HandshakeDecides | agent/internal/capability/process.go:149-186 | the handshake goes on exactly without a failure and without a failed call |
| AdapterRuns.FailureAbandons | agent/internal/daemon/daemon.go:897-904 | a failure before the rename abandons the registration, file and memory untouched |
| AdapterRuns.AbandonedEnds | agent/internal/daemon/daemon.go:900-904 | an abandoned registration ends with its child gone and the mutex free |
| AdapterLifecycle.UndoIsUnreachable | agent/internal/daemon/daemon.go:905-911 | no run reaches the branch that undoes a saved registration |
| AdapterLifecycle.RegistrationIsCrashConsistent | agent/internal/daemon/daemon.go:891-949 | at every point, crashes included, the file holds nothing, a complete valid registration whose adapter had shaken hands, or still what was found at first if that does not load |
| AdapterLifecycle.InstalledIsRegistered | agent/internal/daemon/daemon.go:891-949 | whenever the lifecycle mutex is free the installed adapter is the one on disk |
| AdapterLifecycle.BootKeepsInv | agent/internal/daemon/daemon.go:161-174 | the start of a new daemon, children of earlier ones still running, keeps the invariant |
| AdapterLifecycle.RestoreKeepsInv | agent/internal/daemon/daemon.go:161-174 | so does the installation of the restored adapter |
| AdapterLifecycle.EndKeepsInv | agent/internal/capability/process_group_unix.go:10-12 | so does the end of a daemon, which leaves its children alone |
| AdapterLifecycle.RunKeepsInv | agent/internal/daemon/daemon.go:852-986 | all interleavings of register, remove, child death, failed calls, watchers, stop, crash, failed startup and restart keep the invariant |
| Residents.RecordIsTakenOnce | agent/internal/daemon/daemon.go:812-886 | leave, self-leave and stop together take each record at most once |
| Residents.ExpiredIsNeverListedAgain | agent/internal/daemon/daemon.go:715-794 | an instance that expired, or whose record was taken, is never listed again, on the join and the create path |
| Residents.RecordLeavesIff | agent/internal/daemon/daemon.go:803-886 | a listed instance leaves the registry exactly by its own expiry, its own claim, the undoing of its own join, or a stop; otherwise it keeps its record |
| Residents.NoRecordIsLost | agent/internal/daemon/daemon.go:737-886 | in every run each id ever registered is listed, expired, taken, or undone |
| Residents.LeaveTakes | agent/internal/daemon/daemon.go:812-830 | a leave takes this record and leaves all others |
| Residents.StopTakesEverybody | agent/internal/daemon/daemon.go:852-864 | a stop takes every record once, in any order |
| Residents.ExpiryRemoves | agent/internal/daemon/daemon.go:715-718 | an expiry removes its record |
| Residents.AdmissionCompletes | agent/internal/daemon/daemon.go:737-794 | an undisturbed join or create ends listed with its loop running, and nobody else touched |
| Residents.RunKeepsInv | agent/internal/daemon/daemon.go:737-886 | all interleavings of admissions and removals keep the registry invariant |
| Residents.StopLeavesRegistryEmptyIff | agent/internal/daemon/daemon.go:797-801 | after a stop the registry stays empty in all runs if and only if no admission was in flight |
| Residents.InFlightRegisters | agent/internal/daemon/daemon.go:737-801 | an admission in flight can still register |
| LiveView.JavascriptStringLength | agent/internal/cli/live_view.go:306-316 | counts UTF-16 code units |
| LiveView.SafeLiveViewText | agent/internal/cli/live_view.go:294-301 | accepts exactly text within its length and free of markup and links |
| LiveView.ValidLiveViewScalar | agent/internal/cli/live_view.go:160-175 | accepts exactly booleans, numbers and safe strings |
| LiveView.LiveViewOnlyKeys | agent/internal/cli/live_view.go:273-284 | accepts exactly when all keys are allowed, in any iteration order |
| LiveView.LiveViewPath | agent/internal/cli/live_view.go:286-292 | the path, exactly when it is a safe data key |
| LiveView.ValidateAction | agent/internal/cli/live_view.go:230-258 | accepts exactly the actions that follow their type's field table and field rules |
| LiveView.ValidateLeaf | agent/internal/cli/live_view.go:202-258 | accepts exactly the well-formed leaves |
| LiveView.ValidateComponent | agent/internal/cli/live_view.go:177-271 | the recursion with the shared counter and early exits accepts if and only if every node is well formed, depth and node count are within limits; the counter then grew by the node count |
| LiveView.InTurnIsTogether | agent/internal/cli/live_view.go:264-268 | checking siblings in turn, each counting on, is checking all against the limits of the whole |
| LiveView.ContainerAcceptable | agent/internal/cli/live_view.go:259-268 | a container is acceptable exactly when it is well formed and its children are, in turn, one level down |
| LiveView.ValidateData | agent/internal/cli/live_view.go:134-142 | at most 32 keys, each a data key with a scalar |
| LiveView.ValidateHeader | agent/internal/cli/live_view.go:111-133 | exactly the known fields, with identifiers and a positive integer revision |
| LiveView.ValidateTaskLiveView | agent/internal/cli/live_view.go:94-148 | the preflight accepts exactly the acceptable documents of at most 32 KiB |
| LiveViewExamples.TextIff | agent/internal/cli/live_view.go:203-206 | a Text component, without the tables: exactly type and safe text of 400 units |
| LiveViewExamples.ValueIff | agent/internal/cli/live_view.go:207-210 | a Value component: exactly type and a data key |
| LiveViewExamples.InputIff | agent/internal/cli/live_view.go:211-224 | an Input component: a path to safe text data, and a placeholder of 80 units if any |
| LiveViewExamples.ButtonIff | agent/internal/cli/live_view.go:225-234 | a Button component: exactly type, label and an action |
| LiveViewExamples.ContainerIff | agent/internal/cli/live_view.go:259-263 | a container: exactly type and 1 to 64 children |
| LiveViewExamples.NoOtherIsOk | agent/internal/cli/live_view.go:190-198 | no other type is well formed |
| LiveViewExamples.IncrementIff | agent/internal/cli/live_view.go:245-253 | an increment: a number key and a whole amount other than 0 within 1000 |
| LiveViewExamples.SetIff | agent/internal/cli/live_view.go:254-257 | a set: a data key and a scalar |
| LiveViewExamples.NoOtherActionIsOk | agent/internal/cli/live_view.go:234-237 | no other action type is well formed |
| LiveViewExamples.LeafIff | agent/internal/cli/live_view.go:177-199 | a leaf is acceptable to depth 8 and as the 64th component |
| LiveViewExamples.TreeIff | agent/internal/cli/live_view.go:259-268 | a container is acceptable with its children one level below |
| LiveViewExamples.LinkIsUnsafe | agent/internal/cli/live_view.go:294-301 | a link or script scheme anywhere, in any case, makes text unsafe |
| LiveViewExamples.SchemesInCapitals | agent/internal/cli/live_view.go:294-301 | the schemes in capitals are the same schemes |
| LiveViewExamples.MarkupIsUnsafe | agent/internal/cli/live_view.go:294-301 | text with an angle bracket is unsafe |
| LiveViewExamples.PlainIsSafe | agent/internal/cli/live_view.go:294-301 | text without markup and colons is safe within its length |
| LiveViewExamples.UnitsOfText | agent/internal/cli/live_view.go:306-316 | characters of the basic plane count once, others twice |
| LiveViewExamples.DataKeyIff | agent/internal/cli/live_view.go:27 | data keys, in listed characters |
| LiveViewExamples.IdentifierIff | agent/internal/cli/live_view.go:26 | identifiers, in listed characters |
| LiveViewExamples.RevisionTable | agent/internal/cli/live_view.go:124-126 | whole numbers from 1 on are revisions, fractions are not |
| LiveViewExamples.DataIff | agent/internal/cli/live_view.go:134-142 | at most 32 data keys, each a scalar |
| LiveViewExamples.CounterAccepted | agent/internal/cli/live_view.go:475-493 | the published counter example is accepted |
| LiveViewExamples.BoardAccepted | agent/internal/cli/live_view.go:494-518 | the published board example, its placeholder included, is accepted |
| LiveViewDescriptor.LiveViewOptionalFields | agent/internal/cli/live_view.go:74-89 | exactly the allowed fields minus the required ones, in order |
| LiveViewDescriptor.Minus | agent/internal/cli/live_view.go:74-89 | a field is optional if and only if allowed and not required |
| LiveViewDescriptor.DescribeTaskLiveView | agent/internal/cli/live_view.go:376-395 | the loops render one rule per type from the canonical tables |
| LiveViewDescriptor.DescriptorFidelity | agent/internal/cli/live_view.go:376-395 | a root component follows the published contract, all of its limits read from there, if and only if the checker accepts it |
| LiveViewDescriptor.NodeFidelity | agent/internal/cli/live_view.go:38-65 | for one component: all required fields present, no others than required and optional, by their rules, if and only if it is well formed |
| LiveViewDescriptor.TreeFidelity | agent/internal/cli/live_view.go:177-271 | the same for every component of a tree |
| LiveViewDescriptor.SnapshotFidelity | agent/internal/cli/live_view.go:94-148 | the published snapshot rule asks for exactly the fields around root and data that the preflight asks for |
| LiveViewDescriptor.DocumentFidelity | agent/internal/cli/live_view.go:94-148 | a whole document follows the published contract, its size and limits included, if and only if the preflight accepts it |
| LiveViewDescriptor.ComponentsInPlain | agent/internal/cli/live_view.go:376-386 | the seven published component rules, written out |
| LiveViewDescriptor.ActionsInPlain | agent/internal/cli/live_view.go:387-395 | the two published action rules, written out |
| LiveViewDescriptor.LimitsInPlain | agent/internal/cli/live_view.go:396-418 | the published limits in numbers, and the snapshot fields |
| RuntimeExecutables.NameRoundTrip | agent/internal/daemon/runtime_executable.go:132-140 | for every pid above 0 the published name parses back to the pid |
| RuntimeExecutables.NamesIdentifyProcesses | agent/internal/daemon/runtime_executable.go:69-75 | names of different processes differ |
| RuntimeExecutables.CopyGoesWithItsDaemon | agent/internal/daemon/runtime_executable.go:94-130 | a daemon's copy is removable if and only if the daemon is dead |
| RuntimeExecutables.RemovableTable | agent/internal/daemon/runtime_executable.go:107-127 | what goes and what stays, in plain names: symlinks never go, temporary leftovers do, copies of dead processes do |
| RuntimeExecutables.PidIff | agent/internal/daemon/runtime_executable.go:132-140 | a pid is read exactly from a decimal number above 0, within 64 bits |
| Text.ContainsIff | agent/internal/cli/live_view.go:294-301 | a part is contained exactly where the text splits around it |
| Text.GraphIsNotBlank | agent/internal/daemon/hostlog.go:100 | text with a graphic character is not blank |
| Text.GraphIsTrimmed | agent/internal/capability/controller.go:140 | text between graphic characters has nothing to trim |
| RuntimeExecutables.ExecutableDirectory.RemoveStaleRuntimeExecutables | agent/internal/daemon/runtime_executable.go:94-130 | a scan examines 64 different entries, or all if fewer; it removes only regular temporary leftovers and copies of dead processes, never a symlink, and succeeds if and only if it has removed all of those |

## Left out

- HTTP and MCP transport, response parsing, CLI routing and printing, prompts, credentials, doctor probes.
- Operating-system processes: starting, killing and reaping a child is an event; process groups, the child's environment and the bounded capture of its standard error are not modelled.
- JSON syntax, base64, the payload pattern, HMAC and the Runtime root identity: parameters or absent.
- `Controller.Describe` and the projection of descriptors to the Room: bounds on a cached value.
- The Runtime of a resident, its harness, media and speech: only the callbacks the daemon relies on, and that its loop starts after registration.
- A Runtime may acquire a lease again between the daemon's release and its stop; nothing is claimed of that.
- Scheduling and liveness: that a pending step is ever taken, and the timeouts of stop and close.
- The refresh of resident projections after an Adapter change, and its error.
- Copying the executable into place, and errors of opening or listing the directory before the scan.
- Which message a rejected Live View gets, and the contract's prose rules.
- Log files changed by others, and reads of the log that fail.
- ValidateTaskLiveView: numbers are reals, not doubles; what the platform makes of a revision beyond 64-bit integers is the parameter `wide`.
- LockDaemonWithRetry: each attempt's result is a free choice; contention between daemons is modelled in the startup part of the same module.
- RuntimeHostSeed: the method models a call that nobody disturbs and that finds the lock free; interleavings and crashes are proved of the same steps in HostSeedProtocol.
- LogStaysBounded: the corollary for runs whose rotations succeed; LogStaysBoundedIff is the exact condition.
- NoAdapterLeak: speaks of the running daemon's children; those of earlier daemons are the subject of AdapterOutlivesDaemon.
- StartupIsSingleton: says of the socket only that its name is free at a bind; after startup SocketLostByLateClose and SocketStays take over.
