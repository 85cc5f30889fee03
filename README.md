# x0 network substrate and command line, modelled in Dafny

This project models five C files of the x0 RISC-V simulator, the parts below the simulator core:

- **The event reactor** (`src/app-event.c`). Two growable tables share one ID counter:
  - I/O records, each paired index-for-index with its `struct pollfd`;
  - timer records.

  Unregistering only zeroes an ID. Each `app_event_poll` first swap-removes the zeroed records, clears `revents` and computes the poll timeout from the timers. It then calls `poll()`, retrying after `EINTR`. Finally it dispatches: each ready, live record and each due, live timer has its ID zeroed before its callback runs.
- **The asynchronous stream** (`src/app-stream.c`). A record with a read half and a write half. Each half is busy exactly while its callback field is set, and starting a second operation on a busy half aborts.
- **The TCP service** (`src/app-service.c`). It keeps a listening socket that is re-armed with the reactor after every accept event. It also keeps an intrusive doubly linked list of sessions with a count and a hard capacity:
  - accepting links a session at the tail;
  - closing unlinks it from anywhere in the list;
  - destroying drains the list from the tail.
- **The bind-address parser** (`src/app-net-utils.c`). It turns `[ADDRESS:]PORT` text into a `struct sockaddr_in`.
- **The command line** (`src/app-options.c`). It extracts the executable name and recognises flags. It makes a help/version pass and then an option pass in which some options consume operands. It builds a FIFO list of Lua inputs and enforces that exactly one ELF path is given.

## How the model is organised

Each file is modelled in its own form.

- **Reactor.** `Event.Reactor` is a class over `array`s, and each method is proved against a specification function.
  - `EventSpec` holds the record values, garbage collection, unregistration and the poll timeout.
  - `EventTables` holds the tables as one value and the changes a callback may make.
  - `EventPass` holds one poll as a function: `IoPass`, `TimerPass`, `PollPass`.

  The lemmas state what a pass guarantees.
- **Callbacks.** A callback is not code. It is the list of register/unregister calls it makes, given by a `behaviour` function from the firing to that list.
- **Clock.** Every `app_event_register_timer` reads `app_event_clock()` itself (`src/app-event.c:139`), so a timer registration (`EventTables.AddTimer`) carries its own clock reading. The timer pass tests expiry against the separate reading `now` taken before it (`src/app-event.c:237`).
- **Inputs.** The clock readings, the answers of `poll()`, `accept()`, `getpeername()` and the resolver, and what the create callback returns are all parameters.
- **Stream and service.** `AsyncStream.Stream` and `TcpService.Service`/`TcpService.Session` are classes whose fields the methods update. The session list is tracked by a ghost sequence `sessions`, and `Linked()` ties `first`, `last`, `prev`, `next` and the count to it.
- **Address parser.** `NetUtils.Parse` is a pure function of the text, the default address and the resolver. `NetUtils.StrToAddr` writes a `SockAddr` in place and is proved to store exactly `Stored(old, Parse(..))`.
- **Command line.** `Options.Options` holds the file's static variables and the head/tail list of Lua inputs. Its methods are proved against the pure pipeline `Defaults` → `Terminating` (first pass) → `Scan` (second pass) → ELF check, which is `Options.Run`. Where the source prints a message and exits, the model ends with an `Outcome`.
- **`strtol`.** `CLib.Strtol` models leading white space, an optional sign, bases 10 and 0 (`0x` hexadecimal, leading `0` octal), saturation at the `long` limits, and the end position.

### Points where the code is followed as written

- **Stream user data.** `app_stream_read` and `app_stream_write` store `NULL` as the operation's user data, whatever the caller passes (`src/app-stream.c:95`, `:117`). The model stores `null`.
- **Write events.** `app_stream_write` registers `APP_EVENT_IN`, not `APP_EVENT_OUT` (`src/app-stream.c:118`). `AsyncStream.WriteWaitsForInput` shows that a writable-only descriptor never wakes such a write.
- **Stream timeout.** The timeout ternaries in `app_stream_read`/`app_stream_write` have no false branch (`src/app-stream.c:97-98`, `:119-120`). The model reads a missing timeout as "no timer, timeout ID 0".
- **Stream destroy.** `app_stream_destroy` only frees the record (`src/app-stream.c:75-77`); its header promises only that descriptors stay open (`src/app-stream.h:68`). Interests still registered keep the freed stream as user data, and `AsyncStream.Stream.Destroy` leaves the reactor as it is.
- **Timer dispatch count.** The timer dispatch loop re-reads the timer count on every turn (`src/app-event.c:239`). A timer registered by a timer callback is therefore examined in the same pass, and fires when its expiry is not after `now`.
  - `EventPass.TimerChainNeverEnds`: while the clock still reads `now`, a timer callback that registers a zero-period timer keeps the pass going, with no bound on its callbacks.
  - `EventPass.TimerChainEnds`: once registrations read a later clock (with `CLOCK_MONOTONIC_COARSE`, after the next tick), the pass ends within one callback per timer present.
  - The model bounds the number of timer callbacks with `fuel`.
- **`get_flag`.** It compares `arg[1] > ' '` on a signed `char`, so a byte of 0x80 or above is not a flag letter.

## Model

| member | source | states |
|---|---|---|
| Common.ToInt | src/app-net-utils.c:61 | `(int)` of a `long` is reduction modulo 2^32 into the `int` range, and the identity on values already in range |
| CLib.Strtol | src/app-net-utils.c:61 | `strtol`'s value stays within `long` and its end position within the text |
| CLib.DecimalRoundTrip | src/app-net-utils.c:61 | `strtol`, in base 10 or base 0, reads back exactly the number whose decimal spelling it is given, consuming all of it |
| EventSpec.SwapRemoveSurvivors | src/app-event.c:109-119 | the swap-remove loop keeps exactly the positions whose ID is non-zero, each once |
| EventSpec.SwapRemove | src/app-event.c:109-119 | the swap-remove loop on positions: a position whose ID is 0 is overwritten by the last one and the count drops, otherwise the index advances |
| EventSpec.GcOrder | src/app-event.c:109-119 | the original positions of the records that survive collection, in their new storage order |
| EventSpec.GcOrderSurvivors | src/app-event.c:109-119 | after collection every kept record has a non-zero ID, no position is kept twice, and every live position is kept |
| EventSpec.LiveIndicesSpec | src/app-event.c:109-119 | the reference list of live positions holds exactly the positions with a non-zero ID, without repeats |
| EventSpec.GcKeepsLiveRecords | src/app-event.c:109-119 | the records collection keeps are a permutation (equal multiset) of the live records in storage order |
| EventSpec.SelectPermutation | src/app-event.c:156-165 | picking the same positions in another order picks the same multiset of records |
| EventSpec.ZeroFirst | src/app-event.c:98-106 | unregistering an I/O ID zeroes the first record carrying it and leaves every other record as it was |
| EventSpec.ZeroFirstAt | src/app-event.c:100-104 | the loop that stops at the first match computes ZeroFirst |
| EventSpec.UnknownIdIsNoOp | src/app-event.c:98-106 | an ID that no record carries (or ID 0) leaves the I/O table unchanged |
| EventSpec.UnregisterIoIdempotent | src/app-event.c:98-106 | with unique IDs, unregistering twice equals unregistering once, and the ID is gone afterwards |
| EventSpec.ZeroAll | src/app-event.c:146-153 | unregistering a timer ID zeroes every timer carrying it and nothing else |
| EventSpec.UnregisterTimerIdempotent | src/app-event.c:146-153 | unregistering a timer twice equals once, and the ID is gone afterwards |
| EventSpec.PollTimeoutUnique | src/app-event.c:186-214 | the timeout rules (0 when not blocking, -1 without timers, else the least remaining time, overdue counting 0, capped at INT_MAX) determine a single value |
| EventSpec.IsPollTimeout | src/app-event.c:186-214 | the timeout passed to poll(): 0 when not blocking, -1 without timers, otherwise the least time until a timer is due (0 when overdue), capped at INT_MAX |
| EventTables.ApplyKeepsIssued | src/app-event.c:83 | each registration takes `++counter`, an ID no record holds, so non-zero IDs stay unique across both tables and bounded by the counter |
| EventTables.Apply | src/app-event.c:66-153 | one reactor call: a registration appends a record with ID `counter + 1` (a timer due `period` ms after its own clock reading, an I/O record with its pfd and `revents == 0`); an unregistration zeroes IDs as ZeroFirst/ZeroAll say |
| EventTables.ApplyKeepsBounded | src/app-event.c:136 | the next ID is in neither table, and registration keeps every ID within the counter |
| EventTables.ApplyAllKeepsIssued | src/app-event.c:83-136 | any sequence of registrations and unregistrations keeps the ID invariant |
| EventTables.ApplyAllEvolved | src/app-event.c:66-153 | what a callback can do never moves, revives or rewrites an existing record; new records are appended with fresh IDs, I/O records with `revents == 0` |
| EventTables.EvolvedTransitive | src/app-event.c:226-247 | successive callbacks compose into one allowed change |
| EventTables.GcIoKeepsIssued | src/app-event.c:109-119 | gc_io keeps the ID invariant and leaves no record with ID 0 |
| EventTables.GcIoKeepsLive | src/app-event.c:113-114 | every live record survives gc_io together with its own pfd |
| EventTables.GcIoPermutes | src/app-event.c:109-119 | the records gc_io keeps are a permutation of the live records |
| EventTables.GcTimerKeepsIssued | src/app-event.c:156-165 | gc_timers keeps the ID invariant and leaves no timer with ID 0 |
| EventTables.GcTimerKeepsLive | src/app-event.c:156-165 | every live timer survives gc_timers |
| EventTables.GcTimerPermutes | src/app-event.c:156-165 | the timers gc_timers keeps are a permutation of the live timers |
| EventTables.UnregisterOtherKind | src/app-event.c:98-153 | unregistering an I/O ID from the timer table, or a timer ID from the I/O table, changes nothing |
| EventTables.ZeroIoAt | src/app-event.c:229 | marking a record expended keeps the ID invariant and is an allowed change |
| EventTables.ZeroTimerAt | src/app-event.c:242 | marking a timer expended keeps the ID invariant and is an allowed change |
| EventTables.ClearRevents | src/app-event.c:177-179 | the reset loop sets every `revents` to 0 and changes nothing else |
| EventTables.Polled | src/app-event.c:216 | after `poll()` every pfd's `revents` is what holds on its descriptor, masked by what it asked for plus error, hang-up and invalid |
| EventTables.EvolvedKeepsExpended | src/app-event.c:226-234 | a ready record already expended stays expended whatever later callbacks do |
| EventTables.IoFiredFromEarlier | src/app-event.c:91 | a record that fires after earlier callbacks was live, unchanged and equally ready before them, because records registered meanwhile start with `revents == 0` |
| EventTables.TimerFiredFromEarlier | src/app-event.c:239-247 | a timer that fires after earlier callbacks, at a position that existed before, was live and unchanged there |
| EventPass.RunCallbackEvolved | src/app-event.c:232 | a callback's calls form an allowed change of the tables |
| EventPass.IoPass | src/app-event.c:226-234 | the I/O dispatch loop up to the record count poll() saw: a ready, live record has its ID zeroed and then its callback's calls applied; a callback's invalid call aborts the pass |
| EventPass.IoStepQuiet | src/app-event.c:226-234 | a turn at a position registered during the pass changes nothing and fires nothing |
| EventPass.IoPassEvolved | src/app-event.c:226-234 | the I/O dispatch loop changes the tables only as callbacks may |
| EventPass.IoPassFired | src/app-event.c:226-234 | every I/O callback is for a live record that poll() reported ready, made with its own callback, data and `revents`, in increasing position order, so no record fires twice, and only for records poll() saw |
| EventPass.IoPassExpends | src/app-event.c:227-229 | when the I/O pass completes, no record is both ready and live |
| EventPass.IoPassKeepsIssued | src/app-event.c:226-234 | the I/O pass keeps the ID invariant |
| EventPass.TimerPassEvolved | src/app-event.c:239-247 | the timer loop changes the tables only as callbacks may |
| EventPass.TimerPass | src/app-event.c:237-247 | the timer dispatch loop re-reading the count: a live timer whose expiry is not after `now` has its ID zeroed and then its callback's calls applied, with at most `fuel` callbacks |
| EventPass.TimerPassFired | src/app-event.c:239-247 | every timer callback is for a live timer due at `now`, in increasing position order; a timer that existed when the pass began is called with its own callback and data |
| EventPass.TimerPassFuel | src/app-event.c:239-247 | the pass makes at most `fuel` timer callbacks, and runs out only after exactly that many |
| EventPass.TimerPassExpires | src/app-event.c:240-242 | when the timer pass completes, no timer it passed is both due and live |
| EventPass.TimerChainNeverEnds | src/app-event.c:237-247 | while the clock still reads the value taken before the loop, a timer callback that registers a zero-period timer keeps the loop going: with a due live timer ahead, no fuel suffices for the pass to complete |
| EventPass.TimerChainEnds | src/app-event.c:237-247 | once every registration made by a timer callback falls due after that value (a later clock reading or a positive period), the pass never runs out of fuel given one callback per timer present when it starts |
| EventPass.TimerChainEndsFrom | src/app-event.c:237-247 | the induction behind TimerChainEnds: with no timer due from position `m` on, fuel for the positions before `m` suffices |
| EventPass.ApplyAllNotDue | src/app-event.c:136-139 | registrations whose clock reading plus period is after `now` leave no timer from position `m` on due at `now` |
| EventPass.IoRegisteredTimerFiresSamePoll | src/app-event.c:136-247 | a timer an I/O callback registers at clock `c` with period `p` fires in the same call when the reading before timer dispatch is at least `c + p` |
| EventPass.TimerPassKeepsIssued | src/app-event.c:239-247 | the timer pass keeps the ID invariant |
| EventPass.PollPassFired | src/app-event.c:168-248 | one poll makes I/O callbacks first, then timer callbacks (at most `fuel`). Each callback is for a record live after collection, and either reported ready with the right `revents` or due at `now`. Positions increase within each kind |
| EventPass.PollPass | src/app-event.c:168-248 | one poll after collection and the revents reset: the pfds take what poll() reports, then DispatchPass runs |
| EventPass.DispatchPass | src/app-event.c:226-247 | the I/O pass over the records poll() saw, then, unless it aborted, the timer pass |
| EventPass.PollPassOneShot | src/app-event.c:226-247 | when a poll completes, nothing ready and nothing due is still live, so nothing fires again without a new registration |
| EventPass.PollPassKeepsIssued | src/app-event.c:168-248 | a whole poll keeps IDs bounded and unique across both tables |
| Event.FirstAnswer | src/app-event.c:182-217 | the retry loop ends at the first `poll()` answer that is not an interruption |
| Event.Grow | src/app-event.c:76-78 | reallocation to twice the capacity keeps every existing element |
| Event.CollectIo | src/app-event.c:109-119 | the in-place swap-remove loop over records and pfds leaves exactly `Select(records, GcOrder(ids))` and the matching pfds |
| Event.CollectTimers | src/app-event.c:156-165 | the in-place loop over timers leaves exactly `Select(timers, GcOrder(ids))` |
| Event.Reactor.Init | src/app-event.c:266-280 | empty tables with capacity 16 each, counter 0 |
| Event.Reactor.ReserveIo | src/app-event.c:75-79 | a full I/O table doubles both arrays and keeps the contents |
| Event.Reactor.RegisterIo | src/app-event.c:66-95 | returns `counter + 1` and appends exactly one record and one pfd with `revents == 0`, doubling the capacity when full |
| Event.Reactor.UnregisterIo | src/app-event.c:98-106 | the tables become `ZeroFirst` of the old ones |
| Event.Reactor.RegisterTimer | src/app-event.c:122-143 | returns `counter + 1` and appends one timer due `period` ms after its own clock reading `now`, doubling the capacity when full |
| Event.Reactor.UnregisterTimer | src/app-event.c:146-153 | the tables become `ZeroAll` of the old ones |
| Event.Reactor.GcIo | src/app-event.c:109-119 | the tables become `GcIoTables` of the old ones |
| Event.Reactor.GcTimers | src/app-event.c:156-165 | the tables become `GcTimerTables` of the old ones |
| Event.Reactor.ResetRevents | src/app-event.c:177-179 | the pfds become `ClearRevents` of the old ones |
| Event.Reactor.Collect | src/app-event.c:173-179 | the tables become the collected tables with every `revents` cleared |
| Event.Reactor.KernelPoll | src/app-event.c:216 | every pfd's `revents` becomes `Polled` of the old pfds: what holds on its descriptor as far as it asked, plus error conditions; nothing else changes |
| Event.Reactor.ComputeTimeout | src/app-event.c:186-214 | the timeout computed by the loop satisfies `IsPollTimeout`, the single value PollTimeoutUnique names |
| Event.Reactor.DispatchIo | src/app-event.c:226-234 | the dispatch loop, re-reading the count, computes `IoPass` over the records poll() saw |
| Event.Reactor.DispatchTimers | src/app-event.c:237-247 | the timer loop computes `TimerPass` against the reading `now` taken before it, each registration by a callback carrying its own clock reading |
| Event.Reactor.Dispatch | src/app-event.c:216-247 | after poll() the reactor ends as `DispatchPass` of the polled tables says, with the callbacks it made |
| Event.Reactor.AwaitEvents | src/app-event.c:182-217 | each round's timeout is the poll timeout for its own clock reading, up to the first answer that is not an interruption |
| Event.Reactor.Poll | src/app-event.c:168-248 | each attempt's timeout is computed from its own clock reading; a failed `poll()` aborts with no callback; otherwise the reactor ends as `PollPass` says, with `now` the reading before timer dispatch and each registration by a callback carrying its own reading. The properties of `PollPass` are the EventPass lemmas above |
| AsyncStream.StartOnlyWhenIdle | src/app-stream.c:87-89 | a start succeeds exactly on an idle half with a descriptor and leaves it busy, so a second start before completion aborts |
| AsyncStream.StartedIdsNameRegistrations | src/app-stream.c:96-98 | the IDs a start stores name exactly the I/O record and the timer it registered, neither of them in use before |
| AsyncStream.Start | src/app-stream.c:80-121 | the half after a read or write start: aborts on a busy half or a negative descriptor; otherwise stores buffer, size and callback with user data NULL and the IDs `counter + 1` and, with a timeout, `counter + 2` |
| AsyncStream.WriteWaitsForInput | src/app-stream.c:118 | a write registered for `APP_EVENT_IN` is not woken by a writable-only descriptor |
| AsyncStream.Stream.Create | src/app-stream.c:47-72 | both halves idle: no callback, no buffer, 0 bytes, IDs 0 |
| AsyncStream.Stream.Read | src/app-stream.c:80-99 | on an idle read half, stores the operation with user data NULL and registers `APP_EVENT_IN` on the read descriptor (and a timer when a timeout is given); otherwise aborts with nothing changed; the write half is untouched |
| AsyncStream.Stream.Write | src/app-stream.c:102-121 | the same on the write half, registering `APP_EVENT_IN` on the write descriptor; the read half is untouched |
| AsyncStream.Stream.Destroy | src/app-stream.c:75-77 | the reactor is left as it is: pending registrations are not cancelled |
| TcpService.CleanupOrder | src/app-service.c:76-95 | cleanup releases the session object, then the stream, then the socket, each exactly once |
| TcpService.CleanupCalls | src/app-service.c:71-100 | the calls cleanup_session makes: destroy callback for a session object, then stream destroy, then socket close, each only when present |
| TcpService.DrainCalls | src/app-service.c:278-280 | the calls app_service_destroy makes for its sessions: each session's cleanup, starting from the tail |
| TcpService.Classify | src/app-service.c:107-124 | the branch accept_callback takes: not readable, accept failed, at capacity, declined by the create callback, or admitted, checked in that order |
| TcpService.PeerName | src/app-service.c:134-142 | the client address and port a session records: the peer's name, or "?" and 0 when getpeername fails |
| TcpService.DrainSplit | src/app-service.c:278-280 | draining a list is draining its back part, then its front part |
| TcpService.DrainReleasesAll | src/app-service.c:278-280 | draining releases every session, each after all sessions behind it and before all sessions ahead of it |
| TcpService.PairwiseDistinct | src/app-service.c:34-40 | a list whose positions hold pairwise different records has no repeats |
| TcpService.NoRepeatsWithout | src/app-service.c:193-205 | unlinking keeps the list free of repeats and removes the record |
| TcpService.UnlinkKeepsLinks | src/app-service.c:195-205 | bypassing a record as close_session does leaves the remaining list doubly linked in order |
| TcpService.AppendKeepsLinks | src/app-service.c:149-157 | linking at the tail as accept_callback does keeps the list doubly linked |
| TcpService.HoldingWithout | src/app-service.c:186-208 | removing a record keeps every other record holding its resources |
| TcpService.Session.Alloc | src/app-service.c:128-145 | a new record has the accepted socket, a fresh idle stream on it, the peer's name and the created object |
| TcpService.Service.New | src/app-service.c:249-266 | no sessions, count 0, and an `APP_EVENT_IN` interest registered on the listening socket |
| TcpService.Service.ScheduleAccept | src/app-service.c:177-183 | only with `listen_id == 0`; registers a new interest and stores its ID |
| TcpService.Service.Accept | src/app-service.c:103-174 | the list invariant holds afterwards. A session is admitted at the tail only below capacity, with the peer's name or "?"/0 and a fresh stream idle on the accepted socket in both directions. A connection over capacity is closed. A declined one is cleaned up: the fresh stream of its own record is destroyed and the accepted socket closed. Both leave the list unchanged. The count goes up by one exactly when a session is admitted and never passes `max_connections`. The listen interest is re-armed in every branch |
| TcpService.Service.Welcome | src/app-service.c:125-164 | the branch below capacity with `ctx.service` set: the list invariant holds afterwards; an object from the create callback admits the session at the tail with a fresh stream idle on the accepted socket; NULL destroys the new record's own fresh stream, closes the socket and leaves the list unchanged |
| TcpService.Service.Link | src/app-service.c:148-164 | the record becomes the tail with `prev` the old tail and `next` NULL, `first` is set on an empty list, and the count increments |
| TcpService.Service.Cleanup | src/app-service.c:71-100 | releases the object, stream and socket in that order and clears the fields and `ctx.service` |
| TcpService.Service.CloseSession | src/app-service.c:186-209 | removes exactly that record, the others keeping their order and resources, decrements the count, then cleans it up |
| TcpService.Service.Unlink | src/app-service.c:193-205 | the neighbours, `first` and `last` are rewired so the list without the record is doubly linked, and the count decrements |
| TcpService.Service.Destroy | src/app-service.c:272-297 | closes every session from the tail (the calls are `DrainCalls` of the old records), then unregisters the listen ID and closes the listening socket |
| TcpService.Service.Drain | src/app-service.c:278-280 | the loop empties the list and makes exactly the drain calls |
| TcpService.Service.DeclineAsWritten | src/app-service.c:125-167 | as written, a declined connection reaches cleanup_session's check with `ctx.service` never stored, and aborts unless the leftover value is this service |
| TcpService.Service.AdmitAsWritten | src/app-service.c:125-164 | as written, an admitted session's `ctx.service` holds the leftover value, and the service invariant no longer holds |
| NetUtils.Resolve | src/app-net-utils.c:70-77 | inet_pton first, and only when it fails gethostbyname |
| NetUtils.Truncated | src/app-net-utils.c:39-40 | the copy is a prefix of the input of at most 255 characters, equal to the input when it fits |
| NetUtils.LastIndexOf | src/app-net-utils.c:43 | strrchr finds the last ':' (none after it) or reports that there is none |
| NetUtils.SplitAddress | src/app-net-utils.c:43-57 | with a ':' the copy is address + ':' + port; without one the whole copy is the port and the default address is used; with neither, nothing to parse |
| NetUtils.Port | src/app-net-utils.c:61-65 | a port is accepted only when strtol consumes the whole text and its value lies in 1..65535 |
| NetUtils.PortAsWritten | src/app-net-utils.c:61-65 | the port check as written: strtol's value narrowed to `int`, then checked against 1..65535 with the whole text consumed; an accepted port lies in 1..65535 |
| NetUtils.PortOfDecimal | src/app-net-utils.c:61-65 | every decimal spelling of a port in 1..65535 is accepted and read back exactly |
| NetUtils.EmptyPortRejected | src/app-net-utils.c:61-65 | "host:" gives port 0 and is rejected |
| NetUtils.SplitsAtLastColon | src/app-net-utils.c:43-48 | the split is at the last ':', so "a:b:80" has address "a:b" |
| NetUtils.DefaultAddressUsed | src/app-net-utils.c:49-57 | without ':' the default address is used, and without a default the call fails |
| NetUtils.ParseRoundTrip | src/app-net-utils.c:30-86 | "ADDRESS:PORT" built from a resolvable address and a valid port parses back to that port and address |
| NetUtils.ParseWith | src/app-net-utils.c:30-86 | the result of app_net_utils_str_to_addr on the first 255 characters, with the source's port check or the intended one; an accepted port lies in 1..65535 |
| NetUtils.Parse | src/app-net-utils.c:30-86 | the parse with the intended port check; an accepted port lies in 1..65535 |
| NetUtils.Stored | src/app-net-utils.c:80-85 | on success the structure holds AF_INET, the port in network order and the address; on failure it keeps its old contents |
| NetUtils.UnresolvableRejected | src/app-net-utils.c:70-77 | an address neither resolver knows is rejected |
| NetUtils.OnlyCopyIsRead | src/app-net-utils.c:39-40 | characters after the first 255 never change the result |
| NetUtils.NtohsHtons | src/app-net-utils.c:82 | the network-order port reads back through ntohs, and distinct ports are stored differently |
| NetUtils.StoredPortReadsBack | src/app-net-utils.c:80-83 | a stored address gives back the parsed port |
| NetUtils.StrToAddr | src/app-net-utils.c:30-86 | with the intended port check: succeeds exactly when the parse does; on success the structure holds AF_INET, the network-order port and the address; on failure it is not written |
| NetUtils.PortWrapsAsWritten | src/app-net-utils.c:61-63 | as written, a valid port plus any multiple of 2^32 passes the check as that port |
| NetUtils.WrappedPortAcceptedAsWritten | src/app-net-utils.c:61-63 | as written, "ADDRESS:PORT+k·2^32" binds PORT, while the intended check rejects it |
| NetUtils.PortTruncationExample | src/app-net-utils.c:61-63 | "127.0.0.1:4294967376" binds port 80 as written and is rejected as intended |
| Options.BaseName | src/app-options.c:157-167 | the executable name is a suffix of the path with no '/', preceded by a '/' when shorter than the path |
| Options.BaseNameUnique | src/app-options.c:157-167 | those properties determine the name |
| Options.GetExecName | src/app-options.c:157-167 | the scanning loop returns BaseName of the path |
| Options.Flag | src/app-options.c:170-178 | the flag is `arg[1]` exactly when the argument is '-', one character above ' ' as a signed char, and the terminator; NUL otherwise |
| Options.FlagExamples | src/app-options.c:170-178 | "-" and "-ab" are no flags, "--" is the flag '-', and a byte above 127 is no flag |
| Options.MemSize | src/app-options.c:201-215 | a size is accepted only when strtol (base 0) consumes the whole operand and the value is in 1..max and a multiple of 4 |
| Options.MemSizeOfDecimal | src/app-options.c:201-215 | on a decimal spelling, exactly the multiples of 4 in 1..max are accepted, with their value |
| Options.EmptySizeRejected | src/app-options.c:207-209 | an empty operand is refused |
| Options.Terminating | src/app-options.c:252-267 | the first pass ends the run exactly when some argument after argv[0] is -h, -? or -v, and ends it with help or version |
| Options.FirstTerminatingDecides | src/app-options.c:252-267 | the first such argument decides between help and version |
| Options.FirstPass | src/app-options.c:252-267 | the first loop computes Terminating |
| Options.WithOperand | src/app-options.c:274-311 | -c and -f always apply and append a chunk or file input; a refused operand gives an invalid-address reason for -g/-l/-m and an invalid-size reason for -r/-a; no option with an operand touches the executable name, priority or ELF path |
| Options.WithoutOperand | src/app-options.c:299-334 | -q/-V set the priority, -t enables testing, another flag is invalid, and a non-flag is the ELF path unless one was already taken |
| Options.ScanStep | src/app-options.c:270-335 | an option taking an operand advances two positions, any other argument one; only -q and -V change the priority |
| Options.Scan | src/app-options.c:270-335 | the second pass proceeds or stops with a bad argument other than a missing ELF path; it keeps the executable name and only appends Lua inputs |
| Options.Defaults | src/app-options.c:239-249 | the executable name is BaseName(argv[0]); INFO priority, 4 MiB ROM and RAM, testing off; the Lua inputs, machine address and ELF path untouched |
| Options.Passes | src/app-options.c:252-341 | a run that proceeds has an ELF path; a missing ELF path is reported only when none was given |
| Options.Run | src/app-options.c:230-342 | app_options_init proceeds only with an ELF path, sets the executable name, and only appends Lua inputs |
| Options.HelpOrVersionWins | src/app-options.c:252-267 | -h, -? or -v anywhere wins, even after a bad option or as an operand, before any option is applied |
| Options.MissingOperandRejected | src/app-options.c:181-187 | an option needing an operand that comes last is refused |
| Options.OperandConsumed | src/app-options.c:274-282 | the operand of -c/-f is appended as it stands and never read as a flag or ELF path |
| Options.ElfPathOnlyOnce | src/app-options.c:328-330 | a second non-flag argument is refused |
| Options.PriorityKept | src/app-options.c:299-322 | without -q or -V ahead, the priority stays as it was |
| Options.LastPriorityFlagWins | src/app-options.c:299-322 | the last -q or -V decides the priority |
| Options.DefaultGdbAddressParses | src/app-options.c:31 | the GDB default is port 3333 on the loopback address |
| Options.DefaultLuaAddressParses | src/app-options.c:32 | the Lua default is port 2323 on the loopback address |
| Options.InitialDefaults | src/app-options.c:243-249 | from zeroed statics the GDB and Lua addresses get their defaults and the machine address stays zero |
| Options.NoElfPathRefused | src/app-options.c:338-341 | a command line without an ELF path is refused |
| Options.SecondElfPathRefused | src/app-options.c:328-330 | two ELF paths are refused |
| Options.UnknownFlagRefused | src/app-options.c:324-327 | an unknown flag is refused, and -h after it still wins |
| Options.Options.Zeroed | src/app-options.c:40-50 | static storage starts zeroed with an empty Lua list |
| Options.Options.AppendLuaInput | src/app-options.c:137-154 | the new descriptor becomes the tail (and the head of an empty list); the inputs gain it at the end |
| Options.Options.Cleanup | src/app-options.c:218-227 | the list is walked from the head until empty and both ends are cleared |
| Options.Options.Init | src/app-options.c:230-342 | the statics and the outcome are exactly `Run` of the old statics |
| Options.Options.SetDefaults | src/app-options.c:239-249 | the statics become `Defaults` of the old ones |
| Options.Options.ApplyOptions | src/app-options.c:251-341 | the statics and the outcome are exactly `Passes` of the defaults |
| Options.Options.SecondPass | src/app-options.c:270-335 | the loop computes `Scan` |
| Options.Options.ApplyArg | src/app-options.c:271-334 | one iteration computes `ScanStep` |

## Left out

- **System calls.** `poll()`, `accept()`, `socket`/`bind`/`listen`/`setsockopt`, `close`, `getpeername`, `inet_ntop`, `inet_pton` and `gethostbyname` are not modelled. Their results are parameters; resolution is the `Resolver` oracle.
- **`EINTR` retries.** The retry loops around `accept()` and `close()` are not modelled; they retry the same call and have no logical effect. The one around `poll()` is modelled by `AwaitEvents`.
- **Clock.** `app_event_clock` and `CLOCK_MONOTONIC_COARSE`: each clock reading is a parameter, one per timer registration and one before timer dispatch.
- **Signed 64-bit arithmetic.** The `int64_t` arithmetic of expiries and remaining times is unbounded in the model; overflow of `now + period` is not modelled.
- **Callbacks.** Callbacks are not code. An I/O or timer callback is the register/unregister calls it makes. The service's create and destroy callbacks are an input value and a recorded call.
- **Service callbacks re-entering the service.** Service callbacks calling back into the service, e.g. closing sessions from inside a destroy callback, are not modelled.
- **Aborts.** `APP_ASSERT` is taken as compiled in, that is without `NDEBUG` (`src/app-assert.h:40-41`); under `NDEBUG` it does nothing. `APP_ASSERT` and `abort()` are preconditions where callers must respect them. Where the code itself aborts they become a failure result: a busy stream half, a callback's invalid reactor call, a `poll()` error, and cleanup_session's service check.
- **Logging.** `app_log_*` output, and the help, version and bad-argument messages, are left out. The exits become `Outcome` values.
- **Heap.** `app_heap_alloc`/`realloc`/`free` and `app_heap_strdup` are treated as total. Freeing a record is not modelled, apart from the `NULL` stores before it.
- **`atexit`.** Registering the cleanup functions with `atexit` is not modelled. The event module's `cleanup` (`src/app-event.c:251-263`) only frees memory and is not modelled.
- **`accept()`'s address length.** accept_callback passes `client_addr_len` to `accept()` without initialising it (`src/app-service.c:110`, `:115`). The result of `accept()` is a parameter, so the model is not affected by what the kernel makes of that value.
- **app_service_new's failure paths.** An invalid bind address, or a failing `socket`/`bind`/`listen`, returns NULL (`src/app-service.c:226-246`). `TcpService.Service.New` models the successful path only, taking the listening socket as a parameter.
- **Accessors.** The accessors of `src/app-options.c:53-128` and the help text are not modelled.
- **Unfinished stream callbacks.** `read_io_callback`, `read_timeout_callback`, `write_io_callback` and `write_timeout_callback` are not modelled. `src/app-stream.c` never defines them; they appear only as handler names.
- **`app_timeout_remaining_ms`.** It has no visible implementation; the remaining milliseconds are an input.
- Event.Reactor.DispatchTimers: the model bounds the timer callbacks of one pass by `fuel`. While the clock still reads the value taken before the loop, a timer callback that re-registers a zero-period timer needs more than any bound (`EventPass.TimerChainNeverEnds`). Once the clock ticks, the pass ends within one callback per timer (`EventPass.TimerChainEnds`).
- Event.Reactor.Poll: the clock readings are inputs that the model does not force to be nondecreasing. In C, readings taken by I/O callbacks are at most `now`, and readings taken by timer callbacks are at least `now`. The lemmas that need this order state it as a precondition (`EventPass.TimerChainNeverEnds`, `EventPass.TimerChainEnds`).
- Event.Reactor.Poll: an input where every `poll()` attempt is interrupted ends with `OutOfFuel`; the C loop would keep retrying.
- **Event.Reactor.RegisterIo.** IDs are unbounded naturals; the C counter (`app_event_id_t`, a `uint64_t`, `src/app-event.h:40`) wraps around only after 2^64 registrations, which is not modelled.
- NetUtils.StrToAddr: it uses the intended port check `NetUtils.Port`, and so do `Options.Defaults`, `Options.WithOperand`, `Options.Run` and `Options.Options.Init` through it. On a port text that wraps into 1..65535 modulo 2^32, such as `-g 127.0.0.1:4294967376`, the source binds the wrapped port (`src/app-net-utils.c:61-63`) while the model refuses the text. The behaviour as written is `NetUtils.ParseWith` with `asWritten` set (see Findings).
- **CLib.Strtol.** Only bases 10 and 0 are modelled, those the source uses; `errno` is not set.
- **AsyncStream.Stream.Read.** The timeout argument is an `Option` of the remaining milliseconds. The source's missing false branch is read as "no timer", since that code does not compile as written.
- **`Options.Options` statics.** The head/tail list of Lua inputs is tracked with a ghost sequence of nodes. Nodes let go by `Cleanup` are not freed, since memory is not modelled.

## Findings

| source | as written | input that shows it | evidently intended | confidence | as-written member | corrected member |
|---|---|---|---|---|---|---|
| src/app-net-utils.c:61-63 | `int port = strtol(...)` stores the `long` result in an `int` before the range check, so a value that wraps into 1..65535 passes | `-g 127.0.0.1:4294967376` (2^32 + 80) binds port 80 | reject any port text whose value is outside 1..65535 | not executed; follows from the conversion rules of GCC on x86-64 | NetUtils.PortTruncationExample | NetUtils.Port |
| src/app-service.c:125-145 | accept_callback never stores `ctx.service` in the new record, yet cleanup_session asserts it equals the service (line 74) and app_service_close_session reads it (line 189) | with `APP_ASSERT` compiled in (no `NDEBUG`, `src/app-assert.h:40-41`): a connection accepted below capacity whose create callback returns NULL makes cleanup_session compare uninitialised heap memory with the service and abort. In every build: closing an admitted session with app_service_close_session takes the service from the never-stored `ctx->service` (line 189) and decrements the session count through it (line 193) | `session_internal->ctx.service = service;` before the create callback | not executed; what happens depends on what the allocator leaves in the word | TcpService.Service.DeclineAsWritten | TcpService.Service.Welcome |
