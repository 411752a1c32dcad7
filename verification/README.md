# Verified models of Quantra

Quantra is a Linux init system with its boot ramdisk and login manager, written in
Rust. This project models the parts of it where correctness is hard to see from the
code, and proves for every input, run or reachable state what those parts promise.
One module per component:

| module | component |
|---|---|
| `Waves` | service dependency graph and start-up waves (`quantra/src/services/dependency.rs`) |
| `Seccomp` | syscall lists compiled to classic BPF (`quantra/src/process.rs`) |
| `IpFilter` | CIDR ranges and the nftables rule list (`quantra/src/process.rs`) |
| `CommandLine` | the shell-free command tokenizer (`quantra/src/process.rs`) |
| `Reaper` | the SIGCHLD self-pipe protocol of PID 1 (`quantra/src/signals.rs`) |
| `Sha256`, `Sha256Constants`, `Hex`, `MeasuredBoot` | the hash, its text form and the PCR 8 log (`quantra-ramfs/src/measured_boot.rs`, `verity.rs`) |
| `Tpm2` | TPM 2.0 commands, responses, sealed blob and the unseal run (`quantra-ramfs/src/tpm2.rs`) |
| `Dhcp` | DHCP packets and handshake of network boot (`quantra-ramfs/src/network_boot.rs`) |
| `LogindTables`, `LogindEffects`, `LogindManagers` | session, seat and user tables and the dispatcher over them (`quantra-logind/src`) |
| `LogindPool`, `LogindOverlap`, `LogindOpening`, `LogindClosing`, `LogindActivations` | the same requests when their locked calls overlap (`quantra-logind/src/control.rs`) |
| `IdleAction` | the idle-action timer (`quantra-logind/src/power.rs`) |
| `Journal`, `JournalReader` | journal lines, their reader and the query by unit (`quantra/src/journald.rs`) |
| `Coredump` | dump metadata, names and retention (`quantra/src/coredump.rs`) |
| `Calendar` | the log time stamp (`quantra/src/logging.rs`) |
| `RestartLimit` | the crash-loop breaker (`quantra/src/services/supervisor.rs`) |
| `Bytes`, `Text`, `Sequences`, `Optional` | shared primitives |

Code that updates state in place is a class or a method with loops, proved against a
specification that does not mention the algorithm; protocols are transition systems;
each text or wire format has an independent reader. `dafny verify dfyconfig.toml`
verifies the whole project.

## Findings

Where a promise of the source turns out not to hold for all inputs, the code is
modelled as it is and the exact condition is proved.

- Circular dependencies: the error text speaks of services that form a cycle; the
  list also holds everything downstream of one (`Waves.DownstreamIsReported`). It is
  true of the whole list if and only if only services on a cycle wait for services on
  a cycle (`Waves.ReportIsCyclesExactly`).
- Allowlists: a syscall number outside 32 bits is wrapped, not refused as in the
  denylist. The filter allows exactly the listed numbers if and only if every such
  entry wraps to a listed number (`Seccomp.AllowlistExactWhen`, `Seccomp.NegativeEntryOpens`).
- Long lists: the program length is stored in 16 bits. A cut program is never
  accepted, so the filter is installed exactly when it has at most 4096 instructions
  (`Seccomp.AcceptedExactly`).
- Reaper: the pipe is made without O_NONBLOCK and the signal is masked nowhere. While
  the pipe is full, a handler that interrupts the reaper thread waits for itself
  (`Reaper.ReaperDeadlocks`); so does, through the reaper, a handler that interrupts a
  thread holding a lock the drain loop takes, such as the exit-code map's in
  `get_exit_code` or the logger's (`Reaper.HolderDeadlocks`). Every child is always
  collected and recorded if and only if the pipe does not block or the signal is masked
  on both (`Reaper.DrainsExactly`).
- Other waiters: the accept loop of socket activation waits for any child. Every exit is
  recorded if and only if no other waiter took one (`Reaper.AllRecordedExactly`).
- CIDR prefixes: the comment in quantra/Cargo.toml says overflow checks are on by
  default; the release profile does not set them, so there a prefix above 32 is taken
  modulo 32 and 10.0.0.0/40 becomes 10.0.0.0/8 (`IpFilter.LongPrefixWraps`,
  `IpFilter.SlashForty`); with checks it aborts. Both builds are modelled.
- Journal: messages are escaped, units are not. For every journal, the query is exact
  if and only if no unit has a quote or a newline (`Journal.QueryLawExactly`).
- PCR selection: the mask has 32 bits, the selection 24. They agree if and only if
  the mask names no PCR from 24 on (`Tpm2.SelectionFaithful`).
- TPM handles: flush commands are sent only after a complete run; after a refused
  session, policy or unseal none is sent for the loaded object
  (`Tpm2.FlushedExactlyWhen`, `Tpm2.LoadedObjectLeaks`). A resource manager
  (/dev/tpmrm0, which the source prefers) drops the object when the device is closed;
  /dev/tpm0 does not.
- TPM2_Load response: the comment puts the handle after the parameter size; the code
  reads it before, which is where the TPM puts it. The model follows the code.
- Login: `login` failing after `open` leaves a session without a seat, and
  `TerminateUser` leaves sessions without a user record; the invariants hold anyway
  (`LogindTables.StepKeepsInv`).
- Overlapping login requests: locks are given up between calls. Any number of requests
  may overlap without harm (`LogindPool.OverlapAgrees`), but for four kinds of pairs,
  each with its exact condition. A session closed while it is opened, if and only if the
  close reads the seat before the open assigns it (`LogindOverlap.OpenCloseExactly`). A
  session activated while it is opened, by the order of calls and the state of seat0
  (`LogindOpening.OpenActivateExactly`, `LogindOpening.OpenOnSeatExactly`). A session
  closed between the two calls of its activation on a seat, unless the seat falls back
  to the session that is Active there (`LogindClosing.OnSeatCloseExactly`). Activations
  for one seat, if and only if the last call on the session table and the last on the
  seat table are for different sessions (`LogindActivations.ActivationsExactly`).
- Calendar: the comment vouches for dates before 2100; the code is exact for all
  (`Calendar.Rfc3339`).
- Command lines: an empty quoted word disappears (`CommandLine.SplitInvertsRendering`).

## Model

| member | source | states |
|---|---|---|
| `Waves.WaveSort` | quantra/src/services/dependency.rs:38-123 | For every service list, by names alone: on success each service is in exactly one wave, after the last service of every name in its `after` or `dependencies` and right after one of these; the error occurs if and only if services wait for each other in a circle, and names exactly the services on or downstream of one, in configuration order |
| `Waves.SortGraph` | quantra/src/services/dependency.rs:44-123 | The same over the graph of waits |
| `Waves.EdgesAreWaits` | quantra/src/services/dependency.rs:44-63 | A service has an edge from another if and only if a name in its `after` or `dependencies` is carried by that service and by none after it in the list |
| `Waves.ScheduleByNames` | quantra/src/services/dependency.rs:44-97 | A schedule of the graph starts every service after all the names it waits for |
| `Waves.CyclesByNames` | quantra/src/services/dependency.rs:99-117 | The graph has a cycle if and only if services wait for each other in a circle by name |
| `Waves.BlockedByNames` | quantra/src/services/dependency.rs:99-117 | A service is blocked in the graph if and only if a chain of waits by name leads to it from a circle |
| `Waves.BuildEdges` | quantra/src/services/dependency.rs:51-63 | In-degrees count the wait lists with repetitions, and adjacency is the transposed multigraph |
| `Waves.AddEdges` | quantra/src/services/dependency.rs:56-62 | Adding one service's edges changes only that service's degree and its own entries in the adjacency lists |
| `Waves.ZeroDegree` | quantra/src/services/dependency.rs:66-72 | The first queue holds each service with nothing to wait for, once |
| `Waves.Release` | quantra/src/services/dependency.rs:88-93 | Degrees drop by multiplicity, and exactly the neighbours that reach zero are appended, once each |
| `Waves.ReleaseNode` | quantra/src/services/dependency.rs:83-94 | One dequeued service keeps the account of what is still waited for and what becomes ready |
| `Waves.RunWave` | quantra/src/services/dependency.rs:80-95 | A wave takes exactly the ready services; what is queued afterwards is exactly what became ready through it |
| `Waves.NextLevel` | quantra/src/services/dependency.rs:78-97 | Each turn of the outer loop extends a correct partial schedule and starts as many new services as the wave has |
| `Waves.KahnLoop` | quantra/src/services/dependency.rs:74-97 | The loop ends with a correct partial schedule that cannot be extended, and counts what it started |
| `Waves.PositiveDegree` | quantra/src/services/dependency.rs:99-106 | The reported list is the services with a positive remaining degree, in order |
| `Waves.Finished` | quantra/src/services/dependency.rs:99-117 | When the queue is empty, a positive degree means blocked by a cycle; everything started means a full schedule and no cycle |
| `Waves.PlacedNotBlocked` | quantra/src/services/dependency.rs:74-97 | A started service neither is on a cycle nor waits for one |
| `Waves.StuckIsBlocked` | quantra/src/services/dependency.rs:99-117 | Services that all wait for each other's set are on or behind a cycle |
| `Waves.NoCycle` | quantra/src/services/dependency.rs:32-37 | A graph that has a schedule has no cycle |
| `Waves.SchedulesAgree` | quantra/src/services/dependency.rs:32-37 | The wave of every service is forced: any two schedules agree on it |
| `Waves.LongestChainUpper` | quantra/src/services/dependency.rs:32-37 | No dependency chain that ends in a service is longer than its wave number |
| `Waves.LongestChainExists` | quantra/src/services/dependency.rs:32-37 | A chain of exactly that length exists, so waves start as early as possible |
| `Waves.ReportIsCyclesExactly` | quantra/src/services/dependency.rs:99-117 | All reported services are on cycles if and only if only services on a cycle wait for services on a cycle |
| `Waves.DownstreamIsReported` | quantra/src/services/dependency.rs:99-117 | With "a waits for a" and "b waits for a", b is reported and on no cycle |
| `Seccomp.ApplyDenylist` | quantra/src/process.rs:770-813 | Empty list: nothing to do; unsupported target or a number outside 32 bits: refused; otherwise the compiled filter, cut to its 16-bit length, is what the kernel gets |
| `Seccomp.ApplyAllowlist` | quantra/src/process.rs:820-861 | Refused only on an unsupported target; otherwise the compiled allow filter, cut to its 16-bit length |
| `Seccomp.AcceptedTerminates` | quantra/src/process.rs:864-876 | A program the kernel's check takes always ends in a verdict, with no jump outside |
| `Seccomp.FilterMeaning` | quantra/src/process.rs:770-845 | Running the compiled filter on any syscall gives kill for a foreign ABI, else the hit or miss verdict by list membership |
| `Seccomp.CutFilterFails` | quantra/src/process.rs:797-802 | A filter whose length does not fit sixteen bits is never accepted in its cut form |
| `Seccomp.AcceptedExactly` | quantra/src/process.rs:770-845 | Accepted if and only if it has at most 4096 instructions, and then whole |
| `Seccomp.DenylistExact` | quantra/src/process.rs:770-797 | An accepted denylist kills exactly the listed numbers and foreign ABIs |
| `Seccomp.AllowlistMeaning` | quantra/src/process.rs:820-845 | An accepted allowlist admits the numbers whose low 32 bits are listed, gives EPERM to the rest and kills foreign ABIs |
| `Seccomp.AllowlistExactWhen` | quantra/src/process.rs:820-845 | The allowlist allows exactly the listed numbers if and only if out-of-range entries wrap to listed ones |
| `Seccomp.NegativeEntryOpens` | quantra/src/process.rs:836-839 | The list of -1 alone is not exact |
| `Seccomp.FilterNumbers` | quantra/src/process.rs:770-845 | Every instruction of a filter by its position, opcode, jumps and operand in numbers |
| `IpFilter.AndPrefix` | quantra/src/process.rs:1056-1064 | Masking with a prefix mask clears exactly the host part |
| `IpFilter.V4RangeWellFormed` | quantra/src/process.rs:1056-1068 | A parsed v4 range has a prefix mask and a base without host bits |
| `IpFilter.ContainsIsBlock` | quantra/src/process.rs:1081-1089 | Membership is exactly the 2^(32-p) addresses from the base, as an interval and as a prefix match |
| `IpFilter.ParseWellFormed` | quantra/src/process.rs:1037-1078 | Whatever text parses gives a well-formed range, with and without overflow checks |
| `IpFilter.AnyContainsAll` | quantra/src/process.rs:1039-1045 | "any" and "0.0.0.0/0" parse, and contain every IPv4 address |
| `IpFilter.DottedContains` | quantra/src/process.rs:1053-1068 | a.b.c.d/p with p at most 32, host bits included, contains exactly the addresses that share its first p bits, in either build |
| `IpFilter.OtherContainsNone` | quantra/src/process.rs:1046-1077 | "::/0" and every text with a numeric prefix whose other part is no dotted address parse, and contain no IPv4 address |
| `IpFilter.RejectedTexts` | quantra/src/process.rs:1053-1054 | A text without a slash other than "any", or with no number behind its first slash, is rejected |
| `IpFilter.Ipv4Texts` | quantra/src/process.rs:1056-1056 | Exactly four numbers below 256 in canonical decimal with three dots are addresses, and each is the printed form of its value |
| `IpFilter.LongPrefixWraps` | quantra/src/process.rs:1056-1068 | Without overflow checks a prefix above 32 gives the range of the prefix modulo 32, a multiple of 32 that of 32 |
| `IpFilter.SlashForty` | quantra/src/process.rs:1056-1068 | 10.0.0.0/40 then contains exactly the addresses of 10.0.0.0/8 |
| `IpFilter.IpTextReadsBack` | quantra/src/process.rs:1053-1056 | A printed address parses back to itself |
| `IpFilter.PrintThenParse` | quantra/src/process.rs:1462-1479 | Printing a range with 32 minus trailing zeros and parsing it returns the same range, in either build |
| `IpFilter.BuildRules` | quantra/src/process.rs:1451-1483 | The rule text for any deny and allow lists, v6 entries skipped |
| `IpFilter.RuleTexts` | quantra/src/process.rs:1462-1479 | The text of a drop and of an accept rule for a range of prefix p |
| `IpFilter.LinesDecide` | quantra/src/process.rs:1462-1479 | A block of printed rules decides the addresses of its ranges and passes the others on |
| `IpFilter.RulesDecide` | quantra/src/process.rs:1249-1261 | The printed rules, read first-match with default accept, give every IPv4 destination the verdict of the documented decision table |
| `IpFilter.MaskToPrefix` | quantra-ramfs/src/network_boot.rs:397-399 | Counting ones inverts the mask of every prefix |
| `CommandLine.SplitCommandLine` | quantra/src/process.rs:433-500 | The loop is the tokenizer function that the laws below are about |
| `CommandLine.SplitInvertsRendering` | quantra/src/process.rs:433-500 | Any words written with any mix of bare, escaped, single- and double-quoted pieces and any blanks come back as their non-empty meanings |
| `CommandLine.EveryArgvComesBack` | quantra/src/process.rs:433-500 | Every non-empty list of non-empty arguments has a rendering that splits back to it |
| `CommandLine.AcceptsExactlyRenderings` | quantra/src/process.rs:433-500 | A text avoids the unterminated and trailing-escape errors if and only if it is such a rendering |
| `CommandLine.ErrorsExactly` | quantra/src/process.rs:480-499 | Which error a text gets: an open single quote, an open double quote or escape in one, a trailing backslash, or nothing but blanks and empty words; each if and only if the text ends in that way |
| `CommandLine.BlanksSeparate` | quantra/src/process.rs:433-500 | Space, tab and newline separate plain words, and no plain character does |
| `CommandLine.SplitHasNoEmptyArgs` | quantra/src/process.rs:490-499 | A successful split has at least one argument and no empty one |
| `CommandLine.SplitConcat` | quantra/src/process.rs:433-500 | Two complete command lines joined by a blank give the two argument lists joined |
| `CommandLine.ResolveCommandArgv` | quantra/src/process.rs:409-430 | Explicit arguments win; otherwise the split command, its first word the program; errors pass through |
| `Reaper.CodeMeaning` | quantra/src/signals.rs:36-47 | The stored number is the exit code, or the negated signal; negative if and only if killed |
| `Reaper.StepKeepsInv` | quantra/src/signals.rs:106-140 | Every step of kernel, other waiters, lock holders, handlers, pipe and reaper keeps: a zombie implies a pending wake-up; exits are recorded, in hand, taken by others or zombies, once each; the map holds the latest recorded status |
| `Reaper.EveryRun` | quantra/src/signals.rs:106-140 | No lost wake-up, conservation and latest codes in every reachable state, for any pipe size and mode, number of locks and masks, coalesced signals and 256-byte reads |
| `Reaper.StepWorks` | quantra/src/signals.rs:106-140 | Every step but a new exit and a new lock holder lowers one measure |
| `Reaper.RunsEnd` | quantra/src/signals.rs:106-140 | Without new exits and lock holders a run is no longer than the work it started with |
| `Reaper.StoppedMeans` | quantra/src/signals.rs:106-140 | A run that cannot go on and is not deadlocked is idle: every child is recorded or was taken by another waiter, and a pid nobody else took has the code of its last exit |
| `Reaper.AllRecordedExactly` | quantra/src/services/socket_activation.rs:545-550 | At such a stop every exit is recorded if and only if no other waiter took a child |
| `Reaper.DeadlockIsForever` | quantra/src/signals.rs:191-197 | From a deadlock, on the reaper thread or through a lock holder, no child is ever recorded again |
| `Reaper.ReaperDeadlocks` | quantra/src/signals.rs:191-197 | With a blocking pipe of any size, a run whose handler interrupts the reaper thread deadlocks |
| `Reaper.HolderDeadlocks` | quantra/src/signals.rs:45-47 | With a blocking pipe of any size, a run whose handler interrupts a thread inside `get_exit_code` deadlocks, though no signal reaches the reaper thread |
| `Reaper.DrainsExactly` | quantra/src/signals.rs:74-156 | For every pipe size and number of locks, "a stopped run has collected and recorded every child" holds if and only if the pipe does not block, or the signal is masked on the reaper thread and on every thread that holds a lock the drain loop takes |
| `Reaper.DrainLoop` | quantra/src/signals.rs:118-138 | The loop stops at the first empty answer of waitpid; afterwards each answered pid has the code of its last answer and every other pid what it had |
| `Reaper.RecordsUnique` | quantra/src/signals.rs:118-138 | That determines the map |
| `Reaper.ReapRun` | quantra/src/signals.rs:118-138 | A run of collecting and recording takes different zombies, leaves the others, and stores the code of each |
| `Reaper.DrainIsReaps` | quantra/src/signals.rs:118-138 | From the answers to any such run the drain loop computes the map that the run leaves |
| `Sha256.Sha256` | quantra-ramfs/src/measured_boot.rs:283-355 | For every input under 2^61 bytes the result is the FIPS 180-4 digest |
| `Sha256.PadMessage` | quantra-ramfs/src/measured_boot.rs:289-295 | The padding loop produces the padding of section 5.1.1 of FIPS 180-4 |
| `Sha256.PaddingIsShortest` | quantra-ramfs/src/measured_boot.rs:289-295 | No shorter run of zeros fills the last block |
| `Sha256.PaddingInjective` | quantra-ramfs/src/measured_boot.rs:289-295 | Equal padded messages come from equal messages |
| `Sha256.FillSchedule` | quantra-ramfs/src/measured_boot.rs:298-314 | The schedule array is the recurrence of section 6.2.2 of FIPS 180-4, though terms are added in another order |
| `Sha256.CompressChunk` | quantra-ramfs/src/measured_boot.rs:316-347 | The shifting of eight variables is the compression function on the state held before |
| `Sha256.WriteWords` | quantra-ramfs/src/measured_boot.rs:349-354 | The output bytes are the eight words, most significant byte first |
| `Sha256Constants.InitialValues` | quantra-ramfs/src/measured_boot.rs:284-287 | The initial values are the first 32 fraction bits of the square roots of the first eight primes |
| `Sha256Constants.RoundConstants0` | quantra-ramfs/src/measured_boot.rs:273-273 | Round constants 0 to 7 are the first 32 fraction bits of the cube roots of primes 1 to 8 |
| `Sha256Constants.RoundConstants1` | quantra-ramfs/src/measured_boot.rs:274-274 | Round constants 8 to 15 are the first 32 fraction bits of the cube roots of primes 9 to 16 |
| `Sha256Constants.RoundConstants2` | quantra-ramfs/src/measured_boot.rs:275-275 | Round constants 16 to 23 are the first 32 fraction bits of the cube roots of primes 17 to 24 |
| `Sha256Constants.RoundConstants3` | quantra-ramfs/src/measured_boot.rs:276-276 | Round constants 24 to 31 are the first 32 fraction bits of the cube roots of primes 25 to 32 |
| `Sha256Constants.RoundConstants4` | quantra-ramfs/src/measured_boot.rs:277-277 | Round constants 32 to 39 are the first 32 fraction bits of the cube roots of primes 33 to 40 |
| `Sha256Constants.RoundConstants5` | quantra-ramfs/src/measured_boot.rs:278-278 | Round constants 40 to 47 are the first 32 fraction bits of the cube roots of primes 41 to 48 |
| `Sha256Constants.RoundConstants6` | quantra-ramfs/src/measured_boot.rs:279-279 | Round constants 48 to 55 are the first 32 fraction bits of the cube roots of primes 49 to 56 |
| `Sha256Constants.RoundConstants7` | quantra-ramfs/src/measured_boot.rs:280-280 | Round constants 56 to 63 are the first 32 fraction bits of the cube roots of primes 57 to 64 |
| `Sha256Constants.Operations` | quantra-ramfs/src/measured_boot.rs:298-347 | Bit operations, rotation, shift and addition modulo 2^32 on literal words |
| `Sha256Constants.FirstRound` | quantra-ramfs/src/measured_boot.rs:316-347 | The first step on the block "abc" gives the published state |
| `Bytes.Be32Bytes` | quantra-ramfs/src/tpm2.rs:216-240 | A 32-bit number is written as four bytes, the most significant first |
| `Bytes.Be16Bytes` | quantra-ramfs/src/tpm2.rs:216-240 | A 16-bit number is written as two bytes, the most significant first |
| `Bytes.Read32Bytes` | quantra-ramfs/src/tpm2.rs:172-212 | Four bytes are read with the first as the most significant |
| `Bytes.Read16Bytes` | quantra-ramfs/src/tpm2.rs:393-413 | Two bytes are read with the first as the most significant |
| `Hex.EncodeHex` | quantra-ramfs/src/verity.rs:469-477 | Two lower-case digits per byte, by position |
| `Hex.DecodeRootHash` | quantra-ramfs/src/verity.rs:443-467 | Succeeds if and only if there are 64 hex digits of either case, with the 32 bytes whose text it is; otherwise the length or the first bad character |
| `Hex.RoundTrip` | quantra-ramfs/src/verity.rs:443-477 | Encoding and decoding any 32-byte hash returns it |
| `Hex.HexDetermines` | quantra-ramfs/src/measured_boot.rs:357-365 | One text is the hex of one byte string only |
| `Hex.DigitTexts` | quantra-ramfs/src/verity.rs:460-477 | The sixteen digits written, and the digits of both cases read, as literal texts |
| `MeasuredBoot.KindShows` | quantra-ramfs/src/measured_boot.rs:74-137 | The four kinds of measurement differ at the ninth character |
| `MeasuredBoot.MeasurementTexts` | quantra-ramfs/src/measured_boot.rs:74-137 | The whole text of each measurement; "zainium-overlay:enabled" goes with an enabled overlay and "zainium-overlay:disabled" with a disabled one |
| `MeasuredBoot.MeasurementInjective` | quantra-ramfs/src/measured_boot.rs:74-137 | Equal measurement strings come from equal events, or from two file contents with one digest |
| `MeasuredBoot.LastStep` | quantra-ramfs/src/measured_boot.rs:148-150 | Equal registers after one extend mean equal registers before and equal events, or a collision among the values just hashed |
| `MeasuredBoot.LastPreimage` | quantra-ramfs/src/measured_boot.rs:8-16 | A non-empty log that ends at zero hashed a preimage of zero |
| `MeasuredBoot.PcrBindsLog` | quantra-ramfs/src/measured_boot.rs:8-16 | Two boots with equal final PCR have equal logs, or a collision or zero preimage is among the very values they hashed |
| `MeasuredBoot.BootRecorder.constructor` | quantra-ramfs/src/measured_boot.rs:8-16 | The register starts at zero with an empty log |
| `MeasuredBoot.BootRecorder.ExtendPcr` | quantra-ramfs/src/measured_boot.rs:148-186 | The register becomes SHA-256 of itself followed by the digest of the data exactly when the TPM performs the extend, and stays the replay of the log; success is reported only if the answer comes through |
| `MeasuredBoot.BootRecorder.MeasurePhase` | quantra-ramfs/src/measured_boot.rs:74-80 | Records the phase with its number and name |
| `MeasuredBoot.BootRecorder.MeasureCmdline` | quantra-ramfs/src/measured_boot.rs:86-99 | Records the command line, unless it cannot be read |
| `MeasuredBoot.BootRecorder.MeasureInitBinary` | quantra-ramfs/src/measured_boot.rs:105-125 | Records the init binary, unless it cannot be read |
| `MeasuredBoot.BootRecorder.MeasureOverlayMode` | quantra-ramfs/src/measured_boot.rs:128-137 | Records whether the overlay is enabled |
| `Tpm2.CommandReadsBack` | quantra-ramfs/src/tpm2.rs:216-372 | Every well-formed command decodes to itself under a reader that demands size field = byte count and no left-over bytes |
| `Tpm2.BodyReadsBack` | quantra-ramfs/src/tpm2.rs:216-372 | Handles, authorization area and length-prefixed parameters of each command decode back |
| `Tpm2.DecodedBytes` | quantra-ramfs/src/tpm2.rs:216-336 | The size, tag, command code and first handle stand at their literal places in every command |
| `Tpm2.BuildAuthArea` | quantra-ramfs/src/tpm2.rs:340-358 | Nine bytes that read back as one authorization with empty nonce and hmac |
| `Tpm2.BuildLoad` | quantra-ramfs/src/tpm2.rs:216-240 | The bytes decode to the requested load if and only if both areas fit their 16-bit sizes |
| `Tpm2.BuildStartAuthSession` | quantra-ramfs/src/tpm2.rs:250-265 | The bytes decode to an unsalted, unbound SHA-256 policy session |
| `Tpm2.BuildPcrSelection` | quantra-ramfs/src/tpm2.rs:360-372 | One SHA-256 bank with three select bytes |
| `Tpm2.BuildPolicyPcr` | quantra-ramfs/src/tpm2.rs:275-293 | The bytes decode to a PCR policy over the current values of the selected registers |
| `Tpm2.BuildUnseal` | quantra-ramfs/src/tpm2.rs:295-307 | The bytes decode to an unseal of the object under the policy session |
| `Tpm2.BuildFlushContext` | quantra-ramfs/src/tpm2.rs:328-336 | The bytes decode to a flush of the handle |
| `Tpm2.BuildPcrExtend` | quantra-ramfs/src/measured_boot.rs:148-180 | The bytes decode to an extend of the register with the SHA-256 digest |
| `Tpm2.SelectionMeans` | quantra-ramfs/src/tpm2.rs:360-372 | A register is selected if and only if it is below 24 and its mask bit is set |
| `Tpm2.SelectionFaithful` | quantra-ramfs/src/tpm2.rs:360-372 | The selection is the whole mask if and only if the mask is below 2^24 |
| `Tpm2.ParseBlob` | quantra-ramfs/src/tpm2.rs:393-413 | Succeeds exactly on the documented layout, with its two areas and whatever follows ignored; each error has its exact cause |
| `Tpm2.Accepted` | quantra-ramfs/src/tpm2.rs:172-212 | A response is passed on unchanged, and only with a whole header and a zero response code |
| `Tpm2.ReplyMeans` | quantra-ramfs/src/tpm2.rs:172-265 | A reply is accepted if and only if it has ten bytes and bytes 6 to 9 are zero; its handle is bytes 10 to 13, most significant first, if it is long enough |
| `Tpm2.ReadSealed` | quantra-ramfs/src/tpm2.rs:308-326 | In bounds on every response; returns exactly the sealed bytes, and only if they are all there |
| `Tpm2.ReadParentHandle` | quantra-ramfs/src/tpm2.rs:415-422 | The first four bytes of the file, or an error when it is missing or short |
| `Tpm2.UnsealLuksKey` | quantra-ramfs/src/tpm2.rs:99-142 | For every machine and all replies: the commands sent decode to a prefix of load, session, policy, unseal, flush, flush, as long as the replies allow; a key is returned if and only if all was accepted, and is the sealed data |
| `Tpm2.FlushedExactlyWhen` | quantra-ramfs/src/tpm2.rs:119-141 | Every handle given out gets a flush command if and only if the load was refused or the key was unsealed |
| `Tpm2.LoadedObjectLeaks` | quantra-ramfs/src/tpm2.rs:119-141 | For every handle a run in which the load gives it out, the session is refused, and no flush of it is sent |
| `Dhcp.AppliedIsMeaning` | quantra-ramfs/src/network_boot.rs:302-329 | Accumulating options one by one is: last long-enough option wins, DNS lists add up, defaults otherwise |
| `Dhcp.FieldCodes` | quantra-ramfs/src/network_boot.rs:300-327 | Each field comes from the last long enough option of its literal code; the lease time is big-endian |
| `Dhcp.FieldDefaults` | quantra-ramfs/src/network_boot.rs:274-279 | The values of the fields when no such option is there |
| `Dhcp.DnsOrder` | quantra-ramfs/src/network_boot.rs:310-321 | Name servers come from every option 6, in their order |
| `Dhcp.AddressesAre` | quantra-ramfs/src/network_boot.rs:310-321 | An option holds one address per four bytes, at its place |
| `Dhcp.ReplyBytes` | quantra-ramfs/src/network_boot.rs:253-272 | Which packets count as replies, by byte positions and literal values |
| `Dhcp.ReadDns` | quantra-ramfs/src/network_boot.rs:310-321 | Whole addresses of a DNS option are appended in order; a remainder is dropped |
| `Dhcp.ApplyOption` | quantra-ramfs/src/network_boot.rs:302-329 | One option changes the field it names, if long enough, and no other |
| `Dhcp.WalkOptions` | quantra-ramfs/src/network_boot.rs:281-330 | On every byte string the walk ends in bounds and yields the meaning of the options it contains |
| `Dhcp.ParseDhcpReply` | quantra-ramfs/src/network_boot.rs:253-345 | Total on all byte strings; a lease only for a reply with our xid, the cookie and the expected type |
| `Dhcp.WalkReadsBack` | quantra-ramfs/src/network_boot.rs:281-330 | Any well-formed option area, with pads and unknown options and anything after the end option, reads back |
| `Dhcp.ReplyRecovered` | quantra-ramfs/src/network_boot.rs:253-345 | The lease of any well-formed reply is recovered, or nothing if its type is not the expected one |
| `Dhcp.BuildHeader` | quantra-ramfs/src/network_boot.rs:204-222 | The fixed part of a request: every byte of the 240 is determined |
| `Dhcp.BuildDhcpDiscover` | quantra-ramfs/src/network_boot.rs:204-228 | The walk over the packet finds type DISCOVER and the parameter list |
| `Dhcp.BuildDhcpRequest` | quantra-ramfs/src/network_boot.rs:230-251 | The walk over the packet finds type REQUEST, the offered address and the server id |
| `Dhcp.AwaitReply` | quantra-ramfs/src/network_boot.rs:156-176 | A wait ends at the first deadline, error or matching reply, and says which |
| `Dhcp.DhcpAcquire` | quantra-ramfs/src/network_boot.rs:125-202 | A lease is returned if and only if both packets can be sent and an ACK with our xid arrives in time after an OFFER with our xid; it is that ACK's lease, and the request sent named that offer. The first packet is the DISCOVER byte for byte; without a lease the outcome says which send or wait failed and how |
| `LogindTables.EverySeatInterleaving` | quantra-logind/src/seat.rs:124-161 | In every interleaving of seat calls: no duplicates, an active session exactly when there are sessions, and it is a member |
| `LogindTables.EveryUserInterleaving` | quantra-logind/src/user.rs:50-208 | In every interleaving of user calls: no duplicates, an empty list only for lingerers, Online exactly when the list is non-empty |
| `LogindTables.OpenKeepsInv` | quantra-logind/src/control.rs:222-297 | Opening keeps the tables in agreement, also when the login half fails |
| `LogindTables.CloseKeepsInv` | quantra-logind/src/control.rs:299-342 | Closing keeps the tables in agreement |
| `LogindTables.ActivateKeepsInv` | quantra-logind/src/control.rs:344-359 | Activation keeps one Active session per seat value, and it is the one the seat shows |
| `LogindTables.HintRequestKeepsInv` | quantra-logind/src/control.rs:361-415 | Lock and idle requests keep the tables in agreement |
| `LogindTables.LingerKeepsInv` | quantra-logind/src/control.rs:434-442 | Setting or clearing linger keeps the tables in agreement |
| `LogindTables.TerminateKeepsInv` | quantra-logind/src/control.rs:444-452 | Terminating a user keeps the tables in agreement, though its sessions stay |
| `LogindTables.SeatAcceptsItsSessions` | quantra-logind/src/control.rs:344-359 | The seat error that activation ignores cannot occur |
| `LogindTables.SeatMembersAreLive` | quantra-logind/src/control.rs:462-471 | What a seat can activate is a live session on it, so the session error that is ignored cannot occur |
| `LogindTables.StepKeepsInv` | quantra-logind/src/control.rs:222-471 | Every request by every peer, with any OS outcome, keeps the tables in agreement |
| `LogindTables.EveryRunAgrees` | quantra-logind/src/control.rs:222-471 | After every sequence of non-overlapping requests: a session is in a seat's list exactly when it is live and names the seat, at most one is Active per seat value and the seat shows it, users list only their live sessions |
| `LogindTables.IdsNeverReused` | quantra-logind/src/session.rs:42-107 | An id that was issued and is gone never comes back in any run |
| `LogindTables.OnlyOwnerOrRootCloses` | quantra-logind/src/control.rs:222-342 | A peer that is not root cannot add sessions and can remove only its own |
| `LogindEffects.StepHasOutcome` | quantra-logind/src/control.rs:222-471 | From agreeing tables every request has its outcome, stated field by field on the tables before and after: what is accepted, which fields change and to what, and that every other field, session, seat and user is unchanged |
| `LogindEffects.HintsHaveOutcome` | quantra-logind/src/control.rs:361-415 | Locking, unlocking and the two hints of a live session set exactly that field to the requested value, in any tables; of a session that is not there they are refused |
| `LogindEffects.LockAllHasOutcome` | quantra-logind/src/control.rs:377-386 | Locking or unlocking all sets the flag of every session and nothing else |
| `LogindEffects.OpenHasOutcome` | quantra-logind/src/control.rs:222-297 | An accepted open adds one Online session under the next id, puts it on seat0 and lists it with its user; the failing login leaves only the session |
| `LogindEffects.CloseHasOutcome` | quantra-logind/src/control.rs:299-342 | An accepted close removes the session from all three tables; the first remaining session of the seat takes over and the last of a user ends or lingers the record |
| `LogindEffects.ActivateHasOutcome` | quantra-logind/src/control.rs:344-359 | The session becomes Active and is shown on its seat; of the others exactly those Active on its seat go Online |
| `LogindEffects.OnSeatHasOutcome` | quantra-logind/src/control.rs:462-471 | The same for activation on a named seat, refused unless it is a member |
| `LogindEffects.UsersHaveOutcome` | quantra-logind/src/control.rs:434-453 | Linger and termination of a user: the record afterwards, and every other one unchanged |
| `LogindOverlap.AloneIsStep` | quantra-logind/src/control.rs:222-471 | Undisturbed, the locked calls of any request come to one Step |
| `LogindOverlap.OpenCloseRun` | quantra-logind/src/control.rs:240-342 | After any number of turns of an open and a close of its session, the exact tables and positions |
| `LogindOverlap.RefusedRun` | quantra-logind/src/control.rs:299-308 | A close that finds no session or may not close it leaves the open undisturbed |
| `LogindOverlap.OpenCloseExactly` | quantra-logind/src/control.rs:240-342 | For every agreeing start, user, peer and order of calls: the tables agree afterwards if and only if the login failed, the close was denied, it looked before the session existed, or the open was over when it read the seat |
| `LogindOverlap.OverlapBreaksAgreement` | quantra-logind/src/control.rs:255-264 | From any agreeing tables, a close between the last two calls of an open leaves a dead session on seat0 |
| `LogindOpening.ActivateRun` | quantra-logind/src/control.rs:240-359 | After any number of turns of an open and an ActivateSession of its session, the exact tables and positions |
| `LogindOpening.OnSeatRun` | quantra-logind/src/control.rs:240-471 | The same for an ActivateSessionOnSeat that finds the session on seat0 |
| `LogindOpening.TooEarlyRun` | quantra-logind/src/control.rs:344-471 | An activation that comes before the session is there leaves the open undisturbed |
| `LogindOpening.EarlyEnd` | quantra-logind/src/control.rs:264-264 | A session activated before it has its seat agrees with seat0 if and only if no session was Active there and the seat shows the new one |
| `LogindOpening.OpenActivateExactly` | quantra-logind/src/control.rs:240-359 | For every agreeing start and order of calls: the tables agree afterwards if and only if the login failed, the activation found no session, it came after the open, or no session was Active on seat0 and the activation read the seat or seat0 was empty |
| `LogindOpening.OpenOnSeatExactly` | quantra-logind/src/control.rs:240-471 | The same for ActivateSessionOnSeat: another seat, too early, second call after the open, or no session Active on seat0 |
| `LogindOpening.EarlyActivationBreaks` | quantra-logind/src/control.rs:240-359 | With somebody Active on seat0, an ActivateSession whose first call comes right after the session is entered leaves the tables in disagreement, both requests over |
| `LogindOpening.EarlyActivationExample` | quantra-logind/src/control.rs:240-359 | Such tables exist |
| `LogindOpening.MidwayActivationBreaks` | quantra-logind/src/control.rs:263-264 | The same for an ActivateSessionOnSeat between the last two calls of the open |
| `LogindClosing.ClosingRun` | quantra-logind/src/control.rs:299-471 | After any number of turns of an ActivateSessionOnSeat and a close of its session, the exact tables and positions |
| `LogindClosing.NotOnSeatRun` | quantra-logind/src/control.rs:462-471 | An activation of a session that is not on the seat leaves the close undisturbed |
| `LogindClosing.DeniedRun` | quantra-logind/src/control.rs:299-309 | A denied close leaves the activation undisturbed |
| `LogindClosing.OnSeatCloseExactly` | quantra-logind/src/control.rs:299-471 | For every agreeing start and order of calls: the tables agree afterwards if and only if the session was not on the seat, the close was denied, it removed the session before the activation looked or closed it after the activation was over, or whoever else was Active on the seat is the one the seat falls back to |
| `LogindClosing.CloseInsideActivation` | quantra-logind/src/control.rs:462-471 | With three sessions on seat0, a close inside the activation of the third leaves the second Active while the seat shows the first |
| `LogindPool.AnyTurnOk` | quantra-logind/src/control.rs:208-471 | Each turn of any request replaces what the request is excused for, and the tables agree about all else |
| `LogindPool.AnyTurnLeaves` | quantra-logind/src/control.rs:208-471 | No turn disturbs the position of another request, unless the two are one of the four kinds of pairs |
| `LogindPool.PoolAdvances` | quantra-logind/src/control.rs:208-471 | So every turn of any number of requests keeps agreement up to half-done requests |
| `LogindPool.OverlapAgrees` | quantra-logind/src/control.rs:79-128 | For any number of overlapping requests of every kind, in any order of calls: if no two activations are for one seat, no on-seat activation overlaps a close of its session, and closes and activations name ids issued before, the tables agree when all are over |
| `LogindActivations.CallAdvances` | quantra-logind/src/control.rs:344-471 | After any sequence of activation calls, who is Active and who is shown on a seat is given by the last call on either table |
| `LogindActivations.TurnCalls` | quantra-logind/src/control.rs:344-471 | Each turn of an activation makes its next call, and only if the request takes effect |
| `LogindActivations.CalledAgrees` | quantra-logind/src/control.rs:344-471 | When every seat had calls on both tables or none, the tables agree if and only if the last ones are for the same session |
| `LogindActivations.ActivationsExactly` | quantra-logind/src/control.rs:344-471 | For any number of overlapping activations of either kind, in any order: when all are over, the tables agree if and only if on every seat the last session-table call and the last seat-table call were for the same session |
| `LogindActivations.CrossingBreaks` | quantra-logind/src/control.rs:344-353 | Two activations on one seat whose calls cross are over and the tables disagree, from any agreeing start |
| `LogindManagers.SessionManager.constructor` | quantra-logind/src/session.rs:33-40 | No sessions, ids from one |
| `LogindManagers.SessionManager.Open` | quantra-logind/src/session.rs:42-91 | A fresh id, an Online session without a seat, all others unchanged |
| `LogindManagers.SessionManager.Close` | quantra-logind/src/session.rs:93-107 | Exactly that session is gone; an error if it was not there |
| `LogindManagers.SessionManager.Activate` | quantra-logind/src/session.rs:109-130 | The session is Active and exactly the others Active on its seat value go Online |
| `LogindManagers.SessionManager.SetLocked` | quantra-logind/src/session.rs:132-155 | Only that session's lock changes |
| `LogindManagers.SessionManager.SetLockedAll` | quantra-logind/src/session.rs:157-169 | Every session's lock changes and nothing else |
| `LogindManagers.SessionManager.SetIdleHint` | quantra-logind/src/session.rs:171-179 | Only that session's idle hint changes |
| `LogindManagers.SessionManager.AssignSeat` | quantra-logind/src/session.rs:190-194 | Only that session's seat changes; a missing session is ignored |
| `LogindManagers.SeatManager.Detected` | quantra-logind/src/seat.rs:47-122 | seat0 exists and is empty |
| `LogindManagers.SeatManager.AddSession` | quantra-logind/src/seat.rs:124-134 | The session is a member once, and active if none was |
| `LogindManagers.SeatManager.RemoveSession` | quantra-logind/src/seat.rs:136-149 | The session is no member, and the first remaining one takes over if it was active |
| `LogindManagers.SeatManager.Activate` | quantra-logind/src/seat.rs:151-161 | Succeeds exactly for members of a known seat |
| `LogindManagers.UserManager.constructor` | quantra-logind/src/user.rs:43-48 | No users |
| `LogindManagers.UserManager.Login` | quantra-logind/src/user.rs:50-86 | The session is listed once and the user Online; a failed runtime directory changes nothing |
| `LogindManagers.UserManager.Logout` | quantra-logind/src/user.rs:89-158 | The session is unlisted; the last one leaves a lingering record or none |
| `LogindManagers.UserManager.SetLinger` | quantra-logind/src/user.rs:160-197 | The flag follows the request; a record without sessions appears or disappears with it |
| `LogindManagers.UserManager.Terminate` | quantra-logind/src/user.rs:199-208 | The record is gone |
| `LogindManagers.ControlServer.constructor` | quantra-logind/src/control.rs:58-77 | The start-up tables agree |
| `LogindManagers.ControlServer.OpenSession` | quantra-logind/src/control.rs:222-297 | Root only; the tables move by one Step, also on the failing login |
| `LogindManagers.ControlServer.CloseSession` | quantra-logind/src/control.rs:299-342 | Root or owner only; the tables move by one Step |
| `LogindManagers.ControlServer.ActivateSession` | quantra-logind/src/control.rs:344-359 | The tables move by one Step, and from agreeing tables the ignored error does not occur |
| `LogindManagers.ControlServer.ActivateSessionOnSeat` | quantra-logind/src/control.rs:462-471 | The tables move by one Step, and from agreeing tables the ignored error does not occur |
| `LogindManagers.ControlServer.Handle` | quantra-logind/src/control.rs:208-471 | Each request moves the tables by one Step and is answered by its exact acceptance condition; from agreeing tables no ignored error occurs |
| `LogindManagers.ControlServer.HandleOneCall` | quantra-logind/src/control.rs:361-460 | The requests that lock one table once, reads with their permissions included |
| `LogindManagers.ControlServer.Dispatch` | quantra-logind/src/control.rs:208-471 | From agreeing tables each request is accepted exactly under its condition and leaves the tables in the outcome stated field by field, still in agreement; no ignored error occurs |
| `IdleAction.AllIdle` | quantra-logind/src/power.rs:681-691 | True exactly when there are sessions and all are idle |
| `IdleAction.ThresholdIs` | quantra-logind/src/power.rs:663-667 | The threshold is the configured seconds, and one second for zero |
| `IdleAction.OnePoll` | quantra-logind/src/power.rs:667-741 | A poll acts exactly when the quiet stretch it ends spans the threshold, and remembers where the stretch began |
| `IdleAction.IdleActionLoop` | quantra-logind/src/power.rs:657-741 | Over any run of polls with nanosecond clocks the action fires at a poll if and only if the unbroken quiet stretch since the last reset or firing spans the threshold |
| `IdleAction.StretchUnique` | quantra-logind/src/power.rs:657-741 | That stretch is unique |
| `IdleAction.DueFromStart` | quantra-logind/src/power.rs:693-703 | Comparing with the remembered start decides it |
| `IdleAction.FiringsApart` | quantra-logind/src/power.rs:657-741 | Two firings are at least the threshold apart |
| `IdleAction.BusyPollRestarts` | quantra-logind/src/power.rs:670-691 | Any inhibited, busy or session-less poll restarts the wait |
| `Journal.PassesAreOneMap` | quantra/src/journald.rs:114-132 | The four replacement passes are one map per character |
| `Journal.UnescapeInverts` | quantra/src/journald.rs:114-132 | The escaping is injective: the JSON reading inverts it |
| `Journal.EscapedIsProtected` | quantra/src/journald.rs:114-132 | An escaped message has no line break and no quote without a backslash |
| `Journal.KeyPlace` | quantra/src/journald.rs:114-132 | In a line of a quote-free unit the unit key stands at one place only: no message can imitate it |
| `Journal.FindsOwn` | quantra/src/journald.rs:308-324 | The search finds every entry of the unit |
| `Journal.FindsOnlyOwn` | quantra/src/journald.rs:308-324 | For quote-free units it finds no other entry |
| `Journal.OneLine` | quantra/src/journald.rs:114-132 | An entry is one line, whatever its message |
| `JournalReader.LineReadsBack` | quantra/src/journald.rs:114-132 | A reader of its own gets back from the line of every entry with a quote-free unit the time in seconds, unit, pid (negative ones too), priority, level name out of eight fixed texts, and message |
| `Journal.LinesOfContent` | quantra/src/journald.rs:154-174 | The file splits into exactly the lines appended |
| `Journal.TakeFromEnd` | quantra/src/journald.rs:314-323 | Reverse, take n, reverse is the last n in order |
| `Journal.QueryExact` | quantra/src/journald.rs:308-324 | `query(unit, n)` is the last n entries of the unit, in order |
| `Journal.QuoteAnswersToPrefix` | quantra/src/journald.rs:308-324 | A unit with a quote also answers to the text before the quote |
| `Journal.QueryLawExactly` | quantra/src/journald.rs:308-324 | For every journal: "the query returns the last n entries of the unit", for all logged units and all quote-free names, holds if and only if no unit has a quote or a newline |
| `Journal.NewlineHidesUnit` | quantra/src/journald.rs:308-324 | A unit with a newline is never found |
| `Journal.JournalWriter.constructor` | quantra/src/journald.rs:143-152 | An empty journal |
| `Journal.JournalWriter.Write` | quantra/src/journald.rs:154-182 | For every outcome of size check against 52,428,800 bytes, rename, open and write: the file is the lines of the entries since the last rotation, in order, unless a failed write has left part of a line |
| `Journal.JournalWriter.QueryUnit` | quantra/src/journald.rs:308-324 | The answer of a query in terms of the entries written |
| `Coredump.FindField` | quantra/src/coredump.rs:240-255 | Searching a printed record for a key stops at the first field of that key, never inside a value or another key |
| `Coredump.StrReadsBack` | quantra/src/coredump.rs:240-245 | Every string field reads back |
| `Coredump.NumReadsBack` | quantra/src/coredump.rs:247-255 | Every 64-bit number field reads back |
| `Coredump.Sanitised` | quantra/src/coredump.rs:84-97 | A stored name has the length of the program name, keeps its alphanumeric characters, dashes and underscores in place and has an underscore elsewhere; no dot and no quote |
| `Coredump.MetadataReadsBack` | quantra/src/coredump.rs:143-164 | For every crash, whatever the program is called, the printed metadata parses back to the same exe, pid, signal, name, time, size and path |
| `Coredump.OwnersReadBack` | quantra/src/coredump.rs:143-164 | The uid and gid read back from the printed record |
| `Coredump.MetaText` | quantra/src/coredump.rs:143-164 | The printed record, key by key |
| `Coredump.SignalNames` | quantra/src/coredump.rs:291-309 | The thirteen named signals, and "SIG?" for all others |
| `Coredump.PathText` | quantra/src/coredump.rs:94-97 | The stored path, part by part |
| `Coredump.NameSplits` | quantra/src/coredump.rs:84-97 | A stored file name has exactly four dot fields |
| `Coredump.TimeRecovered` | quantra/src/coredump.rs:257-289 | The cleanup recovers the time stamp of every stored dump |
| `Coredump.OtherProgramsUntouched` | quantra/src/coredump.rs:257-289 | A program's cleanup never takes another program's dump |
| `Coredump.ListDumps` | quantra/src/coredump.rs:257-277 | The listing holds exactly the program's dumps with their times |
| `Coredump.SortByTime` | quantra/src/coredump.rs:278-280 | Sorted by time, and a permutation |
| `Coredump.InsertSorted` | quantra/src/coredump.rs:278-280 | Insertion keeps the order |
| `Coredump.DropOldest` | quantra/src/coredump.rs:281-288 | A front part is removed, with its metadata files, until five are left |
| `Coredump.CleanupOldCores` | quantra/src/coredump.rs:257-289 | At most five dumps are kept, nothing is removed needlessly, none that is kept is older than a removed one; what the directory then holds of the program is exactly what was kept and what could not be unlinked |
| `Coredump.DirectoryAfter` | quantra/src/coredump.rs:281-288 | Unlinking the listed files and their metadata, with any failures, leaves exactly the kept dumps and the ones it failed on |
| `Calendar.YearStep` | quantra/src/logging.rs:109-118 | The closed-form Gregorian count grows by the length of each year |
| `Calendar.MonthsClosedForm` | quantra/src/logging.rs:119-140 | The month table adds up to (367 m - 362) / 12, less one or two days after February |
| `Calendar.MonthEnds` | quantra/src/logging.rs:119-140 | Each month is as long as the closed-form Gregorian count says |
| `Calendar.DayNumberIsFixed` | quantra/src/logging.rs:96-147 | Counting by table and the closed-form Gregorian count agree on every date |
| `Calendar.CountYears` | quantra/src/logging.rs:109-118 | The year loop finds the year that holds the day in the closed-form Gregorian count, for any day count |
| `Calendar.CountMonths` | quantra/src/logging.rs:119-140 | The month loop finds the month that holds the day in the closed-form Gregorian count, and never runs off the year |
| `Calendar.Rfc3339` | quantra/src/logging.rs:96-147 | For every number of seconds the date lies in the month it names, its closed-form Gregorian day count from 1970 is the number of whole days, and hour, minute and second are the rest |
| `Calendar.DayNumberOrder` | quantra/src/logging.rs:96-147 | Later dates have larger day numbers |
| `Calendar.OrderPreserved` | quantra/src/logging.rs:96-147 | Later stamps have more seconds |
| `Calendar.StampsIncrease` | quantra/src/logging.rs:89-147 | Stamps are strictly increasing in the clock, and one number has one stamp |
| `RestartLimit.OnExit` | quantra/src/services/supervisor.rs:786-805 | A restart is allowed exactly when fewer than the limit lie in the window, over the whole history though old times are evicted |
| `RestartLimit.Monitor` | quantra/src/services/supervisor.rs:765-805 | Over any run of exits, limit + 1 allowed restarts always span more than the window, and giving up means the window was full; a limit of zero never gives up |
| `RestartLimit.RecentBound` | quantra/src/services/supervisor.rs:786-805 | An allowed restart is more than a window after the one `limit` places before |

## Left out

- Seccomp: the kernel's program check and interpreter are the model's own reading of classic BPF, restricted to the instructions the filters use; the profile name tables (quantra/src/process.rs:571-633) and capability names are not modelled.
- The eBPF packet filter (quantra/src/process.rs:1262-1320): its jump distances do not match the layout it emits, so the rules of its comment are proved of the nftables form.
- IpFilter: text is taken as trimmed, IPv6 ranges are skipped as in the source, and the table and chain wrapper and indentation around the rules are not modelled.
- Reaper: assumes that the pipe is installed before the first exit, that reads do not fail, that no lock is poisoned, and that a thread which holds a lock and runs no handler lets go of it.
- Sha256: inputs of 2^61 bytes and more, where the bit length overflows.
- MeasuredBoot: reading a PCR back; contents within 64 bytes of 2^61.
- Tpm2: device I/O is a list of replies; the mask file is a parameter; a TPM's own checks of parameter values.
- Dhcp: socket set-up, clock and the interface name; the ACK is not compared with the offer, as in the source.
- LogindTables.EveryRunAgrees: for non-overlapping requests; overlapping ones are the subject of LogindPool and the modules beside it, where mixtures of three or more requests that contain one of the four kinds of pairs are covered only for activations among themselves, and a close or activation of an id not yet issued only beside the open that issues it. Liveness across the locks is not claimed.
- LogindTables: wrap-around of the 64-bit session counter, time stamps, cgroup and runtime-directory work beyond success or failure, and devices, inhibitors, power and D-Bus, which leave the tables alone.
- Journal.JournalWriter.Write: after a failed write that left part of a line nothing is claimed of queries until the next rotation.
- Journal: level prefixes and the socket protocol.
- Coredump: `is_alphanumeric` is a parameter that excludes dot and quote; a directory that changes during a cleanup.
- Calendar: zero padding of the printed fields.
- RestartLimit: the restart policies that follow the breaker; a recorded time counts even if the policy then does not restart.
- The rest of the service supervisor, timers, sockets, time sync, network daemon, device mapper, mounts, Landlock and the command-line tools: I/O plumbing around OS calls.
