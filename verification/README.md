# Verification of PolyOnTest's result path

PolyOnTest runs tests on a target and reports them on a host. A C runner orders the registered cases, runs them and
announces what happens; the announcements travel as COBS-framed PTWP messages or as lines of text; the host decodes
them incrementally, supervises one child process per case in isolated mode, and accumulates reports. This project
models that path in Dafny and proves what it is meant to guarantee. `dafny verify dfyconfig.toml` checks all of it.

How the parts fit:

- `Protocol` is the event model. `Cobs`, `Framing`, `Payload` and `HostCodec` are the host's binary codec: the loops
  with their back-patched code bytes and buffers are methods, proved against recursive encodings and readings whose
  laws are lemmas. `DeviceWire` is the device's side of the same format, with its fixed buffers.
- `CaseOrder`, `Sorting` and `Registry` are the comparator, the stable insertion sort and the linked lists that are
  relinked in place. `RunnerModel` says what a run does as a function of its cases and of arbitrary user code, which
  may react to everything that happened before. `Harness` is the imperative runner with its lists, flags and counters,
  proved to do exactly that; `Commands` are its entry points. `RunnerLaws`, `RunVisits` and
  `SuiteFixtures` prove what every run keeps.
- `Filters` and `Discovery` are the environment's filters and the printed case list with its parser. `Supervisor` is
  the isolated run, over arbitrary child behaviour. `Isolation` joins all of this end to end. `DeviceRun` joins a run
  to its bytes, and `Drain` is the event loop for a remote target.
- `Reporters`, `Agreement`, `JunitRows`, `JunitAgreement`, `JunitIsolated`, `JunitDevice` and `Xml` are the console
  counters and the JUnit table, and when they agree with the totals; `FailingInputs` holds inputs where they do not.
- `Examples` are inputs from the program's own tests.
- `TextBuffers` and `DeviceText` are the device's cutting appenders and its lines, `TextTools` and `TextCodec` the
  host's line codec, and `TextWire` compares the two paths.
- `Locks` is a step machine of threads that report at the same time.

Where the code does not keep a promise for all inputs, the exact condition is a theorem: strings of more than 365 bytes
in one message (`DeviceWire.DeviceToHost`), cases without a suite (`RunnerLaws.EveryRunIsWellBracketed`), mixed discovery
filters (`Filters.DiscoveryMatchesRun`), dots in suite or group names (`Discovery.DiscoveryRecovered`,
`TextWire.CaseStartLine`), a child that crashes after it reported a pass (`Agreement.ConsoleMatchesSupervisor`), a
failure that a suite fixture reports (`JunitAgreement.JunitMatchesRun`, `FailingInputs.TornSuite`), names that the wire
cuts or cannot carry (`JunitAgreement.JunitMatchesRun`, `FailingInputs.MergedSuites`; `Agreement.ConsoleMatchesRun`,
`FailingInputs.VanishedCase`), names longer than the leaf buffer (`JunitDevice.JunitMatchesDevice`,
`FailingInputs.LongNamesMeet`, `FailingInputs.LongNameCrashes`), and a stream that ends before its total
(`Drain.LostTotal`).

Lemmas named `...Meaning` say what a definition means without using it: the order of the comparator, which entry a search
finds, which lines are cases, which bytes are messages.

Strings are sequences of characters that stand for one byte each, without NUL; a NULL pointer is `None`. The sequence
of notes and callbacks of a run is called its timeline.

## Model

| member | source | states |
|---|---|---|
| Isolation.IsolatedEqualsInProcess | crates/polyontest-cli/src/main.rs:374-591 | End to end: discovery is printed and parsed, each discovered case runs in its own clean child whose bytes arrive in any pieces, and the supervisor totals exactly what one in-process run under the same filter totals, for distinct identifiers, the four plain filters, and cases whose outcome is the same in every run whichever other registered cases ran before |
| RunnerLaws.EveryRunIsWellBracketed | harness/c/polytest_core.c:679-810 | For any registry, any filter and any user code, an observer that demands strictly increasing suites, each opened and closed once around its cases, fixtures and failures in their places and exact counts accepts the timeline of a run if and only if every selected case names a suite |
| SuiteFixtures.SuitesVisitedOnce | harness/c/polytest_core.c:624-677 | In every run each suite with a selected case is opened and closed once, in order, its registered setup and teardown are entered exactly once right before those notes, and no other suite fixture is entered |
| RunVisits.RunVisitsSelected | harness/c/polytest_core.c:693-788 | Whatever user code does, a run opens and closes exactly the selected cases in sorted order, each around exactly its group setup, body and group teardown |
| TextWire.TextMatchesCobs | crates/polyontest-builtins/src/codec.rs:69-180 | The text of a timeline and its COBS bytes, each received in any chunks, decode without error to the same events in the same order up to the file and line of a failure, when names are identifier-like and nothing is cut |
| Locks.InterleavedRun | harness/c/polytest_core.c:436-461 | For every interleaving of reporting threads under exclusive locks, the finished wire is whole frames in one order that keeps each thread's own, the host decodes exactly that merge, and each flag is set exactly when some report sets it |
| Cobs.FrameRoundTrip | crates/polyontest-builtins/src/codec.rs:403-454 | A frame's only zero is its last byte, its body decodes to the payload, and its length is n + 2 plus the number of full 254-byte blocks, at most n + n/254 + 2 |
| Cobs.AcceptedIffTiled | crates/polyontest-builtins/src/codec.rs:430-454 | Arbitrary bytes decode if and only if blocks that start with their own length tile them, and then to the data of those blocks |
| Cobs.DecodedIsShorter | crates/polyontest-builtins/src/codec.rs:430-454 | Decoding any accepted nonempty input gives fewer bytes than it had |
| Cobs.EncoderBuilds | crates/polyontest-builtins/src/codec.rs:403-428 | Writing byte by byte with a back-patched code byte produces the block-by-block encoding, from any intermediate state |
| Cobs.CobsEncode | crates/polyontest-builtins/src/codec.rs:403-428 | The host encoder's loop produces the frame |
| Cobs.CobsDecode | crates/polyontest-builtins/src/codec.rs:430-454 | The host decoder's loop computes the recursive reading, with the same errors for a zero code and for an overrun |
| Framing.ChunkingIsInvisible | crates/polyontest-builtins/src/codec.rs:214-231 | Where a stream is cut never changes what an incremental decoder yields, nor whether and how it fails |
| Framing.DeliveredIsPrefix | crates/polyontest-builtins/src/codec.rs:214-231 | Without an error everything decoded is delivered; with one, exactly the readings of some whole frames before it |
| Framing.PiecesAppend | crates/polyontest-builtins/src/codec.rs:216-219 | Splitting what is buffered and then the rest is splitting everything, including the residue |
| Framing.PiecesOfBuffered | crates/polyontest-builtins/src/codec.rs:69-77 | Searching the buffered residue again together with new data finds the same pieces |
| Payload.EventRoundTrip | crates/polyontest-builtins/src/codec.rs:233-365 | Every event comes back from its payload, with strings cut to 255 bytes and without the failure's file |
| Payload.MsgRoundTrip | crates/polyontest-builtins/src/codec.rs:315-401 | Every laid-out message of a known type is read back field by field |
| Payload.DecodeMeaning | crates/polyontest-builtins/src/codec.rs:315-401 | Arbitrary bytes: payloads without our magic and version are passed over, ours are read exactly when a known message is laid out at their front, as that message, and an unknown kind is an error |
| Payload.KindMeaning | crates/polyontest-builtins/src/codec.rs:233-313 | Every event has the kind number the protocol gives it, behind magic and version |
| Payload.WordMeaning | crates/polyontest-builtins/src/codec.rs:374-378 | Words are laid out least significant byte first |
| Payload.StringMeaning | crates/polyontest-builtins/src/codec.rs:367-372 | A string is laid out as its characters behind one byte with their number |
| Payload.StatusMeaning | crates/polyontest-builtins/src/codec.rs:265-279 | Passed, failed and skipped are the words 0, 1 and 2 |
| HostCodec.CobsCodec.Encode | crates/polyontest-builtins/src/codec.rs:209-212 | The codec frames the event's payload |
| HostCodec.CobsCodec.DecodeFrame | crates/polyontest-builtins/src/codec.rs:218-228 | One frame yields nothing, one event or an error, exactly as the specification reads it |
| HostCodec.CobsCodec.DecodeFeed | crates/polyontest-builtins/src/codec.rs:214-231 | Yields the readings of all complete frames and keeps the residue; after an error exactly the frames behind the bad one remain buffered |
| HostCodec.StreamRoundTrip | crates/polyontest-builtins/src/codec.rs:209-231 | Any list of events, encoded, concatenated and fed in any chunks, comes back in order with no error and an empty buffer |
| HostCodec.NoiseIsSkipped | crates/polyontest-builtins/src/codec.rs:315-325 | Empty frames and frames of foreign payloads never disturb the events around them |
| DeviceWire.CobsEncodeBounded | harness/c/polytest_core.c:303-346 | The bounded encoder returns 0 if and only if the unbounded frame is longer than the buffer, else its length and the same bytes, and never writes at or past the bound |
| DeviceWire.FrameFits | harness/c/polytest_core.c:348-354 | A message never makes more than 387 bytes, so the 512-byte frame buffer never drops one |
| DeviceWire.DeviceToHost | harness/c/polytest_core.c:348-399 | The host reads exactly the intended event if and only if the clamped strings take at most 365 bytes; otherwise nothing or an error, never another event |
| DeviceWire.DroppedStringIsRejected | harness/c/polytest_core.c:356-399 | When a string field was dropped, the payload cannot be read at all |
| DeviceWire.Writer.PutStr | harness/c/polytest_core.c:356-370 | Appends the length-prefixed string, or leaves the buffer as it is when it does not fit |
| DeviceWire.Writer.EmitFrame | harness/c/polytest_core.c:348-354 | Writes the payload's whole frame, or nothing if it does not fit the frame buffer |
| DeviceWire.Writer.EmitMsg | harness/c/polytest_core.c:372-399 | One message puts exactly its one frame on the wire, or nothing when the words no longer fit |
| DeviceRun.RunReachesHost | harness/c/polytest_core.c:679-810 | However a run's bytes are cut, the host decodes exactly the events whose strings fit, or fails; when all fit, all of them |
| DeviceRun.WireMeans | harness/c/polytest_core.c:372-399 | A stream of messages that decodes at all decodes to those that fit, in order |
| DeviceRun.FailureIsTold | harness/c/polytest_core.c:436-461 | A failed assertion whose strings fit reaches the host under the case's name with its own line and message |
| Protocol.WrapMeaning | harness/c/polytest_core.c:372-399 | Truncation to 32 bits keeps what fits and forgets whole multiples of 2^32 |
| Commands.FormatCaseLeaf | harness/c/polytest_core.c:264-271 | The 128-byte leaf buffer holds group and name, cut to 127 characters |
| Commands.EmitNote | harness/c/polytest_core.c:436-461 | Every note of the runner puts its own message, with the arguments the runner passes, on the wire |
| Commands.WireGrows | harness/c/polytest_core.c:679-810 | Note by note, the wire of a timeline grows by each note's own message |
| Commands.EmitTimeline | harness/c/polytest_core.c:679-810 | A whole timeline sent note by note leaves exactly its messages on the wire |
| Commands.PrintTimeline | harness/c/polytest_core.c:679-810 | A whole timeline printed note by note leaves exactly its lines |
| Commands.RunFromEnv | harness/c/polytest_core.c:915-932 | The environment's routing: a full case first, then the tag alone, then suite and group, then suite, then everything |
| Commands.ListCases | harness/c/polytest_core.c:882-913 | Discovery prints one line per listed case of the sorted registry, in order |
| CaseOrder.IdCmpTransitive | harness/c/polytest_core.c:524-547 | The comparator is transitive over suite, group and name, with NULL first |
| CaseOrder.IdCmpLaws | harness/c/polytest_core.c:537-547 | It is antisymmetric, and zero exactly for equal identifiers |
| CaseOrder.StrCompareMeaning | harness/c/polytest_core.c:524-535 | The comparison is negative exactly when the first string is a proper prefix or has the smaller byte at the first difference |
| CaseOrder.IdCmpMeaning | harness/c/polytest_core.c:537-547 | A case comes before another exactly when the first of suite, group and name that differs does, NULL first |
| Sorting.SortsByName | harness/c/polytest_core.c:549-567 | In the sorted list no case comes, in dictionary order of suite, group and name, before an earlier one |
| Sorting.SortIsStableSort | harness/c/polytest_core.c:549-567 | The sort orders, keeps exactly the same items, and keeps items of equal identifier in their order |
| Sorting.OrderIgnoresRegistration | harness/c/polytest_core.c:549-567 | With distinct identifiers the result depends only on which items there are |
| Sorting.SortIsIdempotent | harness/c/polytest_core.c:549-567 | Sorting again changes nothing, ties included |
| Registry.List.AlreadyLinked | harness/c/polytest_core.c:117-143 | The walk over the list finds a node exactly when it is linked |
| Registry.List.Register | harness/c/polytest_core.c:165-171 | Prepends a node unless it is NULL or already linked; the list stays acyclic and without duplicates |
| Registry.CollectedOnce | harness/c/polytest_core.c:198-203 | After collecting a section the list holds exactly the old and the section's nodes, once each; collecting again changes nothing |
| Registry.InsertNode | harness/c/polytest_core.c:549-567 | Relinking one node puts it behind everything not greater, in front of everything greater |
| Registry.SortNodes | harness/c/polytest_core.c:549-567 | The in-place sort ends, and relinks exactly the same nodes into an acyclic list in stable order |
| Registry.CollectAndSort | harness/c/polytest_core.c:679-682 | Collecting and sorting leaves the registry a duplicate-free list in stable order |
| Registry.RegistryHolds | harness/c/polytest_core.c:117-203 | After any interleaving of registrations, collections and runs the list holds exactly the nodes registered so far, each once |
| Registry.OperateAll | harness/c/polytest_core.c:117-203 | Performing such operations on the linked nodes keeps an acyclic list with these contents |
| Harness.Harness.PotFailAt | harness/c/polytest_core.c:436-461 | A failed assertion sets the failed flag and is announced for the current case |
| Harness.Harness.PotIgnore | harness/c/polytest_core.c:467-485 | A skip sets the skipped flag and is announced when it has a message |
| Harness.Harness.FindSuite | harness/c/polytest_core.c:570-577 | The walk finds the same entry as the specification's search |
| Harness.Harness.FindGroup | harness/c/polytest_core.c:579-588 | The walk finds the same entry as the specification's search |
| RunnerModel.FindSuiteMeaning | harness/c/polytest_core.c:570-577 | The entry found is the first of the list with that name, and none is found exactly when no entry has it |
| RunnerModel.FindGroupMeaning | harness/c/polytest_core.c:579-588 | The entry found is the first of the list with that suite and that name, and none is found exactly when no entry has both |
| RunnerModel.SuiteFixturesMeaning | harness/c/polytest_core.c:624-677 | A suite's setup and teardown are those of its entry |
| RunnerModel.GroupFixturesMeaning | harness/c/polytest_core.c:733-746 | A case's group setup and teardown are those of the entry of its group in its suite |
| Harness.Harness.CaseMatches | harness/c/polytest_core.c:602-622 | Matching by walking the lists decides as the specification does |
| Filters.MatchesTagMeaning | harness/c/polytest_core.c:602-622 | A case has a tag exactly when it is among its own tags, or those of the first registered suite of its suite's name, or those of the first registered group of its suite's and group's names |
| Filters.MatchesMeaning | harness/c/polytest_core.c:812-838 | Every other filter selects by equality of the names it gives |
| Filters.FilterMeaning | harness/c/polytest_core.c:915-932 | A full case wins, then the tag, then suite with group, then the suite |
| Filters.ListedMeaning | harness/c/polytest_core.c:889-899 | Discovery lists what matches every variable that is set; an empty variable is as good as none |
| Harness.Harness.CloseSuite | harness/c/polytest_core.c:624-656 | Closing runs the suite's teardown before its totals are announced, and does nothing without an open suite |
| Harness.Harness.CountOutcome | harness/c/polytest_core.c:748-788 | A skip wins over a failure; run and suite counters move together and nothing else is counted |
| Harness.Harness.RunMatching | harness/c/polytest_core.c:698-788 | One matching case closes and opens suites as needed, runs in its own flag window and is counted once |
| Harness.Harness.VisitCases | harness/c/polytest_core.c:693-788 | The loop over the linked list runs exactly the matching cases in list order |
| Harness.Harness.RunFiltered | harness/c/polytest_core.c:679-810 | A run over linked nodes, flags and counters is the specified timeline and totals over the sorted registry, and is well-bracketed with these counters if and only if every selected case names a suite; the exit code is 1 exactly when the 32-bit failed counter is not zero |
| Harness.RunIgnoresRegistration | harness/c/polytest_core.c:165-171 | With distinct identifiers the whole timeline depends only on which cases are registered |
| Harness.LaterRunKeepsOrder | harness/c/polytest_core.c:681-683 | With nothing new registered, a later run keeps the list exactly as the earlier one left it |
| RunVisits.RunTotalsOutcomes | harness/c/polytest_core.c:748-806 | The announced totals are the outcomes of the cases that ran |
| RunnerModel.CountMeaning | harness/c/polytest_core.c:748-788 | A counter of the totals is the number of cases with that outcome |
| RunnerModel.ActMeaning | harness/c/polytest_core.c:436-522 | Each failed assertion is announced with its own place and message, each skip when it has a message, an abort never; no flag is cleared |
| RunVisits.OutcomeIsVerdict | harness/c/polytest_core.c:709-788 | An outcome depends only on what was done inside the case's own window: any skip wins, then any failure or abort |
| RunVisits.IndependentOutcomes | harness/c/polytest_core.c:709-788 | When a case's outcome is the same in every run, whichever other registered cases ran before it, the outcomes of any run over distinct registered cases in order are those of each case on its own |
| RunVisits.MemorylessIsIndependent | harness/c/polytest_core.c:709-788 | Callbacks that always act alike give every case an outcome of its own, computed from its three callbacks |
| SuiteFixtures.SuiteAwareIsIndependent | harness/c/polytest_core.c:658-677 | So do callbacks that look only at what the fixtures of their own suite did: a case may rely on its suite's setup having run |
| Filters.DiscoveryMatchesRun | harness/c/polytest_core.c:889-932 | Discovery lists what the same environment would run, for every registry, if and only if the filter is none, a tag alone, a suite alone or a suite with a group |
| Filters.NamedCaseAlone | harness/c/polytest_core.c:827-833 | With distinct identifiers a fully named case selects that case only |
| Discovery.DiscoveryRecovered | crates/polyontest-cli/src/main.rs:316-332 | The printed list is parsed back in full and in order if and only if no suite or group name has a dot |
| Discovery.OneLine | crates/polyontest-cli/src/main.rs:319-329 | A printed line always yields one case, and the right one exactly when suite and group have no dot |
| Discovery.ParseDiscovery | crates/polyontest-cli/src/main.rs:316-332 | The parsing loop reads the lines in order and fails at the first malformed one |
| Discovery.StripReturnMeaning | crates/polyontest-cli/src/main.rs:318-320 | One carriage return before a line's end belongs to the end, and nothing else |
| Discovery.TextMeaning | crates/polyontest-cli/src/main.rs:316-332 | Any text of lines is read exactly when every line with the prefix has two dots in its trimmed rest, and then as the cases of those lines in order, split at the first two dots |
| Discovery.LineMeaning | crates/polyontest-cli/src/main.rs:318-329 | A line without the prefix is skipped, one with it is a case exactly when its trimmed rest has two dots, and an error otherwise |
| Discovery.OtherLinesAreSkipped | crates/polyontest-cli/src/main.rs:318-319 | A line without the prefix can be put in or left out anywhere |
| Discovery.TrimMeaning | crates/polyontest-cli/src/main.rs:320-320 | Trimming takes exactly the white space off both ends |
| Examples.SmallFrames | crates/polyontest-builtins/src/codec.rs:403-428 | Three frames, byte for byte |
| Examples.BannerAndCases | crates/polyontest-cli/src/main.rs:636-646 | The input of the parser's own test gives its two cases |
| Isolation.ChildSettles | crates/polyontest-cli/src/main.rs:392-591 | A clean child asked for one registered case whose outcome is its own contributes exactly that outcome |
| Isolation.DiscoveredAreSelected | crates/polyontest-cli/src/main.rs:334-366 | Under a plain filter the host discovers exactly the cases an in-process run selects, in order |
| Isolation.EndsOfRun | harness/c/polytest_core.c:748-788 | In every run the case ends sent to the host are the outcomes of the cases run, in order |
| Supervisor.CaseConserves | crates/polyontest-cli/src/main.rs:451-584 | For arbitrary child behaviour the counters grow by exactly the settled outcomes, so the saturating subtraction never saturates, and the failure flag means that something failed |
| Supervisor.OneEndMeaning | crates/polyontest-cli/src/main.rs:451-584 | For a child that ends its case at most once: a stream error, a timeout, a bad exit status or a case that never started counts as one failure whatever was reported; otherwise the reported end counts, and the counters stay exactly when the case started, did not end, and the child exited cleanly |
| Supervisor.FaultIsReported | crates/polyontest-cli/src/main.rs:522-567 | A faulty child settles a failure, and reporters get its case's start if it never started, its failure with the reason, its failed end if it never ended, and nothing else |
| Supervisor.ErrorMeaning | crates/polyontest-cli/src/main.rs:525-531 | The reason given for each kind of fault |
| Supervisor.CasesForwarded | crates/polyontest-cli/src/main.rs:465-503 | Everything a child says about its cases is forwarded, in order |
| Supervisor.StartsForwarded | crates/polyontest-cli/src/main.rs:466-471 | Every suite's start is forwarded exactly once, and no totals or log lines are |
| JunitIsolated.FaultyRowFails | crates/polyontest-cli/src/main.rs:522-567 | After a fault the last word on the case's row is a failure |
| Supervisor.SupervisorConserves | crates/polyontest-cli/src/main.rs:389-601 | The totals are the settled outcomes of the processed cases; with at most one end a case counts once, or not at all exactly when it started, ended no case and exited cleanly |
| Supervisor.ProcessedUpToCrash | crates/polyontest-cli/src/main.rs:580-583 | Under the abort policy nothing runs after the first crash; without one everything runs |
| Supervisor.IsolatedRun.ReceiveEvents | crates/polyontest-cli/src/main.rs:451-520 | The event loop forwards, counts and remembers as specified |
| Supervisor.IsolatedRun.RunCase | crates/polyontest-cli/src/main.rs:451-583 | One child's events and the crash handling change the state as specified |
| Supervisor.IsolatedRun.Run | crates/polyontest-cli/src/main.rs:368-601 | The whole supervisor: an error when nothing was discovered, else all cases up to an aborting crash, one final Done event, and a failing exit exactly when failed is positive |
| Reporters.TableIsLastWord | crates/polyontest-builtins/src/reporter.rs:142-188 | The keyed table has one row per suite and name in order of first mention, each with the status and message that were said last |
| Reporters.ConsoleReporter.OnEvent | crates/polyontest-builtins/src/reporter.rs:34-77 | Counts case ends; a Done event replaces the counters |
| Reporters.JunitReporter.FindRow | crates/polyontest-builtins/src/reporter.rs:150-175 | The search from the end finds the last row of that suite and name |
| Reporters.JunitReporter.OnEvent | crates/polyontest-builtins/src/reporter.rs:142-188 | Updates the table in place as specified |
| Reporters.JunitReporter.Finish | crates/polyontest-builtins/src/reporter.rs:190-205 | The header counts all rows and the failed ones |
| Agreement.ConsoleMatchesRun | crates/polyontest-builtins/src/reporter.rs:34-77 | When the bytes of a run have all arrived and decode, the console counters are the totals, before Done overwrites them, if and only if the suite (cut to 255 characters) and the leaf of every case have at most 365 characters together |
| FailingInputs.VanishedCase | harness/c/polytest_core.c:372-399 | A failing input: a case whose suite and leaf have 366 to 378 characters together fails, the host receives the whole run and exits with a failure, but table and console counters stay empty |
| Agreement.ConsoleMatchesSupervisor | crates/polyontest-builtins/src/reporter.rs:34-77 | After an isolated run they are if and only if no processed child crashed after reporting a pass or a skip |
| JunitAgreement.JunitMatchesRun | crates/polyontest-builtins/src/reporter.rs:142-205 | For what the reporter is handed when the bytes of a run have all arrived and decode: while suite fixtures report no failure, the table has one row per case and the run's failures if and only if the cases' names, as the wire cuts them, are distinct and fit their messages; when they are, and the case that was current before is none of them, it does so if and only if every failure that reached the host was reported inside a case or behind a failed one, and then each row has its case's outcome |
| FailingInputs.MergedSuites | crates/polyontest-builtins/src/codec.rs:367-372 | A failing input: two cases in two suites whose names agree in their first 255 characters share a row, although everything fits and arrives |
| JunitAgreement.LateFailure | harness/c/polytest_core.c:624-656 | When the last case did not fail and all was well until then, a failure that its suite's teardown reports and that fits its message makes the table count exactly one failure more than the totals |
| FailingInputs.TornSuite | harness/c/polytest_core.c:624-656 | A failing input of that kind: one passing case, a complaining teardown, no failure in the totals and one in the table |
| JunitIsolated.JunitMatchesSupervisor | crates/polyontest-builtins/src/reporter.rs:142-205 | For children that each speak of one row, end it at most once and do not end silently, crashed or not, the table of an isolated run has one row per processed case if and only if those rows' names are distinct; its failures are then the announced failed count |
| JunitDevice.CleanChildBehaves | harness/c/polytest_core.c:711-730 | A clean child of a registered case with quiet suite fixtures speaks of the name cut to the leaf buffer only; it speaks of the name the supervisor uses if and only if group and name have at most 127 characters together with their dot |
| JunitDevice.JunitMatchesDevice | crates/polyontest-cli/src/main.rs:374-591 | For clean children with quiet suite fixtures the table has one row per discovered case, with the announced failures, if and only if no two cases share a suite and the first 127 characters of group and name |
| JunitDevice.SharedRow | harness/c/polytest_core.c:264-271 | Two clean children that speak of the same cut name, the first failing and the second passing, share a row: the failure is in the totals but not in the table |
| FailingInputs.LongNamesMeet | harness/c/polytest_core.c:264-271 | A failing input of that kind: two distinct discoverable cases run in clean device children |
| JunitDevice.CrashOfLongName | crates/polyontest-cli/src/main.rs:533-558 | A child that speaks of a cut name, reports a pass and then crashes leaves two rows |
| FailingInputs.LongNameCrashes | crates/polyontest-cli/src/main.rs:533-558 | A failing input of that kind: a device child sends the whole run of a passing case with a long name and exits with another status |
| Xml.EscapeRoundTrip | crates/polyontest-builtins/src/reporter.rs:230-235 | The escaped text has no markup character left and a reader gets the original back |
| Drain.DrainStream | crates/polyontest-cli/src/main.rs:240-307 | Reports every event up to the first Done event and ends as events, decoder and transport say, in this order |
| Drain.EndMeaning | crates/polyontest-cli/src/main.rs:262-307 | Without a Done event the process ends well exactly when every chunk decodes and the stream closes |
| Drain.ClosesMeaning | crates/polyontest-cli/src/main.rs:266-298 | Reading stops at the first read without bytes; the end of the stream and a broken pipe close it, another error or the deadline does not |
| Drain.FirstDoneMeaning | crates/polyontest-cli/src/main.rs:270-287 | What is reported ends with the first Done event, whose failed count decides |
| Drain.RunIsDrained | crates/polyontest-cli/src/main.rs:262-288 | When all bytes of a run arrive and decode, exactly the messages that fit are reported, all of them when all fit, and the process fails exactly when the announced failed count is not zero, however the bytes were cut |
| Drain.LostTotal | crates/polyontest-cli/src/main.rs:258-307 | For every byte prefix of a run: the exit status is right if and only if all of the run arrived, or the stream merely closed and nothing had failed, or the transport failed and something had; a stream that closes anywhere before the end reports its first events and counts as a success |
| TextBuffers.AppendAll | harness/c/polytest_assert.c:17-95 | Any chain of string, decimal and hexadecimal appends from position 0 leaves the whole text cut to capacity minus one with the cursor below capacity, terminated as soon as one of them is not a NULL string |
| TextBuffers.AppendStr | harness/c/polytest_assert.c:17-27 | An append leaves the old text and the new piece cut to capacity minus one, terminated, with the cursor below capacity |
| TextBuffers.U64Div10 | harness/c/polytest_assert.c:29-42 | The shift-and-subtract loop leaves the exact quotient and remainder by ten for every 64-bit value |
| TextBuffers.ReversedDigits | harness/c/polytest_assert.c:44-56 | The digit loop stores the number's digits in reverse and never uses more than 20 of its 32 places |
| TextBuffers.AppendU64 | harness/c/polytest_assert.c:44-61 | Prints the decimal digits, cut to what fits |
| TextBuffers.AppendI64 | harness/c/polytest_assert.c:63-75 | Prints sign and magnitude, including the least value, cut to what fits |
| TextBuffers.AppendHex | harness/c/polytest_assert.c:77-95 | Prints 0x and one to sixteen nibbles, most significant first, cut to what fits |
| TextTools.HexMeaning | harness/c/polytest_assert.c:77-95 | The hexadecimal digits denote the number's last nibbles |
| TextBuffers.NibblesMeaning | harness/c/polytest_assert.c:80-86 | Between one and sixteen digits are printed, as many as asked for when possible |
| TextTools.SignedMeaning | harness/c/polytest_assert.c:63-75 | A signed number prints a minus sign exactly when negative, and the digits of its magnitude |
| TextBuffers.AppendLong | harness/c/polytest_core.c:231-257 | The runner's own signed printer does the same by division |
| TextTools.DecimalRoundTrip | harness/c/polytest_assert.c:44-61 | The printed digits denote the number |
| DeviceText.FailureTextMeaning | harness/c/polytest_assert.c:97-108 | The message begins with its base and ends with the caller's words, with a colon and a space in between; without words it is the base |
| DeviceText.FailMsg | harness/c/polytest_assert.c:97-108 | The message of a failed assertion is its base and the caller's own words, cut to 255 characters |
| DeviceText.TextWriter.EmitFailure | harness/c/polytest_core.c:441-452 | Prints the failure line, cut to its 320-byte buffer |
| DeviceText.TextWriter.EmitSuiteEnd | harness/c/polytest_core.c:637-651 | Prints the suite's totals, cut to the 160-byte buffer |
| DeviceText.TextWriter.EmitNote | harness/c/polytest_core.c:679-810 | Every note prints exactly its line |
| TextCodec.TextCodec.DecodeFeed | crates/polyontest-builtins/src/codec.rs:69-80 | Yields the readings of all complete lines and keeps the residue; it never fails |
| TextCodec.LineRoundTrip | crates/polyontest-builtins/src/codec.rs:83-185 | The line of every plain event is parsed back to it, up to the place of a failure |
| TextCodec.TagIsSeen | crates/polyontest-builtins/src/codec.rs:83-175 | A line that begins with one tag is never taken for another |
| TextCodec.SeenTagMeaning | crates/polyontest-builtins/src/codec.rs:83-175 | A line is of a kind exactly when it begins with that kind's word |
| TextCodec.NameMeaning | crates/polyontest-builtins/src/codec.rs:182-185 | A case is named by everything before and behind the first dot; without one there is no event |
| TextCodec.FailMeaning | crates/polyontest-builtins/src/codec.rs:148-174 | How any failure line is told apart and split |
| TextCodec.CountsMeaning | crates/polyontest-builtins/src/codec.rs:97-116 | A suite's end has a name as its first word, or is no event; the counters start from zero |
| TextCodec.ReadCountsMeaning | crates/polyontest-builtins/src/codec.rs:104-113 | The last token that gives a counter decides it, and other tokens decide nothing |
| TextTools.ParseMeaning | crates/polyontest-builtins/src/codec.rs:106-106 | Counters parse exactly digits, maybe behind a plus sign, whose value fits 32 bits; all else counts as zero |
| TextCodec.TextStreamRoundTrip | crates/polyontest-builtins/src/codec.rs:28-80 | Any list of plain events, printed and fed in any chunks, comes back in order with an empty buffer |
| TextWire.NoteReads | crates/polyontest-builtins/src/codec.rs:83-180 | Each line the device prints uncut is read as its event; banner and skip lines contribute nothing |
| TextWire.NoteAgrees | harness/c/polytest_core.c:436-461 | Note by note the two paths carry the same event up to the place of a failure |
| TextWire.CaseStartLine | crates/polyontest-builtins/src/codec.rs:92-95 | A case's start line is read as that case if and only if its suite has no dot |
| Locks.EveryMoment | harness/c/polytest_core.c:101-114 | At every moment of every interleaving the lock has one holder, the wire is whole frames but for the holder's rest, each thread's events are logged in its own order, and the flags are right |
| Locks.StepKeepsInvariant | harness/c/polytest_core.c:213-218 | Each atomic step keeps all of that |
| Locks.NoDeadlock | harness/c/polytest_core.c:436-461 | Until all threads have finished some thread can take a step |
| Locks.StepsRunOut | harness/c/polytest_core.c:436-461 | Steps that are not mere waiting run out, so a run that always lets an enabled thread go finishes |

## Left out

- Strings outside single bytes: lossy UTF-8 decoding of split or invalid characters on the host is not modelled.
- Non-local control flow: an abort sets the failed flag and user code simply stops acting; `setjmp` and `longjmp` are not modelled.
- Unsigned counter wrap-around inside the runner: counters are unbounded and reduced to 32 bits where they are announced and where the exit code is decided.
- TextBuffers.AppendLong: `long` is taken to have 64 bits, so a count of 2^31 or more printed on a target with a 32-bit `long` is not modelled.
- Supervisor.IsolatedRun.Run: the number of received events is taken to stay below 2^32, as the 32-bit counters of the source would overflow beyond it.
- RunnerLaws.EveryRunIsWellBracketed: callbacks do not register cases, suites or groups while a run is under way.
- Isolation.IsolatedEqualsInProcess: children are clean and send COBS; what unclean children do to the totals is `Supervisor.SupervisorConserves`.
- Drain.DrainStream: the COBS codec only; with the text codec, which never fails, the loop is the same.
- Commands.ListCases: discovery leaves the head of the list stale before the process exits; the model stores the sorted list.
- TextWire.TextMatchesCobs: lines that are cut to their buffers are described by `DeviceText.LineOf` but not related to the other path.
- JunitAgreement.JunitMatchesRun: when suite fixtures do report failures, the case that an earlier run left current must not be among those selected.
- Agreement.ConsoleMatchesRun: streams that decode; when decoding fails the host returns an error and finishes no report.
- JunitDevice.JunitMatchesDevice: children are clean and their suite fixtures report no failure; arbitrary children are `JunitIsolated.JunitMatchesSupervisor`.
- Isolation.CleanChild: children send COBS; the text codec that `crates/polyontest-cli/src/main.rs:411` also allows is related to it by `TextWire.TextMatchesCobs` only.
- Reporters.JunitReporter.Finish: the counts of the header, not the layout of the XML document; attribute escaping is `Xml.EscapeRoundTrip`.
- Locks.InterleavedRun: COBS mode only; in text mode a line and its end are two separate writes, so lines of two threads may mix.
- Process spawning, pipes, reader threads, wall clocks and build commands: a child is an arbitrary sequence of events with an ending and an exit status, a transport an arbitrary sequence of reads.
- Parameterised messages, heap-registered cases, the compile-time profiles that drop features, the assertion front ends, and the C++ and Rust wrappers.
- The JSON reporter, TOML and command line configuration, and console printing.
