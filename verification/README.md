# Verified models of the DDS-RTPS interoperability suite

The interoperability suite runs `shape_main` applications of different DDS products against each
other and turns their console output into reports. This project models the parts of it that
carry proof obligations of their own, and proves what they promise.

* **Matching and wire format of the HDDS application** (`srcRs/HDDS/src/main.rs`).
  `Glob` is the partition-name matcher: its backtracking loop is proved to decide the relation
  `LiteralFirst`, which is then compared with the declarative relation `Matches` (`*` any
  sequence, `?` any byte). The two differ because the loop compares bytes before it looks for a
  star, so a star in the pattern that faces a star in the text is taken literally.
  `Codec` (with `Utf8` for Rust's lossy decoding) is the XCDR2 encoder and decoder of ShapeType,
  including the encoder's aborts and partial writes and the decoder's guess whether a DHEADER is
  present (section 7.4.2 of DDS-XTypes 1.3); `BareBody` is what the guess makes of a body that was
  sent without one.
  `Notifier` is `MatchNotifier`: the QoS check, the endpoint lists, the set of incompatible
  topics and the lines printed.
* **The test harness** (`interoperability_report.py`). `Harness` is the numbering of entities and
  events, `Protocol` the publisher and subscriber drivers and their parent as interleaved atomic
  steps, `ReturnCodes` the codes, and `Sights` what each process found in a run and how that decides
  its code. `Table` is the result table and the text that prints it,
  together with the reader of `benchmarking/junit_compare/loader.py`, `Outputs` the application
  output printed after the table, and `Patterns` says declaratively what the regular expressions of
  both look for; `Verdict` is the decision of `run_test` together with the classifier of the loader,
  `RoundTrip` what becomes of a test from the one to the other. `EndToEnd` joins protocol and pipeline.
* **The comparison pipeline** (`benchmarking/junit_compare`). `Results` loads a file, `Aggregate`
  counts statuses per test over many files, `GroupReport` builds totals and breakdowns, `Compare`
  compares neighbouring files and finds repeated changes, `Files` orders and groups the files by
  their names. `Sums` is addition over maps, `Sorting` Python's sort with a key of strings,
  `Sequences` lists without repetitions and what slicing does to concatenations.
* **The C++ publisher loop** (`srcCxx/shape_main.cxx`). `Motion` is the bouncing shape on one
  axis, `Publisher` the loop and its trace of events, `CoherentSets` what every trace looks like.
* **Discovery and spreadsheet** (`discovery/rtps_discovery_sniffer.py`,
  `generate_xlsx_report.py`). `Spdp` takes the fields of a participant and `Dissection` the
  candidate endpoints from a packet's dissection tree, `Discovery` merges packets into participants
  and endpoints, `JunitData` files results under publishers and subscribers, `Spreadsheet` lays out
  the tables.

Code that works by updating state is modelled by methods and classes, each proved against a
specification function or relation; the theorems are lemmas about those.

Some of the results say where the code does not do what it might be taken to promise, each with an
input that shows it and the exact condition under which it does:

* The glob decides every pattern rightly on a text exactly when the text has no star, and decides
  a pattern rightly on every text exactly when the pattern has none (`Glob.RightForEveryPattern`,
  `Glob.RightForEveryText`, `Glob.AStarFacingAStar`).
* The encoder's padding loop aborts instead of reporting a short buffer, exactly for buffers that
  end inside the padding (`Codec.EncodeSucceedsExactlyWhenItFits`, `Codec.PaddingCanAbort`).
* Encoding and decoding round-trip exactly when the low 32 bits of the body length are at least 16;
  below 4 GiB that is always so (`Codec.RoundTripExactlyWhenHeaderIsSeen`, `Codec.RoundTrip`,
  `Codec.HeaderCanBeMissed`).
* A body without a DHEADER is decoded rightly exactly when its colour has at most 14 bytes, or is
  one of certain colours of about four gigabytes that survive losing their first four bytes
  (`BareBody.BareBodyAcceptedExactlyWhen`, `BareBody.SomeColourSurvives`).
* An infinite offered deadline matches a finite requested one, against section 2.2.3.7 of DDS 1.4;
  in all other cases the deadline is decided as there (`Notifier.DeadlinesAreStandardExactlyWhen`,
  `Notifier.InfiniteOfferMatches`).
* Each application's output is read as table rows on its own, and such rows can change how a failed
  test is classified, though neither its raw tag nor whether it passed. It is taken for an
  unsupported feature exactly when some output holds a row with an unsupported code, and classified
  as its codes alone would have it exactly when none does and the mismatches in outputs, counted in,
  leave the dominant kind as it is (`RoundTrip.VerdictRoundTrip`,
  `RoundTrip.CodesAloneDecideExactlyWhen`, `RoundTrip.OutputsCanMislead`).
* `benchmarking/README_COMPARE_BUGS.md` (lines 167-171) asks for *any* produced infrastructure code,
  the loader for the *dominant* mismatch: they agree exactly when no infrastructure code was
  produced or the dominant mismatch is one (`Verdict.InfrastructureAsDocumentedExactlyWhen`,
  `Verdict.InfrastructureCanBeOutvoted`). The model follows the loader, which also has no group for
  `FILTER_NOT_CREATED` (`Verdict.FailureKinds`).
* Coherent sets are bracketed in every run of at most 2^32 iterations; in longer runs exactly when
  the set size divides 2^32 (`CoherentSets.CoherentSetsAreWellFormedExactlyWhen`).
* `choose_all_files` promises chronological order. A name of the old format is sorted before one of
  the new exactly when its year is no later, so the dated files come in time exactly when no old name
  of the same year is later than a new one (`Files.OldComesBeforeNewExactlyWhen`,
  `Files.ChosenInTimeExactlyWhen`); a report of New Year's Day can be returned as newer than that of
  the New Year's Eve after it (`Files.ANewYearsEveComesFirst`).
* A packet is reported as one endpoint at most, unless the topic or type found last in it is empty: of
  several endpoints announced in it only the last is reported, and parts none of which is an endpoint
  are reported as one (`Dissection.APacketIsOneCandidate`, `Dissection.TheLastAnnouncementWins`,
  `Dissection.OneOfTwoIsReported`, `Dissection.PartsAreMixed`).
* The unlabelled rows of the second spreadsheet table stand beside the right labels exactly when
  its tests, in order of first appearance, begin those of the first, and its title stands over it
  exactly when the product subscribes too and was run against every subscribing product
  (`Spreadsheet.RowsLineUpExactlyWhen`, `Spreadsheet.TitleStandsOverTheTableExactlyWhen`,
  `Spreadsheet.TitleCanBeMisplaced`, `Spreadsheet.RowsCanBeMislabelled`).

## Model

| member | source | states |
|---|---|---|
| Glob.FnmatchGlob | srcRs/HDDS/src/main.rs:280-303 | the loop accepts exactly the pairs in the relation `LiteralFirst`, within t·(p+1)+p iterations for a text of t and a pattern of p bytes |
| Glob.SkipStars | srcRs/HDDS/src/main.rs:303-307 | once the text is used up, what is left of the pattern is accepted exactly when it is all stars |
| Glob.LastStarSuffices | srcRs/HDDS/src/main.rs:292-299 | giving a star more text never lets a later part of the pattern be reached earlier, so only the last star needs remembering |
| Glob.NewStarSubsumesOld | srcRs/HDDS/src/main.rs:292-295 | everything still acceptable by extending the forgotten star is acceptable by extending the new one |
| Glob.BackStep | srcRs/HDDS/src/main.rs:296-299 | backing up to the last star loses and gains no acceptance |
| Glob.LiteralFirstIsSound | srcRs/HDDS/src/main.rs:279-307 | whatever the loop accepts, the pattern matches declaratively |
| Glob.LiteralFirstIsComplete | srcRs/HDDS/src/main.rs:279-307 | if pattern or text is free of stars, every declarative match is accepted |
| Glob.AgreeWithoutFacingStars | srcRs/HDDS/src/main.rs:279-307 | acceptance implies a match, and is equivalent to it unless both sides hold a star |
| Glob.RightForEveryPattern | srcRs/HDDS/src/main.rs:288-292 | every pattern is decided rightly on a text if and only if the text has no star |
| Glob.RightForEveryText | srcRs/HDDS/src/main.rs:288-292 | a pattern is decided rightly on every text if and only if it has no star |
| Glob.AStarFacingAStar | srcRs/HDDS/src/main.rs:288-292 | the pattern `*` matches the text `*b` and is not accepted |
| Utf8.LossyFixesExactlyTheValid | srcRs/HDDS/src/main.rs:586 | lossy decoding leaves a byte string alone if and only if it is well-formed UTF-8 |
| Utf8.LossyNeverShrinks | srcRs/HDDS/src/main.rs:586 | lossy decoding never makes a byte string shorter |
| Utf8.LossyOfStrays | srcRs/HDDS/src/main.rs:586 | continuation bytes without a lead are replaced one by one |
| Utf8.LossyWithoutLastByte | srcRs/HDDS/src/main.rs:586 | valid text without its last byte is repaired to what it was if and only if it ended in U+FFFD |
| Utf8.EncodingsAreWellFormed | srcRs/HDDS/src/main.rs:586 | the encoding of any Unicode scalar value passes as one character, whatever follows it |
| Utf8.WellFormedIsEncoded | srcRs/HDDS/src/main.rs:586 | and whatever passes is the encoding of one |
| Utf8.IllFormedIsMaximal | srcRs/HDDS/src/main.rs:586 | what one replacement stands for is a single byte or the longest beginning of a character |
| Codec.EncodeCdr2Le | srcRs/HDDS/src/main.rs:488-548 | for every shape and buffer: success, a too-small report or an abort, and the exact contents of the buffer afterwards, including what a failing call has already written |
| Codec.EncodePadding | srcRs/HDDS/src/main.rs:513-518 | the padding loop aborts exactly when the buffer ends inside the padding |
| Codec.FillHeader | srcRs/HDDS/src/main.rs:543-547 | the back-patched header completes the wire form and leaves the bytes after it alone |
| Codec.EncodeSucceedsExactlyWhenItFits | srcRs/HDDS/src/main.rs:513-555 | a buffer of `max_cdr2_size` bytes always suffices and at most three bytes of it go unused; success exactly when the wire form fits, abort exactly when the buffer ends inside the padding |
| Codec.PaddingCanAbort | srcRs/HDDS/src/main.rs:513-518 | with an empty colour the abort happens exactly for buffers of 9 to 11 bytes |
| Codec.DecodeCdr2Le | srcRs/HDDS/src/main.rs:558-630 | on every byte string the decoder computes the parse and either reports an early end or a consumed length within the input |
| Codec.Le32RoundTrip | srcRs/HDDS/src/main.rs:524-536 | a number written as four little-endian bytes reads back modulo 2^32, and exactly if it is an i32 |
| Codec.MembersRoundTrip | srcRs/HDDS/src/main.rs:576-630 | the members of any shape read back from any 4-byte boundary, whatever surrounds them |
| Codec.WireIsDelimited | srcRs/HDDS/src/main.rs:562-574 | encoder output has a body of at least 24 bytes, and its header is seen exactly when the body length modulo 2^32 is at least 16 |
| Codec.RoundTripExactlyWhenHeaderIsSeen | srcRs/HDDS/src/main.rs:488-631 | decoding what was encoded, followed by anything, gives back shape and length if and only if the header value reads as a header |
| Codec.RoundTrip | srcRs/HDDS/src/main.rs:488-631 | below 4 GiB the round trip holds for every shape and every trailing bytes |
| Codec.EncodedBuffersDecode | srcRs/HDDS/src/main.rs:488-631 | below 4 GiB a successful call leaves bytes that decode to the shape, as many as it reports, and does not touch those after them |
| Codec.DecodesExactlyWhatIsLaidOut | srcRs/HDDS/src/main.rs:558-630 | the decoder accepts exactly the byte strings that fall into header, length, colour, padding, three numbers, count and payload as the format has them, and yields what these stand for |
| Codec.HeaderCanBeMissed | srcRs/HDDS/src/main.rs:571-574 | a shape whose body is exactly 4 GiB long is not read back |
| Codec.UndelimitedLength | srcRs/HDDS/src/main.rs:571-590 | a value parsed without a header has consumed no more than its own members need |
| BareBody.BareBodyAcceptedExactlyWhen | srcRs/HDDS/src/main.rs:562-575 | for every shape, a body sent without a DHEADER decodes to the same value if and only if its colour has at most 14 bytes or survives the loss of its first four |
| BareBody.CutBetweenCharacters | srcRs/HDDS/src/main.rs:580-588 | a colour cut between two characters comes back shorter than it was |
| BareBody.CutInsideACharacter | srcRs/HDDS/src/main.rs:580-588 | a colour cut inside a character begins with one U+FFFD for each byte left of it |
| BareBody.OnlyTwoReplacements | srcRs/HDDS/src/main.rs:580-588 | cut inside a character, only a colour that begins with two U+FFFD comes back |
| BareBody.ComesBackExactlyWhen | srcRs/HDDS/src/main.rs:580-588 | which colours come back whole: two U+FFFD in front, and one of two lengths |
| BareBody.BareMembers | srcRs/HDDS/src/main.rs:576-618 | where the supposed length puts the numbers right, everything but the colour is read rightly |
| BareBody.SomeColourSurvives | srcRs/HDDS/src/main.rs:580-588 | such a colour exists |
| Notifier.PartitionNamesAreMatchedRightly | srcRs/HDDS/src/main.rs:256-275 | partition names intersect only if one matches the other declaratively, and always then unless both hold a star |
| Notifier.TheFirstBrokenRuleIsNamed | srcRs/HDDS/src/main.rs:196-276 | the check accepts exactly when every offered/requested rule is met, each stated on the two QoS alone - representation, reliability, ownership, deadline, durability, partitions - and otherwise names the first that is not |
| Notifier.SameQosMatches | srcRs/HDDS/src/main.rs:196-276 | a writer and a reader with the same QoS are always compatible |
| Notifier.MatchesAreMonotone | srcRs/HDDS/src/main.rs:196-276 | a match survives a stronger offer and a weaker request |
| Notifier.DeadlinesAreStandardExactlyWhen | srcRs/HDDS/src/main.rs:241-249 | the deadline is decided as in section 2.2.3.7 of DDS 1.4 except exactly when an infinite period is offered for a finite request |
| Notifier.InfiniteOfferMatches | srcRs/HDDS/src/main.rs:241-249 | two endpoints that differ only in an infinite offer and a finite request match |
| Notifier.MatchNotifier.ReportIncompatible | srcRs/HDDS/src/main.rs:90-95 | marking a topic and printing the line for it go together |
| Notifier.MatchNotifier.AddWriterTopic | srcRs/HDDS/src/main.rs:97-141 | registering a writer appends it and, for each reader known before, prints an incompatibility line exactly when the rules call for one and never a match |
| Notifier.MatchNotifier.AddReaderTopic | srcRs/HDDS/src/main.rs:143-190 | registering a reader appends it and announces each known writer as matched, or names the first policy it breaks |
| Notifier.MatchNotifier.OnEndpointDiscovered | srcRs/HDDS/src/main.rs:319-404 | the new state after a discovery, per local endpoint of the topic |
| Notifier.MatchNotifier.OnReaderDiscovered | srcRs/HDDS/src/main.rs:328-367 | a remote reader is paired with every local writer of its topic, marked topics not being published |
| Notifier.MatchNotifier.OnWriterDiscovered | srcRs/HDDS/src/main.rs:368-402 | a remote writer is paired with every local reader of its topic |
| Notifier.MarksAndPublications | srcRs/HDDS/src/main.rs:90-404 | in every run a topic is marked exactly when an incompatible-QoS line was printed for it, and no on_publication_matched line follows its mark |
| Notifier.EveryLineIsJustified | srcRs/HDDS/src/main.rs:97-404 | in every run each line has a registered local endpoint and a foreign remote one of its topic that a call brought in: a match line two that meet every rule, an incompatibility line two of which its policy is the first rule broken |
| Notifier.DiscoveryAnswersEveryEndpoint | srcRs/HDDS/src/main.rs:328-402 | a discovery prints the line each local endpoint of the topic calls for, unless the partitions differ or the topic is marked |
| Notifier.OwnAndForeignPartitionsAreSilent | srcRs/HDDS/src/main.rs:321-345 | own endpoints, and remote ones in no common partition, change nothing |
| Notifier.CatchUpPassesOver | srcRs/HDDS/src/main.rs:109-123 | catching up with all endpoints found is catching up with the confirmed foreign ones in a common partition |
| Notifier.AddingAmongPassedOverIsSilent | srcRs/HDDS/src/main.rs:97-190 | adding an endpoint next to none of those only lists it |
| Notifier.AddingAnswersEveryEndpoint | srcRs/HDDS/src/main.rs:97-190 | every confirmed foreign endpoint found gets its line: a reader being added announces or reports each writer, a writer being added reports incompatible readers |
| Notifier.DiscoverySpeaksInOrder | srcRs/HDDS/src/main.rs:319-404 | the exact transcript of a discovery: the local endpoints of the topic in order, each with the one line its pair calls for, and the marks that go with the lines |
| Notifier.AddingSpeaksInOrder | srcRs/HDDS/src/main.rs:97-190 | the exact transcript of adding an endpoint: the known endpoints in order, each with its line; matches of a writer are silent |
| Notifier.EveryCallSpeaksInOrder | srcRs/HDDS/src/main.rs:97-404 | what any call prints, marks and lists, from any state, and nothing else |
| Harness.SetUp | interoperability_report.py:515-576 | parameter lists are rejected exactly when in some of them neither `-P` nor `-S` stands in front of a blank or at the end; otherwise entities and events are in one-to-one correspondence, numbered in list order within each role, `-P` going before `-S`, and samples are saved where `-w` stands |
| Harness.FlagsAreFound | interoperability_report.py:517-530 | the flag test finds a flag exactly where it stands in front of a blank or at the end |
| Harness.NumberAll | interoperability_report.py:529-572 | each entity's number is how many entities of its role come before it |
| Harness.ExtendKeepsWellFormed | interoperability_report.py:515-572 | adding an entity keeps the correspondence of entities and events |
| Protocol.NextInv | interoperability_report.py:132-223 | every step of any process or of the parent keeps the invariant that ties program points, events and return codes |
| Protocol.PubStepInv | interoperability_report.py:284-424 | every step of a publisher driver keeps the invariant |
| Protocol.SubStepInv | interoperability_report.py:132-223 | every step of a subscriber driver keeps the invariant |
| Protocol.ParentStepInv | interoperability_report.py:528-581 | launching and joining keep the invariant |
| Protocol.ReachableInv | interoperability_report.py:528-581 | the invariant holds in every reachable state, for any number of processes and any interleaving |
| Protocol.AllSetMeansAllAnnounced | interoperability_report.py:407-417 | the events of a role are all set exactly when every process of that role has set its own |
| Protocol.WaitsAreRespected | interoperability_report.py:212-218 | no subscriber stops before every publisher has set its event, and no publisher leaves its polling loop without end-of-file before every subscriber has |
| Protocol.StepIsLocal | interoperability_report.py:475-490 | only process i writes return code i, and only it moves itself |
| Protocol.StepsStutterOrDescend | interoperability_report.py:406-416 | every step either only drains output or lowers a rank |
| Protocol.NeverStuck | interoperability_report.py:212-217 | until the parent has joined all, some step is enabled that lowers the rank: the mutual waits never deadlock |
| Protocol.CanAlwaysFinish | interoperability_report.py:580-581 | from every state that satisfies the invariant the test can be brought to its end |
| Protocol.ChangesAreBounded | interoperability_report.py:406-416 | in every run the number of steps that change anything is bounded by the rank used up |
| Protocol.ResultsAreComplete | interoperability_report.py:580-602 | when the results are read, every slot holds a code and all events are set; publisher slots hold publisher codes only |
| Sights.CodesSayWhatWasSeen | interoperability_report.py:132-424 | in every finished run, whatever the interleaving, the code of a process is the one its own sights call for: the patterns that led on, in order, and then the last thing it found |
| Sights.SubscriberCodesAreDecided | interoperability_report.py:132-210 | read the other way: a subscriber has the verdict of the check exactly when data came, and otherwise the code that belongs to the pattern, the time-out or the end it met, and how far it had come |
| Sights.PublisherCodesAreDecided | interoperability_report.py:284-405 | a publisher has each code exactly when it found the pattern for it, and is content exactly after a match, or after 501 samples if it saves them |
| Sights.PublisherTimeoutsAreDecided | interoperability_report.py:284-405 | the other codes exactly after a time-out or an end of output, each saying how far the publisher had come |
| Sights.PublishersWaitOrMeetTheEnd | interoperability_report.py:406-424 | a publisher past its polling loop found every subscriber finished, or met the end of its output while it polled |
| Table.BuildMessage | interoperability_report.py:696-715 | the message built step by step is the table, the information blocks and no escape sequences |
| Table.ParseOutcomeRows | benchmarking/junit_compare/loader.py:18-32 | the reader returns the leftmost non-overlapping matches, stripped, without headings |
| Table.RowReadsBack | benchmarking/junit_compare/loader.py:18-20 | three printed cells match the row pattern and leave what follows |
| Table.HeaderIsSkipped | benchmarking/junit_compare/loader.py:18-31 | the heading row of the printed table yields no row |
| Table.TableReadsBack | interoperability_report.py:696-715 | reading the printed message gives exactly the printed rows in order, then whatever the text after the table would give on its own |
| Patterns.AnsiLengthIsThatOfTheEscape | rtps_test_utilities.py:56-59 | what is deleted at a position is exactly the escape sequence that begins there, if one does |
| Patterns.RowIs | benchmarking/junit_compare/loader.py:18-20 | a row is found exactly where three cells stand that only blanks separate, with just these texts |
| Patterns.StripIs | benchmarking/junit_compare/loader.py:27-31 | stripping takes the blanks off both ends, all of them, and nothing else |
| Patterns.EditedReplacesLineEnds | interoperability_report.py:683-687 | line ends and ETX become `<br>`, all else stays in order |
| Outputs.NoCellNoRows | benchmarking/junit_compare/loader.py:18-27 | text without `<th>` gives no rows |
| Outputs.StripCut | rtps_test_utilities.py:56-59 | no escape sequence reaches past a blank and a tag, so each output is stripped on its own |
| Outputs.FindAllCut | benchmarking/junit_compare/loader.py:18-27 | no match of the row pattern reaches past a blank and a line break, so the text before and the text after are searched independently |
| Outputs.EachOutputIsReadAlone | interoperability_report.py:711-715 | what follows the table is read as the rows in each output, output by output, and nothing else |
| Outputs.QuietOutputsAddNoRows | interoperability_report.py:696-715 | outputs that show no `<th>` are read as no rows |
| Outputs.PlainOutputIsQuiet | interoperability_report.py:683-687 | an output without `<` and without escape characters shows no `<th>` |
| Outputs.PrintedRowIsRead | interoperability_report.py:683-715 | an output that is a printed row is read as that row |
| Verdict.DecideTest | interoperability_report.py:600-716 | passed without a message if all codes agree, otherwise skipped if some code is unsupported and failed if none is, with the printed message |
| Verdict.DominantAmongLeads | benchmarking/junit_compare/loader.py:86-87 | the dominant code is one of highest frequency, the earliest on a tie |
| Verdict.NameIsInjective | rtps_test_utilities.py:34-50 | different return codes have different names |
| Verdict.RowsSurviveTheReport | interoperability_report.py:696-716 | every (role, expected, produced) triple printed by the harness is recovered by the loader, in order, before the rows of each output |
| RoundTrip.VerdictRoundTrip | benchmarking/junit_compare/loader.py:37-99 | for every result that tells what its test case says: whatever the applications print, the codes decide the raw tag, whether the test is loaded as passed, and that a skip is loaded as unsupported; a failed test is loaded as unsupported exactly when some output holds a row with an unsupported code, and otherwise by a leading mismatch of all rows, those of the codes alone if no output shows a cell |
| RoundTrip.LoadedTestIsDecided | benchmarking/junit_compare/loader.py:102-156 | in the file as loaded: under the key of a test stands the status its codes and outputs decide, with the printed rows and those of the outputs, or none if it passed |
| RoundTrip.LoadedRows | benchmarking/junit_compare/loader.py:23-99 | for any outputs, what is classified is the printed rows and then the rows in each output on its own |
| RoundTrip.CodesAloneDecideExactlyWhen | benchmarking/junit_compare/loader.py:75-99 | a failed test is classified as its codes alone would have it exactly when no output holds an unsupported code and the mismatches in outputs leave the dominant kind as it is |
| RoundTrip.OutputsCanMislead | benchmarking/junit_compare/loader.py:75-78 | any one of any number of applications that prints a row with an unsupported code turns a failure of the test into an unsupported feature |
| Verdict.MisleadingRow | benchmarking/junit_compare/loader.py:23-32 | such a row can be printed |
| Verdict.InfrastructureAsDocumentedExactlyWhen | benchmarking/junit_compare/loader.py:80-98 | the documented rule and the loader agree on infrastructure failures exactly when none was produced or the dominant mismatch is one |
| Verdict.InfrastructureCanBeOutvoted | benchmarking/junit_compare/loader.py:86-98 | one reader not matched and two times no data is classified as a data failure |
| Verdict.SkippedKinds | benchmarking/junit_compare/loader.py:68-73 | a skipped case without unsupported codes counts as passed exactly when no row is a mismatch, and a failure without any mismatch is of no kind |
| Verdict.FailureKinds | benchmarking/junit_compare/loader.py:89-99 | each failure kind stands for exactly its group of codes; only a content filter that was not created has none |
| Verdict.LabelIsReadable | interoperability_report.py:547-572 | entity labels survive printing and reading and are never taken for a heading |
| EndToEnd.LabelTells | interoperability_report.py:546-572 | a label is the role and, in decimal digits, how many entities of that role there are up to here |
| EndToEnd.LabelsAreDistinct | interoperability_report.py:546-572 | no two rows of a table carry the same label |
| EndToEnd.AnyRunIsLoadedByItsCodes | interoperability_report.py:580-716 | whatever the interleaving and the outputs, in the loaded file a finished test has the status and the rows that the codes of its processes and the rows in single outputs decide, and each of these codes is the one that what its process found calls for |
| EndToEnd.PlainOutputsAreQuiet | interoperability_report.py:683-687 | outputs without `<` and without escape characters print no table cell |
| Results.IndexByKey | benchmarking/junit_compare/loader.py:152-154 | the index holds exactly the results, each under its key, and fails exactly on a repeated key |
| Results.LoadResults | benchmarking/junit_compare/loader.py:104-156 | every case of every suite stands under its own key and nothing else does: the failure element, or else the error, or else the skip gives tag, detail and rows, none of them a pass, and the classifier the rich status; or the file is refused for a repeated key |
| Results.KeyTells | benchmarking/junit_compare/loader.py:112-118 | a key is the suite, the name, and every attribute but name and time, each as often as it is there, in text order |
| Results.LabelTells | benchmarking/junit_compare/models.py:75-78 | a label is suite and name with a slash between them, and behind them in brackets the attributes, if there are any |
| Results.JoinBoth | benchmarking/junit_compare/models.py:77 | between any two attributes of a label stand a comma and a blank |
| Results.DetailIsBoth | benchmarking/junit_compare/loader.py:159-162 | the detail is message and text of the result element, both stripped, with a line end between them if there are both; the outer strip never takes anything |
| Results.KeyIgnoresAttributeOrder | benchmarking/junit_compare/loader.py:112-118 | the key of a case does not depend on the order of its attributes |
| Results.StatusFitsTag | benchmarking/junit_compare/loader.py:119-140 | the rich status of a test case refines its raw tag |
| Sums.SumWithout | benchmarking/junit_compare/analyzer.py:187-189 | a sum over a map does not depend on the order of its entries |
| Sums.TotalAfterAdding | benchmarking/junit_compare/analyzer.py:195-201 | adding n under any key adds n to the total |
| Sorting.SortedIsUnique | benchmarking/junit_compare/analyzer.py:34-38 | elements told apart by their sort keys have only one sorted order |
| Aggregate.StatusSummaryRow.Add | benchmarking/junit_compare/report_data.py:80-81 | one more of this status, all other counts as before |
| Aggregate.Record | benchmarking/junit_compare/analyzer.py:76-80 | the row of the label is found or created and counts one more; rows of other labels are untouched and no two labels share a row |
| Aggregate.TallyFile | benchmarking/junit_compare/analyzer.py:74-80 | one more file is tallied, in whatever order its results come |
| Aggregate.AggregateStatuses | benchmarking/junit_compare/analyzer.py:71-81 | each row counts exactly the results of its label and status over all files, the rows together count every result once, under any choice of labels and for each status as many as there are, and a label has a row only if it was met |
| GroupReport.BreakDown | benchmarking/junit_compare/analyzer.py:191-201 | per name, and altogether, the failures of the tests under that name, for any naming |
| GroupReport.TotalStatuses | benchmarking/junit_compare/analyzer.py:145-149 | each status total is the sum of that status over all rows |
| GroupReport.RowsConserveResults | benchmarking/junit_compare/report_data.py:85-106 | every result is a pass, a real failure, an unsupported skip or another skip, and only one of them |
| GroupReport.ReportConserves | benchmarking/junit_compare/analyzer.py:186-201 | the totals of a report agree with its status totals; feature failures sum to all failures, publisher and subscriber failures to the same number, at most that |
| GroupReport.FlakyReportConserves | benchmarking/junit_compare/analyzer.py:159-184 | exactly the tests that both passed and really failed are flaky; their failures are all broken down by feature and are part of all failures; publisher and subscriber breakdowns agree, in failures and in tests |
| GroupReport.BuildGroupReport | benchmarking/junit_compare/analyzer.py:135-221 | for any group of files every number is a count of loaded results: totals and status totals, the failures by feature, publisher and subscriber, the flaky tests with their passes and failures, the failures and the numbers of flaky tests by name, and the labels met; the breakdowns conserve the failures |
| GroupReport.AllAreCounted | benchmarking/junit_compare/report_data.py:85-106 | passes are the results PASSED and PASSED_AS_SKIPPED, failures those of the six failure kinds and ERROR, skips SKIPPED_UNSUPPORTED, over all labels and under each name |
| GroupReport.FlakyFailuresCount | benchmarking/junit_compare/analyzer.py:170-184 | the flaky breakdowns count, under each name, the failures of exactly the labels that both passed and really failed |
| Compare.CompareFiles | benchmarking/junit_compare/analyzer.py:24-66 | the counts are those of the files, added and removed are the set differences, sorted and labelled, and the entries stand for the common tests, sorted, that differ in a compared field: each field is there exactly if the two files differ in it, with the value of the first file as first and that of the second as second |
| Compare.ChangesReport | benchmarking/junit_compare/analyzer.py:38-54 | the entries stand for the differing common tests one by one, in order, and show for each field both values or nothing |
| Compare.EntryOfTheTest | benchmarking/junit_compare/analyzer.py:38-54 | a common test whose label names no other has an entry exactly when a compared field differs, and only one, which shows its own values |
| Compare.OrderIsDetermined | benchmarking/junit_compare/analyzer.py:34-38 | the sorted order does not depend on how a set is walked |
| Compare.CountsBalance | benchmarking/junit_compare/analyzer.py:34-62 | added and removed account for the difference between the counts |
| Compare.RepeatedChangeTests | benchmarking/junit_compare/analyzer.py:112-120 | exactly the tests with more than one status change, each with its number of changes |
| Compare.OneEntryPerChange | benchmarking/junit_compare/analyzer.py:38-54 | a comparison has one status entry for a test if its raw status changed and none otherwise |
| Compare.EntriesAreFlips | benchmarking/junit_compare/analyzer.py:112-119 | over a series, the status entries of a test are exactly its changes between neighbouring files |
| Compare.FlakyRowsDisagree | benchmarking/junit_compare/report_data.py:131-136 | a flaky row stems from two files with different raw statuses |
| Compare.FlakyTestsAreReported | benchmarking/junit_compare/analyzer.py:71-120 | a test that is in every file and flaky is reported as changed by some comparison, and is among the repeated changes if the series ends with the status it began with |
| Files.DigitsByValue | benchmarking/junit_compare/file_registry.py:39-46 | digit strings of equal length are ordered as their numbers |
| Files.SortKeysAreChronological | benchmarking/junit_compare/file_registry.py:39-46 | the text order of the sort keys is the order of year, month, day and time as numbers |
| Files.FullNameReadsBack | benchmarking/junit_compare/file_registry.py:9-40 | a name written to the documented format, with or without duration, runner and batch, is read as it was meant |
| Files.SameDatesByName | benchmarking/junit_compare/file_registry.py:42-48 | names of one date, and names without any, are in the order of the names |
| Files.UndatedComeLast | benchmarking/junit_compare/file_registry.py:48 | a name without a date that begins with a letter comes after all dated ones |
| Files.OldComesBeforeNewExactlyWhen | benchmarking/junit_compare/file_registry.py:42-48 | a name of the old format is sorted before one of the new exactly when its year is no later |
| Files.SortedInTimeExactlyWhen | benchmarking/junit_compare/file_registry.py:42-48 | of two names in sorted order the first is dated no later than the second, unless it is of the old format, the second of the new, and both of one year |
| Files.ChosenFiles | benchmarking/junit_compare/file_registry.py:66-77 | exactly the files of the requested batch are chosen, in the order of their sort keys |
| Files.ChosenAsOftenAsThere | benchmarking/junit_compare/file_registry.py:66-77 | with no batch asked for every file is chosen once, otherwise exactly those whose names have it |
| Files.FollowsInTimeExactlyWhen | benchmarking/junit_compare/file_registry.py:66-77 | a chosen file has no later one in front of it exactly when no old name is out of order with it |
| Files.ChosenInTimeExactlyWhen | benchmarking/junit_compare/file_registry.py:66-77 | the dated files are chosen in order of time exactly when no old name is out of order with a new one, hence always for a batch |
| Files.TheTwoLatestExactlyWhen | benchmarking/junit_compare/file_registry.py:80-85 | with and without a batch the last two files are returned, and they are the two latest exactly when neither is out of order with an old name |
| Files.ChosenOutOfOrder | benchmarking/junit_compare/file_registry.py:66-85 | of any two reports of one year, the later one named in the old format, the earlier is returned as the newest |
| Files.ANewYearsEveComesFirst | benchmarking/junit_compare/file_registry.py:66-85 | two such names: the report of 1 January is returned as newer than that of 31 December of the same year |
| Files.GroupByParallel | benchmarking/junit_compare/analyzer.py:224-242 | every file is in exactly one place: the group of its parallel count, in order, or the ungrouped ones |
| Motion.StaysInBox | srcCxx/shape_main.cxx:1992-2013 | from any start in the box, every reachable state is in the box with its speed unchanged |
| Motion.ReachesRightWall | srcCxx/shape_main.cxx:1995-2004 | moving right, the shape is turned at the right wall after exactly (W-x)/v+1 steps, and not before |
| Motion.MirrorRun | srcCxx/shape_main.cxx:1997-2004 | both walls are treated alike |
| Motion.BouncingIsPeriodic | srcCxx/shape_main.cxx:1992-2013 | from a wall on, the motion repeats every two crossings |
| Motion.MeetsBothWalls | srcCxx/shape_main.cxx:1992-2013 | from any start in the box with non-zero velocity both walls are met within two crossings |
| Publisher.ShapePublisher.MoveShape | srcCxx/shape_main.cxx:1992-2013 | both axes advance and bounce independently |
| Publisher.ShapePublisher.WriteAll | srcCxx/shape_main.cxx:2066-2093 | one write per topic and instance, in order, all with the same content |
| Publisher.ShapePublisher.Iterate | srcCxx/shape_main.cxx:2044-2104 | one pass moves, resizes, and appends the bracketed writes |
| Publisher.ShapePublisher.Run | srcCxx/shape_main.cxx:2043-2117 | the loop ends after the requested iterations or the interrupt, having produced exactly the trace, position and size of that many iterations, with the counter wrapping at 2^32 |
| Publisher.NextSize | srcCxx/shape_main.cxx:2046-2054 | the closed form (n mod m)+1 obeys the update rule of the loop |
| CoherentSets.ReadIteration | srcCxx/shape_main.cxx:2057-2103 | an iteration adds topics·instances writes to the open set and ends it when it is the last |
| CoherentSets.RunsAreBracketed | srcCxx/shape_main.cxx:2043-2117 | in every run of at most 2^32 iterations, and in any run if the set size divides 2^32, begin and end alternate, every write is inside a set, every ended set is full, and the open one holds its share |
| CoherentSets.WrapBreaksTheBrackets | srcCxx/shape_main.cxx:2059-2108 | in any longer run with another set size some event is out of place |
| CoherentSets.CoherentSetsAreWellFormedExactlyWhen | srcCxx/shape_main.cxx:2043-2117 | the exact condition for well-formed sets, and where the run ends |
| CoherentSets.SizesCycle | srcCxx/shape_main.cxx:2046-2054 | with size 0 and modulus m, any m consecutive iterations write each size in 1..m exactly once |
| CoherentSets.SizesGrow | srcCxx/shape_main.cxx:2046-2054 | the first size is 1 and each next one more, or 1 again after the modulus, unless a size was asked for, which then stays |
| CoherentSets.EverySampleIsWritten | srcCxx/shape_main.cxx:2043-2104 | a run writes, iteration by iteration, topic by topic and instance by instance, the position of the shape after as many moves and the size of that iteration, and nothing else |
| CoherentSets.NoSetsWithoutAccess | srcCxx/shape_main.cxx:2057-2103 | without coherent or ordered access, or with a set size of 0, no set begins or ends |
| Discovery.UniqueLocators | discovery/rtps_discovery_sniffer.py:351-357 | first occurrences in order, each once |
| Discovery.AppendLocators | discovery/rtps_discovery_sniffer.py:377-382 | only locators not yet known are appended |
| Discovery.Accumulator.MergeParticipant | discovery/rtps_discovery_sniffer.py:346-382 | the participant is created or augmented, all others unchanged |
| Discovery.Accumulator.AppendEndpoints | discovery/rtps_discovery_sniffer.py:442-457 | complete candidates not yet known are appended |
| Discovery.Accumulator.Parse | discovery/rtps_discovery_sniffer.py:264-469 | the loop over packets computes the fold of its step |
| Spdp.WalkTree | discovery/rtps_discovery_sniffer.py:254-262 | the walk notes every key of every dictionary in the tree, the keys of a dictionary before those below it |
| Spdp.InspectNode | discovery/rtps_discovery_sniffer.py:288-342 | what one dictionary says, key by key |
| Spdp.LastKeysWin | discovery/rtps_discovery_sniffer.py:288-327 | prefix, vendor, version, lease and endpoint set are each what the last key says that says it at all |
| Spdp.WhatACaptureSays | discovery/rtps_discovery_sniffer.py:264-362 | a packet, field by field, in terms of the keys of its tree and the fields of its header: prefix, vendor, version, lease and endpoint set as the last key says that says it, vendor and version otherwise from the header |
| Spdp.LocatorIsSaid | discovery/rtps_discovery_sniffer.py:328-344 | a key gives a locator exactly when its name speaks of one and address and port stand beside it, and its kind is by its name |
| Spdp.LocatorsAreCollected | discovery/rtps_discovery_sniffer.py:328-344 | the locators are those of all keys that give one, in order of the walk |
| Spdp.ParseCapture | discovery/rtps_discovery_sniffer.py:264-469 | from the dissection trees the report is the fold over the packets read off them |
| Spdp.LocatorsComeFromTheTrees | discovery/rtps_discovery_sniffer.py:264-382 | a locator is reported for a participant exactly when a packet under its prefix has it anywhere in its tree |
| Discovery.ParticipantsAreMergedFromTheirPackets | discovery/rtps_discovery_sniffer.py:346-382 | a participant is reported exactly when a packet carries its prefix, with the identity of its first packet, its last non-zero lease, its first non-empty flags and all its locators, whatever other packets came between |
| Discovery.ParticipantsAreRecorded | discovery/rtps_discovery_sniffer.py:346-382 | the same in terms of single packets: the prefix from the parameters or else the header, 20 seconds without a lease, "unknown" without an endpoint set, the last lease that is not 0, the first flags there are, each locator once |
| Sequences.AddNewKeeps | discovery/rtps_discovery_sniffer.py:351-382 | known locators stay in place, none is lost and none is repeated |
| Discovery.NothingIsReportedTwice | discovery/rtps_discovery_sniffer.py:349-457 | after any packets, endpoints are unique by guid and topic and locators are unique per participant |
| Discovery.EndpointsAreTheFirstSeen | discovery/rtps_discovery_sniffer.py:442-457 | for each guid and topic the report holds the first complete candidate offered, or none |
| Discovery.EndpointsAreFirstOffers | discovery/rtps_discovery_sniffer.py:440-457 | an endpoint is reported exactly when some packet offers it, with the values of the first offer of all, the address of its packet, and BEST_EFFORT, VOLATILE and SHARED for what it does not name |
| Discovery.ReplayChangesOnlyLeases | discovery/rtps_discovery_sniffer.py:365-457 | packets already seen, in any order and number, can change nothing but leases |
| Discovery.ParsingTwiceIsParsingOnce | discovery/rtps_discovery_sniffer.py:264-469 | parsing the list twice in a row gives what parsing it once gives |
| Dissection.InspectNotesInOrder | discovery/rtps_discovery_sniffer.py:392-437 | a candidate is what its fields say, noted one after the other in document order |
| Dissection.LaterNotesWin | discovery/rtps_discovery_sniffer.py:392-410 | of several topics, types or GUIDs the last one is kept |
| Dissection.APacketIsOneCandidate | discovery/rtps_discovery_sniffer.py:387-465 | a packet gives nothing unless it announces an endpoint and holds a topic, a type and a GUID; otherwise one candidate merged from everything in it, unless the topic or type found last is empty, when its parts are looked at one by one |
| Dissection.WhatAPacketReports | discovery/rtps_discovery_sniffer.py:387-465 | of everything in a packet, at any depth, the last topic, type and long GUID make the one endpoint it reports, with the last reliability, durability and ownership; none if one of the three is missing, and its parts one by one only if that topic or type is empty |
| Dissection.WordsAreThere | discovery/rtps_discovery_sniffer.py:389-391 | the search for the marking words never rejects a subtree that holds a topic and a GUID |
| Dissection.EachNameFromItsLastPart | discovery/rtps_discovery_sniffer.py:392-437 | topic, type and GUID are each taken from the last part of a packet that has one |
| Dissection.TheLastAnnouncementWins | discovery/rtps_discovery_sniffer.py:387-458 | of any number of endpoints announced in one packet only the last is reported |
| Dissection.OneOfTwoIsReported | discovery/rtps_discovery_sniffer.py:387-458 | a packet with two announcements, of which the second alone is reported |
| Dissection.PartsAreMixed | discovery/rtps_discovery_sniffer.py:387-458 | a packet of which no part is an endpoint, reported as one with the topic of one part and the GUID of another |
| JunitData.JunitTables.AddCases | generate_xlsx_report.py:275-341 | each case is filed under both products, and unsupported ones are counted |
| JunitData.JunitTables.Judge | generate_xlsx_report.py:282-304 | the status of a case and whether it counts as unsupported |
| JunitData.JunitTables.AddSuite | generate_xlsx_report.py:263-371 | one suite goes into both books, the summary and the table of pairs |
| JunitData.JunitTables.GetInfo | generate_xlsx_report.py:251-371 | the loop over suites computes the fold of its step; from an empty start every row of both summaries adds up from the numbers in the file, and every page of both books shows its cases |
| JunitData.BooksAreComplete | generate_xlsx_report.py:236-341 | a product's page holds every case of its suites in order, and exists exactly if there is one |
| JunitData.TwoViewsAgree | generate_xlsx_report.py:305-341 | what a publisher shows against a subscriber is what that subscriber shows against it |
| JunitData.BooksAgree | generate_xlsx_report.py:251-341 | the two books of a run agree on every pair of products |
| JunitData.ProductsThatPlay | generate_xlsx_report.py:350-359 | exactly the products that take part in a suite have a summary row |
| JunitData.SummaryCountsEachSuiteOnce | generate_xlsx_report.py:217-359 | a product's summary counts each suite it takes part in once, also when it is on both sides |
| JunitData.SummariesConserveSuites | generate_xlsx_report.py:344-371 | summed over products, suites across two products count twice and suites within one once; summed over pairs, every suite counts once |
| JunitData.TestsAreConserved | generate_xlsx_report.py:344-371 | the same for the numbers of tests and of unsupported tests |
| JunitData.SummariesAddUp | generate_xlsx_report.py:344-371 | for every product and every pair, passed with the failures, skips and errors of its suites are their tests, total is their tests, and unsupported their cases that say so |
| JunitData.PagesShowTheCases | generate_xlsx_report.py:251-341 | every page shows, one by one and in order, the cases in the file with the status their result deserves |
| JunitData.PairsCountWhatIsShown | generate_xlsx_report.py:344-371 | where every suite counts its own cases, the passed number of a pair is that of the entries the books show as passed for it, and the unsupported number that of those shown as unsupported |
| Spreadsheet.Worksheet.AddProductTable | generate_xlsx_report.py:677-761 | every cell of the sheet afterwards: headings and labels in order of first appearance, the last status of each pair at its crossing, all else as before |
| Spreadsheet.Worksheet.ColumnFor | generate_xlsx_report.py:706-721 | a new product gets the next column and its heading, a known one keeps its column |
| Spreadsheet.Worksheet.RowFor | generate_xlsx_report.py:723-739 | a new test gets the next row and, if wanted, its label |
| Spreadsheet.Worksheet.PutStatus | generate_xlsx_report.py:741-760 | the status is written at the crossing and nowhere else |
| Spreadsheet.Worksheet.AddProductTables | generate_xlsx_report.py:634-664 | the cells of a sheet with both tables of a product |
| Spreadsheet.Worksheet.AddStaticData | generate_xlsx_report.py:542-608 | the four titles are written and nothing else changes |
| Spreadsheet.Worksheet.AddProductSheet | generate_xlsx_report.py:630-675 | every text cell of the sheet: the titles in the first two rows, and from the third row on two tables with headings, labels and the status text of the last result at each crossing |
| Spreadsheet.LastResultIsShown | generate_xlsx_report.py:705-760 | the last result of a pair can be read under its product and beside its test |
| Spreadsheet.PairsHaveTheirOwnCells | generate_xlsx_report.py:705-739 | different pairs have different cells, none of them a heading or a label |
| Spreadsheet.BothTablesRead | generate_xlsx_report.py:634-760 | from row 3, column 2 on, and again after a free column, the sheet reads as the publisher and the subscriber results: products and tests in order of first appearance, and the texts of the statuses where they cross |
| Spreadsheet.TextsTellApart | generate_xlsx_report.py:741-753 | no text stands for two statuses |
| Spreadsheet.TitleStandsOverTheTableExactlyWhen | generate_xlsx_report.py:572-675 | on a product's sheet the cell under the second title holds the first heading of the second table exactly when the product subscribes too and was run as publisher against every subscribing product |
| Spreadsheet.TitleCanBeMisplaced | generate_xlsx_report.py:572-675 | for any two products, two suites for which the title stands a column right of the table, over nothing |
| Spreadsheet.RowsLineUpExactlyWhen | generate_xlsx_report.py:650-664 | each unlabelled row stands beside the label of its own test if and only if the tests of the second table begin those of the first |
| Spreadsheet.SuitesInOneOrderLineUp | generate_xlsx_report.py:630-664 | if every suite lists the same tests in the same order, the rows of every product's sheet line up |
| Spreadsheet.RowsCanBeMislabelled | generate_xlsx_report.py:650-664 | for any two products and tests, two suites for which a status stands beside the label of another test |

## Left out

- Protocol.NeverStuck: takes every scripted wait to end, as each has a timeout, and takes killing an application to succeed; real time, process spawning and `multiprocessing` itself are not modelled.
- Protocol.ResultsAreComplete: what a subscriber's check function returns is arbitrary, as the check functions are not part of this model.
- Verdict.RowsSurviveTheReport: treats XML attribute escaping between the two programs as the identity.
- Notifier.MarksAndPublications: each listener call is one atomic step; the interleaving of two calls between marking a topic and printing is not modelled.
- Notifier.MatchNotifier.AddWriterTopic: what the discovery library answers (known endpoints, confirmed participants) is a parameter, and data representations come only from the QoS, as in the QoS comparison.
- Codec.EncodeCdr2Le: lengths are unbounded; `usize` overflow cannot occur for data that fits in memory. The key hash and its MD5 are not modelled.
- Results.LoadResults: parsing the XML is not modelled: attributes, suites, cases and the result elements with their pieces of text are given.
- Compare.CompareFiles: the text by which keys are sorted is an arbitrary function of the key.
- GroupReport.BuildGroupReport: how a label names its feature, publisher and subscriber is an arbitrary function in place of the regular expressions; the flaky tests are a table by label, not sorted by their number of runs.
- Files.ChosenInTimeExactlyWhen: dates are compared to the minute, as a new name has no seconds; digits are the ten ASCII ones, and the listing of a directory is a given list of names.
- Publisher.ShapePublisher.Run: the interrupt flag is read between iterations only, as in the loop; random placement is an arbitrary start, shape coordinates and sizes do not overflow, and colours of instances are represented by their number.
- Spdp.ParseCapture: decoding and showing values, the address of a packet and a key's lower-case form are arbitrary functions; the order of participants in the report, history depth and type-object marks are left out, and `rtps` is a single dictionary.
- JunitData.JunitTables.GetInfo: product and test names and the upper-case form of a message are arbitrary functions of suite name, case name and message in place of the regular expressions and tables; a case counts as passed when it holds no result element, which is how the JUnit library defines it.
- Spreadsheet.Worksheet.AddProductSheet: formats, column widths, cells merged with a title and worksheet names cut to 31 characters are not modelled, nor are the summary and description sheets.
- The sample queues between publisher and subscriber drivers (`samples_sent`, `last_sample_saved`): they carry data for the check functions and take no part in the synchronisation.
- Unregistering and disposing instances at the end of the publisher, and the subscriber loops: decided by the DDS library.
- HTML, text and console rendering, option parsing, DDS entity creation, vendor configuration headers and the other shape applications.
