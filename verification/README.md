# Verified model of the Fornax capture and benchmark cores

This project models, in Dafny 4.11, the parts of Fornax whose correctness is hard to see by
reading one function at a time, and proves what they promise over whole runs, whole operation
lists and all inputs. `dafny verify dfyconfig.toml` checks everything.

What is modelled:

- **The rollout tailer** (`RolloutTail`, `TailRuns`, `TailLaws`): a resumable reader with a bounded window. It
  refines a plain line splitter for every interleaving of appends and reads.
- **The watcher and its restarts** (`Watch`, `CodexWatch`): ticks, saved and lost cursors, silent
  prefix replay, replaced and truncated files (`WatchFiles`). Each line is handled once and in order when no cursor is
  lost, at least once when some are, as long as no restart comes with lines unread before the first cursor is saved.
  What is forwarded for it depends only on the lines before it and on what a restart past the replay limit left unheard.
- **The Codex adapter** (`Codex`, `CodexRuns`, `CodexClaims`, `CodexNames`, `CodexSays`, `CodexNumbers`,
  `CodexAdapter`): a stateful translator of rollout lines. What it says of each line is read off the line's members.
  Its memory is characterised by the lines alone; guessed exit codes, batches, sessions, commands and the ids of all
  messages are characterised over every stream.
- **The tool-call recogniser** (`ToolProps`, `ExtractCmd`, `ExtractLaws`, `ToolLaws`): accepts exactly a printed
  grammar, both directions, and the grammar's words written out.
- **Deduplication keys** (`DedupKeys`): exactly when two keys coincide.
- **The JSON document mutator** (`JsonPointer`, `Mutate`, `MutateLaws`, `Manifest`): installing and
  uninstalling marked elements, their commutation, round trip and idempotence, and which operation
  lists are accepted.
- **The benchmark chain** (`Harness`, `HarnessLaws`, `Metrics`, `Ablation`, `Regression`, `RegressionLaws`, `Slices`,
  `SliceLaws`, `Gate`, `ComparisonLaws`): noninterference of disabled sensors and exact accounting identities from the
  sensors switched off to the gate's verdict, for any fusion and decision policy.
- **Kernels**: CRC-32 (`CrcBits`, `Crc32`), the robust median, its export and its digest (`Federated`,
  `FederatedDigest`, `FederatedLaws`), and the allocation counters under any interleaving of threads (`Allocator`,
  `Counters`).

`Prelude`, `Json`, `Text`, `Lists` and `Sorting` hold what these share.

Conventions. Code that changes variables in a loop is a method with invariants, proved equal to a
function about which the laws are stated; the adapter and the counters are classes. Bytes are
8-bit vectors, registers 32-bit vectors, all other integers unbounded with the source's limits
written out; rates and residuals are exact reals. Text decoding, JSON parsing, the fusion and
decision policies, the serialized size of a value, the test for a passing claim and the bytes of a
text are parameters of which nothing is assumed, except that no bytes decode to the empty text.
An id is the key it is derived from, or a fresh one identified by the draw that made it; clock
readings are dropped.

Where the code differs from its comments, the model follows the code:

- `revert_document` is described as pruning containers that the removal emptied. It also prunes a
  container on the pointer's path that was already empty, which is why the round trip needs `Clean`
  (`RoundTripIffClean`).
- `RegressionClass::Improved` is described as covering cases that were evidence-unavailable before;
  the code puts those into `NewlyEvaluable` first.
- `exec_command_end` without a call id: the comment says the evidence keeps the event's random id; the
  code gives event and evidence different fresh ids.
- The harness is described as giving the same output regardless of the order of the dataset's rows. It does exactly
  when rows that share an id keep their order (`RowOrderIff`, `RowOrderMatters`).
- The manifest checks accept the empty pointer, which no document can be changed at
  (`RootPointerNeverApplies`).

Properties that turned out false in general, with the exact condition:

- The tailer with a window of zero bytes never advances (`EmptyWindowIsStuck`); every positive window
  is faithful.
- A deduplication key does not determine its session when the session id is `Ambiguous`
  (`KeyDetermines`, `AmbiguousCollides`).
- The correct-count identity fails for repeated trajectory ids exactly when the two runs replaced
  different numbers of correct records (`BalanceIffEqualOverwritten`).
- A restart past the replay limit can be seen in what is forwarded: it has missed lines exactly when the stream
  before it holds more than the first line (`LargePrefixIff`). A guessed exit code is then forwarded past a trigger
  exactly when every trigger so far is among the missed lines (`GuessPastTriggerIff`, `TriggerForgotten`).
- Lines are skipped for good when the daemon restarts with lines unread before the first cursor was saved, and only
  then (`RunMissesIff`, `LostFirstCursor`).
- A file cut short and grown back past the cursor between two looks is taken for the old one (`NoticedIff`).
- Two different events can share an id: a completion that carries a call id and names no turn takes that of the tool
  event (`EventIdsIff`, `CompletionTakesToolId`, `ToolAndCompletionCollide`).
- The median keeps the range of the honest participants exactly when they are more than half (`RobustIff`,
  `ExportRobustIff`).
- The digest of an export does not change with every tenant: its text does as long as no tenant id holds a separator
  (`RevisionsTell`) and need not otherwise (`SeparatorConfuses`), and the checksum of the text must collide somewhere
  (`DigestsDifferIff`, `DigestMustCollide`).
- A passed gate bounds the drop by its budget exactly when no trajectory id repeats (`PromiseIffUniqueIds`,
  `HiddenDrop`).
- An operation of a manifest is taken for a different one exactly when it holds a NUL (`ConfusableIff`).
- A counter reset is exact exactly when no thread is between its steps with something larger, uncounted or unsummed
  (`ResetExactIff`, `PeakAlwaysExactIff`, `StalePeak`, `StraddlingCall`).

## Model

| member | source | states |
|---|---|---|
| RolloutTail.TakeLines | crates/fornax-adapter-codex/src/rollout_tail.rs:83-91 | The line loop returns every complete line of the window that decodes and is not blank (`TailLaws.OneMoreLine`), in order, counts the ones that do not decode, and stops after the last newline |
| RolloutTail.ReadNewLines | crates/fornax-adapter-codex/src/rollout_tail.rs:42-103 | One bounded read equals the specification `ReadAt` at the resolved cursor |
| TailLaws.OneMoreLine | crates/fornax-adapter-codex/src/rollout_tail.rs:83-103 | The law of one more line: after it a faithful report has gained exactly its decoded text if that is not blank, and the skip count one exactly when it does not decode or is too long |
| TailLaws.StillOpen | crates/fornax-adapter-codex/src/rollout_tail.rs:83-103 | Bytes without a line break add nothing to a report |
| TailLaws.NothingYet | crates/fornax-adapter-codex/src/rollout_tail.rs:42-103 | A report of no bytes is empty |
| TailLaws.ReadOneLine | crates/fornax-adapter-codex/src/rollout_tail.rs:59-103 | One read of one appended line reports its decoded text unless blank, ends behind it, and counts one skip exactly when it does not decode |
| Text.WhitespaceIs | crates/fornax-adapter-codex/src/rollout_tail.rs:83-91 | Blank means made of the 25 characters with the Unicode property White_Space |
| TailRuns.ReadStaysFaithful | crates/fornax-adapter-codex/src/rollout_tail.rs:59-103 | A read extends a faithful report of the consumed bytes to a faithful report of more of them |
| TailRuns.RunStaysFaithful | crates/fornax-adapter-codex/src/rollout_tail.rs:42-103 | Over every interleaving of appends and reads, exactly the short, decodable, non-blank lines of the consumed bytes are reported in order, and each too-long line is counted once |
| TailRuns.FirstSightStaysFaithful | crates/fornax-adapter-codex/src/rollout_tail.rs:134-152 | The same from a first read without a cursor, from the beginning or the end of the file |
| TailRuns.ReadsSettle | crates/fornax-adapter-codex/src/rollout_tail.rs:59-103 | Repeated reads of an unchanging file reach a fixpoint within as many reads as there are unread bytes |
| TailRuns.ScheduleIndependent | crates/fornax-adapter-codex/src/rollout_tail.rs:42-103 | Two schedules from one state that append the same bytes, however cut up and however reads fall between, end in the same lines, skip count and cursor after enough reads |
| TailRuns.ScheduleIndependentFromStart | crates/fornax-adapter-codex/src/rollout_tail.rs:42-103 | The same for a file seen for the first time |
| TailRuns.SameBytesSameReport | crates/fornax-adapter-codex/src/rollout_tail.rs:42-103 | Runs that have consumed the same bytes have reported the same |
| TailRuns.EmptyWindowIsStuck | crates/fornax-adapter-codex/src/rollout_tail.rs:93-100 | A window of zero bytes reports one skip and never advances |
| TailRuns.PrefixReplayAgrees | crates/fornax-adapter-codex/src/rollout_tail.rs:109-129 | Replaying the prefix at a cursor outside a long line returns that offset and the tailed lines plus the long decodable ones |
| TailRuns.PrefixReplayIsExact | crates/fornax-adapter-codex/src/rollout_tail.rs:109-129 | With the replay limit at most the window, replaying returns exactly the tailed lines |
| TailRuns.BackwardSearchIffInWindow | crates/fornax-adapter-codex/src/rollout_tail.rs:167-178 | The bounded backward search finds the last line break exactly when it lies in its 8 MiB window, and answers 0 otherwise |
| TailRuns.RestartIsVisible | crates/fornax-daemon/src/codex_watch.rs:180-187 | The watcher's three-way test recognises exactly the reads that did not keep their cursor |
| Watch.ReadHears | crates/fornax-daemon/src/codex_watch.rs:175-199 | One tick hears exactly the lines between the old cursor and the new one |
| Watch.ReplayHears | crates/fornax-daemon/src/codex_watch.rs:234-242 | Silent replay within the limit hears exactly the complete lines of the prefix and resumes after them |
| Watch.RunStaysRight | crates/fornax-daemon/src/codex_watch.rs:160-275 | Over every run of growth, ticks with saved or lost cursors and restarts at any size, what becomes of a line is what an adapter makes of it that has heard the stream so far but for the gap its last restart left |
| Watch.RunStaysSeamless | crates/fornax-daemon/src/codex_watch.rs:234-242 | While every restart finds its position within the replay limit there is never a gap: each line is answered as by an adapter that never stopped |
| Watch.RunIsExact | crates/fornax-daemon/src/codex_watch.rs:160-275 | With every cursor saved, each line from the start is handled exactly once and in order, through restarts at any size |
| Watch.RunMissesNothing | crates/fornax-daemon/src/codex_watch.rs:160-219 | With cursors lost at any ticks, every line up to the cursor is handled at least once, unless a restart with no saved cursor joins the file at its end past unread lines |
| Watch.RunMissesIff | crates/fornax-daemon/src/codex_watch.rs:278-297 | That condition is exact over every run whose restarts take an unsaved file up at its end: all lines are handled if and only if no restart came with lines unread before the first cursor was saved |
| Watch.FirstSightRunMissesIff | crates/fornax-daemon/src/codex_watch.rs:224-297 | The same from first sight, whether or not the first cursor is saved; once it is, nothing can be skipped |
| Watch.LostFirstCursor | crates/fornax-daemon/src/codex_watch.rs:278-297 | The first cursor is lost, a line is appended, the daemon restarts: the line is handled neither then nor in any later run |
| Watch.FirstSightIsExact | crates/fornax-daemon/src/codex_watch.rs:224-275 | The first turn on a file of any size forwards from its beginning, or only past the lines it already holds |
| Watch.FirstSightRunIsExact | crates/fornax-daemon/src/codex_watch.rs:160-275 | Both together, from first sight through any run, each line once and in order |
| Watch.LargePrefixIff | crates/fornax-daemon/src/codex_watch.rs:244-262 | A restart past the replay limit keeps the saved cursor and remembers the first line alone; it has missed nothing exactly when the stream before it holds nothing else |
| Watch.BeyondKeeps | crates/fornax-daemon/src/codex_watch.rs:244-265 | Past the limit, with or without a saved cursor, the rebuilt state stands on a line boundary or inside the giant last line, at the same place in the stream |
| Watch.NextLineAfterLargePrefix | crates/fornax-daemon/src/codex_watch.rs:244-262 | The next line after such a restart is answered by an adapter that has heard the first line alone |
| WatchFiles.ReplacedRun | crates/fornax-daemon/src/codex_watch.rs:175-199 | After a replacement or truncation, over every run of growth, ticks and restarts on the new file, what is logged is exactly what a watcher logs that took the new file up at its beginning: right for that file alone and, with every cursor saved, each of its lines once and in order |
| WatchFiles.ReplacedFileStartsOver | crates/fornax-daemon/src/codex_watch.rs:180-187 | One tick is enough, whatever the saved cursor: heard from the beginning, without a gap, and what is logged is right for the new file |
| WatchFiles.NoticedIff | crates/fornax-daemon/src/codex_watch.rs:180-187 | A tick notices the change exactly when the identity differs or the file is shorter than the cursor |
| WatchFiles.OtherFileIsNoticed | crates/fornax-daemon/src/codex_watch.rs:180-187 | A file with another identity is always noticed, however it grows before the next look |
| CodexWatch.RunGuessesIff | crates/fornax-daemon/src/codex_watch.rs:316-344 | Over every run, an exit code is guessed for a line exactly when the line reports completion without a code and, among the lines up to it that its adapter has heard, one offers a session and none shows the item format |
| CodexWatch.GuessPastTriggerIff | crates/fornax-daemon/src/codex_watch.rs:244-262 | So a guess is forwarded past a trigger exactly when, besides that, the triggers before the line are all in the gap and there is one |
| CodexWatch.NoGuessPastTrigger | crates/fornax-daemon/src/codex_watch.rs:234-242 | While every restart is within the replay limit, no guessed exit code is forwarded for a line at or after the first one that shows the item format |
| CodexWatch.GuessAfterLargePrefixIff | crates/fornax-daemon/src/codex_watch.rs:244-262 | In particular for the first tool output after a restart past the limit: guessed exactly when the first line of the file shows no item format and a session is known |
| CodexWatch.TriggerForgotten | crates/fornax-daemon/src/codex_watch.rs:244-262 | A file of just over 8 MiB whose second line shows the item format: after a restart a guessed exit code is forwarded |
| CodexWatch.ForwardedAgainIsSame | crates/fornax-adapter-codex/src/lib.rs:787-820 | A line forwarded again after a lost cursor, by an adapter that has heard the same lines, carries identical messages, ids included, exactly when it names itself |
| CodexWatch.ForwardedUnderOwnSession | crates/fornax-daemon/src/codex_watch.rs:316-327 | Every forwarded batch carries the first session offered by the lines its adapter has heard |
| CodexWatch.ForwardedUnderFileSession | crates/fornax-daemon/src/codex_watch.rs:316-327 | That is the first session the whole file offers, unless the line that offers it is in the gap; nothing is forwarded before that line |
| Codex.ParseExitCode | crates/fornax-adapter-codex/src/lib.rs:680-701 | The loop returns the code of the first block that leads with one, and none exactly when no block does |
| CodexRuns.MemoryIsHistory | crates/fornax-adapter-codex/src/lib.rs:356-386 | After every stream the latch, session id, version and pending calls are what the lines alone say: any trigger, first offer, last version, latest unanswered call |
| CodexRuns.LatchIsSticky | crates/fornax-adapter-codex/src/lib.rs:182-207 | The item-format latch is set after a line exactly when some line so far triggers it, and never comes off |
| CodexRuns.ContextIs | crates/fornax-adapter-codex/src/lib.rs:356-386 | What every line of a stream is translated under: the first offered session or its hint, the last version or `unknown`, and the latch after it |
| CodexRuns.BatchShape | crates/fornax-adapter-codex/src/lib.rs:703-937 | Only four kinds of line produce messages, and what each produces |
| CodexSays.OutcomeIff | crates/fornax-adapter-codex/src/lib.rs:703-937 | Every line speaks, is passed over or is reported as not understood, exactly so: messages come from an unlatched answer, an ended command of the old shape, a completed turn, and a command item that completed or failed with an integer exit code |
| CodexSays.AnswerSays | crates/fornax-adapter-codex/src/lib.rs:757-821 | What an answer says: the call's command, its payload, and as evidence the first exit code in its text, else a marked guess of zero where its script completed, else none |
| CodexSays.ExecEndSays | crates/fornax-adapter-codex/src/lib.rs:864-893 | What an ended command of the old shape says: its command, its payload and its exit code where that is an integer |
| CodexSays.CommandSays | crates/fornax-adapter-codex/src/lib.rs:994-1096 | What a command item says: its command and payload, and its exit code as evidence unless a user typed it |
| CodexSays.TurnSays | crates/fornax-adapter-codex/src/lib.rs:895-932 | What a completed turn says: the end of the turn, and a claim quoting its last message exactly when that claims passing tests |
| CodexSays.AnswerNamed | crates/fornax-adapter-codex/src/lib.rs:793-820 | The ids of an answer's event and exit code, made from its call id, and that the evidence points at the event |
| CodexSays.ExecEndNamed | crates/fornax-adapter-codex/src/lib.rs:849-893 | The same for an ended command of the old shape, drawn anew when it has no call id |
| CodexSays.CommandNamed | crates/fornax-adapter-codex/src/lib.rs:1034-1096 | The same for a command item, made from its own id |
| CodexSays.TurnNamed | crates/fornax-adapter-codex/src/lib.rs:849-932 | The id of a completed turn: made from the turn it names, else from a call id, else drawn anew |
| CodexSays.TurnIs | crates/fornax-adapter-codex/src/lib.rs:896-899 | A turn is named by a turn id that is not blank |
| CodexSays.TurnTranslated | crates/fornax-adapter-codex/src/lib.rs:703-932 | What a completed turn is translated as, through the layers of the translator |
| CodexSays.ClaimNamed | crates/fornax-adapter-codex/src/lib.rs:914-929 | Its claim points at it and is named after the turn too, else drawn anew |
| CodexSays.ConcatAppend | crates/fornax-adapter-codex/src/lib.rs:543-629 | The blocks of an answer are searched for the completion marker as one text, in order |
| CodexSays.LineReads | crates/fornax-adapter-codex/src/lib.rs:182-207 | The session, version, call and answer a line offers, member by member |
| CodexSays.TriggersIff | crates/fornax-adapter-codex/src/lib.rs:182-207 | A line shows the item format exactly when it is a completed item or a session header with a version that supports items |
| CodexSays.BlocksAre | crates/fornax-adapter-codex/src/lib.rs:543-657 | The text blocks of an answer are the texts of its elements that have one, in order |
| CodexSays.TopDrift | crates/fornax-adapter-codex/src/lib.rs:714-840 | The name given to a line with an unknown type, or none |
| CodexSays.PayloadDrift | crates/fornax-adapter-codex/src/lib.rs:726-848 | The name given to a line without a payload or a payload type |
| CodexSays.TypeDrift | crates/fornax-adapter-codex/src/lib.rs:823-937 | The name given to an unknown payload type or an answer without a call id |
| CodexSays.ItemDrift | crates/fornax-adapter-codex/src/lib.rs:966-992 | The name given to a missing or unknown item |
| CodexSays.CommandDrift | crates/fornax-adapter-codex/src/lib.rs:998-1100 | The name given to a command item in an unknown state |
| CodexSays.CodeDrift | crates/fornax-adapter-codex/src/lib.rs:1003-1032 | The name given to one that ended without an integer exit code |
| CodexNumbers.LeadingCode | crates/fornax-adapter-codex/src/lib.rs:680-701 | A block that leads with the marker and digits, behind an error banner or not, gives the decimal value of those digits, when it fits 64 bits |
| CodexNumbers.CodeLeads | crates/fornax-adapter-codex/src/lib.rs:680-701 | And only such a block gives a code |
| CodexNumbers.VersionReads | crates/fornax-adapter-codex/src/lib.rs:122-129 | Major, minor and patch written in decimal, with any pre-release tail: items are supported exactly from 0.160 on |
| CodexNumbers.MajorReads | crates/fornax-adapter-codex/src/lib.rs:122-129 | A version of one number supports items exactly when it is not zero |
| CodexNumbers.NoVersion | crates/fornax-adapter-codex/src/lib.rs:122-129 | A text whose first piece is not a number never does |
| CodexRuns.GuessOnlyWhenUnlatched | crates/fornax-adapter-codex/src/lib.rs:543-657 | A line guesses an exit code exactly when it is an output in an unlatched stream with no code in its text and a completion marker |
| CodexRuns.GuessesPrecedeTrigger | crates/fornax-adapter-codex/src/lib.rs:757-821 | Every guessed exit code comes from a line strictly before the first trigger |
| CodexRuns.BatchLinked | crates/fornax-adapter-codex/src/lib.rs:703-937 | A batch is one event and at most one evidence or claim that points at it under the same session, and a claim quotes its event's last message |
| CodexRuns.EveryBatchLinked | crates/fornax-adapter-codex/src/lib.rs:93-108 | In every stream each batch is so linked under the first offered session or the hint, and its claim matches its completion |
| CodexRuns.OutputCarriesItsCommand | crates/fornax-adapter-codex/src/lib.rs:737-806 | The event of a tool output carries the extracted command of the latest open call with its id, and an empty one when there is none |
| CodexClaims.CodeIsLiteralOrGuess | crates/fornax-adapter-codex/src/lib.rs:442-657 | Every reported exit code is one that the line itself holds, or a guess of zero marked as one |
| CodexNames.MessageIdsIff | crates/fornax-adapter-codex/src/lib.rs:793-1059 | Any two messages of a stream, events, exit codes and claims alike, share an id exactly when they share a name (an action and its phase, a part of a turn, or one line), but for the one overlapping pair of phases |
| CodexNames.EvidenceIdsIff | crates/fornax-adapter-codex/src/lib.rs:793-1059 | Two exit codes do exactly when they are of one line or of one call id in one session, whichever of the three shapes they have |
| CodexNames.EventIdsIff | crates/fornax-adapter-codex/src/lib.rs:849-929 | Two events, completions included, do exactly when they are of one line, complete one turn of one session, or carry one call id in one session without naming a turn |
| CodexNames.ClaimIdsIff | crates/fornax-adapter-codex/src/lib.rs:914-929 | Two claims do exactly when they are of one line or of one turn of one session, whatever the session |
| CodexNames.ClaimsApart | crates/fornax-adapter-codex/src/lib.rs:914-929 | A claim never shares an id with an event or an exit code |
| CodexNames.CompletionTakesToolId | crates/fornax-adapter-codex/src/lib.rs:849-902 | A completion with a call id and no turn takes the id of that call's own event, in every stream and session |
| CodexNames.ToolAndCompletionCollide | crates/fornax-adapter-codex/src/lib.rs:849-902 | Such a stream of two lines, for every call id |
| CodexNames.EventAndEvidenceIff | crates/fornax-adapter-codex/src/lib.rs:76-81 | The id of an event is that of an exit code exactly in one session when the event names no turn and its call id is `exit_code:` and the other |
| CodexNames.OwnIdsDiffer | crates/fornax-adapter-codex/src/lib.rs:76-81 | In every stream, whatever the session, a line's own event and exit code have different ids |
| CodexNames.OneSession | crates/fornax-adapter-codex/src/lib.rs:361-378 | From the first offered session on, all lines are translated under it |
| CodexRuns.ReplayIsSameIff | crates/fornax-adapter-codex/src/lib.rs:849-929 | Translating a line twice gives the same ids exactly when the line carries its own |
| CodexAdapter.Adapter.constructor | crates/fornax-adapter-codex/src/lib.rs:136-165 | A new adapter remembers nothing |
| CodexAdapter.Adapter.Observe | crates/fornax-adapter-codex/src/lib.rs:182-207 | The latch and the version after one line |
| CodexAdapter.Adapter.Remember | crates/fornax-adapter-codex/src/lib.rs:737-763 | An exec call is entered under its id; an output removes its call even when it is suppressed |
| CodexAdapter.Adapter.Learn | crates/fornax-adapter-codex/src/lib.rs:361-378 | The session id, latch and version are taken in before the line is translated |
| CodexAdapter.Adapter.Normalize | crates/fornax-adapter-codex/src/lib.rs:356-386 | The outcome and the new memory are those of the stream handled so far followed by this line; `CodexSays` says what the outcome of every line is |
| ToolProps.OnlyKnownSimpleProps | crates/fornax-adapter-codex/src/lib.rs:1225-1268 | The loop terminates and decides acceptance, which `ToolLaws.AcceptsPairIff` and `AcceptsListIff` spell out |
| ToolProps.AcceptsIffPrinted | crates/fornax-adapter-codex/src/lib.rs:1225-1268 | Accepted are exactly the non-empty printed lists of the property grammar |
| ToolProps.PropsOf | crates/fornax-adapter-codex/src/lib.rs:1225-1268 | Every accepted text parses into a valid list that prints as that text |
| ToolProps.PrintedAccepted | crates/fornax-adapter-codex/src/lib.rs:1225-1268 | Every valid property list is accepted when printed |
| ToolLaws.AcceptsPairIff | crates/fornax-adapter-codex/src/lib.rs:1201-1268 | A single pair is accepted exactly when its name is one of the eight options, written out, and its value is `true`, `false`, a run of decimal digits or a quoted text without a backslash |
| ToolLaws.AcceptsListIff | crates/fornax-adapter-codex/src/lib.rs:1225-1268 | A pair, a comma and more is accepted exactly when the pair is and the rest is accepted on its own |
| ExtractCmd.ScanLiteral | crates/fornax-adapter-codex/src/lib.rs:1137-1159 | The escape loop yields the decoded body and where it ends, or refuses an escape it does not know |
| ExtractCmd.ReadQuoted | crates/fornax-adapter-codex/src/lib.rs:1126-1159 | A key is followed by a quoted argument in an argument position, or the attempt is given up |
| ExtractCmd.ExtractCommand | crates/fornax-adapter-codex/src/lib.rs:1117-1162 | The search over both keys equals the specification `Extract`, which `ToolLaws.ReadsWritten` and `ReadWasWritten` spell out |
| ExtractCmd.UnescapeEscape | crates/fornax-adapter-codex/src/lib.rs:1140-1149 | Decoding the escaped form of any command gives the command |
| ExtractLaws.PrintedIsExtracted | crates/fornax-adapter-codex/src/lib.rs:1117-1162 | Complete: every printed snippet with a single argument key yields its quoted command |
| ExtractLaws.ExtractOfQuoted | crates/fornax-adapter-codex/src/lib.rs:1117-1162 | Quoting any command and extracting it gives the command |
| ExtractLaws.ExtractedWasPrinted | crates/fornax-adapter-codex/src/lib.rs:1167-1223 | Sound: whenever a command is extracted the whole text is one snippet of the grammar around it |
| ExtractLaws.ExtractsIffSnippet | crates/fornax-adapter-codex/src/lib.rs:1117-1223 | The result differs from the raw text exactly for such snippets, and is then the decoded body however the text is parsed |
| ToolLaws.ReadsWritten | crates/fornax-adapter-codex/src/lib.rs:1117-1199 | A text of the written-out form, either tool with its own key, accepted options around it, any of the four endings, with one key in it, is read as the command in its quotes |
| ToolLaws.ReadWasWritten | crates/fornax-adapter-codex/src/lib.rs:1117-1199 | And a text that is not read as its own raw self has that form |
| ToolLaws.ReadsCall | crates/fornax-adapter-codex/src/lib.rs:1117-1199 | In particular any command, quoted either way, in each of the eight bare calls |
| ToolLaws.EscapeOfPlain | crates/fornax-adapter-codex/src/lib.rs:1140-1159 | A command without backslash and quote stands in its quotes as it is |
| ToolLaws.ForeignEscape | crates/fornax-adapter-codex/src/lib.rs:1141-1149 | A backslash in front of anything but a backslash or a quote is not understood |
| DedupKeys.KeyDetermines | crates/fornax-adapter-codex/src/lib.rs:76-81 | Over unambiguous sessions two keys are equal exactly when session, phase and id are, but for the one overlapping pair of phases |
| DedupKeys.KeyDeterminesColonFree | crates/fornax-adapter-codex/src/hook.rs:252-260 | Without colons in session and native ids a key determines all three parts over all rollout and hook phases |
| DedupKeys.CollisionIsAmbiguous | crates/fornax-adapter-codex/src/lib.rs:76-81 | Keys of different-length sessions coincide only when the longer session is ambiguous |
| DedupKeys.AmbiguousCollides | crates/fornax-adapter-codex/src/lib.rs:76-81 | Every ambiguous session does share a key with a shorter one |
| DedupKeys.CompletionKeyDetermines | crates/fornax-adapter-codex/src/lib.rs:85-88 | The framed completion key determines session, phase and turn whatever characters they contain |
| DedupKeys.KeyPieces | crates/fornax-adapter-codex/src/lib.rs:76-81 | Without colons in session and native id a key, cut at its colons, is the scheme, its version, the session, the words of the phase and the native id |
| DedupKeys.CompletionReads | crates/fornax-adapter-codex/src/lib.rs:85-88 | Read back, a completion key is the array of its scheme, the session, the phase and the turn, whatever characters they contain |
| DedupKeys.SchemesDisjoint | crates/fornax-adapter-codex/src/lib.rs:76-88 | No completion key is a deduplication key |
| JsonPointer.TwoPassesAreOne | crates/fornax-cli/src/adapter_mutate.rs:17-26 | The two replacement passes equal the single left-to-right decoder of section 4 of RFC 6901 on every string |
| JsonPointer.SegmentsOfEncoded | crates/fornax-cli/src/adapter_mutate.rs:17-26 | Every non-empty key list survives being written as a pointer and read back |
| Json.MembersAre | crates/fornax-cli/src/adapter_mutate.rs:68-70 | A string member is a member that is a string, an integer member one that is an integer of 64 bits |
| Mutate.ApplyDocument | crates/fornax-cli/src/adapter_mutate.rs:74-98 | The loop applies the operations in order and stops at the first refusal |
| Mutate.RevertDocument | crates/fornax-cli/src/adapter_mutate.rs:100-119 | The loop removes every operation's marked elements |
| Mutate.RemovalsCommute | crates/fornax-cli/src/adapter_mutate.rs:121-151 | Any two removals commute, whatever the relation of their pointers |
| Mutate.RemoveAfterEnsure | crates/fornax-cli/src/adapter_mutate.rs:33-66 | Removing right after ensuring leaves what removing alone leaves |
| MutateLaws.RevertInAnyOrder | crates/fornax-cli/src/adapter_mutate.rs:100-119 | Reverting the same operations in any order gives the same document |
| MutateLaws.RevertOfApply | crates/fornax-cli/src/adapter_mutate.rs:74-119 | Reverting what was applied equals reverting the original, for any list whose elements carry their own markers |
| MutateLaws.RoundTripIffClean | crates/fornax-cli/src/adapter_mutate.rs:74-151 | The round trip gives the document back exactly when it holds no marked element and no empty container on a pointer's path |
| MutateLaws.RevertFixedIffClean | crates/fornax-cli/src/adapter_mutate.rs:100-151 | Reverting changes nothing exactly for clean documents |
| MutateLaws.RevertTwice | crates/fornax-cli/src/adapter_mutate.rs:100-119 | Reverting is idempotent |
| MutateLaws.EnsureSucceedsIff | crates/fornax-cli/src/adapter_mutate.rs:33-66 | An operation is refused exactly at the root, at a non-object on the way, or at a non-array at the end |
| MutateLaws.RefusalSays | crates/fornax-cli/src/adapter_mutate.rs:33-66 | The reason of a refusal: the root, else something on the way, else what is at the end |
| MutateLaws.ApplyRefusal | crates/fornax-cli/src/adapter_mutate.rs:74-98 | A list is refused with the reason of its first operation that is, on what the ones before it left |
| MutateLaws.ApplySucceedsIff | crates/fornax-cli/src/adapter_mutate.rs:74-98 | A list succeeds exactly when each operation alone would and no pointer runs through another |
| MutateLaws.SuccessInAnyOrder | crates/fornax-cli/src/adapter_mutate.rs:74-98 | So success depends only on which operations there are, not on their order or number |
| MutateLaws.EnsureEffect | crates/fornax-cli/src/adapter_mutate.rs:33-98 | What one operation does to the value at any path |
| MutateLaws.ApplyKeeps | crates/fornax-cli/src/adapter_mutate.rs:74-98 | Applying loses nothing and changes nothing off the pointers |
| MutateLaws.ApplyAddsOnlyDeclared | crates/fornax-cli/src/adapter_mutate.rs:74-98 | An array gains only elements that operations on its own pointer declare |
| MutateLaws.ApplyInstalls | crates/fornax-cli/src/adapter_mutate.rs:74-98 | After a successful apply every operation's marked element is in place |
| MutateLaws.ApplyTwice | crates/fornax-cli/src/adapter_mutate.rs:74-98 | A second apply succeeds and changes nothing |
| MutateLaws.RemoveEffect | crates/fornax-cli/src/adapter_mutate.rs:121-151 | What one removal does to the value at any path |
| MutateLaws.RevertKeeps | crates/fornax-cli/src/adapter_mutate.rs:100-151 | Reverting touches no value off the pointers |
| Manifest.ValidateOperations | crates/fornax-cli/src/adapter_manifest.rs:378-406 | Accepts exactly the acceptable lists; otherwise reports the first problem of the first offending operation |
| Manifest.AcceptableMeans | crates/fornax-cli/src/adapter_manifest.rs:222-406 | Acceptable in numbers: 1 to 16 operations, pointers of at most 256 bytes and 16 slashes, elements of at most 4096 bytes that carry their marker, no two alike |
| Manifest.ByteLengthIs | crates/fornax-cli/src/adapter_manifest.rs:223-227 | The length limit counts UTF-8 bytes |
| Manifest.ProblemSays | crates/fornax-cli/src/adapter_manifest.rs:222-406 | Which problem of an operation is reported, and with which texts |
| Manifest.AcceptedRoundTrip | crates/fornax-cli/src/adapter_manifest.rs:394-406 | Accepted operations satisfy the mutator's round trip and idempotence |
| Manifest.AcceptedDepth | crates/fornax-cli/src/adapter_manifest.rs:222-238 | An accepted pointer names as many keys as it has slashes, at most 16 |
| Manifest.RootPointerNeverApplies | crates/fornax-cli/src/adapter_manifest.rs:228-230 | A list with the empty pointer, though accepted, is refused on every document |
| Manifest.SameKeyIffSameMarker | crates/fornax-cli/src/adapter_manifest.rs:390-393 | Without NUL characters, operations count as duplicates exactly when pointer and marker agree |
| Manifest.ConfusableIff | crates/fornax-cli/src/adapter_manifest.rs:390-393 | An operation is taken for some different one exactly when its pointer, marker key or marker value holds a NUL |
| Manifest.ConfusedPairRefused | crates/fornax-cli/src/adapter_manifest.rs:384-406 | Two such operations, each acceptable alone, are refused together as duplicates |
| Manifest.NulConfusesMarkers | crates/fornax-cli/src/adapter_manifest.rs:390-393 | With a NUL in a marker key, different markers count as the same |
| Manifest.NulConfusesPointers | crates/fornax-cli/src/adapter_manifest.rs:390-393 | With a NUL in a pointer, operations on different pointers count as the same |
| Harness.SameOrderIff | crates/fornax-bench/src/harness.rs:255-270 | Two files are put into the same order exactly when, for every id, their rows with that id agree in order |
| Harness.RowOrderIrrelevant | crates/fornax-bench/src/harness.rs:255-302 | Such files give the same predictions, whatever the order of their rows otherwise |
| Harness.RowOrderIff | crates/fornax-bench/src/harness.rs:255-302 | Two files give the same predictions under every configuration and all policies exactly when, for every id, their rows with that id agree in order |
| Harness.DistinctRowsReordered | crates/fornax-bench/src/harness.rs:255-302 | In particular any reordering, when no two different rows share an id |
| Harness.RowOrderMatters | crates/fornax-bench/src/harness.rs:255-302 | Two rows that share an id and differ in their expected outcome keep the order of the file |
| Harness.UnavailableIff | crates/fornax-bench/src/harness.rs:173-248 | A trajectory is unavailable exactly when a concern is noted, a link never had its evidence, or disabled sensors delivered evidence and every link pointed at theirs |
| Harness.UnavailableIsMonotone | crates/fornax-bench/src/harness.rs:173-248 | Disabling more sensors never makes an unavailable trajectory available |
| Harness.IdleSensorsChangeNothing | crates/fornax-bench/src/harness.rs:173-212 | Disabling sensors that delivered nothing changes no part of a prediction, whatever the policies are |
| HarnessLaws.GivenTheRest | crates/fornax-bench/src/harness.rs:173-302 | The policies are given exactly the links and the evidence whose ids no disabled sensor delivered, in order, and the configured risk class |
| HarnessLaws.HiddenCannotMatter | crates/fornax-bench/src/harness.rs:173-302 | Noninterference for all policies: trajectories that agree outside the evidence of disabled sensors get the same verdict, action and id lists |
| HarnessLaws.HiddenLinkIgnored | crates/fornax-bench/src/harness.rs:173-212 | A link to such evidence, inserted anywhere, changes none of them |
| HarnessLaws.HiddenEvidenceIgnored | crates/fornax-bench/src/harness.rs:173-212 | Nor does such a piece of evidence with an id of its own |
| HarnessLaws.RecordIs | crates/fornax-bench/src/harness.rs:258-302 | A record holds the fused result of the visible part, the decision on it under the configured risk class, and the trajectory's own id, claim, label and marks |
| HarnessLaws.UnavailableMeans | crates/fornax-bench/src/harness.rs:147-248 | When a trajectory is unavailable, read off the trajectory: a gap neither available nor unknown, a link to nothing, or evidence hidden and every link to such |
| Sorting.StringLeIff | crates/fornax-bench/src/harness.rs:255-270 | The order of ids: a beginning comes first, otherwise the smaller character where two first differ |
| HarnessLaws.RunsEveryRow | crates/fornax-bench/src/harness.rs:255-302 | Every row is predicted once and the records stand in ascending order of their ids |
| Metrics.ThreeBuckets | crates/fornax-bench/src/metrics.rs:111-124 | Unavailable, correct and incorrect partition the predictions |
| Metrics.FourOutcomes | crates/fornax-bench/src/metrics.rs:126-141 | The four outcomes partition the evaluable predictions |
| Metrics.RatesMean | crates/fornax-bench/src/metrics.rs:126-160 | Recall, precision and false-positive rate are the promised shares, counted over all predictions at once |
| Metrics.RatesAreRates | crates/fornax-bench/src/metrics.rs:101-161 | Every rate lies between 0 and 1 and is absent exactly when there is nothing to divide by |
| Metrics.ReportMeans | crates/fornax-bench/src/metrics.rs:111-161 | What every other number of a report counts: available, right, reviewed or blocked, synthetic |
| Ablation.UnavailableGrowsByMoved | crates/fornax-bench/src/ablation.rs:80-110 | The ablated run has exactly the baseline's unavailable predictions and the moved ones |
| Ablation.CoverageDeltaIsMovedShare | crates/fornax-bench/src/ablation.rs:80-135 | The coverage delta is exactly minus the moved share, whatever the policies do |
| Ablation.EveryDeltaIsShare | crates/fornax-bench/src/ablation.rs:80-135 | The same for every named sensor, in order |
| Ablation.IdleSensorMovesNothing | crates/fornax-bench/src/ablation.rs:93-106 | A sensor that delivered nothing moves nothing |
| Ablation.DeltasLead | crates/fornax-bench/src/ablation.rs:30-135 | Each of the five deltas is there exactly when both rates are, and leads from the rate as configured to the rate without the sensor |
| Ablation.SyntheticIff | crates/fornax-bench/src/ablation.rs:107-135 | A result is marked synthetic exactly when the dataset holds a synthetic trajectory |
| Regression.Index | crates/fornax-bench/src/regression.rs:133-142 | The loop builds the map `ById` |
| Regression.LastIsKept | crates/fornax-bench/src/regression.rs:133-142 | Of the rows with one id the map keeps the last |
| Regression.CompareIds | crates/fornax-bench/src/regression.rs:149-187 | The loop yields one case per id in order and counts the classes |
| Regression.Compare | crates/fornax-bench/src/regression.rs:132-198 | The comparison holds every id of either run once, and its counters are the numbers of cases in each class |
| Regression.AddedIdsAre | crates/fornax-bench/src/regression.rs:94-104 | The added ids are exactly those not there before, sorted |
| Regression.NoDeltaIff | crates/fornax-bench/src/regression.rs:75-91 | A case reports no evidence delta exactly when all three id sets agree |
| ComparisonLaws.CasesCoverIds | crates/fornax-bench/src/regression.rs:144-187 | One case for every id of either run, in ascending order |
| ComparisonLaws.CaseCarries | crates/fornax-bench/src/regression.rs:133-187 | A case carries the last row of each run with its id |
| ComparisonLaws.ClassSays | crates/fornax-bench/src/regression.rs:149-216 | The class of every case, exactly, in terms of the rows it carries |
| ComparisonLaws.DeltaSays | crates/fornax-bench/src/regression.rs:68-104 | Its evidence delta: none when the ids agree, else in order the ids that came and those that went, of all three lists |
| RegressionLaws.CaseAccounts | crates/fornax-bench/src/regression.rs:200-216 | Every class accounts for exactly the change in correctness of its case |
| RegressionLaws.CorrectIdsBalance | crates/fornax-bench/src/regression.rs:132-216 | The number of correct ids changes by exactly what the classes say, for any two runs |
| RegressionLaws.CorrectCountBalance | crates/fornax-bench/src/regression.rs:132-216 | With unique ids the correct counts differ by improved, regressed, newly evaluable, newly unavailable, added and removed cases as promised |
| RegressionLaws.CorrectCountGeneral | crates/fornax-bench/src/regression.rs:133-142 | In general the replaced correct records of each run are off the balance |
| RegressionLaws.BalanceIffEqualOverwritten | crates/fornax-bench/src/regression.rs:133-142 | The identity holds exactly when both runs replaced equally many correct records |
| RegressionLaws.DuplicateBreaksBalance | crates/fornax-bench/src/regression.rs:133-142 | Dropping a duplicate of a correct row shows as no change |
| RegressionLaws.SameRunUnchanged | crates/fornax-bench/src/regression.rs:200-203 | A run compared with itself has only unchanged cases |
| RegressionLaws.NothingRemoved | crates/fornax-bench/src/regression.rs:200-216 | When every id is still there no correct case is lost as removed |
| Slices.EnterProviders | crates/fornax-bench/src/slice.rs:68-83 | The inner loop enters the id under every provider and collects the sensors as an ordered set |
| Slices.EnterSensors | crates/fornax-bench/src/slice.rs:84-86 | The second loop enters the id under every sensor |
| Slices.Tabulate | crates/fornax-bench/src/slice.rs:68-87 | The outer loop fills the whole table |
| Slices.ComputeSlices | crates/fornax-bench/src/slice.rs:60-107 | One slice for the whole and for every sensor and provider that occurs, with exactly its members, ordered by label |
| SliceLaws.SlicesOrderIrrelevant | crates/fornax-bench/src/slice.rs:58-107 | One dataset in two orders breaks down into the same list of slices |
| Slices.BelongsIff | crates/fornax-bench/src/slice.rs:71-83 | A trajectory is in a slice exactly when some of its evidence names that sensor or provider |
| ComparisonLaws.SlicedIff | crates/fornax-bench/src/slice.rs:60-107 | There is a slice for the whole and for exactly what some evidence names |
| ComparisonLaws.SliceSays | crates/fornax-bench/src/slice.rs:60-107 | Each slice holds, ascending, exactly the ids of the trajectories that count towards it |
| SliceLaws.LabelOrder | crates/fornax-bench/src/slice.rs:42-48 | The order by label: the whole, then the providers, then the sensors by name |
| SliceLaws.ProviderOrder | crates/fornax-bench/src/slice.rs:42-48 | The providers among themselves |
| Gate.EvaluateGate | crates/fornax-bench/src/gate.rs:89-129 | Exactly when the gate is untested, inconclusive, blocked or passed, in terms of its rules; `ComparisonLaws.GateIff` says so in terms of the dataset |
| ComparisonLaws.RuleIff | crates/fornax-bench/src/gate.rs:131-175 | A rule on any slice is untested exactly when no trajectory has evidence naming it, and blocks exactly when more regressed cases than it allows carry the id of one that has |
| ComparisonLaws.GateIff | crates/fornax-bench/src/gate.rs:89-129 | The gate over a dataset in those terms: exactly when it is inconclusive, blocks and passes |
| ComparisonLaws.GateOnRuns | crates/fornax-bench/src/gate.rs:89-129 | The same for two runs and the cases between them |
| Gate.OverallPassesIff | crates/fornax-bench/src/gate.rs:131-175 | An overall rule passes exactly for a non-empty dataset with at most `k` regressed cases |
| Gate.PassBoundsDrop | crates/fornax-bench/src/gate.rs:89-175 | When the gate passes with an overall rule of `k`, for any two runs, the correct count fell by at most `k`, the correct cases that became unavailable or were removed, and the correct records that repeated ids hid |
| Gate.PromiseIffUniqueIds | crates/fornax-bench/src/gate.rs:89-175 | A passed budget bounds the drop without that last part, for all runs over given rows and every budget, exactly when no id repeats |
| Gate.UniqueIdsBound | crates/fornax-bench/src/gate.rs:89-175 | With unique ids it always holds |
| Gate.HiddenDrop | crates/fornax-bench/src/dataset.rs:194-203 | With a repeated id, whatever else the run holds, a budget of no regressions passes while a correct prediction is lost |
| Gate.PassedRunsDropBounded | crates/fornax-bench/src/main.rs:312-323 | The same for any two harness runs over one dataset, where nothing is ever removed and unique ids hide nothing |
| Gate.SameRunNeverBlocked | crates/fornax-bench/src/gate.rs:89-175 | A run against itself is never blocked, whatever the slices and the budget |
| Gate.HarnessRunsOver | crates/fornax-bench/src/harness.rs:258-302 | Every prediction is for a trajectory of the dataset |
| Crc32.MaskedStep | crates/fornax-bench/src/federated_calibration.rs:252-255 | The branch-free bit step is the conditional one |
| Crc32.ShiftByte | crates/fornax-bench/src/federated_calibration.rs:252-255 | The inner loop makes eight bit steps |
| Crc32.Crc32Of | crates/fornax-bench/src/federated_calibration.rs:248-258 | The nested loops compute `Crc` |
| Crc32.ShiftLinear | crates/fornax-bench/src/federated_calibration.rs:252-255 | The bit step is linear over exclusive-or |
| Crc32.ShiftInjective | crates/fornax-bench/src/federated_calibration.rs:252-255 | The bit step loses nothing |
| Crc32.RegisterFeeds | crates/fornax-bench/src/federated_calibration.rs:248-258 | The byte-wise register is the bit-serial shift register fed with the message's bits |
| Crc32.BurstDetected | crates/fornax-bench/src/federated_calibration.rs:248-258 | Different messages of equal length that differ only inside 32 consecutive bits have different checksums |
| Crc32.FourByteWindow | crates/fornax-bench/src/federated_calibration.rs:248-258 | Any change inside four consecutive bytes changes the checksum |
| Crc32.CheckValue | crates/fornax-bench/src/federated_calibration.rs:248-258 | The digits one to nine give the published check value CBF43926 |
| CrcBits.WindowDetermined | crates/fornax-bench/src/federated_calibration.rs:252-255 | At most 32 bits bring two registers together only as equal bits from equal registers, for any generator |
| CrcBits.BurstDetected | crates/fornax-bench/src/federated_calibration.rs:248-258 | Burst detection for the bit-serial register and any generator |
| CrcBits.FedIsSteps | crates/fornax-bench/src/federated_calibration.rs:250-256 | Feeding up to 32 bits one by one is adding them at once and stepping |
| Federated.BuildAggregateExport | crates/fornax-bench/src/federated_calibration.rs:184-232 | Exports exactly for at least three exportable participants of one context, and otherwise gives the first reason |
| FederatedLaws.AcceptedMeans | crates/fornax-bench/src/federated_calibration.rs:184-205 | Accepted in numbers: at least three participants of one context, each with at least 30 observations |
| FederatedLaws.ExportSays | crates/fornax-bench/src/federated_calibration.rs:213-232 | An export states its purpose, every participant's context and their number |
| FederatedLaws.OddAggregateIff | crates/fornax-bench/src/federated_calibration.rs:157-163 | The aggregate of an odd number of residuals is the one in the middle place, by counting |
| FederatedLaws.EvenAggregateIs | crates/fornax-bench/src/federated_calibration.rs:157-166 | That of an even number is halfway between the two in the middle |
| FederatedLaws.TextUnderDigest | crates/fornax-bench/src/federated_calibration.rs:206-211 | The text under the digest, cut at its separators, is the ascending list of tenants with their revisions |
| FederatedLaws.DigitsRead | crates/fornax-bench/src/federated_calibration.rs:206-209 | Revisions are written in decimal without leading zeros |
| FederatedLaws.DigestReads | crates/fornax-bench/src/federated_calibration.rs:211 | The digest, read in hexadecimal, is the checksum of that text |
| Federated.KthIff | crates/fornax-bench/src/federated_calibration.rs:157-166 | The k-th smallest value is the only one with at most `k` values under it and more than `k` up to it |
| Federated.MajorityHolds | crates/fornax-bench/src/federated_calibration.rs:157-166 | With more than half of the values in a range the aggregate is in it, whatever the others are |
| Federated.HalfBreaks | crates/fornax-bench/src/federated_calibration.rs:157-166 | At least as many others as honest values, at any size, can push the aggregate above the honest range |
| Federated.RobustIff | crates/fornax-bench/src/federated_calibration.rs:157-166 | The honest range holds against every choice of the others exactly when more than half are honest |
| Federated.ExportHolds | crates/fornax-bench/src/federated_calibration.rs:184-232 | An export with more honest participants than others reports an aggregate in the honest range |
| Federated.ExportBreaks | crates/fornax-bench/src/federated_calibration.rs:184-232 | Otherwise the others can change their residuals alone and be accepted with an aggregate above it |
| Federated.ExportRobustIff | crates/fornax-bench/src/federated_calibration.rs:184-232 | Among accepted exports the honest range is kept, whatever the others claim, exactly when the honest are more |
| FederatedDigest.RevisionsTell | crates/fornax-bench/src/federated_calibration.rs:139-146 | With no `|` in a tenant id, the text under the digest changes exactly when the tenants with their revisions do |
| FederatedDigest.SeparatorConfuses | crates/fornax-bench/src/federated_calibration.rs:206-211 | With one, any two tenants among others can be replaced by a single one under the same text |
| FederatedDigest.DigestsDifferIff | crates/fornax-bench/src/federated_calibration.rs:211-258 | The digests differ exactly when the checksums of the texts do |
| FederatedDigest.DigestMustCollide | crates/fornax-bench/src/federated_calibration.rs:139-146 | Next to any others some two tenants share one digest, so the promise of a change cannot hold without exception |
| Federated.DigestSeesSmallChange | crates/fornax-bench/src/federated_calibration.rs:184-258 | Revision lists that differ, and only inside four consecutive bytes, have different hexadecimal digests |
| Federated.RaisingChangesNothing | crates/fornax-bench/src/federated_calibration.rs:157-166 | Moving a value above the upper middle anywhere not below it changes nothing |
| Federated.LoweringChangesNothing | crates/fornax-bench/src/federated_calibration.rs:157-166 | Likewise below the lower middle |
| Federated.OrderIrrelevant | crates/fornax-bench/src/federated_calibration.rs:184-232 | The participants in another order are accepted alike and give the same summary |
| Allocator.StepKeeps | crates/fornax-bench/src/main.rs:41-72 | Every atomic step of every thread keeps the accounts |
| Allocator.RunKeeps | crates/fornax-bench/src/main.rs:41-72 | Over every interleaving the current counter is the live bytes less what threads still owe, and the calls and bytes are complete up to what is pending |
| Allocator.ExactWhenQuiet | crates/fornax-bench/src/main.rs:41-72 | Once every call has finished all counters are exact |
| Allocator.ResetWhenQuiet | crates/fornax-bench/src/main.rs:82-89 | A reset with nothing under way starts exact accounting anew |
| Allocator.PeakSinceReset | crates/fornax-bench/src/main.rs:82-97 | From a quiet reset to any quiet point the peak is the largest value the current counter took in between |
| Allocator.AfterAnyReset | crates/fornax-bench/src/main.rs:82-97 | From a reset at any moment to any quiet point: the peak is the largest current value since or the largest one still unreported at the reset; calls and bytes are those since and those still uncounted at the reset |
| Allocator.AfterManyResets | crates/fornax-bench/src/main.rs:82-97 | The same for the last of any number of resets, whatever the earlier ones interrupted |
| Allocator.ResetExactIff | crates/fornax-bench/src/main.rs:82-97 | Each of the three is exact since the reset exactly when, at the reset, nothing larger was unreported, no call uncounted, nothing unsummed |
| Allocator.PeakAlwaysExactIff | crates/fornax-bench/src/main.rs:82-97 | Decided at the reset: the peak is exact for every run to a quiet point whose calls give back at most `freed` bytes exactly when no unreported peak exceeds both the current counter and the bytes that stay live |
| Allocator.StalePeak | crates/fornax-bench/src/main.rs:82-89 | An older block is freed while another thread is about to report its peak: a reset there leaves a peak that was never reached after it |
| Allocator.StraddlingCall | crates/fornax-bench/src/main.rs:82-89 | A reset just after a call began counts that call among the later ones |
| Counters.CountingAllocator.constructor | crates/fornax-bench/src/main.rs:34-37 | All counters start at zero |
| Counters.CountingAllocator.Alloc | crates/fornax-bench/src/main.rs:42-52 | A whole allocation equals its atomic steps run to the end and leaves exact counters |
| Counters.CountingAllocator.Dealloc | crates/fornax-bench/src/main.rs:54-57 | A whole deallocation likewise |
| Counters.CountingAllocator.Realloc | crates/fornax-bench/src/main.rs:59-71 | A whole reallocation likewise, counted only when it grows |
| Counters.CountingAllocator.ResetCounters | crates/fornax-bench/src/main.rs:82-89 | The reset keeps the current counter and starts the peak there |
| Counters.CountingAllocator.Snapshot | crates/fornax-bench/src/main.rs:91-97 | The snapshot is the exact number of calls, bytes and peak since the reset |

## Left out

- `discover`, sockets, the polling loop's timing, the marker file, idle files and cursor persistence: input and output with no further proof content.
- Errors and races of the file system: a read sees one consistent content, and a saved cursor is either saved or lost whole.
- Mutate.ApplyDocument: documents are values; that the Rust code edits a clone in place through mutable references is not modelled, nor is the order of object keys.
- Watch.RunStaysRight: the watcher is a step system over one file rather than a class, with the capabilities message left out; dropping an idle file and taking it up again is a restart.
- Codex.ParseExitCode: evidence summaries, observation times, provenance strings and the reasons given for ignored lines are not modelled.
- CodexAdapter.Adapter.Normalize: whether a message claims passing tests is a parameter, so its lower-casing is not modelled.
- Manifest.ValidateOperations: the manifest's identity, version, capability and target-path checks (`resolve_target_path`, `normalize_lexically`) are not modelled.
- Federated.BuildAggregateExport: the fixed explanatory texts, the schema version and the two thresholds repeated in a summary are dropped; not-a-number residuals are out of scope.
- Allocator.RunKeeps: the 64-bit wrap-around of the counters is not modelled, and a reset is one step.
- Gate.EvaluateGate: the explanatory detail of a verdict is not modelled.
- `remove_tenant`, `aggregate_naive_mean`, the hook adapter's translation, the Claude and OpenCode adapters, policies, reliability, fixtures and rendering: they would only add easy members or rest on code outside these cores.
