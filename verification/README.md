# Proofs about the editor host and its UI

This project models the stateful and algorithmic parts of the repository in Dafny and proves what each of them is
for. Every file is one component; each module stands for one source file or one group that works together.

| file | what it models |
|---|---|
| `Utf8.dfy`, `Utf8Chunker.dfy` | UTF-8 validation (section 4 of RFC 3629, maximal subparts of section 3.9 of the Unicode Standard) and the streaming decoder that keeps a split character whole |
| `Connection.dfy` | the request/response protocol of the LSP and DAP clients, every lock region and atomic access a step of its own |
| `Solution.dfy` | the build order of a solution: depth first, with cycle detection |
| `ProjectStandard.dfy` | wildcard matching of marker files |
| `StartupOutput.dfy` | the filter that answers the pty's first cursor query and takes it out of the stream |
| `Framing.dfy`, `Text.dfy` | `Content-Length` frames (Language Server Protocol 3.17, "Base Protocol") |
| `Shapes.dfy`, `RowBuilder.dfy`, `RowReading.dfy`, `RowTree.dfy`, `Conformance.dfy`, `Expansion.dfy`, `DataPath.dfy` | the data inspector |
| `DocumentSync.dfy`, `LatestTask.dfy`, `DapSession.dfy` | the asynchronous state machines of the UI |
| `Porcelain.dfy` | git's `-z` output |
| `Uri.dfy` | `file://` URIs in Rust and in TypeScript |
| `DebArchive.dfy` | the `ar` container of a Debian package |
| `TerminalTabs.dfy` | terminal tabs: opened, split, closed, saved and restored |
| `Promote.dfy` | a folder promoted into place while any operation may fail |
| `Bytes.dfy`, `Sequences.dfy`, `Strings.dfy`, `Decimals.dfy` | what several of them share |

Objects whose methods change their fields are classes with those fields, loops are loops, and each method is proved
equal to a specification function; the properties are then proved of that function. State machines with several
threads or waits are step relations, and their properties hold for every run; a method takes their objects through any
sequence of steps and ends where the relation does. Rust strings are UTF-8 bytes where the
bytes matter and character sequences elsewhere.

## What does not hold as one might expect

Each of these is proved with its exact condition, or shown for all inputs it concerns:

- A stream that ends after some headers, but before any `Content-Length` and before the blank line, is read as a clean
  end, although the documentation says so only of a stream that ends before any header
  (`Framing.CleanEndIff`, `Framing.CutAfterOtherHeader`).
- While a folder is promoted its destination is empty for a moment whenever an old folder was set aside, although the
  documentation says that one of the two is always there (`Promotion.DestinationIsNeverEmptyIff`). After a failed move
  the old folder comes back exactly when its own rename works and nothing the move left is in its way
  (`Promotion.FailureRestoresTheOld`); a staged folder that can't be removed leaves the new one there, and the promotion
  failed (`Promotion.RefusedRemovalKeepsTheNew`). A second promotion removes the `.old` folder first: the old tree is
  lost exactly when the first left neither tree whole at the destination and that removal takes or spoils it
  (`Promotion.AnotherPromotionForgetsTheOld`, `Promotion.OldIsForgottenIff`, `Promotion.TwoRefusalsForget`).
- The generation counter of a debug session tells pauses apart but not frames: scopes that arrive are shown even when
  another frame was selected since (`DapSessions.ScopesAreOfSelectedIff`, `DapSessions.ScopesOfAnotherFrame`).
- The end of a program is noted on whatever session is there by then, also one started, or started and stopped, since;
  on its own exactly while the generation and the idle status are as the end left them
  (`DapSessions.EndingIsNotedOnItsOwn`, `DapSessions.EndingOverwritesANewStart`,
  `DapSessions.EndingOverwritesAnIdleSession`). So is the outcome of a launch: a late one ends, runs or connects another
  session (`DapSessions.LaunchIsOfItsSessionIff`, `DapSessions.LateLaunchMeetsANewStart`,
  `DapSessions.LateLaunchConnectsNone`).
- After a refused `didOpen` the server still hears changes (`DocumentSyncs.ChangesFollowARefusedOpen`,
  `DocumentSyncs.OpenIffFirstTaken`).
- An error handler that throws while a task waits leaves it waiting with nothing running, until something is enqueued
  or cancelled (`LatestTasks.LeftWaitingIff`, `LatestTasks.LeftWaiting`).
- The old path of a rename or copy in the working tree is not kept (`Porcelain.OldPathsComeBackIff`,
  `Porcelain.WorkingTreeRenameLosesOld`).
- The host's URI decoder takes `%+1` for a percent triple, the editor's does not (`Uris.DecodersAgree`,
  `Uris.PlusEscapeDiffers`).
- A terminal's id is said to be never reused: it is, when a terminal of the same shell and number is opened again within
  one millisecond (`TerminalTabs.GivenAgainIff`, `TerminalTabs.ClosedIdGivenAgain`).
- The focused terminal is saved by its place among all terminals: with a shell gone another one may be focused
  (`TerminalTabs.FocusComesBackIff`, `TerminalTabs.FocusMovesOn`).
- `withIssuesOpen` also opens a branch whose only message is its own, where its comment speaks of what is under it
  (`Expansions.OpensWhatIsUnderIff`, `Expansions.OwnMessageOpens`).

## Model

| member | source | states |
|---|---|---|
| Utf8.HeadOf | crates/substrate-terminal-domain/src/utf8_chunker.rs:54-77 | the maximal subpart at the head of a byte sequence takes at least one and at most all of its bytes, so decoding always advances |
| Utf8.EncodedIsCharacter | crates/substrate-terminal-domain/src/utf8_chunker.rs:54-60 | the encoding of a code point is a character of the grammar exactly for the code points characters have |
| Utf8.CharacterIsEncoded | crates/substrate-terminal-domain/src/utf8_chunker.rs:54-60 | every character of the grammar is the encoding of one |
| Utf8.ValidIffWellFormed | crates/substrate-terminal-domain/src/utf8_chunker.rs:56-60 | validation accepts a byte sequence if and only if it is a concatenation of well-formed characters |
| Utf8.InvalidMeans | crates/substrate-terminal-domain/src/utf8_chunker.rs:61-72 | a refusal names the longest valid prefix; it has no error length exactly when what is left is a proper prefix of some character |
| Utf8.ValidPrefix | crates/substrate-terminal-domain/src/utf8_chunker.rs:62-64 | the prefix up to `valid_up_to` is valid, so the fallback to nothing is never taken |
| Utf8.LossyReads | crates/substrate-terminal-domain/src/utf8_chunker.rs:45-49 | lossy decoding cuts the input into characters, kept, and maximal ill-formed subparts, each one U+FFFD |
| Utf8.LossyOfText | crates/substrate-terminal-domain/src/utf8_chunker.rs:3-7 | lossy decoding changes text not at all and always gives text |
| Utf8Chunkers.DecodeConcat | crates/substrate-terminal-domain/src/utf8_chunker.rs:22-41 | decoding may stop anywhere and go on with what was held back: the result does not depend on the cut |
| Utf8Chunkers.DecodeHolds | crates/substrate-terminal-domain/src/utf8_chunker.rs:71-72 | what is held back ends the input, is at most 3 bytes and is a proper prefix of a character |
| Utf8Chunkers.DecodeThenFlush | crates/substrate-terminal-domain/src/utf8_chunker.rs:45-49 | what was decoded, followed by the flush of what is held back, is the one-shot lossy decoding |
| Utf8Chunkers.DecodeIsText | crates/substrate-terminal-domain/src/utf8_chunker.rs:3-7 | every piece handed on is valid UTF-8 on its own |
| Utf8Chunkers.DecodeRefused | crates/substrate-terminal-domain/src/utf8_chunker.rs:61-74 | a refused validation decodes to the valid prefix and then one replacement and the rest, or to the prefix with the rest held back |
| Utf8Chunkers.StillTruncated | crates/substrate-terminal-domain/src/utf8_chunker.rs:30-34 | a held back character and one more byte that is still truncated is again at most 3 bytes |
| Utf8Chunkers.DecodeInto | crates/substrate-terminal-domain/src/utf8_chunker.rs:54-77 | the loop over validations appends exactly the decoding and returns exactly the truncated character |
| Utf8Chunkers.Utf8Chunker.Push | crates/substrate-terminal-domain/src/utf8_chunker.rs:22-41 | output and new held back bytes are the decoding of the old held back bytes followed by the chunk |
| Utf8Chunkers.Utf8Chunker.Finish | crates/substrate-terminal-domain/src/utf8_chunker.rs:45-49 | what was held back is flushed as U+FFFD and nothing is held back after |
| Utf8Chunkers.DecodeStream | crates/substrate-terminal-app/src/spawn_utf8.rs:35-61 | for every cutting of every stream the pieces put together are the one-shot lossy decoding, each piece text on its own |
| Connections.Connection.FetchAdd | crates/substrate-dap-app/src/connection.rs:49-51 | the counter gives its number out and moves on; nothing else changes |
| Connections.Connection.Insert | crates/substrate-dap-app/src/client.rs:124-126 | the call's channel waits under its number; nothing else changes |
| Connections.Connection.Remove | crates/substrate-dap-app/src/connection.rs:124-126 | the channel that waited is taken out of the table, if one did |
| Connections.Connection.StoreStopped | crates/substrate-dap-app/src/connection.rs:72-75 | the flag is set and the table untouched: the first half of a stop |
| Connections.Connection.ClearPending | crates/substrate-dap-app/src/connection.rs:72-75 | the table is emptied and the flag untouched: the second half |
| Connections.Threads.TakeSending | crates/substrate-dap-app/src/client.rs:124-132 | a call up to its wait: its number in the table, the flag looked at, its frame written or its number withdrawn, as the step says and nothing else |
| Connections.Threads.TakeWaiting | crates/substrate-lsp-app/src/client.rs:137-150 | a call from its wait on: the response taken, or the table left and, of a language server, the cancellation written |
| Connections.Threads.TakeReading | crates/substrate-dap-app/src/connection.rs:79-144 | the reader's steps: a response taken to the call that waits for it, a request answered by its name and under a number of its own, the end of the stream noted |
| Connections.Threads.Take | crates/substrate-dap-app/src/connection.rs:49-144 | whichever thread moves, the object moves as the step relation says |
| Connections.RunThreads | crates/substrate-dap-app/src/connection.rs:49-144 | every interleaving of the object's methods ends in a reachable state, the one the steps that can be taken lead to |
| Connections.AfterIsReachable | crates/substrate-dap-app/src/connection.rs:49-144 | whatever is tried in whatever order, only reachable states come of it, so that what follows holds of the object |
| Connections.StepKeepsInv | crates/substrate-dap-app/src/client.rs:118-145 | every step of every thread keeps the protocol's invariant |
| Connections.RunKeepsInv | crates/substrate-dap-app/src/client.rs:118-145 | the invariant holds in every state of every interleaving |
| Connections.StepAddsNewNumber | crates/substrate-dap-app/src/connection.rs:54-62 | a frame written carries a number no frame on the wire carries |
| Connections.IdsAreUnique | crates/substrate-dap-app/src/connection.rs:49-51 | in every reachable state no two calls have one number and no two frames on the wire carry one |
| Connections.AnswersMatch | crates/substrate-dap-app/src/connection.rs:120-144 | a call that succeeds got a response that names its own number, and each response reaches at most one call |
| Connections.StoppedIsTrue | crates/substrate-lsp-app/src/client.rs:133-149 | a call is told "stopped" only by a connection that stopped |
| Connections.AfterStopOnlyLeavers | crates/substrate-dap-app/src/connection.rs:71-75 | once a stop has returned the table holds only calls that have yet to load the flag, and will then fail, or that are leaving |
| Connections.PendingEndsEmpty | crates/substrate-lsp-app/src/client.rs:134-142 | once every call has returned the table is empty |
| Connections.CallsAdvance | crates/substrate-lsp-app/src/client.rs:124-150 | a call takes finitely many steps of its own and no other thread adds any |
| Connections.NoneWaitsOnTheDead | crates/substrate-lsp-app/src/connection.rs:70-74 | after a stop has returned every call can go on without its timeout, at once or when the reader has handed over the response it holds for it |
| Connections.CallsAfterStopAreRefused | crates/substrate-dap-app/src/connection.rs:54-57 | a call begun once the flag is set fails as stopped and nothing of it is ever written |
| Connections.RequestIsSentIff | crates/substrate-dap-app/src/client.rs:124-132 | a call's frame is on the wire exactly when the call got past writing it; only one told "stopped" may have written it or not |
| Connections.CancellationIsOfTimedOut | crates/substrate-lsp-app/src/client.rs:137-148 | a cancellation names a request of a language server that timed out and was written before, and each at most once |
| Connections.CancelledIff | crates/substrate-lsp-app/src/client.rs:137-148 | a request that timed out is cancelled by its own number if and only if the connection was not found stopped then and the frame could be written |
| Connections.OutcomeTells | crates/substrate-lsp-app/src/client.rs:124-150 | what a call returns tells what happened to it: a timeout, a failed write, a response taken, and "stopped" exactly for every other end |
| Connections.RequestIsAnsweredIff | crates/substrate-dap-app/src/connection.rs:79-118 | a request of the other side is answered by its own name, once and before the next is read, if and only if the connection was not found stopped and the reply could be written |
| Connections.TheEndStops | crates/substrate-dap-app/src/connection.rs:79-89 | the end of the stream is a stop |
| Connections.StopsAreCleared | crates/substrate-dap-app/src/connection.rs:71-75 | every stop, of the reader or another thread, sets the flag and clears the table once after it, and nothing else sets the flag |
| Connections.NothingReadAfterTheEnd | crates/substrate-dap-app/src/connection.rs:79-89 | nothing is read after it |
| Solutions.FindProject | crates/substrate-project-domain/src/solution.rs:30-33 | a project found has the id asked for; none is found only when none has it |
| Solutions.MappingMeans | crates/substrate-project-domain/src/project_entry.rs:31-43 | a project's mapping is the first one listed for the configuration, and without one the configuration of the same name, built and not deployed |
| Solutions.BuildsIff | crates/substrate-project-domain/src/project_entry.rs:31-43 | a project is built if and only if the first mapping it lists for the configuration says so or it lists none |
| Solutions.BuildOrder | crates/substrate-project-domain/src/solution.rs:66-77 | Ok exactly when every named dependency exists and the graph has no cycle; the order is then exactly the built projects, each once, after all it depends on even through skipped ones; an error names a real cycle or a real missing dependency |
| Solutions.Visit.Project | crates/substrate-project-domain/src/solution.rs:80-108 | the visit ends; it keeps the order topological, only adds to it and adds the project, or reports a true error |
| Solutions.Visit.Dependencies | crates/substrate-project-domain/src/solution.rs:95-103 | after the loop every dependency of the project is in the order |
| Solutions.Visit.Place | crates/substrate-project-domain/src/solution.rs:104-107 | the project is no longer being visited, is done and is next in the order |
| Solutions.CycleClosed | crates/substrate-project-domain/src/solution.rs:90-94 | coming back to a project being visited means that it really reaches itself |
| Solutions.DependenciesStandBefore | crates/substrate-project-domain/src/solution.rs:95-107 | in a topological order what a project reaches by any path stands before it |
| Solutions.CompleteOrderIsProof | crates/substrate-project-domain/src/solution.rs:66-77 | an order of all projects proves that there is no cycle and nothing is missing |
| Solutions.RetainKeepsOrder | crates/substrate-project-domain/src/solution.rs:75-76 | leaving out projects keeps the others once each and in dependency order |
| Solutions.TopologicalToBuildOrder | crates/substrate-project-domain/src/solution.rs:66-77 | a topological order of everything, filtered by the configuration, is a build order |
| Solutions.UniqueIdsOrderAll | crates/substrate-project-domain/src/solution.rs:66-77 | with unique ids the order holds exactly the solution's projects the configuration builds |
| ProjectStandards.NameMatches | crates/substrate-project-domain/src/project_standard.rs:50-67 | the greedy loop decides the greedy specification for one name |
| ProjectStandards.FindInTurn | crates/substrate-project-domain/src/project_standard.rs:60-66 | every middle part is found at its first place in what is left, and the last part ends it |
| Sequences.FindsFirst | crates/substrate-project-domain/src/project_standard.rs:61-63 | the search finds a part wherever it stands and no later than there |
| ProjectStandards.GreedIsComplete | crates/substrate-project-domain/src/project_standard.rs:60-66 | taking the first place of each part loses nothing: greed succeeds exactly when some choice of runs does |
| ProjectStandards.FitsByParts | crates/substrate-project-domain/src/project_standard.rs:50-59 | cutting a pattern at its `*`s keeps its meaning, adjacent and trailing ones included |
| ProjectStandards.NameFitsMeans | crates/substrate-project-domain/src/project_standard.rs:50-67 | a name matches exactly when it can be had by replacing each `*` by some run of characters |
| ProjectStandards.FitsByNames | crates/substrate-project-domain/src/project_standard.rs:41-47 | cutting pattern and path at `/` keeps the meaning: no `*` spans a separator |
| ProjectStandards.MatchesMeansFits | crates/substrate-project-domain/src/project_standard.rs:41-47 | for all patterns and paths: a match if and only if the path can be had from the pattern |
| ProjectStandards.DetectMeans | crates/substrate-project-domain/src/project_standard.rs:27-36 | the standard detected is the first all of whose markers fit some file, none when there is none |
| StartupOutputs.StartupOutput.Accept | crates/substrate-terminal-pty/src/startup_output.rs:25-57 | after every accept the output so far and what is held back are the stream with its first query removed, the answer is written exactly when the query came, and the held back bytes are the longest suffix that may start one; a failed answer keeps everything |
| StartupOutputs.StartupOutput.AnswerAt | crates/substrate-terminal-pty/src/startup_output.rs:36-44 | the answer is written once and what surrounds the query is put out in order |
| StartupOutputs.StartupOutput.Release | crates/substrate-terminal-pty/src/startup_output.rs:46-54 | everything but the longest suffix that may start a query is put out |
| StartupOutputs.StartupOutput.Finish | crates/substrate-terminal-pty/src/startup_output.rs:59-63 | what was held back is put out unchanged |
| StartupOutputs.Retained | crates/substrate-terminal-pty/src/startup_output.rs:46-49 | the size found is that of the longest suffix that is a proper prefix of the query |
| StartupOutputs.QueryStartsInHeld | crates/substrate-terminal-pty/src/startup_output.rs:30-35 | a query that was not there before starts in what was held back |
| StartupOutputs.FindInHeld | crates/substrate-terminal-pty/src/startup_output.rs:31-35 | searching only what is held back and the new bytes is searching the whole stream |
| StartupOutputs.RetainedInHeld | crates/substrate-terminal-pty/src/startup_output.rs:46-49 | what may start a query at the end of the stream is seen in what is held back |
| StartupOutputs.QueryCame | crates/substrate-terminal-pty/src/startup_output.rs:36-44 | a query found in what is held back is the stream's first, and taking it out there takes it out of the stream |
| StartupOutputs.NoQueryYet | crates/substrate-terminal-pty/src/startup_output.rs:45-54 | with none found the stream has none, and what is put out and held back is all of it |
| StartupOutputs.AlreadyCame | crates/substrate-terminal-pty/src/startup_output.rs:26-29 | once the query was found later bytes are passed on and it stays the first |
| StartupOutputs.WithoutFirstMeans | crates/substrate-terminal-pty/src/startup_output.rs:30-44 | what is taken out is the first query there is and nothing else |
| StartupOutputs.SequencesAreSpelled | crates/substrate-terminal-pty/src/startup_output.rs:7-8 | the query and the answer are the terminal's sequences for the cursor's position |
| StartupOutputs.ReadAll | crates/substrate-terminal-pty/src/read_in_background.rs:21-40 | for every chunking: the host hears the stream with the first query removed and the answer is written exactly when there is one; when the answer can't be written the last read is the one that brought the query, the host hears all that was read, the query included, and what was written is what the writer took |
| Framing.WriteFrame | crates/substrate-framing/src/write_frame.rs:12-17 | the stream gains one header line, a blank line and the body, or as much of them as it takes; it succeeds exactly when all was taken and flushed |
| Framing.HearHeader | crates/substrate-framing/src/read_frame.rs:39-53 | one line is read as the specification reads it: blank, a length, another header or an error |
| Framing.HeaderMeans | crates/substrate-framing/src/read_frame.rs:39-53 | a line with a colon gives the length after it exactly when its name, however its letters are written and whatever white space stands around, is the one looked for |
| Framing.SpelledIff | crates/substrate-framing/src/read_frame.rs:46 | names are compared letter by letter, small and capital alike |
| Framing.OtherLinesAreBad | crates/substrate-framing/src/read_frame.rs:35-45 | a line that is no text or has no colon is an error, an empty one the end of the headers |
| Framing.WrittenIs | crates/substrate-framing/src/write_frame.rs:12-17 | a message stands on the stream as `Content-Length: ` and its size, an empty line and its bytes |
| Framing.ReadHeaders | crates/substrate-framing/src/read_frame.rs:27-58 | the loop reads the headers as specified and leaves the stream at the body |
| Framing.ReadFrame | crates/substrate-framing/src/read_frame.rs:16-25 | a body of exactly the length named, a clean end or an error, and the stream after it |
| Framing.ReadLoop | crates/substrate-dap-app/src/connection.rs:79-89 | frames are read one after another until the stream ends or fails |
| Framing.ReadWritten | crates/substrate-framing/src/read_frame.rs:16-25 | a written frame reads back as its body, whatever bytes it holds and whatever follows |
| Framing.ReadCut | crates/substrate-framing/src/read_frame.rs:16-25 | a frame cut anywhere strictly inside is an error, never a shorter message and never a clean end |
| Framing.ReadStreamWritten | crates/substrate-framing/src/write_frame.rs:12-17 | any sequence of written frames reads back as exactly those bodies in order, then a clean end |
| Framing.ReadStreamCut | crates/substrate-framing/src/read_frame.rs:16-58 | a stream cut anywhere, as a writer that fails leaves it, gives the whole frames before the cut and ends cleanly exactly when the cut is between two |
| Framing.ReadAfterCut | crates/substrate-framing/src/read_frame.rs:20-24 | after a writer that failed inside a body the beginning of what is written next is read as the rest of that body |
| Framing.CleanEndIff | crates/substrate-framing/src/read_frame.rs:25-38 | a stream is a clean end if and only if all it holds is lines of other headers |
| Framing.CutAfterOtherHeader | crates/substrate-framing/src/read_frame.rs:25-38 | a header alone, then the end of the stream, is read as a clean end |
| Decimals.CodesReadBack | crates/substrate-framing/src/read_frame.rs:48-52 | a written length reads back as that length within what fits |
| Decimals.ParsesIff | crates/substrate-framing/src/read_frame.rs:48-52 | a length is read exactly from its digits, with a plus sign and zeros ahead or none |
| Text.SpaceIffWhite | crates/substrate-framing/src/read_frame.rs:46-47 | exactly the white space of the Unicode Standard is trimmed |
| Text.TrimLeavesWord | crates/substrate-framing/src/read_frame.rs:46-47 | trimming takes all white space around a word and nothing of it |
| Decimals.ValueOfDigits | crates/substrate-framing/src/write_frame.rs:12-17 | the digits written for a number have its value |
| DataPaths.UnescapeEscape | ui/src/inspector/dataPath.ts:8-10 | undoing the two replacements gives every segment back (section 3 of RFC 6901) |
| DataPaths.EscapeStep | ui/src/inspector/dataPath.ts:8-10 | the two passes, `~` first, escape character by character |
| DataPaths.PathIdIffTexts | ui/src/inspector/dataPath.ts:8-10 | two paths have one id exactly when their segments read the same |
| Shapes.MissingDefinition | ui/src/inspector/parseShapeDescription.ts:8-22 | none is missing exactly when every reference of the shape is defined; one reported is a reference that is not |
| Shapes.VariantFieldsResolved | ui/src/inspector/parseShapeDescription.ts:24-31 | flattening the variants' fields loses none of their references |
| Shapes.MissingInDefinition | ui/src/inspector/parseShapeDescription.ts:24-31 | none is missing exactly when every reference of every field of the definition is defined |
| Shapes.FindUnresolved | ui/src/inspector/parseShapeDescription.ts:33-41 | a description is accepted exactly when every reference in its root and in all its definitions is defined |
| RowBuilders.Unwrap | ui/src/inspector/rowBuilder.ts:42-48 | the loop strips all names and options and tells whether there was an option |
| RowBuilders.NewBuilder | ui/src/inspector/rowBuilder.ts:31-39 | each row id has the messages of exactly the diagnostics at its path, in order |
| RowBuilders.MessagesAreAt | ui/src/inspector/rowBuilder.ts:31-39 | the messages of a row are those of exactly the diagnostics at its path, each once and in their order |
| RowBuilders.ItemIsSmaller | ui/src/inspector/rowBuilder.ts:122-126 | every item is smaller than its list: why row building ends for recursive definitions too |
| RowBuilders.FieldIsSmaller | ui/src/inspector/rowBuilder.ts:134-136 | a field's value, present or absent, is smaller than its object |
| RowReadings.RowReads | ui/src/inspector/rowBuilder.ts:42-188 | every row, whatever value and shape are, has the name, display, editor with its bounds, value and problem that its shape calls for, and under it exactly the rows of its items, entries or fields in order |
| RowReadings.PlainRows | ui/src/inspector/rowBuilder.ts:104-116 | a value no shape helps with is shown whole, its problem on the first row alone |
| RowReadings.OptionsAreOffered | ui/src/inspector/rowBuilder.ts:180-188 | a variant editor offers exactly the variants that need no field, and the current one, each once and in order; without a tag all of them |
| RowTrees.GenericSound | ui/src/inspector/rowBuilder.ts:104-116 | plain data rows count their messages, step down one segment at a time and have no unknown definition anywhere below |
| RowTrees.RowSound | ui/src/inspector/rowBuilder.ts:42-160 | whatever the description, every row at any depth counts what is below it and stands one segment below its parent; of a closed one none has the problem `unknownDefinition` |
| RowTrees.RowKnown | ui/src/inspector/rowBuilder.ts:42-160 | for an accepted description and every value no row at any depth has the problem `unknownDefinition` |
| RowTrees.RowMirrors | ui/src/inspector/rowBuilder.ts:42-160 | every row shows what stands at its path, a list's or map's rows are all its items or entries in order, and an editor edits what the row shows |
| RowTrees.IssueCountIsTotal | ui/src/inspector/rowBuilder.ts:54-73 | in every built tree, with repeated field names too, each issue count is the number of messages in the whole subtree |
| RowTrees.IdsAreDistinct | ui/src/inspector/rowBuilder.ts:54-73 | with distinct field names all row ids of a tree are distinct |
| RowTrees.BuildRows | ui/src/inspector/buildRows.ts:14-18 | a built tree has all of these at once, and reads its value as its shape says |
| Conformance.FineIffFits | ui/src/inspector/rowBuilder.ts:42-160 | a tree has no row with a problem if and only if the value is what the shape describes |
| Conformance.FitsStripped | ui/src/inspector/rowBuilder.ts:42-52 | names and options around a shape mean what stripping them says |
| Conformance.SwitchFits | ui/src/inspector/rowBuilder.ts:180-188 | choosing another variant the editor offers gives a value that fits, although it keeps no other field |
| Expansions.WithIssuesOpen | ui/src/inspector/expansion.ts:16-25 | exactly the branches already open and those with a message on or under them are open |
| Expansions.DefaultExpansion | ui/src/inspector/expansion.ts:4-13 | exactly the branches whose path is fewer than `depth` segments longer than the root's are open |
| Expansions.OpenBranches.VisitIssues | ui/src/inspector/expansion.ts:18-22 | the traversal adds exactly the branches with a message on or under them, whatever it leaves out |
| Expansions.OpenBranches.VisitDefault | ui/src/inspector/expansion.ts:6-10 | the traversal, which counts the steps down, adds exactly the branches that paths tell to be within the depth |
| Expansions.OpensByChildren | ui/src/inspector/expansion.ts:18-22 | a branch with issues opens itself and what its children open |
| Expansions.NothingToOpen | ui/src/inspector/expansion.ts:19 | stopping at a count of zero leaves nothing out |
| Expansions.AncestorsShouldOpen | ui/src/inspector/expansion.ts:15-16 | every ancestor of a row with a message is opened |
| Expansions.OpensWhatIsUnderIff | ui/src/inspector/expansion.ts:15-25 | the branches opened for their messages are those with a message under them if and only if no branch has messages of its own and none under it |
| Expansions.OwnMessageOpens | ui/src/inspector/expansion.ts:15-25 | an empty list with a message of its own is opened |
| Expansions.BuiltTreesCount | ui/src/inspector/rowBuilder.ts:54-73 | all trees that are built count their issues and step down one segment at a time in every row, as both traversals need |
| DocumentSyncs.DocumentSync.Update | ui/src/lsp/lspExtension.ts:42-46 | an edit arms the timer and sends nothing |
| DocumentSyncs.DocumentSync.Flush | ui/src/lsp/lspExtension.ts:49-58 | a pending edit is queued under the next version with the whole text, once |
| DocumentSyncs.DocumentSync.Destroy | ui/src/lsp/lspExtension.ts:60-62 | a pending edit is queued before the end |
| DocumentSyncs.DocumentSync.Take | ui/src/lsp/lspExtension.ts:39-62 | each stretch of code between two waits does what the step relation says |
| DocumentSyncs.RunSync | ui/src/lsp/lspExtension.ts:28-63 | any sequence of edits, timers, flushes and answers is a run of the step relation, and the plugin ends where it does |
| DocumentSyncs.StepKeepsInv | ui/src/lsp/lspExtension.ts:28-63 | every step keeps the order of what is told and only adds to it |
| DocumentSyncs.ToldInOrder | ui/src/lsp/lspExtension.ts:31-57 | over every run: open first, then changes with strictly increasing versions, then the close and nothing more |
| DocumentSyncs.GoneIff | ui/src/lsp/lspExtension.ts:60-62 | the editor is gone exactly once it was destroyed, and the close called exactly once it came |
| DocumentSyncs.NothingAfterDestroy | ui/src/lsp/lspExtension.ts:60-62 | nothing is typed or flushed after that, and the close comes once, after everything told was settled |
| DocumentSyncs.EditsAreArmed | ui/src/lsp/lspExtension.ts:42-57 | an edit that is not queued yet always has an armed timer |
| DocumentSyncs.CloseComes | ui/src/lsp/lspExtension.ts:60-62 | once destroyed the close is always some finite number of possible steps away |
| DocumentSyncs.FlushIsSettledIff | ui/src/lsp/lspExtension.ts:48-58 | what a flush waits for is settled exactly once as many calls were made or settled as it needed then, whatever is edited in between, and until then one more can be |
| DocumentSyncs.FlushReaches | ui/src/lsp/lspExtension.ts:48-58 | when a flush resolves and its call was taken, with no later change sent, the server has the editor's text at the flush if and only if it took the open; with a later one, that text or such a change's |
| DocumentSyncs.ChangesFollowARefusedOpen | ui/src/lsp/lspExtension.ts:39-55 | whatever is typed after a refused open, the change is sent and may be taken, of a document the server was never given |
| DocumentSyncs.OpenIffFirstTaken | ui/src/lsp/lspExtension.ts:39 | the server was given the document exactly when the very first call was taken, and only then has any text of it |
| LatestTasks.LatestTask.Enqueue | ui/src/infra/LatestTask.ts:8-11 | starts at once when nothing runs, else replaces what waited |
| LatestTasks.LatestTask.CancelPending | ui/src/infra/LatestTask.ts:14 | what waited is dropped; the running task stays |
| LatestTasks.LatestTask.Settle | ui/src/infra/LatestTask.ts:16-26 | what starts next is the latest enqueued task; with none waiting nothing runs |
| LatestTasks.LatestTask.SettleThrowing | ui/src/infra/LatestTask.ts:22-25 | a handler that throws ends the loop and leaves what waits |
| LatestTasks.Run | ui/src/infra/LatestTask.ts:1-26 | over every run the task object stands as the events say: without a throw each enqueued task is started once, replaced or cancelled, and none waits while nothing runs; with throws one is left waiting exactly when a throw stranded it |
| LatestTasks.LeftWaitingIff | ui/src/infra/LatestTask.ts:16-26 | a task is left waiting with nothing running if and only if a handler threw while one waited and nothing was enqueued or cancelled since |
| LatestTasks.LeftWaiting | ui/src/infra/LatestTask.ts:16-26 | the shortest run that leaves a task waiting while nothing runs |
| DapSessions.DapSession.Stop | ui/src/dap/dapSession.ts:121-128 | the generation moves, everything but the breakpoints is forgotten |
| DapSessions.DapSession.Control | ui/src/dap/dapSession.ts:162-172 | only a paused program runs on; then the generation moves and nothing of the pause is shown |
| DapSessions.DapSession.SelectFrame | ui/src/dap/dapSession.ts:177-187 | the frame is selected, its scopes asked for under the current generation and the old ones gone |
| DapSessions.DapSession.LoadVariables | ui/src/dap/dapSession.ts:192-202 | variables already there are not asked for again |
| DapSessions.DapSession.HearStopped | ui/src/dap/dapSession.ts:242-253 | a pause moves the generation and asks for its thread or its frames |
| DapSessions.DapSession.HearFrames | ui/src/dap/dapSession.ts:248-250 | frames of an older pause are dropped, else shown with the first selected |
| DapSessions.DapSession.HearScopes | ui/src/dap/dapSession.ts:181-185 | scopes of an older pause are dropped, else shown and the first cheap one's variables loaded |
| DapSessions.DapSession.Take | ui/src/dap/dapSession.ts:85-263 | each stretch of code between two waits, of every method and answer, does what the step relation says |
| DapSessions.RunSession | ui/src/dap/dapSession.ts:85-263 | any sequence of calls, events and answers is a run of the step relation, and the object ends where it does |
| DapSessions.StepCounts | ui/src/dap/dapSession.ts:121-255 | the generation moves exactly when the program runs on, pauses anew or the session ends |
| DapSessions.StepKeepsAsks | ui/src/dap/dapSession.ts:177-255 | a request keeps its question until it is answered, and a new one carries the current generation |
| DapSessions.GenerationTells | ui/src/dap/dapSession.ts:121-255 | between two moments of a run the generation is the same exactly when the program did not run on between |
| DapSessions.AnswerIsCurrentIff | ui/src/dap/dapSession.ts:177-255 | an answer passes the generation check exactly when no continue, step, new pause or stop happened since it was asked |
| DapSessions.StaleAnswersChangeNothing | ui/src/dap/dapSession.ts:177-255 | over every interleaving an answer asked before one of these changes nothing and asks nothing further |
| DapSessions.AnsweredOnce | ui/src/dap/dapSession.ts:177-255 | over every run a request is answered once, and nothing is taken for its answer again |
| DapSessions.AskIsAboutItsStep | ui/src/dap/dapSession.ts:177-255 | every request asks what the step that made it is about: the thread that paused, the frame selected, the reference opened |
| DapSessions.FramesAreShown | ui/src/dap/dapSession.ts:248-251 | frames that arrive while their pause goes on are shown, the first one selected |
| DapSessions.ScopesAreShown | ui/src/dap/dapSession.ts:177-187 | scopes that arrive while their pause goes on are shown, and the variables of the first that is not expensive asked for |
| DapSessions.FramesStay | ui/src/dap/dapSession.ts:216-255 | they stay until others arrive, the program runs on or a session starts |
| DapSessions.ThreadPauses | ui/src/dap/dapSession.ts:242-247 | of a pause without a thread the first thread that arrives is the one paused, for the reason told |
| DapSessions.PauseIsShown | ui/src/dap/dapSession.ts:242-248 | a pause with a thread is shown at once, and that thread's frames are asked for |
| DapSessions.VariablesAreShown | ui/src/dap/dapSession.ts:192-202 | variables that arrive while their pause goes on stand under the reference asked for, and the others stay |
| DapSessions.PausedLineIff | ui/src/dap/debugState.ts:85-96 | a line is marked in a file if and only if the program is paused and the frame selected, else the innermost, is on that line of it |
| DapSessions.ScopesAreOfSelectedIff | ui/src/dap/dapSession.ts:177-187 | scopes that arrive are the selected frame's exactly when no other frame was selected last since they were asked, whatever else was called meanwhile |
| DapSessions.ScopesOfAnotherFrame | ui/src/dap/dapSession.ts:177-187 | from every session: two frames selected, then the first one's scopes are shown with the second selected |
| DapSessions.EndingOverwritesANewStart | ui/src/dap/dapSession.ts:258-263 | from every session: a start between the end of a program and its noting is noted as over |
| DapSessions.EndingIsNotedOnItsOwn | ui/src/dap/dapSession.ts:258-263 | the end of a program is noted on the session it left, idle and of the same generation, if and only if nothing ran on, paused or ended since and no start, continue, pause or other note came |
| DapSessions.EndingOverwritesAnIdleSession | ui/src/dap/dapSession.ts:258-263 | from every session: after the end of a program, a start and a stop the session is idle, and is noted as over with the old program's output |
| DapSessions.LaunchIsOfItsSessionIff | ui/src/dap/dapSession.ts:98-118 | a launch's outcome meets the session it was asked for if and only if that was neither reset nor started anew since; whichever it meets, a refusal resets it and a success has a starting one running |
| DapSessions.LateLaunchMeetsANewStart | ui/src/dap/dapSession.ts:98-128 | from every session that may start: started, stopped and started again, the first launch's refusal resets it and its success has it running |
| DapSessions.LateLaunchConnectsNone | ui/src/dap/dapSession.ts:98-128 | from every such session: started and stopped, a late success leaves it connected while idle |
| DapSessions.RunningOnHidesThePause | ui/src/dap/debugState.ts:76-95 | a program that runs on has no paused line, stop, frames, scopes or variables, and its breakpoints stay |
| DapSessions.ResetForgets | ui/src/dap/dapSession.ts:98-128 | a stop, an end, a failed launch or a start forgets everything but the breakpoints |
| DapSessions.BreakpointIffToggled | ui/src/dap/dapSession.ts:75-83 | in every run a line has a breakpoint if and only if it was toggled an odd number of times |
| DapSessions.ListedHasBreakpoints | ui/src/dap/dapSession.ts:79-80 | a file is listed only with breakpoints |
| DapSessions.ConnectedIff | ui/src/dap/dapSession.ts:98-128 | the adapter is taken for connected if and only if a launch succeeded and nothing was reset since |
| DapSessions.StartsIff | ui/src/dap/dapSession.ts:98-106 | a session starts exactly when it is idle or over |
| DapSessions.SelectionAsks | ui/src/dap/dapSession.ts:177-181 | a frame selected has its scopes asked for, and none of the last one's are shown |
| DapSessions.LoadsOnce | ui/src/dap/dapSession.ts:192-196 | variables that are there are not asked for again |
| DapSessions.ExitIsShown | ui/src/dap/dapSession.ts:231-233 | an exit code is shown as it was told |
| DapSessions.OutputIsWritten | ui/src/dap/dapSession.ts:228-230 | the output is the last two thousand lines written since the start |
| DapSessions.EndIsNoted | ui/src/dap/dapSession.ts:258-263 | what is noted of a program's end is its output and exit code as they were then |
| Porcelain.RepoStatus.HearHeader | crates/substrate-git-gitcli/src/porcelain/status.rs:64-82 | a header sets exactly the field it names |
| Porcelain.RepoStatus.HearChanged | crates/substrate-git-gitcli/src/porcelain/status.rs:45-61 | an entry adds a change for each of its two letters and nothing else |
| Porcelain.ParseStatus | crates/substrate-git-gitcli/src/porcelain/status.rs:7-39 | the loop over the records builds what the specification reads, a rename taking the next record as its old path |
| Porcelain.LetterReadsBack | crates/substrate-git-domain/src/status/change_kind.rs:27-38 | each of git's letters reads as the kind it is written for, and no other letter as any |
| Porcelain.EntryAdds | crates/substrate-git-gitcli/src/porcelain/status.rs:15-61 | every kind of record adds exactly the changes and what its entry stands for, paths with spaces included |
| Porcelain.RecordsStep | crates/substrate-git-gitcli/src/porcelain/status.rs:19-22 | reading the first entry consumes exactly its records: an old path is never read as a record |
| Porcelain.FactReadsBack | crates/substrate-git-gitcli/src/porcelain/status.rs:63-82 | the commit, branch, upstream, ahead and behind counts and stashes git writes in its headers come back, each in its own place, and nothing else changes |
| Porcelain.StatusReadsBack | crates/substrate-git-gitcli/src/porcelain/status.rs:7-82 | any list of headers and entries as git writes them comes back whole: the commit, branch, upstream, counts and stashes, and exactly its staged, unstaged and conflicted changes, of their kinds and in order |
| Porcelain.OutputReadsBack | crates/substrate-git-gitcli/src/porcelain/status.rs:7-82 | a whole output is read as exactly the status it lists: nothing more, and of each kind of header the last |
| Porcelain.CutRename | crates/substrate-git-gitcli/src/porcelain/status.rs:18-22 | a rename cut off from its old path is read without one |
| Porcelain.NoNumberIsNone | crates/substrate-git-gitcli/src/porcelain/status.rs:77-82 | a count that is no number is none |
| Porcelain.OldPathsComeBackIff | crates/substrate-git-gitcli/src/porcelain/status.rs:45-61 | every rename and copy read has its old path if and only if git lists none in the working tree and none in the index without one |
| Porcelain.WorkingTreeRenameLosesOld | crates/substrate-git-gitcli/src/porcelain/status.rs:45-61 | of one file renamed in the working tree the change is read and its old path is not |
| Porcelain.ParseNameStatus | crates/substrate-git-gitcli/src/porcelain/name_status.rs:8-24 | the loop over the fields builds what the specification reads, a rename taking two paths |
| Porcelain.NameStatusReadsBack | crates/substrate-git-gitcli/src/porcelain/name_status.rs:8-24 | any list of changed files as git writes it comes back as exactly those kinds, paths and old paths in order |
| Uris.FromPath | crates/substrate-lsp-domain/src/uri.rs:19-37 | the loop writes the scheme and the encoding of the path with forward slashes |
| Uris.Decode | crates/substrate-lsp-domain/src/uri.rs:58-73 | the loop undoes percent triples and refuses what is cut, no number or not text |
| Uris.ToPath | crates/substrate-lsp-domain/src/uri.rs:42-54 | the path a URI names on the host, none for another scheme, another host or bad encoding |
| Uris.UriFromPath | ui/src/lsp/uri.ts:11-20 | the editor's loop gives the host's URI for every path |
| Uris.RoundTripIff | crates/substrate-lsp-domain/src/uri.rs:19-73 | a path comes back from its own URI, on either side, if and only if it starts with `/` and has no backslash and no drive shape, or is `X:…` without `/` |
| Uris.PathOfIff | crates/substrate-lsp-domain/src/uri.rs:42-54 | a path is read from a URI if and only if that has the scheme, this host or none, a `/`, and stands for text, and it is that text |
| Uris.UnescapeIff | crates/substrate-lsp-domain/src/uri.rs:58-73 | unescaping gives exactly the bytes a text stands for, each by itself or by a triple of either case |
| Uris.LocalMeans | crates/substrate-lsp-domain/src/uri.rs:47-54 | a drive's path loses its first `/` and has backslashes, any other stays |
| Uris.UnreservedIff | crates/substrate-lsp-domain/src/uri.rs:13-16 | letters, digits and `-._~/:` are kept as they are |
| Uris.HexValueIff | crates/substrate-lsp-domain/src/uri.rs:62-66 | digits of either case have their values |
| Uris.EncodeIsEncoded | crates/substrate-lsp-domain/src/uri.rs:13-37 | only unreserved characters, `/`, `:` and percent triples are written (sections 2.1 and 2.3 of RFC 3986) |
| Uris.EditorByteIsHosts | ui/src/lsp/uri.ts:13-19 | both sides encode every byte alike |
| Uris.DecodersAgree | ui/src/lsp/uri.ts:23-35 | both sides read the same path of a URI if and only if the host reads none or no `%+` stands after the host name |
| Uris.PlusEscapeDiffers | crates/substrate-lsp-domain/src/uri.rs:58-73 | the host reads `%+1` as one byte, the editor refuses it |
| DebArchives.ReadHeader | crates/substrate-installer-archive/src/unpack_deb.rs:44-51 | a whole header, a clean end at the container's end or an error, however short the reads are |
| DebArchives.Skip | crates/substrate-installer-archive/src/unpack_deb.rs:85-98 | exactly the bytes asked for are read past, or the stream was too short |
| DebArchives.Take | crates/substrate-installer-archive/src/unpack_deb.rs:67-83 | the unpacker is given exactly the member's bytes |
| DebArchives.UnpackDeb | crates/substrate-installer-archive/src/unpack_deb.rs:25-42 | for every container and every pattern of short reads the walk hands on what the specification finds |
| DebArchives.SizeFits | crates/substrate-installer-archive/src/unpack_deb.rs:60-65 | ten characters of size keep the padded size far inside 64 bits |
| DebArchives.WalkFindsFirst | crates/substrate-installer-archive/src/unpack_deb.rs:25-42 | the walk hands on exactly the bytes of the first `data.tar` member, earlier members and their padding skipped exactly |
| DebArchives.WalkFindsNone | crates/substrate-installer-archive/src/unpack_deb.rs:25-42 | a container of other members only has no data |
| DebArchives.HeaderReadsBack | crates/substrate-installer-archive/src/unpack_deb.rs:53-65 | name and size read back from every header as packages write it, names closed by a slash or not |
| DebArchives.PackageUnpacks | crates/substrate-installer-archive/src/unpack_deb.rs:14-83 | whatever package is written, its first member named `data.tar` is unpacked as its name says: plain, by gzip or by xz, and refused with any other ending |
| DebArchives.CutContainer | crates/substrate-installer-archive/src/unpack_deb.rs:25-98 | a container without data that is cut short ends in the error of the place it was cut at |
| DebArchives.OtherMarkIsNone | crates/substrate-installer-archive/src/unpack_deb.rs:25-30 | what starts otherwise is no container |
| TerminalTabs.SavedComesBack | ui/src/terminal/terminalTabs.ts:42-59 | saving, restoring and saving again gives the records of the shells still there in order, their groups numbered anew; with every shell there the same record: order, shells, numbers, names, groups and focus |
| TerminalTabs.FocusComesBackIff | ui/src/terminal/terminalTabs.ts:42-59 | the focus comes back if and only if its terminal's shell is there, and so is the shell of every terminal before it or of none after it |
| TerminalTabs.FocusMovesOn | ui/src/terminal/terminalTabs.ts:51-59 | of three terminals with the second focused and the first one's shell gone the third is focused |
| TerminalTabs.RestoredIdsDiffer | ui/src/terminal/terminalTabs.ts:28-55 | the ids given on restoring are all different, whatever the shells are called and whatever the clock says |
| TerminalTabs.RestoredIsConsistentIff | ui/src/terminal/terminalTabs.ts:51-59 | restored terminals have unique ids, unique pairs of shell and number and a focus exactly when there are any, if and only if the kept records are of different shells or numbers |
| TerminalTabs.SavedPairsDiffer | ui/src/terminal/terminalTabs.ts:42-49 | what consistent terminals save are such records |
| TerminalTabs.DashedIff | ui/src/terminal/terminalTabs.ts:28-30 | the number after a text's last dash can be told, whatever dashes and digits come before it |
| TerminalTabs.SameIdIff | ui/src/terminal/terminalTabs.ts:28-30 | two ids are the same if and only if they were made for one shell, number, clock and place, or a restored one reads as that of a shell named after it when the clock read its place |
| TerminalTabs.GivenAgainIff | ui/src/terminal/terminalTabs.ts:27-30 | over every run, whatever records are restored, an id is given again if and only if one was given for the same shell and number in the same millisecond |
| TerminalTabs.ClosedIdGivenAgain | ui/src/terminal/terminalTabs.ts:27-30 | a terminal closed and another of its shell opened within a millisecond have one id |
| TerminalTabs.TabsWereGiven | ui/src/terminal/useTerminalTabs.ts:22-84 | every terminal that is there has an id the run gave |
| TerminalTabs.StepKeepsConsistent | ui/src/terminal/useTerminalTabs.ts:22-84 | opening, splitting, closing, focusing and restoring keep ids and pairs of shell and number unique and a terminal that is there focused exactly when any is |
| TerminalTabs.RunIsConsistent | ui/src/terminal/useTerminalTabs.ts:22-84 | so it is after every run |
| TerminalTabs.LowestFree | ui/src/terminal/useTerminalTabs.ts:24-26 | the number is from 1 on, free, and every lower one is taken |
| TerminalTabs.SamePatternSameNumber | ui/src/terminal/terminalTabs.ts:42-48 | numbering groups by first appearance sees only which terminals share one |
| TerminalTabs.Terminals.AddTerminal | ui/src/terminal/useTerminalTabs.ts:22-31 | the new terminal has its shell's lowest free number, an id made of shell, number and clock, and the focus; the others stay |
| TerminalTabs.Terminals.SplitTerminal | ui/src/terminal/useTerminalTabs.ts:34-38 | another terminal joins the focused one's group, of its shell when that is still there, else of the first |
| TerminalTabs.Terminals.CloseTerminal | ui/src/terminal/useTerminalTabs.ts:45-58 | one terminal goes, the focus stays or moves as specified |
| TerminalTabs.Terminals.Restore | ui/src/terminal/useTerminalTabs.ts:63-74 | what was saved is opened again of the shells still there; with none, what is open stays or one of the first shell starts |
| TerminalTabs.AddedIsOneMore | ui/src/terminal/useTerminalTabs.ts:22-31 | one terminal more, of the lowest free number, focused, in a group of its own unless told another |
| TerminalTabs.SplitIsBeside | ui/src/terminal/useTerminalTabs.ts:34-38 | splitting adds one to the focused terminal's group, of its shell when that is still there, else of the first |
| TerminalTabs.ClosedIsGone | ui/src/terminal/useTerminalTabs.ts:45-58 | exactly the terminal closed is gone, the others as they were |
| TerminalTabs.Run | ui/src/terminal/useTerminalTabs.ts:22-84 | any sequence of these takes the object where the specification does, consistent at the end |
| TerminalTabs.AllNewMeans | ui/src/terminal/useTerminalTabs.ts:22-58 | what every operation keeps: ids, and pairs of shell and number, are unique |
| TerminalTabs.FocusAfterMeans | ui/src/terminal/useTerminalTabs.ts:49-55 | the focus after closing is on a split sibling, else on what took the place, else on the one before |
| TerminalTabs.WithoutKeeps | ui/src/terminal/useTerminalTabs.ts:45-49 | closing keeps the others unique |
| Promotion.DoCopyTree | crates/substrate-installer-fs/src/copy_tree.rs:8-23 | a copy goes through exactly the specified steps and stops at the first that fails |
| Promotion.DoCopyEntries | crates/substrate-installer-fs/src/copy_tree.rs:10-21 | entries are copied one after another into what was copied before |
| Promotion.FileSystem.DoRename | crates/substrate-installer-fs/src/promote.rs:20-24 | a rename moves the tree, or changes nothing |
| Promotion.FileSystem.DoRemoveAny | crates/substrate-installer-fs/src/promote.rs:37-44 | what is there is removed, what is not is fine, and a failed removal may leave a part |
| Promotion.FileSystem.DoMoveFolder | crates/substrate-installer-fs/src/promote.rs:53-61 | a rename, or across disks a copy and then a removal, every operation recorded |
| Promotion.FileSystem.DoPromote | crates/substrate-installer-fs/src/promote.rs:14-34 | the promotion with every fault, and the disk after each operation |
| Promotion.CopySucceeds | crates/substrate-installer-fs/src/copy_tree.rs:8-23 | a copy that succeeds leaves the whole tree |
| Promotion.CopiedIffNoLinks | crates/substrate-installer-fs/src/copy_tree.rs:25-34 | the copy is the tree itself exactly where links are kept or it has none |
| Promotion.NothingIsLost | crates/substrate-installer-fs/src/promote.rs:14-34 | whichever operation fails, after each one the complete old tree is at the destination or its `.old` name, or the complete new tree is at the destination |
| Promotion.TraceEndsInDisk | crates/substrate-installer-fs/src/promote.rs:14-34 | the disks recorded end with the one the promotion leaves |
| Promotion.CopyBegins | crates/substrate-installer-fs/src/copy_tree.rs:8-11 | a copy begins with an empty folder, unless that can't be made |
| Promotion.SuccessPlacesTheNew | crates/substrate-installer-fs/src/promote.rs:14-34 | after a success, over an old folder or none, the destination holds exactly the staged tree |
| Promotion.SuccessRemovesTheOld | crates/substrate-installer-fs/src/promote.rs:31-34 | after a success the `.old` name holds only what could not be removed of it |
| Promotion.NothingFails | crates/substrate-installer-fs/src/promote.rs:14-34 | when nothing fails the destination holds the staged tree, and its old places hold nothing |
| Promotion.NothingElseFailsAcross | crates/substrate-installer-fs/src/promote.rs:14-61 | the same with the staged folder on another disk, but for links where there are none |
| Promotion.FailureRestoresTheOld | crates/substrate-installer-fs/src/promote.rs:11-61 | whatever made the move fail, a refused rename, a failed copy or a staged folder that stays, the old tree is at the destination if and only if its rename works and what the move left is not in its way, or the move left the same tree; else it is at its `.old` name and the destination holds what the move left |
| Promotion.SameDiskFailureRestores | crates/substrate-installer-fs/src/promote.rs:25-30 | after a failed move on one disk, and a working rename, the disk is as it was but for an earlier `.old` |
| Promotion.RefusedRemovalKeepsTheNew | crates/substrate-installer-fs/src/promote.rs:25-61 | a whole copy whose staged folder can't be removed fails the promotion with the new tree at the destination and the old one at its `.old` name |
| Promotion.CopyStopsAfterFirst | crates/substrate-installer-fs/src/copy_tree.rs:8-23 | a copy that stops after its first file leaves a folder no folder can replace |
| Promotion.DestinationIsNeverEmptyIff | crates/substrate-installer-fs/src/promote.rs:11-13 | something is at the destination after every operation exactly when the old folder is never set aside |
| Promotion.AnotherPromotionForgetsTheOld | crates/substrate-installer-fs/src/promote.rs:14-34 | over two promotions with any faults: after the second one's first operation the old or the new tree is whole if and only if the first left one of them whole at the destination or the removal of the `.old` name leaves the old tree whole there |
| Promotion.OldIsForgottenIff | crates/substrate-installer-fs/src/promote.rs:14-61 | the old tree is lost to the next promotion if and only if it could not be restored, the failed move left neither it nor the whole new one, and the removal of its `.old` name takes or spoils it |
| Promotion.TwoRefusalsForget | crates/substrate-installer-fs/src/promote.rs:14-34 | on every disk two refused renames leave the old tree at its `.old` name alone, where a promotion in which nothing fails removes it |

## Left out

- JSON, tar, gzip and xz: frame bodies and package payloads are opaque bytes.
- Parsing a shape description: its nodes, definitions and fields are taken as already parsed; only the check of references is modelled.
- Type labels and documentation texts of rows, and fields of JavaScript's object prototype as field names.
- Values in the inspector are finite trees with each key once; numbers are reals without NaN, infinities or negative zero.
- Timeouts are events that may happen at any step a call waits; the wrap-around of 64-bit request numbers is not modelled.
- Atomic accesses of the connections are one total order of steps; weaker orderings than the locks already give are not modelled. Notifications of the host that carry no number are not frames of this model.
- Connections.NoneWaitsOnTheDead: a write that blocks for ever in the operating system is not modelled, each write succeeds or fails.
- Framing.ReadFrame: the body is not parsed, so a body that is no JSON is no error; a `Content-Length` too large to allocate makes the reader panic, where the model says that the stream ended too early.
- Framing.WriteFrame: the body is given as bytes; what keeps a stream from taking more of them is a number of bytes it takes.
- Connections.Threads.TakeSending: a write that fails leaves nothing on the wire; the source may leave a part of the frame, and what is then read `Framing.ReadStreamCut` and `Framing.ReadAfterCut` say for a stream of bytes.
- Reads interrupted by a signal and read errors other than the end of the stream.
- The sink's cancellation between reads of a package, and its progress.
- Starting a debug session is two steps, the request and its outcome; the waits between (listening, `initialized`, breakpoints, `configurationDone`) are one. Unsubscribing from events is not modelled, so events may arrive at any time.
- What the debug adapter is told of breakpoints, and asking it to pause a running program.
- Promotion.NothingIsLost: the three paths are different and none inside another; making the parent folder only succeeds or fails; a file copy that fails may leave any file or folder in its place.
- Promotion.DoCopyTree: computes the states of the target as values; the file system object records them.
- TerminalTabs.RunIsConsistent: the clock counts milliseconds since 1970 and has counted more of them than terminals were ever saved; of an earlier clock `TerminalTabs.SameIdIff` says which ids meet.
- Renaming a terminal, the store of saved terminals by project and "Open in Terminal" requests.
- Uris.RoundTripIff: paths are UTF-8; what the host makes of other paths is not modelled.
- `decodeURIComponent` is modelled on the UTF-8 bytes of its argument.
- The git formats' states of submodules, modes, object names and scores are opaque fields.
- Project folders and solution folders, the tree view of a solution, and parsing solution files.
- React components, the CodeMirror and xterm wiring, translations, Tauri commands and processes.
