# Lagado agent: verified cores

A Dafny model of the deterministic cores of the Lagado desktop agent, with proofs of what they are for.
Each module follows one component; objects that the program updates in place are classes whose methods are
proved against a function of the old state, and the properties are proved about those functions over all
inputs or all runs.

| module | component |
|---|---|
| `Supervisor` | escalation supervisor: stall, retry and oscillation detection over an ordered ladder |
| `ActionGraph` | action cache over the edge table |
| `LeastSquares`, `Governor` | VRAM calibration, prediction, context search and launch plan |
| `Gguf`, `Bytes` | GGUF header reader and the encoder it inverts |
| `WebSocket` | WebSocket client frames (RFC 6455) |
| `Gbnf`, `SelectorGrammar`, `BracketParser` | selector grammar and the parser of bracket calls |
| `CapabilityGrammar`, `CapabilityCall`, `CapabilityReadBack`, `CapabilityChain` | capability grammar, parser, validator and command builder |
| `CapabilityCommand`, `CapabilityCut`, `CapabilityOutcome` | what a shell makes of the command; calls cut at a line break; the chain from model output to command |
| `Shell`, `BackDoor`, `IniEdit` | POSIX quoting, expansion and token recognition; back-door commands; what grep and sed do to a settings file |
| `GoalDecomposition`, `CommandRetry` | goal splitter; reform-and-retry loop |
| `MemoryTiers`, `SleepGate` | hot, warm and cold memory; consolidation cycles |
| `ParkRanking` | Park scores and top-k |
| `ServerGuard` | health-poll machine |
| `Chronos` | audit log, written and read back |
| `Text`, `Arith`, `Sequences`, `Wrappers` | shared vocabulary |

Conventions. 32-bit and 64-bit floats are `real`. Strings are ASCII (`seq<char>`), streams are
`seq<byte>`. The clock, row identifiers, the order of query results, what commands print and what the
language model answers are inputs, so every statement holds for all of them. So are the database failures of
`ActionGraph`, `MemoryTiers` and `SleepGate`: a failed insert, update or delete, a delete that fails midway,
a count or a query that fails, and rows that cannot be read.

Findings worth knowing about the code:

- The supervisor bounds its window only by an equality test, so a window of 0 with a positive threshold
  grows without bound (`Supervisor.WindowBoundExactly` says exactly when it is bounded).
- The stride-256 search misses up to 510 tokens (`Governor.BoundIsExact`), and the
  cold-start fallback is never Green by mistake once the model is known to take at least 256 tokens
  (`Governor.GreenExactlyWhenFound`). Below 256 tokens, and where the context length is unknown, the search
  finds nothing, and the plan is Green exactly when the model's maximum, or 4096, fits
  (`Governor.UnsearchedGreenExactly`, `Governor.GreenWithoutFind`).
- A `wait` of 2^64 milliseconds or more silently becomes the default of 1000.
- Only the first text line of the model's output is parsed, while the grammar lets free text span lines. A
  call is read as it was spelled exactly when its free text keeps to one line
  (`CapabilityOutcome.ReadExactly`). Otherwise it is cut at the last closing parenthesis of the first line, and
  only without one is there no call (`CapabilityOutcome.BrokenReadExactly`): a line break behind a parenthesis
  in a selector turns the delete of a few files into the delete of all of them
  (`CapabilityOutcome.DeletesEveryFile`).
- The command builder quotes with double quotes, in which the backquote stays active, and a dollar sign before
  a name, a special parameter, a brace or a parenthesis. The grammar allows both in free text and the validator
  looks at paths only, so a command is read as it was meant exactly when the free text it uses holds no
  backquote and no such dollar sign (`CapabilityOutcome.DerivableReadExactly`,
  `CapabilityOutcome.NameTakenFromOutput`); a pattern that ends in `$` is safe
  (`CapabilityOutcome.PlainTextReadAsMeant`).
- Setting a key in an ini-style file pastes key and value into a grep pattern and a sed expression. Every file
  that ends with a line break comes out as wanted exactly when neither holds a character that means something
  there: a dot or a star (but in front) in the key, an ampersand, a backslash or a bar in either
  (`IniEdit.SetExactly`). In a file without a final line break a new setting is glued to the last line
  (`IniEdit.SetOnFileExactly`).
- A capability call can build no command although every slot was given: `<>` as a selector, a new name or
  a pattern is emptied by the stripping of angle brackets (`CapabilityOutcome.BracketsBuildNothing`).
- Pongs carry no application data, where section 5.5.3 of RFC 6455 wants the ping's data echoed: a pong echoes
  its ping exactly when the ping is empty (`WebSocket.EchoesExactly`).
- An event logged with a timestamp of 2^63 seconds or more is written but not read back.
- Scaling all relevances keeps the rankings for every weighting exactly when both spreads lie on one side of
  float epsilon (`ParkRanking.RankingsKeptExactly`).
- A consolidation batch is lost when its answer is missing or blank or its insert fails: its entries have
  left the hot tier by then (`SleepGate.BatchSurvivesExactly`).
- A failed count reads as zero, so a prune step can leave the warm tier over its maximum
  (`SleepGate.PruneStepBounds` says exactly when).

## Model

| member | source | states |
|---|---|---|
| `Supervisor.Supervisor.Observe` | lagado-agent/src/supervisor.rs:157-208 | the new state and the directive for every outcome and hash, as one step of the machine |
| `Supervisor.Supervisor.Record` | lagado-agent/src/supervisor.rs:210-215 | the oldest hash makes room exactly when the window is full |
| `Supervisor.Supervisor.EscalateTier` | lagado-agent/src/supervisor.rs:219-228 | the next rung or Abort, with counters and window cleared |
| `Supervisor.InvHoldsThroughoutEveryRun` | lagado-agent/src/supervisor.rs:157-228 | over every run: bounded window, adjacent hashes distinct, counters below their limits |
| `Supervisor.TiersHandedOutInOrder` | lagado-agent/src/supervisor.rs:219-228 | over every run the tiers handed out are the next rungs in order, no skip, no repeat, then Abort |
| `Supervisor.DirectivesExactly` | lagado-agent/src/supervisor.rs:157-228 | over every run each directive from the observations and directives before it: the tier is left iff perception is blind, the hash closes a loop in the window, or the stalls or failures since the last progress or tier change, this one included, reach their limit; the next rung or Abort; otherwise Continue, Done or a reset |
| `Supervisor.WindowBoundExactly` | lagado-agent/src/supervisor.rs:210-215 | every run keeps the window bound if and only if the window is positive or the threshold is 0 |
| `Supervisor.BlockedRunsAbort` | lagado-agent/src/supervisor.rs:157-228 | any run of no-progress outcomes reaches Abort within ladder length times (stall + retry limit - 1) observations, whatever the hashes |
| `Supervisor.BlockedBoundIsExact` | lagado-agent/src/supervisor.rs:157-228 | a concrete run one observation shorter never aborts, so no smaller bound holds |
| `Supervisor.CycleDetectedExactly` | lagado-agent/src/supervisor.rs:163-188 | steady progress round k >= 2 distinct states escalates iff k times threshold fits the window, at exactly every (k times threshold + 1)-th observation |
| `Supervisor.FirstCycleEscalation` | lagado-agent/src/supervisor.rs:163-188 | the first such escalation is observation k times threshold + 1, and not before |
| `Supervisor.ConstantHashNeverEscalates` | lagado-agent/src/supervisor.rs:163-188 | progress on an unchanging screen never escalates, however long |
| `ActionGraph.ActionGraph.GetBestAction` | lagado-agent/src/action_graph.rs:145-185 | a hit answers from the cache and writes nothing; a miss loads, caches and bumps the chosen row, with every failure path |
| `ActionGraph.ActionGraph.RecordOutcome` | lagado-agent/src/action_graph.rs:187-222 | the edge is upserted and that state's cache entry dropped, or nothing changes on a failed write |
| `ActionGraph.ActionGraph.PruneLowProbability` | lagado-agent/src/action_graph.rs:224-245 | rows below the threshold go, the cache is emptied, the count is the number of rows removed |
| `ActionGraph.RowsAnswerForTable` | lagado-agent/src/action_graph.rs:275-316 | whatever order the query returns, the choice from its rows is a best action of the table |
| `ActionGraph.StaleRowsStillAnswer` | lagado-agent/src/action_graph.rs:145-185 | after the bump the cached rows have a stale time, yet answer every confidence as the bumped table would |
| `ActionGraph.CoherentThroughoutEveryRun` | lagado-agent/src/action_graph.rs:145-245 | over every run each cached list answers for the current table at every confidence |
| `ActionGraph.AnswersAreBest` | lagado-agent/src/action_graph.rs:145-185 | in every run each answer is a best action of the table at that moment |
| `ActionGraph.AnswersBestInCounts` | lagado-agent/src/action_graph.rs:53-60 | when a query is answered, and in counts: the answer has at least the wanted share of successes, no smaller a share than any edge of the state, and with the same share is used at least as late; no answer iff no edge reaches the share |
| `ActionGraph.AnswersEqualTheTables` | lagado-agent/src/action_graph.rs:145-185 | under a strictly advancing clock each answer equals the one a fresh query of the table gives |
| `ActionGraph.PruningKeepsConfidentAnswers` | lagado-agent/src/action_graph.rs:224-245 | pruning at t changes no answer at confidence t or above |
| `ActionGraph.PrunedExactly` | lagado-agent/src/action_graph.rs:224-245 | an edge survives a prune at t iff it is untried or its successes are at least t times its attempts |
| `ActionGraph.CachedExactly` | lagado-agent/src/action_graph.rs:145-245 | over every run the cache holds exactly the states loaded since they were last written to and since the last prune |
| `ActionGraph.TimesExactly` | lagado-agent/src/action_graph.rs:145-222 | over every run an edge bears the time of its last outcome or of its last answer that was not taken from the cache |
| `ActionGraph.WritesAnswered` | lagado-agent/src/action_graph.rs:187-245 | a failed write changes nothing; a prune reports how many edges went |
| `ActionGraph.OutcomesCounted` | lagado-agent/src/action_graph.rs:187-222 | between prunes every written outcome is counted exactly once, on its own edge, over every run |
| `LeastSquares.DenominatorIsPairSpread` | lagado-agent/src/governor.rs:185-201 | the denominator is the sum of squared differences over all pairs of contexts |
| `LeastSquares.FitExistsExactly` | lagado-agent/src/governor.rs:185-201 | for whole contexts there is a fit iff two contexts differ: the epsilon guard rejects nothing else |
| `LeastSquares.FitIsTheOptimum` | lagado-agent/src/governor.rs:185-201 | no other line has a smaller or equal squared error |
| `LeastSquares.FitRecoversLine` | lagado-agent/src/governor.rs:185-201 | collinear points give back their line |
| `Governor.CalibratedExactly` | lagado-agent/src/governor.rs:206-228 | a prediction exists iff two full-offload measurements differ in context |
| `Governor.PredictionReproducesMeasurements` | lagado-agent/src/governor.rs:206-228 | collinear full-offload measurements are predicted exactly |
| `Governor.PredictionExactly` | lagado-agent/src/governor.rs:206-228 | the prediction is the fitted line at the context less the share of the weights of the layers left to the CPU |
| `Governor.PredictionGrowsWithLayers` | lagado-agent/src/governor.rs:206-228 | more offloaded layers never lower the prediction |
| `Governor.FindLargestFittingCtx` | lagado-agent/src/governor.rs:369-386 | the search loop computes the search function and terminates |
| `Governor.SearchIsNearOptimal` | lagado-agent/src/governor.rs:369-386 | a found context fits and lies in [256, max]; with a slope that is not negative everything that fits is below it plus 511, and None means nothing from 511 up fits |
| `Governor.BoundIsExact` | lagado-agent/src/governor.rs:369-386 | a calibrated model for which the search stops 510 tokens short, so no smaller bound holds |
| `Governor.PlanStaysWithinModel` | lagado-agent/src/governor.rs:290-366 | no plan exceeds the model's context or layers |
| `Governor.ContextPlanned` | lagado-agent/src/governor.rs:290-366 | a pinned context is planned up to the model maximum, with or without a GPU and whatever was measured; unpinned and uncalibrated it is 4096 up to that maximum |
| `Governor.OffloadPlanned` | lagado-agent/src/governor.rs:290-366 | pinned layers up to the block count with the preference for the experts; unpinned all where the weights and a tenth fit, all with the experts on the CPU where they do not and there are experts, else none; nothing without a GPU |
| `Governor.VerdictExactly` | lagado-agent/src/governor.rs:231-243 | the verdict on the planned context and layers: Green up to 85 percent of the free memory, Amber up to all of it, Red beyond; none iff uncalibrated |
| `Governor.FoundContextIsGreen` | lagado-agent/src/governor.rs:290-366 | an unpinned GPU plan with free VRAM and a found context is Green, with that context |
| `Governor.GreenExactlyWhenFound` | lagado-agent/src/governor.rs:290-386 | from 256 tokens up, where a calibration has no negative slope, such a plan is Green iff the search found a context |
| `Governor.UnsearchedGreenExactly` | lagado-agent/src/governor.rs:290-386 | below 256 tokens, or with an unknown context length, the search finds nothing, the plan takes the model maximum (4096 if unknown), and is Green iff that fits |
| `Governor.GreenWithoutFind` | lagado-agent/src/governor.rs:290-386 | a model below 256 tokens, or of unknown context length, whose plan is Green although the search found nothing |
| `Gguf.Reader.ReadExact` | lagado-agent/src/gguf.rs:150-178 | the next n bytes and a position n further, or an error; never past the end |
| `Gguf.Reader.ReadValue` | lagado-agent/src/gguf.rs:116-148 | the value of any type, arrays consumed recursively and discarded |
| `Gguf.Reader.ReadPairs` | lagado-agent/src/gguf.rs:66-74 | the loop fills the map as the pair function does, on arbitrary bytes |
| `Gguf.Reader.ParseHeader` | lagado-agent/src/gguf.rs:56-107 | the object reads exactly what the parsing function reads, errors included |
| `Gguf.ValueRead` | lagado-agent/src/gguf.rs:116-148 | every encoded value, arbitrarily nested, is read back and consumed to its last byte |
| `Gguf.StoredIsLatest` | lagado-agent/src/gguf.rs:66-74 | the map holds for each key the last value that is neither float nor array |
| `Gguf.HeaderRoundTrip` | lagado-agent/src/gguf.rs:56-148 | parsing an encoded header followed by anything consumes exactly the header and yields the last value for every field |
| `Gguf.FieldsExactly` | lagado-agent/src/gguf.rs:79-107 | key by key: each field of every header comes from the last value under its own key, refused iff the architecture is not text |
| `Gguf.TypesExactly` | lagado-agent/src/gguf.rs:116-148 | the value types by number, with width, sign and what is skipped |
| `Gguf.TextExactly` | lagado-agent/src/gguf.rs:170-178 | a text of up to 64 MiB is the bytes behind its length; longer is refused |
| `Gguf.StartExactly` | lagado-agent/src/gguf.rs:56-64 | short data and other magic bytes are refused |
| `WebSocket.Socket.SendText` | lagado-agent/python/guest/cdp_dom.py:92-104 | one masked text frame in the shortest length form is sent |
| `WebSocket.SentOnWire` | lagado-agent/python/guest/cdp_dom.py:92-104 | every byte sent: 0x81, the shortest length form digit by digit, the key, and each payload bit turned iff the key bit is one |
| `WebSocket.Socket.RecvExact` | lagado-agent/python/guest/cdp_dom.py:107-114 | however the stream is chunked, exactly the next n bytes, or failure when it ends first |
| `WebSocket.Socket.RecvFrame` | lagado-agent/python/guest/cdp_dom.py:121-131 | one frame of any length class off the stream, or failure when the stream is too short |
| `WebSocket.Socket.RecvText` | lagado-agent/python/guest/cdp_dom.py:117-139 | the loop returns what the stream says, the k-th pong sent for the k-th ping, close and loss included |
| `WebSocket.PongParsed` | lagado-agent/python/guest/cdp_dom.py:133-135 | every pong sent is a final, masked pong frame without payload |
| `WebSocket.EchoesExactly` | lagado-agent/python/guest/cdp_dom.py:133-135 | a pong echoes the data of a ping iff the ping has none |
| `WebSocket.FrameReadBack` | lagado-agent/python/guest/cdp_dom.py:121-131 | every valid frame is parsed back and consumed exactly, masked or not |
| `WebSocket.FragmentedMessageReceived` | lagado-agent/python/guest/cdp_dom.py:117-139 | any fragmentation with any interleaved pings and pongs yields the concatenated payload, consumed through the final frame |
| `WebSocket.MaskTwice` | lagado-agent/python/guest/cdp_dom.py:103-104 | masking twice with one key is the identity |
| `WebSocket.SentFrameDecodes` | lagado-agent/python/guest/cdp_dom.py:92-104 | every sent frame decodes to its payload and is shortest for its length |
| `BracketParser.FindBracketCall` | lagado-agent/src/bracket_parser.rs:52-98 | the index loop finds the call the scanner function defines and stays in bounds on every input |
| `BracketParser.CallFound` | lagado-agent/src/bracket_parser.rs:52-98 | parentheses in quotes and escaped quotes never cut a call short, parentheses outside quotes are paired to any depth |
| `BracketParser.DefaultsExactly` | lagado-agent/src/bracket_parser.rs:9-48 | what each call is read as without its argument; an unknown name is kept |
| `BracketParser.RescueExactly` | lagado-agent/src/bracket_parser.rs:125-166 | output without a call is read as the first of five actions it mentions, with its first quoted text or number of three to five digits, else as chat |
| `SelectorGrammar.LanguageIsDerivations` | lagado-agent/src/grammar.rs:25-49 | the grammar over n candidates derives exactly the printed click, type, key, wait and done calls |
| `SelectorGrammar.PrintedExactly` | lagado-agent/src/grammar.rs:25-49 | the five calls letter by letter, with `el_` and the index or `none` for the target |
| `SelectorGrammar.SelectorChain` | lagado-agent/src/bracket_parser.rs:9-48 | every string of the grammar is parsed to the call it was derived as, free text exact |
| `SelectorGrammar.WaitReadExactly` | lagado-agent/src/bracket_parser.rs:152-156 | a wait is read as its digits iff they fit 64 bits |
| `SelectorGrammar.ChoicesStayApart` | lagado-agent/src/bracket_parser.rs:9-48 | a derivation other than a wait is parsed like no other: distinct choices stay apart |
| `CapabilityGrammar.LanguageIsDerivations` | lagado-agent/src/grammar.rs:57-101 | the grammar over the observed paths derives exactly the printed calls with safe paths and fitting slots |
| `CapabilityCall.ParseCapabilityCall` | lagado-agent/src/agent.rs:1084-1101 | the character loop and the map loop compute the call function |
| `CapabilityReadBack.LineReadBack` | lagado-agent/src/agent.rs:1084-1101 | every printed call is read as its verb and slots, whatever its text holds but quotes |
| `CapabilityReadBack.VerbInAnyCase` | lagado-agent/src/agent.rs:1084-1088 | a verb is read in any case, with blanks around it and colons behind it |
| `CapabilityChain.MeantRead` | lagado-agent/src/agent.rs:1095-1100 | the parameters are exactly the filled slots, each up to its outer angle brackets |
| `CapabilityChain.RelatedExactly` | lagado-agent/src/agent.rs:1174-1175 | a path is grounded by another iff they are equal or one lies beneath the other at a slash |
| `CapabilityChain.ChecksEveryKey` | lagado-agent/src/agent.rs:1176-1182 | the validator's loop accepts iff every path key present is grounded |
| `CapabilityChain.ValidateExactly` | lagado-agent/src/agent.rs:1166-1184 | for every call: accepted iff the verb is one of seven and each path slot there is absolute, free of `..`, and is, lies beneath or lies above an observed path; else the unknown verb or the first such slot is named |
| `CapabilityChain.FolderSplitExactly` | lagado-agent/src/agent.rs:1112-1119 | a pattern in the folder slot is split at its last slash, and what stands behind is the selector where there is none |
| `CapabilityChain.AcceptedExactly` | lagado-agent/src/agent.rs:1166-1184 | a derivable call is accepted iff each of its paths is absolute and free of `..`, new part included |
| `CapabilityChain.AcceptedUnlessDotsInChild` | lagado-agent/src/agent.rs:1166-1184 | where all safe observed paths are clean, it is accepted iff no new-child segment contains `..` |
| `CapabilityChain.CommandBuiltExactly` | lagado-agent/src/agent.rs:1104-1158 | a derivable call lacks a command iff its required selector, new name or pattern is empty once stripped |
| `CapabilityOutcome.ReadExactly` | lagado-agent/src/agent.rs:2193-2194 | a derivable output is read as the call it spells iff no free text in it holds a line break |
| `CapabilityCut.BrokenLineRead` | lagado-agent/src/agent.rs:1084-1101 | of any printed call with a line break in a slot, the first line is read up to its last closing parenthesis: the slots before it, and the slot it stands in as far as it goes; without one there is no call |
| `CapabilityOutcome.BrokenReadExactly` | lagado-agent/src/agent.rs:2193-2194 | so for every derivable output with a line break in its free text; no call iff no slot on the first line holds a closing parenthesis |
| `CapabilityOutcome.CutSelector` | lagado-agent/src/agent.rs:2193-2194 | for every such selector: a parenthesis and a line break cut the call, and what is attempted is the call with the selector before them |
| `CapabilityOutcome.DeletesEveryFile` | lagado-agent/src/agent.rs:2187-2200 | a derivable delete of files named in two lines that ends, accepted, in the command that deletes every file of the folder |
| `CapabilityOutcome.AttemptExactly` | lagado-agent/src/agent.rs:2187-2200 | a derivable call on one line ends in its command iff its paths are clean and no needed slot is empty, and otherwise in nothing |
| `CapabilityOutcome.WholeChain` | lagado-agent/src/agent.rs:2187-2200 | grammar, line selection, parser, validator, builder and shell joined, each step with its exact condition, for every string the grammar allows |
| `CapabilityOutcome.BracketsBuildNothing` | lagado-agent/src/agent.rs:1104-1158 | a derivable, accepted rename to `<>` that builds no command |
| `CapabilityCommand.CommandReadExactly` | lagado-agent/src/agent.rs:1104-1158 | for every call with a command: a shell reads it as the programs, flags, operators and nested commands meant, each slot one argument, iff every character of the slots it uses stands for itself in double quotes; otherwise what is read departs from it by the time the reading ends or stops |
| `CapabilityOutcome.DerivableReadExactly` | lagado-agent/src/agent.rs:1104-1158 | for derivable calls: iff the free text the command uses holds no backquote and no `$` before a character that starts an expansion |
| `CapabilityOutcome.PlainTextReadAsMeant` | lagado-agent/src/agent.rs:1104-1158 | so without a backquote, and without `$` but at its end, in its free text, every derivable command is read as meant |
| `CapabilityOutcome.NameTakenFromOutput` | lagado-agent/src/agent.rs:1104-1158 | a derivable, accepted rename to `$(program)` that a shell reads as a rename to what the program prints |
| `Shell.JoinedReadExactly` | lagado-agent/src/agent.rs:1104-1158 | words joined by blanks are read as meant iff every character of their double-quoted texts stands for itself; otherwise the reading departs from it |
| `Shell.CommandWrong` | lagado-agent/src/agent.rs:1104-1158 | a formed command with a character in double quotes that expands or escapes is misread: what was read differs, or already differs where the reading stops |
| `Shell.CommandRead` | lagado-agent/src/back_door.rs:63-66 | printing and POSIX splitting undo each other for bare, single- and double-quoted text, nested commands and operators |
| `Shell.ShqRead` | lagado-agent/src/back_door.rs:63-66 | a single-quoted argument is read back as itself for every string |
| `BackDoor.RunSiblingReadBack` | lagado-agent/src/back_door.rs:69-114 | a sibling run splits to exactly tool, input, arguments and output; None iff one of the three is blank |
| `BackDoor.SetConfigReadBack` | lagado-agent/src/back_door.rs:69-114 | dconf, gsettings and ini-file commands split to exactly their words and slots; there is a command iff the key and the backend's own slot are usable |
| `IniEdit.SetExactly` | lagado-agent/src/back_door.rs:88-101 | every file that ends with a line break is left as wanted iff no character of key and value means anything to grep or sed |
| `IniEdit.SetOnFileExactly` | lagado-agent/src/back_door.rs:88-101 | for such a key and value, a file is left as wanted iff it has the key or ends with a line break |
| `IniEdit.WantedHolds` | lagado-agent/src/back_door.rs:88-101 | what is wanted: as many lines of the key as before or one, each the new setting, every other line in its place, and nothing changes the second time |
| `GoalDecomposition.DecomposeGoal` | lagado-agent/src/agent.rs:380-412 | the splitting passes end and give the recursive splitting |
| `GoalDecomposition.SplitPass` | lagado-agent/src/agent.rs:391-410 | one pass keeps the final parts and shortens their total length unless nothing was split |
| `GoalDecomposition.CutExactly` | lagado-agent/src/agent.rs:395-400 | a part is cut at its first active marker, and is whole iff it holds none |
| `GoalDecomposition.GoalCutExactly` | lagado-agent/src/agent.rs:382-400 | separator by separator: a goal is cut at the first of the six, in any case, the semicolon only outside the eight command leads, and is single iff none stands |
| `GoalDecomposition.PartsAreFinal` | lagado-agent/src/agent.rs:380-412 | every sub-goal is non-empty, trimmed, free of active markers and a fixed point |
| `GoalDecomposition.NothingElseLost` | lagado-agent/src/agent.rs:380-412 | the goal is its sub-goals in order with only markers and white space around them |
| `GoalDecomposition.CommandPayloadKept` | lagado-agent/src/agent.rs:384-400 | `; ` never splits a command-led part, and its payload up to the next directive stays whole |
| `CommandRetry.RunCommand` | lagado-agent/src/agent.rs:2625-2699 | the loop gives the outcome of the retry function and terminates |
| `CommandRetry.RetryLoopExactly` | lagado-agent/src/agent.rs:827-849 | for every world: at most 3 executions, none twice, each retry proposed by the model after a failure other than for missing rights, success iff exit 0 and postcondition held, giving up only when nothing new is left |
| `CommandRetry.ExitCodeRead` | lagado-agent/src/agent.rs:790-792 | the exit marker before any output is read back as its code |
| `CommandRetry.ExitCodeExactly` | lagado-agent/src/agent.rs:790-792 | there is an exit code iff the first line is a marker around a 32-bit number |
| `CommandRetry.DiagnosedExactly` | lagado-agent/src/agent.rs:795-813 | each diagnosis by its exit code or phrase in their order; only missing rights are not retried |
| `MemoryTiers.MemoryTiers.PushHot` | lagado-agent/src/memory_tiers.rs:118-130 | a new hot entry at temperature 1.0, nothing else changed |
| `MemoryTiers.MemoryTiers.PushEpisode` | lagado-agent/src/memory_tiers.rs:191-231 | a new cold row, or nothing changed when the insert fails |
| `MemoryTiers.MemoryTiers.Reinforce` | lagado-agent/src/memory_tiers.rs:478-511 | the first hot entry of that id, which needs no database, else the row, is warmed by 0.2 up to 1.0; anything else is left alone |
| `MemoryTiers.ReinforcedExactly` | lagado-agent/src/memory_tiers.rs:478-511 | field by field: 0.2 warmer up to 1.0, the time noted, the access counted, on the first hot entry of the id or else its row, nothing else |
| `MemoryTiers.MemoryTiers.DecayAll` | lagado-agent/src/memory_tiers.rs:514-543 | hot entries cool and are dropped below 0.05 in any case; rows that are not cold as far as the update and the delete succeed; cold rows are left alone |
| `MemoryTiers.RowsDecayedExactly` | lagado-agent/src/memory_tiers.rs:514-543 | row by row: what cools, what is dropped below 0.05, and how far a failing statement stops it |
| `MemoryTiers.HotDecayedExactly` | lagado-agent/src/memory_tiers.rs:514-519 | hot entries cool in any case and are dropped below 0.05 |
| `MemoryTiers.MemoryTiers.DrainCoolHot` | lagado-agent/src/memory_tiers.rs:631-637 | the hot tier is split at the threshold, both parts in order |
| `MemoryTiers.MemoryTiers.PromoteWarmSummary` | lagado-agent/src/memory_tiers.rs:639-649 | a new warm row at 0.8, or nothing changed when the insert fails |
| `MemoryTiers.MemoryTiers.EntropyPruneWarm` | lagado-agent/src/memory_tiers.rs:652-710 | exactly the lowest-valued surplus rows are deleted, as far as count, query, single rows and deletions succeed; counted, or an error iff the query or a needed deletion failed |
| `MemoryTiers.SortSorts` | lagado-agent/src/memory_tiers.rs:697-698 | scoring order is ascending and a permutation |
| `MemoryTiers.SortStable` | lagado-agent/src/memory_tiers.rs:697-698 | rows of the same value keep the order of the query |
| `MemoryTiers.PruneKeepsTheBest` | lagado-agent/src/memory_tiers.rs:667-710 | for every query order and every failure: as many warm rows go as are deleted, no readable survivor is worth less than a pruned row, everything else stays |
| `MemoryTiers.PruneBoundExactly` | lagado-agent/src/memory_tiers.rs:652-710 | the maximum holds after a prune iff it held before or nothing in the way of the surplus failed; without failures the warm count becomes min(count, max) |
| `SleepGate.RunCycle` | lagado-agent/src/sleep_gate.rs:69-158 | a cycle is decay, drain, one summary per stored batch answer, prune, and the object ends where these events lead, whatever fails |
| `SleepGate.DecayDropsNothing` | lagado-agent/src/sleep_gate.rs:74-77 | no decay step drops a hot entry |
| `SleepGate.HotThroughoutEveryRun` | lagado-agent/src/sleep_gate.rs:69-158 | over every run from any stored table, with writes between the steps, hot temperatures stay in [0.475, 1] |
| `SleepGate.PushedIsHotOrDrained` | lagado-agent/src/sleep_gate.rs:69-158 | over every run from any stored table the pushed entries are exactly the hot ones and those drained, each once |
| `SleepGate.ChunksCover` | lagado-agent/src/sleep_gate.rs:87-89 | the batches are the drained entries in order, each in one batch of 1 to 8 |
| `SleepGate.BatchSurvivesExactly` | lagado-agent/src/sleep_gate.rs:90-112 | a batch is left as a warm row with its trimmed summary iff its answer is there, not blank, and its insert succeeds; otherwise it is lost |
| `SleepGate.AgesThroughoutEveryRun` | lagado-agent/src/sleep_gate.rs:69-158 | over every run from any stored table an unreinforced entry is as it was pushed, at 0.95 to the number of decays since |
| `SleepGate.DrainedAtFourteen` | lagado-agent/src/sleep_gate.rs:80-83 | such an entry is drained iff it has seen 14 decays |
| `SleepGate.RegularsStay` | lagado-agent/src/sleep_gate.rs:69-158 | an entry that is reinforced at least once in six decays is never drained, in any run |
| `SleepGate.SummaryFadesAtFiftyFive` | lagado-agent/src/sleep_gate.rs:69-158 | over every run a summary nobody touches is at 0.8 times 0.95 to the number of decays and outlasts a decay iff it is at most the 54th |
| `SleepGate.VaultNeverCools` | lagado-agent/src/sleep_gate.rs:69-158 | over every stretch of every run from any stored table no cold row is removed, demoted, rewritten or cooled |
| `SleepGate.EpisodeStays` | lagado-agent/src/sleep_gate.rs:69-158 | an episode stays in the vault exactly as written through any run that does not touch it |
| `SleepGate.PruneStepBounds` | lagado-agent/src/sleep_gate.rs:145-157 | a prune leaves at most 10000 warm rows iff there were no more before or no failure keeps a surplus row; what it leaves is worth no less than what it removes |
| `ParkRanking.MinMaxNorm` | lagado-agent/src/board.rs:82-95 | the min-max loop computes the normalisation |
| `ParkRanking.NormalisedExactly` | lagado-agent/src/board.rs:82-95 | normalised signals lie in [0, 1], keep the order, reach both ends, and are 0.5 without a spread |
| `ParkRanking.ScoreExactly` | lagado-agent/src/board.rs:99-109 | a score is alpha times where the candidate stands by recency, plus beta times where it stands by relevance, plus gamma times its importance |
| `ParkRanking.DominanceKept` | lagado-agent/src/board.rs:99-109 | with non-negative weights, at least as good in every signal scores at least as much |
| `ParkRanking.TopKIndices` | lagado-agent/src/board.rs:111-122 | the method returns the top-k function's indices |
| `ParkRanking.TopKExactly` | lagado-agent/src/board.rs:111-122 | min(k, n) distinct indices by score with ties by index, and no omitted candidate outranks a kept one |
| `ParkRanking.RankingIsScaleFree` | lagado-agent/src/board.rs:82-122 | a positive scaling plus a shift of all relevances changes no score and no ranking while the spread stays on one side of epsilon |
| `ParkRanking.RankingIsShiftProof` | lagado-agent/src/board.rs:82-122 | a plain shift never does |
| `ParkRanking.ScoresKeptExactly` | lagado-agent/src/board.rs:82-109 | a positive scaling plus a shift keeps the scores iff relevance has no weight or both spreads lie on one side of epsilon |
| `ParkRanking.RankingsKeptExactly` | lagado-agent/src/board.rs:82-122 | it keeps every ranking, for all weights and every k, iff both spreads lie on one side of epsilon |
| `ParkRanking.ScalingAcrossEpsilonReorders` | lagado-agent/src/board.rs:90-93 | an example: two candidates whose ranking a scaling across epsilon turns round |
| `ServerGuard.ServerHealth.Tick` | lagado-agent/src/server_guard.rs:43-61 | the new state and the action of one poll |
| `ServerGuard.ServerHealth.Watch` | lagado-agent/src/server_guard.rs:37-61 | a sequence of polls gives the actions of the run |
| `ServerGuard.RestartExactly` | lagado-agent/src/server_guard.rs:37-61 | restart iff managed, seen healthy, and the unhealthy run has reached a multiple of 3 |
| `ServerGuard.RestartsTotal` | lagado-agent/src/server_guard.rs:37-61 | restarts total the thirds of the unhealthy runs after a healthy poll |
| `ServerGuard.RunsSpellPolls` | lagado-agent/src/server_guard.rs:37-61 | those runs are the poll sequence from its first healthy poll on |
| `Chronos.Log.Append` | lagado-agent/src/chronos.rs:22-36 | one line is appended, line breaks replaced, the rest of the file untouched |
| `Chronos.ParseLogEvents` | lagado-agent/src/chronos.rs:189-205 | the loop and the drain give the last matching events |
| `Chronos.SanitisedPiecewise` | lagado-agent/src/chronos.rs:29 | each line break becomes a bar, every other character stays |
| `Chronos.EntryRead` | lagado-agent/src/chronos.rs:194-198 | a written line is read as its timestamp and text iff the timestamp fits 63 bits |
| `Chronos.LogReadBack` | lagado-agent/src/chronos.rs:22-205 | for every logged sequence, window, filter and cap: exactly the last of the events in the window that hold the filter in any case, in order |

## Left out

- Network, process, SSH, VM and SQLite plumbing, the async runtime, the user interface and the Python
  evaluation scripts; tables are maps, files are strings, sockets are byte sequences.
- Inference, embeddings, encryption and perception: their answers are inputs or omitted. Backfilling
  embeddings in a sleep cycle changes no modelled field.
- IEEE rounding: floats are reals; `exp` and `ln` in recency and information value are an arbitrary
  function of temperature, age and access count, so nothing depends on their shape.
- Unicode: case folding, white space beyond ASCII and lossy UTF-8 decoding.
- `Governor.FindLargestFittingCtx`: does not model the wrap-around of `mid + 256` within 256 of 2^32.
- `Governor.PlanStaysWithinModel`: the plan carries no rationale text.
- `Gguf.Reader.ParseHeader`: the position after an error is not specified; strings stay bytes.
- `Gguf.Reader.ReadValue`: arrays nest without bound in the source too, which recurses natively at 12 bytes
  of input a level; the model terminates on every input and does not capture that a deeply nested header can
  exhaust the stack.
- `WebSocket.Socket.RecvText`: the opening handshake is not modelled, and the message stays bytes.
- `BracketParser.FindBracketCall`: the arguments of a call to an unknown tool are kept as text, so
  `parse_args_to_map` is not part of this model.
- `ActionGraph.ActionGraph.GetBestAction`: one instance with atomic methods; other instances and threads
  keep caches of their own. `get_statistics` only counts.
- `CapabilityOutcome.AttemptExactly`: one attempt; the caller makes up to three, each with a new output.
- `CapabilityCommand.CommandReadExactly`: for text that expands it says where the reading departs from what was
  meant, not what the whole command does, beyond the renames of `CapabilityOutcome.NameTakenFromOutput`. A
  dollar sign that starts no expansion is literal, as in the shells at hand; the standard leaves it open, and
  the `$[` of some shells is not part of this model.
- `IniEdit.SetExactly`: keys with a backslash, an opening bracket or a line break, values of several lines, and
  values that turn the sed expression into another command than one substitution are not part of this model.
- `BackDoor.SetConfigReadBack`: `verify_command` and `readback_matches` are not part of this model.
- Of the memory tiers, `promote_to_warm` and `clear_hot` are not called by the modelled cycle, and context
  assembly only reads.
- `CommandRetry.RunCommand`: the gate's verdicts reach the loop only as the output they produce, and the
  derivation of a postcondition from a command is an input.
- `Chronos.Log.Append`: a failed write is not modelled; snapshots and calendar views are database queries.
- The keyword classifiers and the finite gate and dispatch tables: enumeration settles them.
- The body of the agent loop beyond the retry loop: input and output throughout.
