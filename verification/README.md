# Dafny model of gem5's trace, checkpoint and configuration tools

This project models the algorithms in gem5's Python tooling and proves what they compute, for all
inputs. `dafny verify dfyconfig.toml` checks the whole project.

- **The O3 pipeline viewer** (`PipeInst`, `ReorderQueue`, `PipeTrace`, `Timeline`, `PipeView`). Instructions
  arrive out of order in a queue of at most 2000, are sorted and printed in part, and filtered by
  tick and sequence number; reading skips to a start bound and stops at a stop bound. The results
  say exactly when this prints what sorting and filtering the complete trace would print, down to
  the trace lines, and where the timeline draws each stage.
- **The checkpoint upgrader** (`UpgradeRounds`, `CheckpointUpgrader`). Loading resolves
  dependencies between migration scripts; the migration loop applies them in rounds. The results
  are about every run: order, completeness, exactly-once, final tags, earliest rounds.
- **The port binder** (`PortBinder`). A greedy pass with a counter for each port, in any
  processing order: what it binds is sound, and it succeeds exactly when any selection from that
  order could, which is said of the indices alone.
- **Trace codecs** (`Varint`, `Protolib`, `InstDepText`, `TraceScripts`). Base 128 varints as in the
  section "Base 128 Varints" of the Protocol Buffers Encoding specification, length-prefixed
  messages, and the printer and parser of dependency records, each with its round trip and its
  exact limits.
- **The checkpoint merger** (`SectionNames`, `CheckpointMerge`), **the memory-test tree**
  (`TesterTree`), **year ranges** (`YearRanges`), **scripted checkpoints** (`CheckpointSchedule`),
  **the size ladder** (`RangeLadder`) and **the rolling log** (`LogRoll`).

`Sorting`, `Seqs`, `Text`, `Bits`, `Arith` and `Wrappers` hold the definitions and lemmas they share.

Objects that the source updates in place are classes, its loops are methods with invariants, and
each method is tied to a function about which the lemmas speak. Files are byte or line sequences.
Serialising and parsing of protobuf messages are functions, the second partial, of which only the
round trip on the records at hand is demanded. `m5.simulate` is an oracle: a sequence of exits that advances at most the ticks asked
for, and exactly those when the cause is the limit. The iteration order of a Python set is an
arbitrary choice.

## Where the code differs from what is promised

- `gem5/util/o3-pipeview.py` assumes that no instruction is out of order by more than 1000 places.
  This suffices (`WithinThresholdSorts`) and one place more does not (`ThresholdIsTight`); the exact
  condition counts overtaking instructions (`OutputSortedIff`), or, for what a filter keeps, only the
  wanted ones among them (`SelectedSortedIff`, `PrintsFilteredTraceIff`).
- The header of `gem5/util/cpt_upgrader.py` (lines 56-61) says that a dependency on a tag with a
  downgrader waits until that tag is removed. The code waits until the tag is present. A successful
  run keeps to the comment exactly when nothing pending has such a dependency
  (`WaitsForRemovalIff`); `RemovalNotWaitedFor` is a successful run that breaks it.
- With downgraders the upgrade loop is not exact about orders, in either direction. It may give up
  although an order exists (`DoomedDependencyLosesOrder`), and it may succeed although none does,
  applying a migration whose dependency was removed earlier in the same round
  (`MutualRemovalHasNoOrder`). `SucceedsIffFreely` gives the exact condition for success,
  `SucceedsIffOrderable` the exact conditions under which success and order go together, and
  `LogFindsDependencies` and `EveryLogFindsDependencies` the exact conditions under which every
  migration finds its dependencies.
- The comment in `gem5/configs/example/read_config.py` (lines 370-372) says that sorting makes
  exactly one direction of each connection bindable. `SortedPassCanFail` gives three connections for
  which it does not; `PassSucceedsIff` gives the exact condition. In Python 3 the comparison method
  at line 166 is not used by `sorted`, so the order is a parameter here.
- `decodeMessage` takes an empty message for the end of the file: messages are read back up to the
  first empty one (`WriteReadAll`), and all of them exactly when none is empty (`FileRoundTrip`).
- Printed years are read back exactly when any two years in a row have four digits
  (`DatesRoundTrip`); so every set of four-digit years is (`FourDigitYearsRoundTrip`),
  and 9999 with 10000 is not (`LaterYearLost`).
- In `scriptCheckpoints` the loop looks at the first exit of an interval only, so a "checkpoint"
  exit inside an interval ends the schedule (`AllWrittenIff`, `CheckpointExitEndsSchedule`).
- The recorded memory size of a merged checkpoint is the length of the image exactly when no
  checkpoint image is shorter than its page count (`SizeIsLength`). Padding bytes are the character
  "0", not zero.
- An address in a merged checkpoint points at its byte exactly when no earlier image is shorter than
  its page count (`AddressesFollow`); `ShortInput` and `ShortImageMisleads` give checkpoints for which
  it points at nothing.

## Model

| member | source | states |
|---|---|---|
| ReorderQueue.RunConserves | gem5/util/o3-pipeview.py:212-277 | after any arrivals, queue and output together hold exactly the arrivals, each as often as it arrived |
| ReorderQueue.OutputIsPermutation | gem5/util/o3-pipeview.py:212-277 | whatever the order of arrival, the whole output is a permutation of the input: nothing lost, nothing printed twice |
| ReorderQueue.RunQueueLength | gem5/util/o3-pipeview.py:212-244 | the queue length is a closed form of the number of arrivals and never exceeds 2000 |
| ReorderQueue.OutputSortedIff | gem5/util/o3-pipeview.py:212-277 | the bounded queue gives out the stably sorted trace if and only if no arrival is overtaken by more instructions than the queue then holds |
| ReorderQueue.SelectedSortedIff | gem5/util/o3-pipeview.py:212-277 | for every trace and every filter, the filtered output is the filtered sorted trace if and only if no arrival that passes the filter belongs before one that does and was given out already |
| ReorderQueue.RankIsPlace | gem5/util/o3-pipeview.py:49-50 | the counted rank of an instruction is its place in the sorted trace |
| ReorderQueue.PlacesAreOvertakers | gem5/util/o3-pipeview.py:49-50 | arriving at most m places late is the same as being overtaken by at most m instructions, for every m |
| ReorderQueue.WithinThresholdSorts | gem5/util/o3-pipeview.py:45-66 | if no instruction is out of order by more than 1000 places, the output is the sorted trace |
| ReorderQueue.ThresholdIsTight | gem5/util/o3-pipeview.py:45-66 | a trace 1001 places out of order whose output is not sorted |
| ReorderQueue.PrintQueue.PrintItem | gem5/util/o3-pipeview.py:245-277 | an item is printed unless the bounds filter it out, so the print is the filtered output |
| ReorderQueue.PrintQueue.PrintFront | gem5/util/o3-pipeview.py:243-277 | items move from the front of the queue to the output until no more than the threshold are left |
| ReorderQueue.PrintQueue.PrintInsts | gem5/util/o3-pipeview.py:231-277 | the object's state after printing is the drained state of the queue machine |
| ReorderQueue.PrintQueue.QueueInst | gem5/util/o3-pipeview.py:212-227 | after every arrival the object is in the state the queue machine reaches on all arrivals |
| ReorderQueue.SameNumberInOrder | gem5/util/o3-pipeview.py:212-277 | however disordered the trace is, instructions with the same sequence number come out in the order of their arrival |
| PipeTrace.Skip | gem5/util/o3-pipeview.py:94-126 | what is left of the trace at the first line that meets the condition |
| PipeTrace.ReadRegion | gem5/util/o3-pipeview.py:154-207 | the instructions queued by the line reader, with its reused record, are those of the region |
| PipeTrace.ProcessTrace | gem5/util/o3-pipeview.py:69-207 | skipping, reading, queueing and the final flush print the filtered output of the queue on the region |
| PipeTrace.RegionBlock | gem5/util/o3-pipeview.py:154-193 | the lines of one traced instruction give that instruction, whatever the reused record held, or end the reading |
| PipeTrace.SkipBlocks | gem5/util/o3-pipeview.py:94-126 | skipping ends at the start of an instruction: it drops whole instructions and never part of one |
| PipeTrace.SkippedUnwanted | gem5/util/o3-pipeview.py:94-126 | skipping to the start bound loses no instruction that the filter would keep |
| PipeTrace.QueuedStretch | gem5/util/o3-pipeview.py:94-207 | the queued instructions are one stretch of the traced ones, also with foreign lines in between and a cut-off end |
| PipeTrace.PrintsWantedIff | gem5/util/o3-pipeview.py:94-277 | for every trace, the viewer prints exactly the wanted instructions of the complete trace, each as often as it was traced, if and only if no instruction from the stopping one on is wanted |
| PipeTrace.PrintsWantedAsAssumed | gem5/util/o3-pipeview.py:60-64 | under the stated assumption on the drift alone, skipping and stopping early lose and add nothing |
| PipeTrace.PrintsFilteredTraceIff | gem5/util/o3-pipeview.py:69-277 | for every trace, the viewer prints the sorted and filtered complete trace if and only if no instruction from the stopping one on is wanted and no wanted instruction is queued after a wanted one that belongs behind it was given out |
| PipeTrace.PrintsInTimeIff | gem5/util/o3-pipeview.py:69-277 | when no instruction read is overtaken by more than the queue holds, it does so if and only if no instruction from the stopping one on is wanted |
| PipeTrace.PrintsAsAssumed | gem5/util/o3-pipeview.py:45-66 | under the stated assumptions on places and drift, the viewer prints the sorted and filtered complete trace |
| PipeTrace.PrintedWithinBounds | gem5/util/o3-pipeview.py:245-277 | whatever the trace, every printed instruction has a sequence number and a fetch tick within the bounds that are given, and a retire tick other than 0 if only committed ones are asked for |
| PipeTrace.ReadWithinBoundsPrinted | gem5/util/o3-pipeview.py:154-277 | of the instructions that are read, every one that meets these conditions is printed |
| PipeTrace.PrintedIffWithinBounds | gem5/util/o3-pipeview.py:60-277 | under the stated assumption on the drift, a traced instruction is printed if and only if it meets these conditions |
| PipeTrace.ReadingEndsIff | gem5/util/o3-pipeview.py:158-176 | reading has ended at an instruction exactly when it, or one read before it, is more than 2000 cycles past the stop tick or more than 2000 numbers past the stop number |
| PipeTrace.SkippedByTickIff | gem5/util/o3-pipeview.py:95-126 | with a start tick, an instruction is skipped exactly when its fetch and every stage of those before it are earlier |
| PipeTrace.SkippedBySnIff | gem5/util/o3-pipeview.py:105-126 | with a start number only, an instruction is skipped exactly when it and all before it have smaller numbers |
| Timeline.OneRowIffCompact | gem5/util/o3-pipeview.py:354-359 | there is one row exactly when the instruction lasts less than a row; otherwise there are rows from the multiple of the row length at the fetch to that at the last stage |
| Timeline.DrawnOnExactlyOneRow | gem5/util/o3-pipeview.py:369-386 | every reached stage falls on exactly one of the rows |
| Timeline.ColumnTellsCycle | gem5/util/o3-pipeview.py:369-408 | the column is below the width, and row and column give the cycle of the tick back, also in the wrapped compact form |
| Timeline.RowEventsExact | gem5/util/o3-pipeview.py:374-386 | the events of a row are exactly those of the stages whose ticks fall on it |
| Timeline.DrawnExact | gem5/util/o3-pipeview.py:387-397 | a stage is drawn exactly on its row, except a dispatch in the tick of the issue |
| Timeline.DrawnOnce | gem5/util/o3-pipeview.py:374-397 | no stage is drawn twice on a row |
| Timeline.DrawnByName | gem5/util/o3-pipeview.py:378-397 | the stages of a row are drawn by their place in the row and, in one tick, in the alphabetical order of their names |
| Seqs.StringsOrdered | gem5/util/o3-pipeview.py:387 | of two different names exactly one comes first |
| Timeline.DrawnInOrder | gem5/util/o3-pipeview.py:387-408 | events are drawn at columns that never decrease and stay below the width |
| Timeline.GatherEvents | gem5/util/o3-pipeview.py:374-386 | the loop over the stages collects the events of the row |
| Timeline.RowShows | gem5/util/o3-pipeview.py:389-411 | a row is the width plus one character for each event that shares the column of the one before it; it shows every letter in its place and dots elsewhere, and with distinct columns the place is the column |
| Timeline.DrawRow | gem5/util/o3-pipeview.py:389-411 | the loop over the events writes that row |
| Timeline.TimelineShows | gem5/util/o3-pipeview.py:369-416 | every row of every instruction shows exactly the visible stages that fall on it |
| Timeline.DrawTimeline | gem5/util/o3-pipeview.py:337-416 | the loop over the rows writes all rows of the instruction |
| Timeline.RowHasLetter | gem5/util/o3-pipeview.py:374-411 | in a row whose stages are in different columns, the column tick mod row length div cycle time has the letter of the stage: f, d, n, p, i, c, r or s |
| Timeline.RowHasDot | gem5/util/o3-pipeview.py:361-411 | every other column has a dot, or an equals sign if the instruction did not retire |
| Timeline.TimelineHasLetter | gem5/util/o3-pipeview.py:337-416 | the letter of a reached stage is on the row that is counted from the row of the fetch, or on the only row of a short instruction |
| PipeView.PrintedIsTraced | gem5/util/o3-pipeview.py:69-277 | every instruction printed from a trace is one of the traced ones, with its sequence number, ticks and text, behind five dashes if it did not retire |
| PipeView.PrintedIsDrawable | gem5/util/o3-pipeview.py:281-352 | every instruction printed from a trace has all the stages that are drawn, at ticks no earlier than its fetch |
| PipeView.ViewTrace | gem5/util/o3-pipeview.py:69-416 | the viewer draws exactly the timeline of each printed instruction, in the order of printing |
| PipeView.DrawingHasLetters | gem5/util/o3-pipeview.py:281-416 | of a traced instruction whose stages are in different columns, f stands in the column of its fetch tick, d in that of its decode tick, and so on for every stage it reached, except a dispatch in the tick of the issue |
| UpgradeRounds.RoundsOnTrack | gem5/util/cpt_upgrader.py:257-269 | after every round the tags are the initial ones with exactly the no longer pending migrations applied |
| UpgradeRounds.RoundExact | gem5/util/cpt_upgrader.py:144-269 | a migration starts pending exactly if its tag is missing and it adds it, or is there and it removes it; a round applies exactly the pending ones whose dependencies are all there, and changes only their tags |
| UpgradeRounds.FinalTags | gem5/util/cpt_upgrader.py:257-269 | a successful run ends with (initial tags + upgrader tags) - downgrader tags, and a second run then has nothing to do |
| UpgradeRounds.AppliedInOneRound | gem5/util/cpt_upgrader.py:257-269 | each migration that is applied is applied in exactly one round |
| UpgradeRounds.DependenciesHold | gem5/util/cpt_upgrader.py:144-148 | what a migration depends on was there at the start or added in an earlier round, and not removed before |
| UpgradeRounds.LogExact | gem5/util/cpt_upgrader.py:257-269 | any order inside the rounds lists exactly the migrations no longer pending, once each |
| UpgradeRounds.LogFindsDependencies | gem5/util/cpt_upgrader.py:144-158 | in a log of the rounds every migration finds its dependencies when it is applied if and only if none depends on a tag that an earlier one of its round removes |
| UpgradeRounds.EveryLogFindsDependencies | gem5/util/cpt_upgrader.py:257-269 | this holds for every order inside the rounds if and only if no migration depends on a tag that another one of its round removes |
| UpgradeRounds.SucceedsIffFreely | gem5/util/cpt_upgrader.py:257-269 | for every registry and checkpoint, the loop succeeds if and only if it would without removals and, there, every tag to be removed outlasts the migrations that depend on it |
| UpgradeRounds.FreelySucceedsIff | gem5/util/cpt_upgrader.py:257-269 | without removals it succeeds if and only if some order of the pending migrations respects the dependencies |
| UpgradeRounds.SucceedsIffOrderable | gem5/util/cpt_upgrader.py:257-269 | if an order exists, the loop succeeds exactly when tags to be removed outlast their users; if it succeeds, an order exists exactly when each round has one; without dependencies on such tags it succeeds if and only if an order exists |
| UpgradeRounds.RoundsAreEarliest | gem5/util/cpt_upgrader.py:257-269 | no schedule that respects the dependencies applies a migration in an earlier round than a successful run |
| UpgradeRounds.WaitsForRemovalIff | gem5/util/cpt_upgrader.py:56-61 | a successful run keeps to the comment on downgraders exactly when nothing pending depends on a tag with a downgrader |
| UpgradeRounds.RemovalNotWaitedFor | gem5/util/cpt_upgrader.py:56-61 | an upgrader that depends on a tag with a downgrader is applied while the tag is there, in a successful run |
| UpgradeRounds.DoomedDependencyLosesOrder | gem5/util/cpt_upgrader.py:257-269 | scripts and tags for which an order exists and the loop gives up |
| UpgradeRounds.MutualRemovalHasNoOrder | gem5/util/cpt_upgrader.py:257-269 | scripts and tags for which no order exists and the loop succeeds |
| CheckpointUpgrader.Loader.Register | gem5/util/cpt_upgrader.py:96-142 | the dictionaries hold every script under its tag and its legacy version |
| CheckpointUpgrader.Loader.LinkLegacy | gem5/util/cpt_upgrader.py:171-175 | each legacy version in the chain depends on its predecessor only; it fails exactly when version 3 is there without version 2 |
| CheckpointUpgrader.Loader.AddForward | gem5/util/cpt_upgrader.py:179-186 | the tag is added to what every named script depends on, and nothing else changes; it fails exactly when a name is unknown |
| CheckpointUpgrader.Loader.Audit | gem5/util/cpt_upgrader.py:187-192 | it passes exactly when every dependency exists |
| CheckpointUpgrader.Loader.Resolve | gem5/util/cpt_upgrader.py:177-192 | resolving and auditing in one sweep passes exactly when all declared dependencies of all scripts exist |
| CheckpointUpgrader.Loader.LoadAll | gem5/util/cpt_upgrader.py:164-192 | loading fails exactly when a name is unknown or the chain lacks its first link; otherwise each script depends on exactly what it declares, or its legacy predecessor, and every script that names it forward |
| CheckpointUpgrader.DependsIff | gem5/util/cpt_upgrader.py:164-192 | with one script for each legacy version, a script depends on exactly the scripts that name it forward and, in an unbroken chain from version 3, the script of the version before it in place of its own list, otherwise that list |
| CheckpointUpgrader.ApplyRound | gem5/util/cpt_upgrader.py:265-269 | applying the ready migrations in any order gives the same tags, and a tag that is removed is present |
| CheckpointUpgrader.RunRounds | gem5/util/cpt_upgrader.py:257-269 | the loop terminates in the state of some number of rounds, with nothing pending or nothing ready |
| CheckpointUpgrader.ApplyPending | gem5/util/cpt_upgrader.py:257-269 | it gives up exactly when the rounds cannot finish; otherwise the final tags are as stated and the log holds each pending migration once |
| CheckpointUpgrader.VersionTags | gem5/util/cpt_upgrader.py:221-232 | a legacy version becomes the tags of versions 2 up to it, and fails exactly when one is missing |
| CheckpointUpgrader.VersionPendingIff | gem5/util/cpt_upgrader.py:225-257 | a checkpoint at a legacy version has pending exactly the upgraders of the later versions and the downgraders of the versions up to it |
| CheckpointUpgrader.LegacyInjective | gem5/util/cpt_upgrader.py:139-142 | no two legacy versions share a script |
| CheckpointUpgrader.LegacyIsLast | gem5/util/cpt_upgrader.py:139-142 | of several scripts for one legacy version the last one loaded holds it |
| CheckpointUpgrader.LegacyInOrder | gem5/util/cpt_upgrader.py:171-175 | missing legacy versions are applied in increasing order, each in a later round than the ones before |
| PortBinder.PortsFilled | gem5/configs/example/read_config.py:361-390 | the bound indices of a port are exactly 0 up to its number of bindings |
| PortBinder.PortBoundOnce | gem5/configs/example/read_config.py:361-390 | no two bindings share a port |
| PortBinder.HalfIsAll | gem5/configs/example/read_config.py:392-395 | the final count is met exactly when every listed connection is bound in one direction |
| PortBinder.PassIsSound | gem5/configs/example/read_config.py:349-406 | in any processing order, a pass that does not raise binds every connection in exactly one direction and every listed port at its index, without gap or repeat |
| PortBinder.PassKeepsUp | gem5/configs/example/read_config.py:380-390 | if every port has one peer, the greedy pass binds whatever any valid selection from the same order binds |
| PortBinder.BoundOnePeer | gem5/configs/example/read_config.py:349-395 | a list that some valid binding covers gives every port one peer |
| PortBinder.PassSucceedsIff | gem5/configs/example/read_config.py:380-395 | the pass succeeds if and only if some selection from the processing order binds half the connections in turn |
| PortBinder.BoundAtTurnIff | gem5/configs/example/read_config.py:361-390 | a connection is bound at its turn if and only if the index of each of its ends is the number of ends of earlier bindings with the same object and port name |
| PortBinder.ValidIffInTurn | gem5/configs/example/read_config.py:361-390 | bindings can be made one after the other if and only if no connection joins a port to itself, the indices of each port increase, and none is left out |
| PortBinder.PassSucceedsIffInTurn | gem5/configs/example/read_config.py:380-395 | the pass succeeds if and only if half of the connections can be picked in the processing order so that the indices of each port come in turn |
| PortBinder.FirstsInTurnSucceed | gem5/configs/example/read_config.py:380-395 | the pass succeeds on every list in which, taking each connection where it is first listed, the indices of each port come in turn |
| PortBinder.OrderableIffSomeOrder | gem5/configs/example/read_config.py:349-395 | the bindings can be ordered if and only if the pass succeeds on some arrangement of the list |
| PortBinder.PortsOrdered | gem5/configs/example/read_config.py:166-170 | of two different ports exactly one comes first, of one object and name that with the smaller index |
| PortBinder.SortedPassCanFail | gem5/configs/example/read_config.py:370-379 | a sorted, complete list of connections that can be ordered and on which the pass raises |
| PortBinder.BindPorts | gem5/configs/example/read_config.py:349-395 | the pass with its counters makes the greedy bindings, and raises exactly when they are not half of the list |
| Varint.OrNextGroup | gem5/util/protolib.py:117 | or-ing in a shifted group adds it to the number read so far |
| Varint.EncodeLength | gem5/util/protolib.py:147-159 | the encoding has at most n bytes exactly when the value is below 2^(7n) |
| Varint.DecodeEncode | gem5/util/protolib.py:100-159 | a value encoded in at most ten bytes is read back modulo 2^32, less 2^32 from 2^63 on, consuming exactly its bytes whatever follows; a longer encoding is refused |
| Varint.RoundTrip32 | gem5/util/protolib.py:100-159 | every 32-bit value is read back exactly, from at most five bytes |
| Varint.EncodingIsShortest | gem5/util/protolib.py:100-159 | no byte string that decodes to a value is shorter than its encoding, and none is longer than ten bytes |
| Protolib.FrameRoundTrip | gem5/util/protolib.py:131-168 | a message below 2^63 bytes is read back, consuming exactly its frame, if and only if it is not empty and below 2^32 bytes |
| Protolib.FrameExact | gem5/util/protolib.py:100-144 | what is read behind every length, of any size, and with any number of bytes left: the message, a shorter one, the rest, nothing or the exception |
| Protolib.WriteReadAll | gem5/util/protolib.py:131-168 | written messages are read back in order up to the first empty one |
| Protolib.FileRoundTrip | gem5/util/protolib.py:131-168 | a list of messages survives writing and reading if and only if none is empty |
| Protolib.ByteFile.DecodeVarint32 | gem5/util/protolib.py:100-128 | reads the varint ahead, ends right behind it, and never takes more than ten bytes on any input |
| Protolib.ByteFile.DecodeMessage | gem5/util/protolib.py:131-144 | returns the next message, False or the exception, and leaves what follows it |
| Protolib.ByteFile.EncodeVarint32 | gem5/util/protolib.py:147-159 | appends the encoding of the value |
| Protolib.ByteFile.EncodeMessage | gem5/util/protolib.py:162-168 | appends the length and the message |
| Protolib.ByteFile.DecodeMessages | gem5/util/decode_inst_dep_trace.py:164-165 | repeated reading gives all messages until one call finds none or raises, and tells which |
| Protolib.ByteFile.EncodeMessages | gem5/util/protolib.py:162-168 | repeated writing appends all messages |
| InstDepText.PrintRecord | gem5/util/decode_inst_dep_trace.py:167-215 | field by field, prints the line of the record |
| InstDepText.ParseLine | gem5/util/encode_inst_dep_trace.py:157-208 | field by field, gives the record of the line, or none where the script stops |
| InstDepText.EmptyItemsSkipped | gem5/util/encode_inst_dep_trace.py:190-206 | empty items of a dependency list make no difference |
| InstDepText.FieldsBeyond | gem5/util/encode_inst_dep_trace.py:157-188 | fields after those of the kind of record are not looked at |
| Text.IntAsWritten | gem5/util/encode_inst_dep_trace.py:162-164 | a number is read as itself with any spaces around it and a sign before it |
| Text.UnderscoreSkipped | gem5/util/encode_inst_dep_trace.py:162-164 | an underscore between digits makes no difference |
| Text.UnderscoreRefused | gem5/util/encode_inst_dep_trace.py:162-164 | at the start, at the end or next to another one it makes the text no number |
| InstDepText.NegativeRefused | gem5/util/encode_inst_dep_trace.py:162-164 | a negative number is not accepted for any field |
| InstDepText.LineRoundTrip | gem5/util/encode_inst_dep_trace.py:157-208 | parsing a printed record gives it back with its defaults if and only if address, size and flags are present exactly for loads and stores and the type is valid |
| InstDepText.FieldsReadBack | gem5/util/encode_inst_dep_trace.py:157-208 | a printable record is read back if and only if its fields fit 64 bits, and size, flags and weight 32; each printed field is then read as it was, a missing pc as 0 and a missing weight as 1 |
| InstDepText.CompLine | gem5/util/decode_inst_dep_trace.py:167-215 | the text of the line of a computation |
| InstDepText.MemoryLine | gem5/util/decode_inst_dep_trace.py:167-215 | the text of the line of a load or store |
| InstDepText.TextRoundTrip | gem5/util/encode_inst_dep_trace.py:157-208 | a whole printed trace parses back to its records, with dependency lists of any length |
| InstDepText.NormalizedPrintsSameAll | gem5/util/decode_inst_dep_trace.py:164-215 | filling in the defaults does not change what is printed |
| TraceScripts.DecodeWritten | gem5/util/decode_inst_dep_trace.py:133-215 | for any file of non-empty messages the decoding script prints the records up to the first message that does not parse, and fails exactly when there is one |
| TraceScripts.AsciiRoundTrip | gem5/util/encode_inst_dep_trace.py:136-208 | encoding a printed trace and decoding it gives the same text |
| TraceScripts.StartsWithMagic | gem5/util/encode_inst_dep_trace.py:136-138 | every file that is written starts with the letters gem5 |
| TraceScripts.OnlyWithMagic | gem5/util/decode_inst_dep_trace.py:133-138 | a file that starts with anything else ends the script with nothing printed |
| TraceScripts.BadHeader | gem5/util/decode_inst_dep_trace.py:140-146 | a header that does not parse ends the script with nothing printed |
| TraceScripts.EmptyHeaderPassed | gem5/util/decode_inst_dep_trace.py:140-215 | behind an empty header the messages are read as they are behind any other |
| TraceScripts.DecodeScript | gem5/util/decode_inst_dep_trace.py:133-215 | the loop writes the lines of the messages before the first that cannot be read or parsed, and fails exactly there; without the magic number it writes nothing |
| TraceScripts.EncodeScript | gem5/util/encode_inst_dep_trace.py:136-208 | the writing loop gives the encoded file, and stops at the first bad line |
| SectionNames.UnnameRename | gem5/util/checkpoint_aggregator.py:68-69 | taking the inserted indices out again gives the old section name |
| SectionNames.TagOfRename | gem5/util/checkpoint_aggregator.py:68-69 | the inserted index can be read off the new name |
| SectionNames.RenameInjective | gem5/util/checkpoint_aggregator.py:68-69 | with indices of one width, the new name determines the index and the old name |
| SectionNames.NewNameInjective | gem5/util/checkpoint_aggregator.py:59-70 | CPU sections of different checkpoints, or different ones of one checkpoint, never get the same name |
| SectionNames.HasCpuIff | gem5/util/checkpoint_aggregator.py:68 | a section is taken for that of a CPU exactly when its name has "cpu" at some place |
| SectionNames.RenameFirst | gem5/util/checkpoint_aggregator.py:69 | the index is put behind the first "cpu", and what follows is renamed in its turn |
| SectionNames.NewNameOfOne | gem5/util/checkpoint_aggregator.py:59-69 | a name with one "cpu" becomes the same name with the index behind it, zero-filled to the width of the greatest index |
| CheckpointMerge.MemoryLength | gem5/util/checkpoint_aggregator.py:99-114 | the merged memory is as long as the counted pages exactly when every image is complete |
| CheckpointMerge.MemoryByte | gem5/util/checkpoint_aggregator.py:99-114 | every byte read from a checkpoint is found behind what was read of the checkpoints before it, which is behind their pages exactly when their images are complete |
| CheckpointMerge.RegionsDisjoint | gem5/util/checkpoint_aggregator.py:99-114 | pages of different checkpoints do not overlap |
| CheckpointMerge.AddressesFollow | gem5/util/checkpoint_aggregator.py:67-79 | the merged checkpoint has the renamed section with the address moved by the pages before; the merged image holds the byte of the old address, and the new one points at it if and only if the earlier images are complete |
| CheckpointMerge.SizeIsLength | gem5/util/checkpoint_aggregator.py:119-140 | the memory section records the padded size, and it is the length of the image if and only if every image is complete |
| CheckpointMerge.ShortInput | gem5/util/checkpoint_aggregator.py:100-114 | two checkpoints that can be merged, the first with an image shorter than its page count |
| CheckpointMerge.ShortImageMisleads | gem5/util/checkpoint_aggregator.py:75-77 | for such checkpoints the moved address lies behind the end of the merged image |
| CheckpointMerge.MergesIff | gem5/util/checkpoint_aggregator.py:61-140 | merging succeeds exactly when every address of a CPU section is a number and the last checkpoint has the memory section |
| CheckpointMerge.ItemsKept | gem5/util/checkpoint_aggregator.py:68-82 | a renamed CPU section keeps every other item and gains none, but for its checkpoint's index as process number of its file descriptors |
| CheckpointMerge.CpuSectionNamed | gem5/util/checkpoint_aggregator.py:68-70 | a section whose name has one "cpu" is in the merged checkpoint under its name with the index of its checkpoint |
| CheckpointMerge.CpuAddressMoved | gem5/util/checkpoint_aggregator.py:68-77 | its address is moved by 4096 times the pages of the checkpoints before its own |
| CheckpointMerge.IsFdMapIff | gem5/util/checkpoint_aggregator.py:81 | the file descriptor sections are those whose names end in workload, any character, FdMap256 |
| CheckpointMerge.FdMapNumbered | gem5/util/checkpoint_aggregator.py:81-82 | each of them in a CPU gets the index of its checkpoint as process number |
| CheckpointMerge.PaddedWithZeros | gem5/util/checkpoint_aggregator.py:123-131 | behind the memory of the checkpoints the image is filled with the character 0 |
| CheckpointMerge.LastSectionsKept | gem5/util/checkpoint_aggregator.py:90-94 | the other sections of the last checkpoint are in the merged checkpoint unchanged |
| CheckpointMerge.StoreKept | gem5/util/checkpoint_aggregator.py:90-140 | the memory section of the last checkpoint is kept with all its items, but for the size |
| CheckpointMerge.TotalsRecorded | gem5/util/checkpoint_aggregator.py:119-143 | the page count before padding, the number of checkpoints and the latest tick can be read from the merged checkpoint |
| CheckpointMerge.MergedNamesDistinct | gem5/util/checkpoint_aggregator.py:61-143 | no two sections of the merged checkpoint share a name |
| CheckpointMerge.MaxTickIsLatest | gem5/util/checkpoint_aggregator.py:86-89 | the merged tick is the latest of the checkpoints' ticks |
| CheckpointMerge.ReadPages | gem5/util/checkpoint_aggregator.py:107-114 | reading page by page gives the image up to the page count, or all of a shorter one |
| CheckpointMerge.CopySections | gem5/util/checkpoint_aggregator.py:67-94 | the section loop writes the renamed and moved sections, and fails exactly when an address is not a number |
| CheckpointMerge.Pad | gem5/util/checkpoint_aggregator.py:123-131 | pads with the fewest pages that reach the memory size |
| CheckpointMerge.Aggregate | gem5/util/checkpoint_aggregator.py:44-145 | the whole script gives the merged checkpoint, or fails with it |
| TesterTree.ClosedFormIsTree | gem5/configs/example/memtest.py:150-161 | the sum of products counts the testers of the recursive tree, at any depth |
| TesterTree.NumTesters | gem5/configs/example/memtest.py:150-161 | the two loops compute that count |
| TesterTree.NamesDiffer | gem5/configs/example/memtest.py:294 | a subsystem name determines level and index |
| TesterTree.PrototypeScale | gem5/configs/example/memtest.py:236-260 | k levels from the testers, size, associativity and miss registers are scaled by the product of the first k cache counts and the latency by 10 to the power k, and inclusion alternates |
| TesterTree.MakePrototypes | gem5/configs/example/memtest.py:236-260 | the loop makes one prototype for each level, the one next to the memory first |
| TesterTree.CachesAreLinks | gem5/configs/example/memtest.py:323-347 | every subsystem but the one at the memory has one cache between it and the level below |
| TesterTree.Builder.AddSubsystem | gem5/configs/example/memtest.py:288-294 | adds one subsystem under a new index of its level, and keeps all subsystems distinct |
| TesterTree.Builder.MakeCacheLevel | gem5/configs/example/memtest.py:285-347 | adds the testers, the caches after the prototypes of their levels and, on each level, the subsystems of the subtree, and indexes no list out of bounds; it fails exactly at the top level without a cache or without testers |
| TesterTree.Builder.MakeTreeCaches | gem5/configs/example/memtest.py:323-329 | the same for each of several caches |
| TesterTree.Validate | gem5/configs/example/memtest.py:191-217 | accepts exactly the valid specifications with at most 64 testers |
| TesterTree.BuildTree | gem5/configs/example/memtest.py:183-351 | every accepted specification, of any depth, gives a tree with exactly the counted testers, at most 64, every cache after the prototype of its level, and on each level as many subsystems as the caches multiply to, all distinct |
| YearRanges.RunsExact | gem5/util/find_copyrights.py:195-220 | the ranges cover exactly the years and are maximal |
| YearRanges.FewestRanges | gem5/util/find_copyrights.py:195-220 | no list of ranges with the same years is shorter |
| YearRanges.DateStr | gem5/util/find_copyrights.py:195-220 | prints those ranges, and raises exactly for no years |
| YearRanges.ProcessDates | gem5/util/find_copyrights.py:112-132 | the loop collects the years of all items, passing over malformed ones |
| Text.StripAround | gem5/util/find_copyrights.py:116 | the white space around an item, and nothing else, is taken off |
| YearRanges.DashMatched | gem5/util/find_copyrights.py:112 | four digits, a dash with any spaces around it and four digits are a range, whatever follows |
| YearRanges.SpacedYearsRead | gem5/util/find_copyrights.py:112-132 | a list of four-digit years and ranges of them is read as those years, whatever spaces are around the items and the dashes |
| YearRanges.RangeRoundTrip | gem5/util/find_copyrights.py:112-132 | a printed range is read back exactly when it is one year or both ends have four digits; otherwise its last year is missing |
| YearRanges.RangesRoundTrip | gem5/util/find_copyrights.py:112-132 | printed maximal ranges are read back exactly when each of them is |
| YearRanges.DatesRoundTrip | gem5/util/find_copyrights.py:112-220 | printed years are read back exactly when any two years in a row have four digits |
| YearRanges.FourDigitYearsRoundTrip | gem5/util/find_copyrights.py:112-220 | every non-empty set of four-digit years is read back |
| YearRanges.LaterYearLost | gem5/util/find_copyrights.py:112-220 | 9999 and 10000 are not read back |
| CheckpointSchedule.AllTakenIff | gem5/configs/common/Simulation.py:266-282 | all checkpoints there is room for are written exactly when nothing but the last interval is disturbed |
| CheckpointSchedule.AllWrittenIff | gem5/configs/common/Simulation.py:253-282 | the script writes the first checkpoint and all there is room for exactly when the first limit comes after "checkpoint" exits only and nothing but the last interval is disturbed |
| CheckpointSchedule.CheckpointExitEndsSchedule | gem5/configs/common/Simulation.py:275-282 | one "checkpoint" exit in the first interval leaves two checkpoints, however many there is room for |
| CheckpointSchedule.RoomIsQuotient | gem5/configs/common/Simulation.py:263-273 | after the first checkpoint there is room for the whole periods up to the last tick, but not for more than the maximum |
| CheckpointSchedule.EndingUndisturbed | gem5/configs/common/Simulation.py:266-284 | a run without a disturbed interval returns the exit of the call to the last tick, or the limit if the maximum was reached |
| CheckpointSchedule.Simulator.Simulate | gem5/configs/common/Simulation.py:253-254 | the oracle: at most the ticks asked for, exactly those at the limit |
| CheckpointSchedule.Simulator.PassCheckpoints | gem5/configs/common/Simulation.py:255-257 | passes "checkpoint" exits without passing the tick, and ends with the first other exit |
| CheckpointSchedule.Simulator.FirstCheckpoint | gem5/configs/common/Simulation.py:253-261 | passes "checkpoint" exits up to the first tick and writes a checkpoint exactly when it gets there |
| CheckpointSchedule.Simulator.RunInterval | gem5/configs/common/Simulation.py:275-282 | one interval: writes at its end exactly when it gets there, and reports its first and its last exit |
| CheckpointSchedule.Simulator.ScriptCheckpoints | gem5/configs/common/Simulation.py:247-284 | for every sequence of exits, checkpoint k is written at when + k * period, at most max(1, max_checkpoints) are written, as many as exits and room allow, and the last exit is returned; a run that ends at a limit ends at maxtick if no interval was disturbed and the maximum was not reached, otherwise at its last checkpoint |
| RangeLadder.IsPow2Exact | gem5/configs/dram/lat_mem_rd.py:157-158 | the bit test is true of exactly the powers of two |
| RangeLadder.SizeIsQuarters | gem5/configs/dram/lat_mem_rd.py:166-174 | size i is (4 + i mod 4) times 2 to the power 10 + i div 4 |
| RangeLadder.NextRung | gem5/configs/dram/lat_mem_rd.py:166-174 | each size is at most 5/4 of the one before, and the step doubles exactly at powers of two, after four sizes |
| RangeLadder.Octaves | gem5/configs/dram/lat_mem_rd.py:166-174 | every fourth size is the next power of two, from 4096 |
| RangeLadder.Ladder | gem5/configs/dram/lat_mem_rd.py:161-174 | the loop terminates with those sizes, ends with the first that reaches the limit, and below 5/4 of a limit above 4096 |
| LogRoll.Roller.DumpLines | gem5/util/logroll.py:63-67 | between any two lines a dump prints the last lines, as many as the target, in order of arrival |
| LogRoll.Roller.Append | gem5/util/logroll.py:83-89 | filling keeps the buffer the lines seen so far |
| LogRoll.Roller.Overwrite | gem5/util/logroll.py:91-92 | overwriting keeps the buffer the last lines, the oldest at the index |
| LogRoll.Roll | gem5/util/logroll.py:75-94 | the whole input leaves the last lines, or all of them without a positive target |

## Left out

- PipeTrace.ProcessTrace: takes lines already split into fields; a malformed O3PipeView line, and an instruction printed before all its stages were seen, are not modelled.
- PipeTrace.PrintsAsAssumed, PipeTrace.PrintsWantedAsAssumed: ask for a cycle time that is not negative.
- Timeline.DrawTimeline: does not model colours, the header, or the text behind the row, because they are presentation only.
- CheckpointUpgrader.Loader.Register: takes what a script declares as given; executing the file and the type checks on its attributes are not modelled. Tags are unique, as the header comment asks.
- CheckpointUpgrader.ApplyPending: a migration is a step in the log; what it does to the checkpoint is not modelled.
- PortBinder.BindPorts: does not model the assignment of the bound ports to simulator objects, or the parsing of port names.
- Protolib.ByteFile.DecodeMessage: gives the bytes of the message; whether they parse is a parameter of the decoding script.
- InstDepText.ParseLine: signs, underscores and spaces are read as Python's `int` does, for ASCII characters; the digits and spaces of other scripts are not modelled, and lines end at a line feed only.
- CheckpointMerge.Aggregate: takes page pointer and tick of a checkpoint as numbers; configparser, gzip and the printing of the configuration are not modelled. The written configuration is one list of sections.
- TesterTree.Builder.MakeCacheLevel: does not model crossbars, port wiring, the caches of the testers or the progress limits.
- YearRanges.ProcessDates: ASCII digits and spaces only.
- CheckpointSchedule.Simulator.ScriptCheckpoints: the branch that counts instructions, and a negative period, are not modelled.
- LogRoll.Roller.DumpLines: signals in the middle of an update are not modelled.
- The random tree of the memory test, and parsing of command lines.
- Board, Ruby, CHI, GPU, HMC and TLB configuration scripts, which set parameters on classes defined elsewhere.
- Code generators in `build_tools`, simulator launch scripts, viewers and git hooks.
