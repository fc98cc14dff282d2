# libevfilter, verified

libevfilter sits between input devices and their readers. Each device has a line: a linked list of filters through which every `input_event` is pushed, ending in a barrier and a commit callback. A filter holds a little state and may swallow, rewrite, delay or add events. Around the lines there is a configuration language, profiles that choose configurations for a device, and a queue of file descriptors waited on with `select`. This project models that logic in Dafny and proves what whole runs of it guarantee.

`dafny verify dfyconfig.toml` checks everything.

## How it is organised

Streams. `Events` defines events (without time stamps) and runs of a filter over a stream. Six filters are specified as step functions, and each has its laws over all runs: `SpeedMod`, `Rel2Scroll`, `Barrier`, `KeyLock`, `PressureToKey`, `FilterToHandle`. C's truncating division is in `CArith`. `SpeedModChain` compares two SpeedMods in a row with one that has the product divisors.

Chains. `Stages` composes filters stage by stage: each reads the whole stream its predecessor wrote. `Chain` runs them as the code does, one event at a time, each call nested in the one before, with the event handed over by reference. The theorem that ties the two together needs that no PressureToKey sees its event rewritten after it, by another one or by filters behind a handle; `ChainExact` proves that this condition is exact for chains as they are allocated. `Fronts` cuts a chain at a barrier or a commit filter.

Memory. `FilterHeap` has the filters and events as heap objects linked by `next`, with every `modify` as a method that rewrites its event in place; `Lines` has the list operations, the construction of a line and attaching. The methods are proved to do what `Chain.Push` says, so the stream theorems hold of the heap.

Several devices. `SharedSink` interleaves any number of lines, each with its barrier, into one sink; `DeviceLines` shows that events pushed into the chains of several lines, in any order, are such a run.

Configuration. `Tokens` gives the parameter syntax as functions on text, with the round trip from what a user may write; `ParamBuffer` is the in-place tokeniser, with its cursor and its NULs written into an array. `Loader` reads filter blocks, `Profile` selects files, `KeyParser` maps key names to values, over `Strings`' `strcasecmp`.

Descriptors and samples. `IoQueue` is the sorted list beside its bit set; `Average` is the ring of the averaging filter.

A method is proved against a function, and the named lemmas say what that function guarantees.

## Where code and documentation disagree

The code is what is modelled. Each point below is proved, with the exact condition where there is one.

- Attaching to a line is documented as adding at its end (`src/evf_line.h:76-79`), but `line->end` is not advanced (`src/evf_line.c:190-193`), so later filters land before earlier ones: `Lines.DocumentedOrderIff`.
- The loader adds a blank after each line of a block. It ends a value without quotes, but after a closing quote, or after blanks at the end of the last line, the tokeniser takes it for one more, empty name and rejects the block: `Loader.BlockParsesIff`.
- PressureToKey reads its event after handing it on (`src/filters/pressure_to_key.c:76-79`). Before another PressureToKey, or before a redirect of pressure to a handle with one behind it, it misses crossings: `ChainExact.CleanIffComposes`, `ChainExact.AdjacentPressureDiffers`.
- Two SpeedMods multiply for all motion exactly if their divisors are positive, and for EV_SYN events only if besides the second divides by one: `SpeedModChain.MotionEqualIff`, `SpeedModChain.StreamsEqualIff`.
- SpeedMod is meant never to emit zero motion. With a negative divisor it does: `SpeedMod.NeverEmitsZero`.
- `keyparser_getkey` needs an ascending table, and for a table of distinct names each name is reachable only then. The shipped table is not ascending (`src/keyparser/keys.h:528-529`): `KeyParser.FoundIffSorted`, `KeyParser.ShippedOrderLosesAName`.
- `evf_io_queue_wait` removes members without decrementing `cnt` (`src/evf_io_queue.c:156-158`). After any run of add, rem and wait the count is exact if and only if no callback has ever said REM: `IoQueue.CountAheadIff`, `IoQueue.AfterAnyRun`.
- A member whose callback returned neither OK nor REM stays but is not looked at in the next wait: `IoQueue.BitsAreMembersIff`, `IoQueue.SitsOutOneWait`.
- The averaging filter is not a window over the last n samples: the tail moves once only: `Average.IndicesAfter`, `Average.SamplesAveraged`.

## Model

| member | source | states |
|---|---|---|
| SpeedMod.Conservation | src/filters/speed_mod_rel.c:66-90 | Over any run, from any state whose remainders are proper and for any non-zero divisors, each axis keeps its own account: motion received equals divisor times motion handed on plus the change of the stored remainder, which stays smaller than the divisor. |
| SpeedMod.OneWayDivides | src/filters/speed_mod_rel.c:66-90 | From allocation, motion that never turns back is handed on as C's quotient of all of it by the divisor, of any sign: rounding event by event loses nothing. |
| SpeedMod.SynSuppression | src/filters/speed_mod_rel.c:57-93 | An EV_SYN is swallowed exactly when some motion was withheld since the previous EV_SYN; all events that are neither EV_SYN nor motion pass unchanged. |
| SpeedMod.FlagIsPending | src/filters/speed_mod_rel.c:59-90 | At every point of every run the swallow flag says whether motion is withheld with no EV_SYN since. |
| SpeedMod.NeverEmitsZero | src/filters/speed_mod_rel.c:70-77 | No motion of value zero is ever emitted if and only if both divisors are positive. |
| SpeedMod.SumsFitInt | src/filters/speed_mod_rel.c:70-84 | With event values up to INT_MAX minus the divisor plus one, the sums stay within a C int on every run. |
| CArith.DivisionUnique | src/filters/speed_mod_rel.c:70-77 | For any non-zero divisor, truncating quotient and remainder are the only pair with C's division law and the dividend's sign. |
| SpeedModChain.PairEmitsProductMotion | src/filters/speed_mod_rel.c:67-90 | For positive divisors, on every run, with motion of any signs, two SpeedMods emit event for event the motion (and all else but EV_SYN) of one SpeedMod with the product divisors. |
| SpeedModChain.MotionEqualIff | src/filters/speed_mod_rel.c:67-90 | From allocation the pair does so on every run if and only if all four divisors are positive. |
| SpeedModChain.PairStaysWithinProduct | src/filters/speed_mod_rel.c:67-90 | After every prefix of every run, for any non-zero divisors, the pair stays within the product of the divisors of the motion received; for positive ones its motion so far is the single filter's. |
| SpeedModChain.SparseStreamsEqual | src/filters/speed_mod_rel.c:57-93 | For positive divisors, on runs with at most one motion event per EV_SYN, the pair and the single filter agree on the whole stream, EV_SYN included. |
| SpeedModChain.StreamsEqualIff | src/filters/speed_mod_rel.c:57-93 | From allocation they agree on the whole stream of every run if and only if all divisors are positive and the second filter's are one. |
| Rel2Scroll.Conservation | src/filters/rel2scroll.c:75-104 | Under any toggling of the trigger, motion received while it was held equals divisor times wheel steps added to the stream plus a proper remainder, for any non-zero divisors. |
| Rel2Scroll.OneWayTurns | src/filters/rel2scroll.c:75-104 | From allocation, captured motion that never turns back becomes C's quotient of it by the divisor in wheel steps, X on the horizontal and Y on the vertical wheel. |
| Rel2Scroll.FreePasses | src/filters/rel2scroll.c:53-108 | Everything but syncs, wheel steps, the trigger's own events and captured motion passes untouched and in order. |
| Rel2Scroll.SyncSuppression | src/filters/rel2scroll.c:57-66 | A sync is swallowed exactly when the event right before it was swallowed and is not itself a sync. |
| Rel2Scroll.TriggerTracked | src/filters/rel2scroll.c:68-73 | On any run the trigger flag is what the trigger's last event said. |
| Rel2Scroll.HeldMeans | src/filters/rel2scroll.c:68-73 | The trigger counts as held exactly if its last event has a value other than zero, and not before any. |
| Rel2Scroll.IdleWithoutTrigger | src/filters/rel2scroll.c:53-108 | From allocation and without its trigger the filter changes nothing, syncs included. |
| Rel2Scroll.ScaleIsDivide | src/filters/rel2scroll.c:77-85 | One accumulator step equals SpeedMod's for all sums if and only if the divisor is positive. |
| Rel2Scroll.HeldIsSpeedMod | src/filters/rel2scroll.c:75-104 | While the trigger is held the filter with positive divisors is SpeedMod with wheels for axes, on any run; only syncs may differ. |
| Rel2Scroll.HeldIsSpeedModIff | src/filters/rel2scroll.c:75-104 | From the moment the trigger is pressed that is so on every run if and only if both divisors are positive. |
| Rel2Scroll.SumsFitInt | src/filters/rel2scroll.c:77-97 | The bound on event values under which its sums stay within a C int on every run. |
| Barrier.Refines | src/filters/barrier.c:51-87 | After any run the output is each closed packet cut to its first `history` events followed by its SYN_REPORT, and the queue holds the first `history` events of the open packet. |
| Barrier.PacketsPartition | src/filters/barrier.c:75-87 | The packets and the open rest of a stream are that stream, cut exactly at its SYN_REPORTs. |
| Barrier.TwoBarriers | src/filters/barrier.c:51-87 | Barrier(m) then Barrier(n) gives the stream of Barrier(min(m, n)) on every run. |
| Barrier.LosslessIff | src/filters/barrier.c:64-73 | A stream of whole packets leaves unchanged if and only if no packet is longer than the queue. |
| SharedSink.SinkIsPackets | src/filters/barrier.c:51-87 | Under every interleaving of any number of devices the shared sink receives whole single-device packets back to back, in the order their SYN_REPORTs reach the barriers. |
| SharedSink.PacketsProject | src/filters/barrier.c:51-87 | Each device's packets in that order are exactly the packets of its own stream: none lost, added or reordered. |
| SharedSink.ProjectionIsAlone | src/evf_line.c:98-181 | A device's share of the sink, and its line's final state, are those of its line run alone. |
| SharedSink.LineIsComposition | src/evf_line.c:147-178 | Event by event, a line gives its front's stream sent through its barrier. |
| DeviceLines.LineDelivers | src/evf_line.c:147-178 | What a line over any chain of filters records at commit, its events pushed one at a time, is its filters' stream in packets cut to the barrier's size; if the chain is clean that stream is the filters' composition. |
| DeviceLines.LinePush | src/evf_line.c:147-178 | One event pushed into a whole line of any filters: they behave as alone, and commit gets what the barrier lets through of what they hand on. |
| DeviceLines.PushesAreLineSteps | src/evf_line.c:200-203 | Any interleaving of pushes into the chains of several lines is a run of lines into a shared sink, and each commit filter has recorded its own part of it. |
| DeviceLines.LinesShareSink | src/evf_line.c:98-181 | Under every interleaving of pushes into lines over any chains of filters the sink receives whole single-device packets in SYN_REPORT order, and each device's part is what its own chain and barrier give when it runs alone, by composition if the chain is clean. |
| KeyLock.EdgesAlternate | src/filters/key_lock.c:48-78 | Over any run the forwarded presses and releases of the key alternate strictly, one for each press received, and the state is the parity of presses. |
| KeyLock.StartsWithPress | src/filters/key_lock.c:48-78 | From allocation the first edge let through is a press, then a release, and so on, one for each press received; the lock is their parity. |
| KeyLock.IdleWithoutKey | src/filters/key_lock.c:48-78 | From allocation and without its key the filter changes nothing, syncs included. |
| KeyLock.OthersPass | src/filters/key_lock.c:48-78 | All other events pass unchanged and in order, zero syncs aside. |
| KeyLock.SwallowedIff | src/filters/key_lock.c:52-74 | Swallowed are exactly the releases of the key, and a zero sync right after one. |
| PressureToKey.OutputIsMarked | src/filters/pressure_to_key.c:55-102 | For events that come back unchanged from the next filter: over any run `pressed` is the test of the last pressure (`PressedIff` says which), and the output is the input with a key event after each change of it. |
| PressureToKey.PressedIff | src/filters/pressure_to_key.c:55-64 | Over any run, with a threshold that is not negative the key is pressed exactly if the last pressure is greater; with a negative one, exactly if it is not zero and less than the threshold's size. |
| PressureToKey.UpWithoutPressure | src/filters/pressure_to_key.c:71-102 | Before any pressure the key is up and nothing is added. |
| PressureToKey.MarkedSplits | src/filters/pressure_to_key.c:71-102 | Deleting the generated events gives back the input; the generated ones alternate from a press on, and their parity is `pressed`. |
| PressureToKey.OnePress | src/filters/pressure_to_key.c:71-102 | From allocation, ever greater pressure that rises through the threshold gives one press, right after the first pressure above it. |
| FilterToHandle.Routing | src/filters/filter_to_handle.c:55-78 | Where each event of each run goes: the handle gets redirected events and all zero syncs after the first redirect; the next filter gets such a sync exactly when the last event that is not one was passed on. |
| FilterToHandle.Lossless | src/filters/filter_to_handle.c:55-78 | Zero syncs aside, each event goes to exactly one of the two outputs, in order. |
| FilterToHandle.FlagSetBeforeRead | src/filters/filter_to_handle.c:120-123 | `ev_flag`, which allocation leaves unset, is written before it is ever read. |
| Stages.RunChainAppend | src/evf_struct.h:38-60 | A chain run on two streams in turn is the chain run on their concatenation. |
| Stages.RunChainConcat | src/evf_filter.c:185-198 | Chain b after chain a transforms a stream as a does and then b. |
| Stages.Substituted | src/filters/key_substitute.c:48-56 | Over any run each event of the one key leaves with the code of the other and its own value, and every other event as it came. |
| Stages.CommitRecords | src/filters/commit.c:43-52 | A commit filter at the end records exactly the stream that leaves the chain. |
| Chain.ComesBack | src/evf_struct.h:38-60 | What a filter finds in its event after handing it on to any chain: a sync as it was, no pressure that was none, and pressure as it was unless a filter that may rewrite it was reached, in which case it is none any more. |
| Chain.PenHears | src/filters/pressure_to_key.c:71-102 | Before any filters and on any run, `pressed` is the threshold test of the last pressure that came back from them. |
| Chain.PenHearsLast | src/filters/pressure_to_key.c:55-102 | That test, by numbers: greater than a threshold that is not negative, or not zero and less than a negative one's size. |
| Chain.PushIsComposition | src/evf_struct.h:38-60 | In a clean chain, in any state, one event pushed through nested calls leaves every filter as stage-by-stage composition does, and the same events leave. |
| Chain.PushKeepsClean | src/evf_struct.h:38-60 | Being clean, which depends on what barriers hold, is kept by every push. |
| Chain.RunIsComposition | src/evf_line.c:200-203 | For a clean chain of any length and any run, pushing events one at a time equals composing the stages' stream functions, in states and output. |
| Chain.DeliveredStream | src/evf_line.c:200-203 | What is delivered at commit over any run is the composition's output stream. |
| ChainExact.CleanIffComposes | src/filters/pressure_to_key.c:71-102 | For any filters as allocated, push equals composition on every run, whatever the filters behind handles that may rewrite events do, if and only if the chain is clean: no PressureToKey that pressure reaches hands it, within the same call, to another one or to a handle with such filters behind it. |
| ChainExact.AdjacentPressureDiffers | src/filters/pressure_to_key.c:71-102 | Two adjacent PressureToKeys, whatever their settings, already depart from composition on some run from allocation. |
| Fronts.PushFront | src/evf_struct.h:38-60 | Before a tail that starts with a barrier, or is a commit filter, any filters behave as alone, PressureToKeys included, and the tail gets what leaves them. |
| Fronts.RunFront | src/evf_line.c:200-203 | The same over any run. |
| Fronts.BarrierFront | src/filters/barrier.c:51-87 | What is pushed into the filters after a barrier, over any run, is the stream the barrier's step function gives. |
| FilterHeap.Filter.Modify | src/evf_struct.h:38-60 | For a linked chain of any filters, one call with one event leaves every filter's state and the event itself exactly as `Chain.Push` says; the chain stays linked. |
| FilterHeap.Filter.ModifySpeedMod | src/filters/speed_mod_rel.c:57-93 | SpeedMod's in-place code does its step and hands the rewritten event on. |
| FilterHeap.Filter.SlowDown | src/filters/speed_mod_rel.c:66-90 | The switch computes the step's new state and withholds or rewrites the event as the step says. |
| FilterHeap.Filter.ModifyRel2Scroll | src/filters/rel2scroll.c:53-108 | The same for Rel2Scroll. |
| FilterHeap.Filter.Scroll | src/filters/rel2scroll.c:57-106 | Rel2Scroll's code up to handing on computes the step, and returns early exactly when the step hands on nothing. |
| FilterHeap.Filter.TurnWheel | src/filters/rel2scroll.c:75-104 | The switch turns motion into wheel steps as the step says. |
| FilterHeap.Filter.ModifyKeyLock | src/filters/key_lock.c:48-78 | The same for KeyLock. |
| FilterHeap.Filter.Toggle | src/filters/key_lock.c:52-75 | The same for KeyLock. |
| FilterHeap.Filter.ModifyPressureToKey | src/filters/pressure_to_key.c:71-102 | The same for PressureToKey, whose event is read back after the rest of the chain had it. |
| FilterHeap.Filter.PressKey | src/filters/pressure_to_key.c:78-101 | What follows the handing on: state and generated event as the threshold test of the event read back says. |
| FilterHeap.Filter.ModifyFilterToHandle | src/filters/filter_to_handle.c:55-78 | The same for FilterToHandle; an event sent comes back as the filters behind the handle leave it. |
| FilterHeap.Filter.Send | src/evf_handle.c:157-163 | The event is lent to the filters behind the handle, and is what they make of it when it comes back. |
| FilterHeap.Filter.ModifyKeySubstitute | src/filters/key_substitute.c:48-56 | The same for KeySubstitute. |
| FilterHeap.Filter.ModifyCommit | src/filters/commit.c:43-52 | The same for commit, which appends to its record. |
| FilterHeap.Filter.InsertQueue | src/filters/barrier.c:64-73 | The event's contents are copied behind those waiting; a full queue is left as it is. |
| FilterHeap.Filter.FlushQueue | src/filters/barrier.c:51-59 | The waiting events go to the next filter in order, each from its slot, which the filters after may rewrite; the queue is empty afterwards. |
| FilterHeap.Filter.ModifyBarrier | src/filters/barrier.c:75-87 | Insert or flush, as the chain's push says. |
| Lines.FiltersLast | src/evf_filter.c:170-180 | The last filter of any list, or null for an empty one. |
| Lines.FiltersMerge | src/evf_filter.c:185-198 | Either list may be empty: the result is exactly the first list followed by the second, still without cycles, with no filter's state changed. |
| Lines.MergeComposes | src/evf_filter.c:185-198 | A merged list transforms every stream as the first list does and then the second. |
| Lines.LinkedReady | src/evf_line.c:147-178 | A linked list that ends in a commit and whose filters own their slots can process events. |
| Lines.Line.constructor | src/evf_line.c:147-178 | A new line is the given filters, then the barrier if there is one, then commit, with `end` at the last filter; no state changes. |
| Lines.Line.Attach | src/evf_line.c:183-194 | Exactly one filter more, right after the one `end` points at; the line stays acyclic and keeps its tail last and all states. |
| Lines.AttachOrder | src/evf_line.c:183-194 | After any number of attaches: the original filters, then the attached ones, newest first (on an empty line the very first attached stays in front). |
| Lines.DocumentedOrderIff | src/evf_line.h:76-79 | The documented order results if and only if at most one filter is attached, or two to an empty line. |
| Lines.Line.Process | src/evf_line.c:200-203 | One event through the line is one push through its chain. |
| Lines.Line.ProcessOne | src/evf_line.c:44-66 | The same for an event read into a local struct: -1 and nothing pushed if the read failed, and whatever the struct held is pushed if the read would have had to wait. |
| Lines.Line.ProcessAll | src/evf_line.c:44-66 | A device's whole run through the heap: what pushing each event gives, and in a clean chain what composing the stages gives, commit's record included. |
| Tokens.ReadsBack | src/evf_param.c:399-443 | Parameters written in any of the accepted layouts (quoted either way or bare, with or without the sign, any blanks) read back as exactly their values; if blanks follow a quoted last value, or there is more than one after a bare one, an empty name is rejected instead. |
| Tokens.StopsAt | src/evf_param.c:417-443 | A list of parameters in any layout is rejected at its first one that is unknown, by that name, or that is bound already, as redefined. |
| Tokens.BoundIff | src/evf_param.c:417-443 | A well-formed list is accepted if and only if its names are known, no two mean the same parameter, and it ends cleanly. |
| Tokens.BindingsExact | src/evf_param.c:417-443 | What is bound is the value of each item at its name's place and nothing else. |
| Tokens.LayoutIrrelevant | src/evf_param.c:399-443 | Permuting parameters, requoting them or changing blanks or the case of names does not change what is bound. |
| Tokens.NameReadBack | src/evf_param.c:278-304 | A written name is read back and the cursor stops before its value, wherever the sign and blanks stand. |
| Tokens.AnyName | src/evf_param.c:278-304 | Of any text, well-formed or not: which characters are the name, and where the cursor stands after it. |
| Tokens.ValueReadBack | src/evf_param.c:322-362 | A written value is read back, up to its own quote or the next blank, and the rest is left. |
| Tokens.AnyValue | src/evf_param.c:322-362 | Of any text: which characters are the value, quoted or not, closed or not, and where the cursor stands after it. |
| Tokens.Find | src/evf_param.c:367-381 | The first parameter whose name differs from the given one in the case of letters only, or none if there is none. |
| ParamBuffer.EatSpaces | src/evf_func.c:32-35 | The cursor moves past all blanks and not past the terminator. |
| ParamBuffer.GetName | src/evf_param.c:278-304 | The name is cut off in place as `Tokens.ReadName` says; the cursor moves on, stays within the terminator, and nothing before it is written. |
| ParamBuffer.GetValue | src/evf_param.c:322-362 | The same for a value and `Tokens.ReadValue`. |
| ParamBuffer.FindPosition | src/evf_param.c:367-381 | The place `Tokens.Find` gives, or -1. |
| ParamBuffer.LoadParams | src/evf_param.c:412-443 | The parsing loop ends on any text with the outcome of `Tokens.Parse`, rejections included; every recorded pointer still reads the value it was recorded for, in spite of all NULs written later. |
| ParamBuffer.StaysClosed | src/evf_param.c:278-362 | A token closed before the cursor is not changed by writes after it. |
| ParamBuffer.MovesOn | src/evf_param.c:417-443 | So all values recorded stay readable as the cursor moves on. |
| Loader.GetFilterParams | src/evf_loader.c:81-113 | For any buffer of two bytes or more: the accepted lines in order, each with one blank, NUL-terminated with a byte to spare, up to EndFilter; -2 if the file ends first. The size never wraps. |
| Loader.CollectedIffFits | src/evf_loader.c:105-110 | A block is collected whole if and only if its lines with their blanks leave two bytes of the buffer. |
| Loader.KeptExact | src/evf_loader.c:105-110 | Of any block exactly those lines are collected that leave two bytes free behind the lines collected before them. |
| Loader.DoneIffEnds | src/evf_loader.c:94-103 | The block is finished if and only if some line that follows is EndFilter, in any case. |
| Loader.HeaderReadBack | src/evf_loader.c:48-76 | A header in any of the documented forms (the keyword in any case, a separating character, blanks, with or without one equals sign) gives exactly its name, or the first 255 characters of it. |
| Loader.HeaderIffKeyword | src/evf_loader.c:55-59 | A line is taken for a header if and only if its first ten characters are FilterName, in any case. |
| Loader.BlockParsesIff | src/evf_param.c:417-443 | A block of lines with any number of parameters each, with blanks wherever the reader leaves them, parses to exactly its values if its last value is not quoted and no blank follows it, and is otherwise rejected for an empty name. |
| Loader.BlockReadAndParsed | src/evf_loader.c:81-113 | A block that fits goes from the lines of the file to exactly its bindings, or to that rejection, under the same condition. |
| Loader.LoadFilters | src/evf_loader.c:120-202 | On any file the loop over blocks, with its reused buffer, gives what `Loader.Load` says, errors included. |
| Loader.LoadsInOrder | src/evf_loader.c:120-202 | A file that starts with well-formed blocks loads as their filters in order, each created from the name written in its header and all of its lines, and then as what follows them; the first refusal ends it. |
| Loader.CreatesInOrder | src/evf_loader.c:160-183 | All filters of the blocks, one for each and in order, or an error and a block that is refused. |
| Loader.LoadsTail | src/evf_loader.c:138-159 | What follows the last block: nothing or one line is no error, a line that is no header and a block without EndFilter are, each its own. |
| KeyParser.GetKey | src/keyparser/key_parser.c:27-51 | On any table that is not empty the bisection stays in bounds and ends, with -1 for a name that no entry equals up to the case of letters; in an ascending table it gives the value of the entry that does. |
| KeyParser.SortedSearchExact | src/keyparser/key_parser.c:27-51 | In an ascending table the search ends at a place if and only if the name stands there. |
| KeyParser.FoundIffSorted | src/keyparser/key_parser.c:27-51 | For distinct names, every entry is found if and only if the table is strictly ascending. |
| KeyParser.GetName | src/keyparser/key_parser.c:53-62 | The first name with that value, or null if and only if there is none. |
| KeyParser.RoundTrip | src/keyparser/key_parser.c:27-62 | getkey(getname(v)) is v for every value of an ascending table, duplicated values included. |
| KeyParser.ShippedOrderLosesAName | src/keyparser/keys.h:528-529 | In any table with these two neighbours in their shipped order some name is not found though it is there. |
| Strings.CaseCmpZero | src/keyparser/key_parser.c:35 | strcasecmp is zero exactly for strings of one length with, at each place, the same character or both cases of one letter. |
| Strings.CaseCmpSign | src/keyparser/key_parser.c:35-48 | It is negative exactly if the first string comes first: at the first difference, in lower case, or as a proper prefix. |
| Strings.CaseCmpSwap | src/keyparser/key_parser.c:35 | Exchanging its arguments changes its sign. |
| Strings.CaseCmpTransitive | src/keyparser/key_parser.c:35 | It orders names transitively. |
| Strings.SixSpaces | src/evf_func.c:34 | isspace accepts exactly blank, tab, newline, vertical tab, form feed and carriage return. |
| Profile.LoadProfile | src/evf_profile.c:152-208 | The result is the filters of all files of selected groups, in order, or the failure of the first of them that fails. |
| Profile.MatchedMeans | src/evf_profile.c:161-201 | `has_matched` is non-zero exactly when the current group is selected, 1 among its rules and -1 among its files. |
| Profile.RuleSelects | src/evf_profile.c:191-201 | After a rule line a group is selected exactly if the rule matched, or the run of rules it continues had. |
| Profile.LoadsSelectedGroups | src/evf_profile.c:152-204 | The flag machine refines the group specification: a file is loaded exactly when a rule matched in the run of rules just before its run of files. |
| Profile.GroupsInOrder | src/evf_profile.c:167-189 | Loading fails if and only if a file of a selected group does; otherwise each such file's filters come right after those of the lines before it, and there are no others. |
| IoQueue.ListInsert | src/evf_io_queue.c:39-61 | The member is put at its place in descending order; everything else stays linked as it was. |
| IoQueue.ListDelete | src/evf_io_queue.c:66-88 | Exactly the member with that descriptor leaves, or nothing changes. |
| IoQueue.Queue.constructor | src/evf_io_queue.c:90-102 | An empty queue with an empty set. |
| IoQueue.Queue.Add | src/evf_io_queue.c:167-189 | The members are the old ones and the descriptor, which was none; its bit is set beside the old ones and the count is one more; order and bounds are kept. |
| IoQueue.Queue.Rem | src/evf_io_queue.c:191-198 | If its bit is set, exactly that descriptor leaves list and set, all others stay, and the count is one less; otherwise nothing changes. |
| IoQueue.Queue.Wait | src/evf_io_queue.c:122-165 | For every answer of select and all callback results: called are those whose bits are set and that are ready, closed those that say CLOSE, gone those that say REM; the bits of all others that stay are set unless they returned something; the count stays as it was; an empty queue or an error changes nothing. |
| IoQueue.FlagsRead | src/evf_io_queue.h:43-46 | A result that carries both flags both closes and removes; other flags make no difference. |
| IoQueue.Queue.Dispatch | src/evf_io_queue.c:137-162 | The loop, relinking the list it walks, gives the survivors, calls, closes and bits of the specification. |
| IoQueue.Queue.Visit | src/evf_io_queue.c:137-162 | One pass: the bit, the list and the next member to visit, also when the visited one has just left. |
| IoQueue.Queue.RootBounds | src/evf_io_queue.c:133 | `root->fd + 1` is above every descriptor in the set, so select looks at all of it. |
| IoQueue.CalledExact | src/evf_io_queue.c:137-145 | Each ready member is called exactly once, in descending order, and no other. |
| IoQueue.ClosedExact | src/evf_io_queue.c:148-149 | Closed are exactly those called whose result says CLOSE, each once. |
| IoQueue.SurvivorsExact | src/evf_io_queue.c:154-158 | Exactly the members whose callback said REM leave; order is kept. |
| IoQueue.BitsAreMembersIff | src/evf_io_queue.c:154-161 | After a wait the set is the set of members if and only if every callback that returned anything but OK said REM. |
| IoQueue.CountAheadIff | src/evf_io_queue.c:156-158 | No wait adds members, and one keeps them all, which it must for the count to stay exact, if and only if no ready member's callback says REM. |
| IoQueue.AfterAnyRun | src/evf_io_queue.c:122-198 | Over every run of add, rem and wait that adds no descriptor twice: the list descends and holds all of the set; set and list agree if all callbacks that return anything but OK say REM; the count is exact if and only if none has ever said REM. |
| IoQueue.MemberIff | src/evf_io_queue.c:122-198 | Over every run of add, rem and wait that adds no descriptor twice: a descriptor is in the queue if and only if it has been added and has not since been removed while its bit was set or said REM; and its bit is set if and only if it has been set and not cleared since. |
| IoQueue.SitsOutOneWait | src/evf_io_queue.c:154-161 | A member that said neither stays, is not called in the next wait whatever is ready, and is in the set again after it. |
| Average.Ring.constructor | src/filters/weighted_average_abs.c:116-144 | Three empty rings of n samples. |
| Average.Ring.Add | src/filters/weighted_average_abs.c:61-75 | One axis advances and stores its sample at the new head; all other samples and axes stay. |
| Average.Ring.PenUp | src/filters/weighted_average_abs.c:91-99 | All three rings start afresh. |
| Average.Ring.Visit | src/filters/weighted_average_abs.c:49-59 | The loop visits exactly the walk from head to tail. |
| Average.WalkLaw | src/filters/weighted_average_abs.c:49-59 | That walk stays in the ring and takes exactly (tail - head) mod n steps. |
| Average.IndicesAfter | src/filters/weighted_average_abs.c:61-75 | The indices after any number of samples: the head counts them around the ring, but in a ring of three or more the tail moves once and never again. |
| Average.SamplesAveraged | src/filters/weighted_average_abs.c:49-75 | So a full ring of three or more never averages n samples, and periodically none. |

## Left out

- SpeedMod.Init: divisors are not zero. The parameters have no limit in the source, and with zero it divides by it, which C leaves undefined.
- Rel2Scroll.Init: divisors are not zero, for the same reason.
- SpeedMod.Step: works on unbounded integers; `SpeedMod.SumsFitInt` gives the values for which the source's int does too. The 16-bit width of event types and codes is not modelled.
- FilterToHandle.Step: the filters behind a handle are a log of what they are sent and an arbitrary answer to each event, within the law that `Chain.ComesBack` proves of the modelled filters; filters that scale or average pressure keep no such law. The registry of handles and GetFromHandle (`src/evf_handle.c`, `src/filters/get_from_handle.c`) are not modelled.
- DeviceLines.LinesShareSink: lines meet in the sink only; what one line commits because another has sent it an event through a handle is not modelled.
- SpeedModChain.SparseStreamsEqual: one direction, for positive divisors; `SpeedModChain.MotionEqualIff` gives the reason.
- PressureToKey.OutputIsMarked: for events that come back unchanged; `Chain.PenHears` says what the key state is otherwise.
- Average.Ring.constructor: n is at least one and all indices start at zero. The source's limit allows zero samples, and its allocation sets neither `tail[1]` nor `head[2]`.
- Average.Ring.Visit: which samples are read, not the floating-point value made of them.
- IoQueue.Queue.Add: the descriptor is not a member yet, and memory does not run out.
- IoQueue.ListInsert: the same; the source puts a second member with the same descriptor before the first.
- IoQueue.Queue.Wait: select is an arbitrary ready set and callbacks are arbitrary results; callbacks do not touch the queue, and user data is not modelled. The source reads `next` of a member it has just freed; here members stay readable.
- KeyParser.ShippedOrderLosesAName: speaks of two neighbours of the shipped table; its other contents are not modelled.
- Strings.CaseCmp: strcasecmp in the C locale, reduced to its sign.
- Loader.ReadHeader: on a header line of exactly FilterName the source steps past the end of the line and takes what lies in memory there for the name; the model takes an empty one.
- Loader.Load: a file is the sequence of its lines without leading blanks, empty lines and comment lines, and end of file is seen with the last line. Creating a filter is a parameter, and the list of filters is a sequence; `Lines.FiltersMerge` has the pointers.
- Profile.LoadProfile: what a rule says of a device and how a file is loaded are parameters; the filter lists are sequences.
- ParamBuffer.LoadParams: ends where the text ends. The defaults, missing mandatory parameters and conversions to numbers, keys and files that follow in `evf_load_params` are not modelled.
- Lines.Line.constructor: the list-building part of creating a line; finding the device, its profile and its descriptor are not modelled.
- Time stamps of events.
- The filters abs2rel, btn2rel, kalman, scale_abs, mirror, rotate, no_repeat and dump: stateless one-branch maps, or floating point, or without a clean specification.
- Devices, uinput, hotplug, inotify, the evfd daemon, status printers, error messages, release of memory and failed allocation.
