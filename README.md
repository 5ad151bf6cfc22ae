# ProducerConsumerQueue in Dafny

This project models ProducerConsumerQueue, a console program. It reads `(Type, Payload)` rows from a CSV file and feeds them, at a limited rate, into a generic two-lane producer/consumer queue. Each lane has its own worker thread. A worker runs a processing function on each item and completes the item's task with the result, or faults it with the exception thrown. The program's processing function appends a "file" item's message to an output file and writes a "console" item's message to the console.

The model has these modules:

- `DotNet` (`dotnet.dfy`): the .NET pieces the code relies on. These are an `Option` for null, a `Result` for "returned normally or threw", exceptions named by type, and `Environment.NewLine`.
- `Strings` (`strings.dfy`): `String.Split(char)` with its inverse `Join`, and ASCII `ToLower`. `ToLower` is a plain definition with no contract of its own; what the program relies on it for is stated by `Program.LaneOfIgnoresCase` and `Program.Confirm`.
- `QueueingItem` (`queue_item.dfy`): `ProcessorQueueItem` and the write-once `TaskCompletionSource`. The source's `CompletionSource` is modelled as a class, `CompletionSource`, whose `state` is the task's observable state.
- `Queueing` (`processor_queue.dfy`): the `ProcessorQueue` class. It has two FIFO lanes of tickets and a fixed processing function. Each worker thread's loop becomes a step method, one iteration per call. The class invariant `Valid` records four facts:
  - every ticket sits in exactly one lane;
  - every ticket owns its own completion cell;
  - waiting tickets are pending;
  - every ticket a worker has taken is settled with exactly what the function made of its item.
- `Model` (`model.dfy`): the item, response and CSV row types.
- `Program` (`program.dfy`): CSV parsing, the confirmation prompt, the routing and pacing loop of `ProcessData`, and the processing function. The pacing trace `Pacing` is a definition; its meaning row by row is stated by `PacingAt`, and `MaxLimitToProcessObject` (the setting, or 10) is a helper whose default is stated by `ProcessInput`. `SentRows` (all rows once the user confirmed, none otherwise) is likewise a definition that `ProcessInput`'s contract is phrased in. File and console output become an `Output` value. The configuration setting, the user's answers and the clock readings become parameters.

## Model

| member | source | states |
|---|---|---|
| Strings.Split | ProducerConsumerQueue/Program.cs:213 | Splitting on ',' yields at least one field, no field contains ',', and joining the fields with ',' gives back the line |
| Strings.SplitJoin | ProducerConsumerQueue/Program.cs:213 | Split undoes Join for comma-free fields, so Split and Join are inverse to each other |
| Strings.SplitHasSecondField | ProducerConsumerQueue/Program.cs:213-217 | A line has a second field (`q[1]` exists) exactly when it contains the separator |
| QueueingItem.CompletionSource.SetResult | ProducerConsumerQueue/Queueing/ProcessorQueue.cs:46-47 | Completing a pending task resolves it with the result; the change is an allowed transition |
| QueueingItem.CompletionSource.SetException | ProducerConsumerQueue/Queueing/ProcessorQueue.cs:50-53 | Faulting a pending task fails it with the exception; the change is an allowed transition |
| QueueingItem.TransitionsCompose | ProducerConsumerQueue/Queueing/ProcessorQueue.cs:43-53 | A task's state changes at most once, from pending to terminal; a settled task never changes again |
| QueueingItem.ProcessorQueueItem.constructor | ProducerConsumerQueue/Queueing/ProcessorQueueItem.cs:16-20 | A new ticket holds the item and a fresh completion cell whose task is pending |
| Queueing.ProcessorQueue.constructor | ProducerConsumerQueue/Queueing/ProcessorQueue.cs:16-21 | Stores the processing function; both lanes start empty and the invariant holds |
| Queueing.ProcessorQueue.QueueFileItem | ProducerConsumerQueue/Queueing/ProcessorQueue.cs:23-28 | Appends a fresh ticket for the item at the tail of the file lane and returns its fresh pending task; the items submitted to the file lane grow by exactly this item; the console lane and all taken tickets are unchanged; the invariant is kept |
| Queueing.ProcessorQueue.QueueConsoleItem | ProducerConsumerQueue/Queueing/ProcessorQueue.cs:29-34 | The same for the console lane |
| Queueing.ProcessorQueue.ProcessFileQueueStep | ProducerConsumerQueue/Queueing/ProcessorQueue.cs:57-79 | One worker iteration takes the head of the file lane (FIFO), which was pending, and settles its task with the function's result or exception; every other ticket's task and the console lane are unchanged; the invariant is kept, so the loop can go on after a failure |
| Queueing.ProcessorQueue.ProcessConsoleQueueStep | ProducerConsumerQueue/Queueing/ProcessorQueue.cs:35-56 | The same for the console lane |
| Queueing.ProcessorQueue.ProcessItem | ProducerConsumerQueue/Queueing/ProcessorQueue.cs:40-53 | The task ends resolved with the function's result when it returns, and failed with the exception when it throws |
| Queueing.FailedItemDoesNotStopLane | ProducerConsumerQueue/Queueing/ProcessorQueue.cs:60-76 | After an item whose processing throws, the next file item is still processed: the first task is faulted with that exception, the second resolved with its result, and a console item stays pending because only its own worker settles it |
| Program.ParseLine | ProducerConsumerQueue/Program.cs:212-218 | A line parses exactly when it contains a comma; otherwise reading `q[1]` throws IndexOutOfRangeException |
| Program.ParseLineFields | ProducerConsumerQueue/Program.cs:213-217 | Type is the text before the first comma and Payload the text up to the next comma or the end; neither contains a comma, nothing is trimmed, and later fields are dropped |
| Program.ParseLineOfFields | ProducerConsumerQueue/Program.cs:213-217 | Conversely, Type, a comma, Payload and nothing or a comma plus anything parse back to exactly that Type and Payload |
| Program.ParseLines | ProducerConsumerQueue/Program.cs:212-218 | The query yields a list exactly when every line has a comma: one row per line, in order, each the parse of its line; otherwise it throws IndexOutOfRangeException |
| Program.GetCsvData | ProducerConsumerQueue/Program.cs:201-232 | A missing file gives no rows; a line without a comma makes the whole read fail and leaves no rows; otherwise one parsed row per line, in order |
| Program.GetCsvDataRoundTrip | ProducerConsumerQueue/Program.cs:211-218 | Rows with comma-free fields written as `Type,Payload` lines are read back unchanged |
| Program.LaneOfIgnoresCase | ProducerConsumerQueue/Program.cs:109-119 | A row goes to the file lane exactly when its Type is "file" in any ASCII case, and to the console lane exactly when it is "console" in any case |
| Program.Share | ProducerConsumerQueue/Program.cs:109-119 | A counted row contributes one item to a lane exactly when its Type names that lane, and none otherwise |
| Program.Routed | ProducerConsumerQueue/Program.cs:91-122 | The items sent to the file lane are all FileQueueModel and those sent to the console lane all ConsoleQueueModel; there are at most as many as rows |
| Program.RoutedAppend | ProducerConsumerQueue/Program.cs:91-122 | Routing keeps CSV order: the items for two consecutive blocks of rows are those of the first block followed by those of the second |
| Program.PauseLength | ProducerConsumerQueue/Program.cs:98-102 | The wait is never negative and at most 1000 ms; elapsed time plus wait covers the second; there is no wait exactly when a second or more has passed |
| Program.PacingAt | ProducerConsumerQueue/Program.cs:91-105 | Row i is skipped exactly when its Type is empty; otherwise it is sent after a pause exactly when a pause is due after the counted rows before it, waiting the rest of the second |
| Program.RecordCounterStep | ProducerConsumerQueue/Program.cs:89-120 | The counter test `recordProcessed > max` is true exactly when a pause is due, and reset-then-increment gives the counter for the next counted row |
| Program.PausesAreMaxLimitApart | ProducerConsumerQueue/Program.cs:96-105 | With a positive limit, from the start or from a pause, the next pause comes exactly `max` counted rows later and none in between, so every window holds `max` rows |
| Program.ProcessRow | ProducerConsumerQueue/Program.cs:96-120 | For one counted row: it pauses with PauseLength exactly when a pause is due, the counter moves on to the next row's value, the row's item goes to its lane, the waiting tickets of both lanes stay in place at the front of their lanes, and the other lane and all taken tickets are unchanged |
| Program.ProcessData | ProducerConsumerQueue/Program.cs:82-128 | The file lane receives exactly the routed file items and the console lane the routed console items, appended in CSV order behind the tickets already waiting, which stay in place; no ticket is taken; the pacing is the Pacing trace; the queue invariant is kept |
| Program.Confirm | ProducerConsumerQueue/Program.cs:42-66 | Processing goes ahead exactly when some answer, in any case, is "y"; any other answer repeats the prompt, and running out of input gives up |
| Program.ProcessInput | ProducerConsumerQueue/Program.cs:35-76 | The lanes receive the routed items of the rows sent, which are all rows once confirmed and none otherwise, behind the tickets already waiting; no ticket is taken; the pacing uses the configured limit, or 10 when none is set; the queue invariant is kept |
| Program.ProcessFile | ProducerConsumerQueue/Program.cs:165-180 | Always returns a file response. The output file gains one chunk, the message plus NewLine, exactly when the message is non-empty and the append succeeds; an append failure writes the exception's text to the console and nothing else goes to the console; output is only ever appended to |
| Program.ProcessConsole | ProducerConsumerQueue/Program.cs:187-199 | Always returns a console response. Exactly one console line is written: the message, or the NullReferenceException text for a null item. The file is untouched |
| Program.ProcessQueueItem | ProducerConsumerQueue/Program.cs:144-158 | The response is a file response exactly for a FileQueueModel. A file item gets ProcessFile's effect: the message plus NewLine is appended exactly when the message is non-empty and the append succeeds. A console item prints its message as one console line and leaves the file alone. Any other item, null included, prints the NullReferenceException text. Output is only ever appended to |
| Program.ProcessorIsProcessQueueItem | ProducerConsumerQueue/Program.cs:134-137 | The queue's function returns ProcessQueueItem's response and never throws, whatever the output state and append failures |
| Program.ProgramTasksResolve | ProducerConsumerQueue/Program.cs:144-199 | In the program's queue every taken task is resolved, never faulted, with the response of its item's kind |
| Program.HandleAllAppendsChunks | ProducerConsumerQueue/Program.cs:165-180 | Handling items in order, each with its own append outcome, appends to the output file exactly the message plus newline of each file item with a non-empty message whose append did not fail, in item order |
| Program.HandleAllWritesConsoleLines | ProducerConsumerQueue/Program.cs:144-199 | Handling items in order writes exactly their console lines, in item order: a console item's message, the NullReferenceException text for any other non-file item, and the exception text of each failed file append |
| Program.ConsoleLanePrintsMessages | ProducerConsumerQueue/Program.cs:187-199 | The console lane's worker prints one line per routed console row, that row's payload, in CSV order, after what the console already held |
| Program.ConsoleLaneLeavesFile | ProducerConsumerQueue/Program.cs:187-199 | The console lane's items never write to the output file |

## Left out

- Threads and blocking: the two long-running worker tasks and the blocking `TryTake(-1)` are modelled as step methods. Each step needs a non-empty lane. Interleaving with the producer is left to the caller of the step methods.
- `BlockingCollection` internals: `TryAdd` on an unbounded, never-completed collection always succeeds, so it is modelled as an append.
- `Task` awaiting: `ConfigureAwait(false)` on an unawaited task has no effect.
- `ProcessorQueueItem`: its settable `Item` and `CompletionSource` are set only by the constructor, so they are modelled as constants.
- Queueing.ProcessorQueue.QueueFileItem: returns the completion cell rather than a separate `Task` object. The task's observable state is the cell's state.
- Program.ProcessData: the setting is an already-parsed `int`. A non-numeric setting makes `Convert.ToInt32` throw, and the outer `catch` then processes nothing. That path is not modelled.
- Program.ProcessData: `Task.Delay(...).Wait()` and `DateTime.UtcNow` are not modelled as waiting. The clock reading at each row, relative to the current window's start, is the parameter `elapsedAt`. The wait is reported in the returned trace.
- Program.ProcessData: does not model 32-bit wrap-around of `recordProcessed` or of the `(int)` cast of the elapsed milliseconds. With a limit of at least 1 the counter stays at most the limit plus one; with a limit of 0 or less it stays at most 2. With the limit at `int.MaxValue` the test `recordProcessed > max` never holds, so after `int.MaxValue` counted rows the C# counter would wrap to a negative value, while the model's counter keeps counting. Windows last about a second, so the elapsed milliseconds fit.
- Program.GetCsvData: receives the file's lines, or None when the file does not exist. `File.ReadAllLines` line splitting, the configured path and the informational console lines are not modelled.
- Program.ProcessFile: the file path and the real text of exceptions are not modelled. Exceptions are named by their .NET type, and only whether the append fails matters.
- Strings.ToLower: ASCII letters only. Culture-sensitive case mapping of other characters is not modelled.
- Null strings: a null `Message` or `Type` is not modelled. CSV fields are never null, and a null Type is skipped like an empty one.
- `SetTimerToCloseApp` and `TimerTick`: the shutdown timer, `Environment.Exit` and the final `Console.ReadLine` in `Main` are process control outside the queue's behaviour.
- Program.ProcessInput: the prompt text written to the console is not modelled. `Console.ReadLine` returning null at end of input is modelled as the answers running out.
- Program.Processor: the queue's function is modelled by the response it returns, which is all the queue stores. What the handlers write is modelled per lane by `HandleAll`, with lemmas for the file (`HandleAllAppendsChunks`) and the console (`HandleAllWritesConsoleLines`, `ConsoleLanePrintsMessages`). The interleaving of the two workers' console lines is not modelled.
