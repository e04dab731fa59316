# Trade data query: a verified model

The repository answers queries over a file of trades. A client sends a time range, a
resolution and a set of metrics. A server cuts the range into windows, finds each window's
trades by binary search, reports minimum, maximum, volume-weighted mean and total quantity
as five-byte decimals, and sends the bytes back behind a four-byte count. This project
models that path from the stored records to the sets the client prints, and proves what
each part does and what the parts do together.

Run `dafny verify dfyconfig.toml` (Dafny 4.11).

## How the project is laid out

| file | content |
|---|---|
| `Types.dfy` | the C++ structs with their integer widths |
| `Powers.dfy` | powers of ten, the value of a decimal |
| `Normaliser.dfy`, `NormaliserLaws.dfy` | the two scaling loops, and the laws of their result |
| `Ranges.dfy` | the clamped index range of a window against the linear filter |
| `Summaries.dfy`, `MeanBounds.dfy` | the four figures of a window as the scans compute them; the mean between minimum and maximum |
| `Figures.dfy` | the same figures said of the trades in whole numbers and powers of ten, and that they agree |
| `Splitting.dfy`, `Partition.dfy` | the windows of a query; all windows against the whole range |
| `Stepping.dfy` | the window loops in 64-bit arithmetic: which queries they handle, and which they end on |
| `Codec.dfy`, `Answers.dfy` | records and answers as bytes |
| `Reports.dfy` | what the records of an answer tell of each window, and of all windows together |
| `Searching.dfy` | the two binary searches with any record count: when they read past the end of the file, and what they find otherwise |
| `QueryEngine.dfy` | the engine class: searches, scans, aggregator |
| `Client.dfy`, `Decoding.dfy` | the client's frame reader and set decoder, when it inverts the encoder, and what it prints otherwise |
| `TsQueue.dfy`, `Server.dfy`, `Worker.dfy` | the server's queue, event-loop handlers and worker loop |
| `Pipeline.dfy`, `Conservation.dfy`, `Connections.dfy`, `Safety.dfy`, `Theorems.dfy`, `Progress.dfy` | the whole system as a step machine, its invariant and its theorems |
| `Uniform.dfy`, `Scenes.dfy`, `Hazards.dfy` | runs with one answer for all, runs that go wrong outside the discipline, and the exact condition for each promise |
| `MtQueue.dfy` | the semaphore-and-lock queue |
| `EndToEnd.dfy` | store to decoded sets, through any run |

The methods of the classes follow the source's loops. Each is proved equal to a function of
its inputs or of the old state, and the lemmas are about those functions. The three metric
functions of the engine repeat the same two searches; the model writes them once
(`FindRange`, `Search`), and each scan as a method of its own.

## Premises

- Doubles are exact reals, `pow(10, e)` is the power of ten, `std::round` is floor(v + 0.5)
  on non-negative values. `Scale` is multiplication by a power of ten
  (`Powers.ScaleIsProduct`).
- The store is a non-empty sequence of records in time order, and the record count is not too
  low. The constructor divides the file length by 31 while a record takes 32 bytes
  (`#pragma pack(2)` pads 31 bytes of fields), so its count is right up to 30 records and too
  high past that. With a count that is too high a search can read past the end of the file,
  which throws; `Searching.ThrowsExactly` says for which ranges, and that all others are
  scanned as with the right count. An exception is a missing result in the contracts of the
  engine and the worker; nothing in the server catches it.
- A query sent to the system is one with which a worker comes to a result: its loop comes to an
  end, no search throws, and the answer is below 2^31 bytes, the range of the int32 count.
  `Worker.WorkerOutcomeExactly` says what happens to the others; `Stepping.ReturnsExactly`
  says in closed form on which queries the loop ends. It is a wider class than the queries
  that fit into 64 bits (`Splitting.Fits`): a worker calls the aggregator for one interval at
  a time, an interval that wraps is empty, and so the assertion of the metric functions never
  fires there; `Stepping.OwnWindowsExactly` says which of these queries are answered by their
  own windows.
- A query arrives whole and the four-byte count is accepted whole or not at all. A payload
  send takes any prefix or fails; every send that fails with an error code closes the connection,
  as the code does even for EAGAIN (the handling of EAGAIN after the two error returns of `send_result` is
  unreachable).
- How clients and the operating system behave is a parameter of the system machine
  (`Pipeline.Discipline`): how many questions a client leaves unanswered, which queries it
  sends, and whether a connection number is given out again while something of its previous
  connection is still in flight. The theorems of `Safety`, `Theorems`, `Progress` and
  `EndToEnd` are about clients that wait for each answer and numbers that are reused freely,
  but not that early; `Hazards` proves what the rest do.
- `pop` on an empty queue waits, so it is a step that is only possible on a non-empty one.

## What is false of the code

Where a promise fails, the model keeps the code and proves exactly when it holds.

- A window that does not meet the store still scans one trade, the last or the first
  (`Ranges.ScannedIsMatchingIff`, `Partition.WindowsPartitionTheRange`).
- A mean can leave the interval of minimum and maximum when prices have digits below 10^-18
  (`MeanBounds.MeanBetweenExactly`, `MeanBounds.MeanBelowMinimum`).
- A total above (2^32-1)*10^127 wraps its exponent (`NormaliserLaws.ReportedIsRightUpToBound`);
  two trades can reach it (`EndToEnd.TotalWraps`).
- Past 30 records the searches for some ranges read past the end of the file, which throws
  (`Searching.ThrowsExactly`): every range that ends after the last trade
  (`Searching.LastRangeThrowsExactly`), and ranges that end among the last trades too. In a
  file of 1000 records those that start at or before the first trade and end after at least
  969 trades throw (`Searching.ThousandRecords`). The linear filter throws on every such file
  (`Engine.QueryEngine.SendRawData`).
- A query whose stepping wraps fails the assertion if the aggregator is called on it whole and
  some metric is chosen (`Stepping.AssertsHoldExactly`), and through a worker is answered by other windows than its
  own (`Stepping.OwnWindowsExactly`, `Stepping.AnsweredByForeignWindow`) or never
  (`Stepping.ReturnsExactly`).
- The client assumes 20 bytes per window, so several windows decode correctly only with all
  three metrics (`Decoding.DecodingInvertsEncodingExactly`). With fewer it prints every second
  or every fourth window, or goes out of step (`Decoding.PrintsEveryNth`,
  `Decoding.PrintsFifteenBytes`).
- A connection closed in the middle of an answer gives the client an answer padded with
  zeros and no error (`Theorems.ReadingAfterClose`). That is harmless only if all answers are
  zeros (`Hazards.ClosedReadsRightExactly`), which the engine's are not
  (`EndToEnd.CutOffClientMisreads`).
- If clients do not wait, or a number is reused too early, a kept payload can be overwritten and
  bytes lost for good (`Hazards.NeverOverwritesExactly`, `Hazards.WireCompleteExactly`), and a
  connection can carry a count in the middle of another payload or another client's answer
  (`Hazards.PrefixAlwaysExactly`, `Hazards.WrongClient`). With the engine's answers there is
  no exception to any of these (`EndToEnd.EngineDisciplineExactly`), but for a record count
  that makes every search throw.

## Model

| member | source | states |
|---|---|---|
| Powers.ScaleIsProduct | src/query_engine/query_engine.cc:231-244 | scaling by ten e times is multiplication by 10^e, for positive and negative e |
| Powers.PowerLaws | src/query_engine/query_engine.cc:168 | 10^0 is 1, 10^(e+1) is ten times 10^e, and 10^(d+e) is the product, for all integers |
| Powers.ValueIsProduct | src/query_engine/query_engine.cc:168 | a stored decimal is worth mantissa * 10^exponent |
| Powers.ValueOrder | src/query_engine/query_engine.cc:168-176 | comparing the values of two decimals is comparing mantissa * 10^(exponent+128) in integers |
| Normaliser.Normalise | src/query_engine/query_engine.cc:231-247 | the scale-up and scale-down loops end, and return the one-loop canonical form with the exponent cut to eight bits |
| Normaliser.CanonicalIsLeast | src/query_engine/query_engine.cc:305-321 | for x > 0 the exponent is the least e >= -18 with x <= (2^32-1)*10^e and the mantissa is x rounded at e |
| Figures.ReportedExactly | src/query_engine/query_engine.cc:231-247 | for every x from 0 up the result is the one decimal that is x rounded half up at the least fitting exponent from -18 up, the exponent modulo 256, and 0e0 for 0 |
| NormaliserLaws.CanonicalCharacterised | src/query_engine/query_engine.cc:305-321 | least exponent and rounded mantissa determine the result, in both directions |
| NormaliserLaws.NormaliseMonotone | src/query_engine/query_engine.cc:231-247 | a larger value never normalises to a smaller one, within or across exponents |
| NormaliserLaws.NormaliseExact | src/query_engine/query_engine.cc:231-247 | every 32-bit mantissa with exponent from -18 up keeps its exact value |
| NormaliserLaws.NormaliseIdempotent | src/query_engine/query_engine.cc:231-247 | renormalising changes nothing, exactly unless a positive value rounded away to zero |
| NormaliserLaws.RoundingError | src/query_engine/query_engine.cc:246 | rounding moves the value by at most 0.5*10^e |
| NormaliserLaws.RelativeError | src/query_engine/query_engine.cc:234-247 | above exponent -18 the relative error is below 1/858993459 |
| NormaliserLaws.ReportedIsRightUpToBound | src/query_engine/query_engine.cc:241-247 | the int8 exponent gives back the canonical value exactly up to (2^32-1)*10^127, and past it a smaller one |
| Ranges.ScannedExactly | src/query_engine/query_engine.cc:136-166 | the scanned range is the window's trades when the window meets the store, else exactly the last trade or exactly the first |
| Ranges.ScannedIsMatchingIff | src/query_engine/query_engine.cc:136-160 | the index range equals the linear filter if and only if the window meets the store |
| Ranges.MatchingIsSlice | src/query_engine/query_engine.cc:333-342 | on a sorted store the linear filter is the slice between the two bounds |
| Summaries.MinPriceCharacterised | src/query_engine/query_engine.cc:162-180 | the minimum is the price of the earliest trade that no trade undercuts, compared in integers; 0e0 on an empty scan |
| Summaries.MaxPriceCharacterised | src/query_engine/query_engine.cc:162-180 | the maximum is the price of the earliest trade that no trade exceeds, compared in integers; 0e0 on an empty scan |
| Figures.FiguresExactly | src/query_engine/query_engine.cc:129-322 | the four figures of any trades are these and no others: earliest cheapest and earliest dearest price, and the rounded exact mean and total, the sums being integer sums of mantissa and exponent products |
| Figures.NothingReported | src/query_engine/query_engine.cc:222-247 | the mean is reported as 0e0 if and only if every trade has zero price or zero quantity, the total if and only if all quantities are zero |
| Summaries.MeanBetween | src/query_engine/query_engine.cc:289-303 | the exact weighted mean lies between the minimum and the maximum |
| MeanBounds.ReportedMeanBetween | src/query_engine/query_engine.cc:302-321 | the normalised and rounded mean still does, when the minimum does not round down nor the maximum up at 10^-18 |
| MeanBounds.MeanBetweenForOrdinaryPrices | src/query_engine/query_engine.cc:289-321 | in particular when all price exponents are at least -18 |
| MeanBounds.MeanBetweenExactly | src/query_engine/query_engine.cc:289-321 | for a given minimum and maximum that condition on their digits is necessary and sufficient over all trades and weights |
| MeanBounds.MeanBelowMinimum | src/query_engine/query_engine.cc:309-320 | two prices for which the guarantee fails |
| Splitting.IntCeilIsLeast | src/query_engine/query_engine.cc:64-66 | the result is the least r with x <= r*y |
| Splitting.WindowShape | src/query_engine/query_engine.cc:76-80 | the windows are non-empty, at most a resolution long, adjacent, start at the start, end at the end, and number int_ceil |
| Splitting.SplitsOnlyAtMultiples | src/query_engine/query_engine.cc:76-80 | cutting a range in two cuts its windows in two exactly at multiples of the resolution |
| Splitting.FitsInClosedForm | src/query_engine/query_engine.cc:76-80 | a query fits if and only if its range is empty, or its resolution is positive and start + int_ceil*resolution stays below 2^64 |
| Stepping.IterationIsWindow | src/query_engine/query_engine.cc:76-80 | in 64-bit arithmetic, on a query that fits, iteration k runs exactly for the windows there are, and hands over window k |
| Stepping.AssertsHoldExactly | src/query_engine/query_engine.cc:76-133 | called on a whole query, the aggregator never fails the assertion end > start exactly if the query fits or no metric is chosen |
| Stepping.OwnWindowsExactly | src/server/server.cc:38-56 | a worker comes to an end and answers a query by that query's own windows if and only if the query fits |
| Stepping.AnsweredByForeignWindow | src/server/server.cc:38-56 | a query that does not fit and is answered by a window that begins before it |
| Stepping.ReturnsExactly | src/server/server.cc:38 | the worker's loop ends if and only if the query's end is at most 2^64 - g + start mod g, for g the lowest set bit of the resolution (2^64 for resolution 0) |
| Partition.WindowsPartitionTheRange | src/query_engine/query_engine.cc:76-166 | the windows' scans joined are the filter of the whole range, nothing lost, duplicated or reordered, exactly when the store meets the first and last window |
| Codec.DecimalBytes | src/query_engine/query_engine.cc:87-94 | the five bytes are the mantissa by place value, low byte first, and the exponent modulo 256 |
| Codec.DecimalRoundTrip | src/query_engine/query_engine.cc:87-94 | a decimal and its five bytes determine each other |
| Codec.RecordLayout | src/query_engine/query_engine.cc:81-118 | minimum, maximum, mean and total sit at fixed places of a record, in this order, each five bytes long, as far as they are chosen |
| Codec.ChosenIsBit | src/query_engine/query_engine.cc:82 | metric i is chosen if and only if bit i of the chooser is set |
| Codec.EncodeAllAt | src/query_engine/query_engine.cc:81-118 | record j of an answer sits at j times 10*b0+5*b1+5*b2 |
| Answers.AnswerEncodes | src/query_engine/query_engine.cc:74-121 | the answer is the records of the windows' figures, in order |
| Reports.WindowFigures | src/query_engine/query_engine.cc:74-121 | record i tells the four figures of the trades scanned for window i and no others; for a window that meets the store these are the trades in the window |
| Reports.GapWindow | src/query_engine/query_engine.cc:162-180 | a window that meets the store and contains no trade is answered by four times 0e0 |
| Reports.MeanFieldBetween | src/query_engine/query_engine.cc:289-321 | the mean in a record lies between the minimum and the maximum in that record, for ordinary prices and positive quantity |
| Reports.TotalFieldsAddUp | src/query_engine/query_engine.cc:222-247 | the totals in the records add up to the exact total of the range within the sum of half a unit of each |
| Reports.ExtremeFields | src/query_engine/query_engine.cc:162-180 | the least minimum and greatest maximum in the records are the prices of the range's earliest cheapest and dearest trades |
| Answers.AnswerLength | src/query_engine/query_engine.cc:76-118 | the answer has int_ceil(end-start, resolution) records of fixed length |
| Answers.AnswerSplits | src/query_engine/query_engine.cc:74-121 | splitting a query at a multiple of its resolution splits its answer |
| Searching.RecordCountIsGreatest | src/query_engine/query_engine.cc:31 | the constructor's count is the greatest n with 31*n <= 32*records |
| Searching.ThrowsExactly | src/query_engine/query_engine.cc:135-160 | for every range and every count not below the number of records: when the searches read past the end of the file, as a condition on numbers only, and that otherwise they find the range to scan |
| Searching.LaterEndsThrow | src/query_engine/query_engine.cc:135-160 | when a range throws, so does every range from the same start that ends later |
| Searching.OvercountThrows | src/query_engine/query_engine.cc:135-160 | with a count that is too high, every range that ends after the last trade throws |
| Searching.LastRangeThrowsExactly | src/query_engine/query_engine.cc:24-60 | with the constructor's count, a range that ends after the last trade throws if and only if there is no record or more than 30 |
| Searching.ThousandRecords | src/query_engine/query_engine.cc:24-60 | with 1000 records, a range that starts at or before the first trade throws if and only if at least 969 trades are before its end |
| Engine.QueryEngine.constructor | src/query_engine/query_engine.cc:24-33 | the count from the file length is never too low, and right exactly up to 30 records |
| Engine.BitLengthIsLeast | src/query_engine/query_engine.cc:138-145 | the bit length in the bounds on reads is the least k with n < 2^k |
| Engine.QueryEngine.Search | src/query_engine/query_engine.cc:136-146 | the halving loop ends, with any record count, and reads at most bitlength(hi-lo) records |
| Engine.QueryEngine.FindRange | src/query_engine/query_engine.cc:136-160 | with a count C that is not too low the two searches throw exactly under the condition above and otherwise return the scan range, and read at most bitlength(C-1) + bitlength(C) records |
| Engine.QueryEngine.ScanPrices | src/query_engine/query_engine.cc:162-180 | the scan returns the minimum and maximum of the records in an index range, reading each once |
| Engine.QueryEngine.MinMaxPriceInRange | src/query_engine/query_engine.cc:129-181 | throws exactly when the searches do, and else returns the minimum and maximum of the scanned trades, reading each once after the searches |
| Engine.QueryEngine.SumRange | src/query_engine/query_engine.cc:222-229 | the summing scan returns the total quantity of the records in an index range, reading each once |
| Engine.QueryEngine.TotalQuantityInRange | src/query_engine/query_engine.cc:189-248 | throws exactly when the searches do, and else returns the normalised exact total of the scanned trades, with the same bound on reads |
| Engine.QueryEngine.WeighRange | src/query_engine/query_engine.cc:289-300 | the weighted scan returns the sums of price*quantity and of quantity over the range, reading each record once |
| Engine.QueryEngine.MeanPriceInRange | src/query_engine/query_engine.cc:256-322 | throws exactly when the searches do, and else returns the normalised weighted mean of the scanned trades, with the same bound on reads |
| Engine.QueryEngine.Aggregator | src/query_engine/query_engine.cc:74-121 | the window loop ends; it throws exactly if some metric is chosen and the searches for some window throw, and else returns the answer to the query |
| Engine.QueryEngine.SendRawData | src/query_engine/query_engine.cc:329-344 | with any count: throws exactly if it exceeds the number of records, and else returns the counted records in the query's range, in order |
| Client.ReadStruct | src/client/client.cc:86-100 | reads count elements; those missing at the end of the stream stay zero |
| Client.ReadFrameExactly | src/client/client.cc:86-100 | what any bytes read as: nothing without a count, an error when the count's top bit is set, else as many bytes as it says by place value, those missing being zero |
| Client.CountPlaces | src/server/server.cc:218-219 | a count is its size modulo 2^32, by place value, low byte first |
| Client.FrameRoundTrip | src/client/client.cc:86-100 | a frame reads back as its payload, whatever follows, exactly below 2^31 bytes |
| Client.TruncatedFrame | src/client/client.cc:93-97 | a frame cut by a close reads as its received part padded with zeros |
| Client.DecodeAnswer | src/client_main.cc:104-160 | the set loop decodes each set or runs past the end |
| Client.DecodedExactly | src/client_main.cc:104-160 | of any answer: one set for every 20 bytes begun, read from there, unless one of them runs past the end |
| Decoding.DecodingInvertsEncodingExactly | src/client_main.cc:104-160 | the client recovers what the server encoded if and only if all three metrics are chosen, there is no window, or there is one window and some metric |
| Decoding.PrintsEveryNth | src/client_main.cc:104-160 | with records of 20, 10 or 5 bytes it prints every window, every second or every fourth one, and nothing else |
| Decoding.PrintsFifteenBytes | src/client_main.cc:104-160 | with records of 15 bytes it runs past the end exactly for 2 or 3 windows above a multiple of four, and else every third set is every fourth window |
| TsQueues.TsQueue.Push | src/server/TS-queue.h:20-32 | appends at the back |
| TsQueues.TsQueue.Pop | src/server/TS-queue.h:35-51 | takes the front of a non-empty queue |
| TsQueues.TsQueue.TryPop | src/server/TS-queue.h:54-62 | takes the front, or nothing from an empty queue |
| Server.EpollServer.HandleRead | src/server/server.cc:167-195 | every received query is queued in order; a close or an error drops the connection and its kept payload |
| Server.EpollServer.SendResult | src/server/server.cc:212-255 | count, then a prefix of the payload; the rest is kept and EPOLLOUT watched; an error closes |
| Server.SendPutsFrameStart | src/server/server.cc:212-255 | whatever the outcome, what goes out is the start of the result's frame: 0, 4 or 4 plus the accepted bytes of it |
| Server.EpollServer.HandleWrite | src/server/server.cc:258-289 | resumes at the first unsent byte; when done the entry and the watch go; an error closes |
| Server.EpollServer.ProcessResults | src/server/server.cc:199-209 | every waiting result is sent in queue order |
| Worker.MetricListBits | src/server/server.cc:23-32 | query bits 0, 26 and 33 become chooser bits 0, 1 and 2, and nothing else does |
| Worker.WorkerOutcomeExactly | src/server/server.cc:38-56 | with any query and any record count: a worker whose loop stops throws exactly if some metric is chosen and some window of it cannot be searched, and else comes to the records of its windows; one whose loop does not stop can only end by throwing |
| Worker.AnswerQuery | src/server/server.cc:38-56 | on every query it does not work on for ever, the loop comes to that outcome, calling the aggregator per interval, wrapped intervals included |
| Worker.WorkerMatchesAggregator | src/server/server.cc:38-56 | on a query that fits, that is exactly the aggregator's answer to the whole query |
| Worker.ServeOne | src/server/server.cc:18-63 | one turn moves the head of the work queue to the results queue, with its descriptor and its answer, unless answering it throws |
| Conservation.EveryQueryInOnePlace | src/server/server.cc:15-63 | over every run, work queue, workers and finished queries together are exactly the accepted ones; they are taken in the order accepted, and the results handed over and waiting are those of the finished queries in order, each with its descriptor and own answer |
| Safety.StepInv | src/server/server.cc:94-135 | every step of clients, event loop and workers keeps every connection in order, connections on a number used before included |
| Safety.SendOk | src/server/server.cc:212-255 | send_result on an item keeps its connection in order, and finds no kept payload there |
| Safety.WriteOk | src/server/server.cc:258-289 | handle_write always finds an entry, and keeps the connection in order |
| Theorems.WireIsPrefixOfFrames | src/server/server.cc:212-289 | the bytes on a connection, closed or not, on a fresh or a reused number, are a prefix of the frames of that client's answers in the order asked |
| Theorems.ClientStepReadsFrame | src/client/client.cc:86-100 | the step in which a client of the system machine reads is read_struct on what has arrived |
| Theorems.ClientsReadTheirAnswers | src/client_main.cc:88-97 | what a client has read is one for one the answers to its queries |
| Theorems.SendNeverOverwrites | src/server/server.cc:245-247 | the head of the results queue has no kept payload in its way and is the next answer owed |
| Theorems.PendingExactlyWhenWatched | src/server/server.h:95-100 | an entry exists exactly when EPOLLOUT is watched on an open connection; part of it is unsent and the wire ends with its sent part |
| Theorems.UnreadIsOneFrame | src/client/client.cc:86-100 | unread bytes are a prefix of the one frame the client waits for |
| Theorems.ReadingAfterClose | src/client/client.cc:93-97 | after a close in mid-answer the client gets the part padded with zeros, the answer only if the missing part is zero |
| Theorems.ResultsLoopIsRun | src/server/server.cc:199-209 | draining the results queue is a run of that many send steps in queue order |
| Progress.EveryScheduleAnswers | src/server/server.cc:94-135 | from every reachable state, in whatever order steps are taken and whatever fails: the steps that do something are bounded in number, and where no useful one is left every client still connected has read exactly its answers |
| Progress.AnswerStillPossible | src/server/server.cc:94-135 | from every reachable state, steps of the workers, the event loop and the clients' own reading suffice to give a connected client exactly its answers |
| Hazards.NeverOverwritesExactly | src/server/server.cc:245-247 | over all runs with any positive number of workers, send_result never overwrites a kept payload if and only if clients wait and numbers are not reused too early, or all answers are empty |
| Hazards.WireCompleteExactly | src/server/server.cc:212-289 | connections with nothing left to do have carried all their answers whole if and only if nobody asks, or numbers are not reused too early and clients wait or all answers are empty |
| Hazards.PrefixAlwaysExactly | src/server/server.cc:212-289 | over all runs with any positive number of workers, every connection carries a prefix of its own client's frames if and only if nobody asks, or numbers are not reused too early and clients wait, or there is but one answer and its frame is one byte repeated |
| Hazards.WrongClient | src/server/server.cc:174-193 | a run in which the second client of a number reads the answer to the first one's question |
| Hazards.ClosedReadsRightExactly | src/client/client.cc:93-97 | among clients that wait, reading after a close always gives the answer if and only if all answers are zeros |
| MtQueues.MtQueue.Pop | src/utils/mt_queue.h:15-23 | takes the front and one permit |
| MtQueues.MtQueue.Push | src/utils/mt_queue.h:25-31 | appends and adds one permit |
| MtQueues.StepKeepsInv | src/utils/mt_queue.h:15-39 | every step of every thread keeps permits + poppers under way + pushers under way equal to the queue length |
| MtQueues.EveryRunIsSafe | src/utils/mt_queue.h:15-31 | over every run no front is taken from an empty queue, one thread holds the lock, and a release never lifts the permits above the queue length |
| MtQueues.EveryValueArrives | src/utils/mt_queue.h:15-39 | over every run, what pop calls returned, the value just taken and the queue are exactly what was put in, in the order of the lock; what a thread put in and has under way is what its push calls were given; empty reads the truth |
| MtQueues.EveryCallFinishes | src/utils/mt_queue.h:15-39 | from every reachable state, in any order of the threads: while a call is under way some call can go on, and the steps to come are as many as the calls have left, so all calls finish |
| EndToEnd.ClientsDecodeTheirWindows | src/client_main.cc:88-160 | over every run, each answer a client reads decodes to one set for each window worked off for its own query, telling the figures of that window's trades that bits 0, 26 and 33 ask for, if and only if all three bits are set, or there is no window, or one and some bit; the windows are the query's own exactly if it fits |
| EndToEnd.EveryWindowMeanBetween | src/query_engine/query_engine.cc:74-121 | in every set that tells prices and mean of a window with positive quantity, the mean lies between the minimum and the maximum |
| EndToEnd.AnswerIsOutcome | src/server/server.cc:38-63 | what the system machine takes as the answer to a query that clients may ask is what a worker comes to |
| EndToEnd.EngineDisciplineExactly | src/server/server.cc:212-289 | with the engine's answers, on every store: no overwriting, no lost byte, and no byte out of its client's order, each if and only if clients wait and numbers are not reused too early; unless the record count makes every search throw, where overwriting never happens and the other two need only that numbers are not reused too early |
| EndToEnd.Searchable | src/query_engine/query_engine.cc:24-33 | that exception does not arise with the right count, nor with the constructor's count when the first trade is not at time 0 |
| EndToEnd.CutOffClientMisreads | src/client/client.cc:93-97 | with one trade of any price but 0e0, some client cut off by a close reads a wrong answer |
| EndToEnd.TotalWraps | src/query_engine/query_engine.cc:241-247 | two trades whose total of 858993459e128 is reported as 858993459e-128 |

## Left out

- Double rounding in the sums, the division and the scaling: the model is over exact reals.
- Sockets, epoll calls, listening, non-blocking set-up, logging and start-up: only their effect on the server's tables and on the bytes of a connection.
- The edge-triggered wake-up and the order in which `run` visits events: any order of handler calls is allowed; that the loop does get to a step that is possible is not shown.
- The start of a connection with a partly received query or a split count: both arrive whole here.
- Reading an answer byte by byte while it arrives: the system machine's client reads a frame when all of it is there; the element loop is `Client.ReadStruct`.
- A worker caught in an endless loop: `Stepping.ReturnsExactly` says on which queries that happens, and the system machine's clients do not send them.
- AnswerQuery: requires a query that it does not work on for ever, because a method here has to end; ServeOne requires the same of the query it takes.
- What a client whose connection was closed still reads once its number has been given out again: the machine follows the newest connection of a number.
- What is left of the process after an exception or a signal: nothing catches the exception of a failed record read, and no source ignores SIGPIPE or passes MSG_NOSIGNAL, so a send to a connection that its peer has reset can end the process where the model only closes the connection.
- Wake-ups of the condition variable in `TSQueue`, and spurious ones.
- Formatting of the printed sets, and the "not implemented" line for metrics above the third, which the client never selects.
- Filtering by symbol, which the engine does not do, and `lowest_and_highest_prices`, which has no definition in the TCP sources.
- The UDP client and server, the CSV preprocessing, the sender and receiver wrappers, the test drivers and the notebook.
