# multiGet: chunked range download, modelled in Dafny

multiGet downloads one remote resource in fixed-size byte ranges and writes
them to a file in index order. It has two modes:

- serial: one request at a time, stopping at the first failing chunk;
- parallel: every request is added to a multi handle, and the program polls until all of them end.

This project models the engine (`serialDownload`, `parallelDownload`,
`setCurlOpt`, `writeMemory`, `saveToFile`, `cleanCurlResource`), the
command-line parser `checkCommand`, and `main`'s defaults and dispatch.

Modules:

- `Common`: bytes, `Option`, the C `int` range and sequence concatenation.
- `Decimal`: `%d` output and `sscanf(.., "%d", ..)` input of integers.
- `RangePlan`: the planning loop shared by both modes, and the range text `"%d-%d"`.
- `ChunkBuffer`: `struct MemoryStruct` and the write callback `writeMemory`, both as written and corrected.
- `Transfers`: one chunk's transfer as the transport drives it. Fragments are delivered to the write callback in arrival order, and a short write count aborts the transfer.
- `MultiGet`: `setCurlOpt`, `saveToFile`, and both download modes.
- `CommandLine`: `checkCommand` and its option loop.
- `Program`: `main`.

Outside effects become parameters:

- The transport is an `Env` value. It says whether `curl_easy_init` yields a handle for chunk `i`, and how the transport answers each request: the fragments it delivers, whether each one's `realloc` succeeds, and whether the transfer completes without a transport error.
- The polling loop of the parallel mode is an arbitrary schedule of single steps, followed by polling until every transfer has ended.
- The output file is returned as a value: the path `saveToFile` opens (`destFile`) and the bytes it writes there.

`serialDownload` is `MultiGet.SerialRun` applied to `RangePlan.Plan(numOfChunks, sizeOfChunk)`; `main` calls it that way. `SerialRun` reads each chunk's outcome from `MultiGet.Outcomes`. `MultiGet.PrecomputedOutcomes` shows that this ends exactly as the C loop does, which sets up and performs chunk `i` only when it reaches it (`MultiGet.FetchLoop`).

Every transfer in the model writes through the corrected write callback `ChunkBuffer.WriteMemory`, not the one at multiGet.c line 136 (see "## Findings").

The dead test `i > numOfArgs` in `checkCommand` (main.c line 137) can never
fire. `CommandLine.LoopEndsAtUrl` shows that the option loop consumes every
argument before the URL, so its index always stops exactly at the URL.

## Model

| member | source | states |
|---|---|---|
| RangePlan.Plan | multiGet_GeunYoung_Gil/GeunYoung_Gil/GeunYoung_Gil/multiGet.c:16-43 | The plan has `numOfChunks` ranges (none when the count is not positive). Range `i` is `s*i .. s*(i+1)-1`. The first starts at 0, each later one starts right after its predecessor, and every bound fits in `int`. |
| RangePlan.PlanPartitions | multiGet_GeunYoung_Gil/GeunYoung_Gil/GeunYoung_Gil/multiGet.c:20-43 | With a positive chunk size, every range is `s` bytes long. The ranges are ascending and pairwise disjoint, and together they cover `0 .. s*n-1`. |
| RangePlan.PlanBoundsFit | multiGet_GeunYoung_Gil/GeunYoung_Gil/GeunYoung_Gil/multiGet.c:22 | Under the no-overflow assumption, every product the loop forms (`s*i`, `s*(i+1)`, `s*(i+1)-1`) is an `int`. |
| RangePlan.RangeTextRoundTrip | multiGet_GeunYoung_Gil/GeunYoung_Gil/GeunYoung_Gil/multiGet.c:116-118 | For non-negative bounds, splitting the range text at its dash and reading both halves gives back the two bounds. |
| RangePlan.ParseRangeOnlyRangeText | multiGet_GeunYoung_Gil/GeunYoung_Gil/GeunYoung_Gil/multiGet.c:116-118 | Conversely, any text that reads as a range is exactly the range text of non-negative bounds. |
| Decimal.NatTextRoundTrip | multiGet_GeunYoung_Gil/GeunYoung_Gil/GeunYoung_Gil/multiGet.c:117 | Reading the digits `%d` prints for a non-negative value gives the value back. |
| Decimal.TextNatRoundTrip | multiGet_GeunYoung_Gil/GeunYoung_Gil/GeunYoung_Gil/multiGet.c:117 | Every digit string without a leading zero is what `%d` prints for its value. |
| Decimal.ScanIntRoundTrip | multiGet_GeunYoung_Gil/GeunYoung_Gil/GeunYoung_Gil/main.c:109 | `sscanf` with `%d` reads back exactly the value `%d` printed, negative values included. |
| Decimal.ScanCanonical | multiGet_GeunYoung_Gil/GeunYoung_Gil/GeunYoung_Gil/main.c:109 | A canonical digit string is converted to its value. |
| Decimal.ScanNegatedCanonical | multiGet_GeunYoung_Gil/GeunYoung_Gil/GeunYoung_Gil/main.c:109 | A minus sign before a canonical digit string gives the negated value. |
| Decimal.ScanIntNeedsDigit | multiGet_GeunYoung_Gil/GeunYoung_Gil/GeunYoung_Gil/main.c:121 | A value with no digit in it is never converted, so the target keeps its old value. |
| ChunkBuffer.Fresh | multiGet_GeunYoung_Gil/GeunYoung_Gil/GeunYoung_Gil/multiGet.c:24-25 | A fresh buffer holds no bytes, has size 0 and a one-byte allocation. |
| ChunkBuffer.WriteMemory | multiGet_GeunYoung_Gil/GeunYoung_Gil/GeunYoung_Gil/multiGet.c:131-149 | The corrected callback (see "## Findings"). When `realloc` succeeds, the callback returns `size*nmemb` and grows `size` by exactly that. The new bytes land at `[oldSize, oldSize+realsize)`, earlier bytes are unchanged, and a 0 is written at the new `size`. On failure it returns 0 and the buffer is unchanged; the code as written nulls the pointer instead (`WriteMemoryAsWritten`). |
| ChunkBuffer.WriteMemoryAppends | multiGet_GeunYoung_Gil/GeunYoung_Gil/GeunYoung_Gil/multiGet.c:144-146 | A successful write makes the content the old content followed by the new bytes. |
| ChunkBuffer.WriteMemoryAsWritten | multiGet_GeunYoung_Gil/GeunYoung_Gil/GeunYoung_Gil/multiGet.c:136-142 | The callback as written: on success it matches `WriteMemory`; on failure it returns 0, the pointer becomes NULL and `size` keeps its old value. |
| ChunkBuffer.AsWrittenLosesReceivedBytes | multiGet_GeunYoung_Gil/GeunYoung_Gil/GeunYoung_Gil/multiGet.c:136-142 | A buffer holding one byte, whose `realloc` fails, ends with `size == 1` behind a NULL pointer, so the received byte is lost. |
| Transfers.Accepted | multiGet_GeunYoung_Gil/GeunYoung_Gil/GeunYoung_Gil/multiGet.c:139-141 | The write callback accepts every fragment before the first non-empty fragment whose buffer cannot grow, and that fragment is the first it refuses. |
| Transfers.PerformStep | multiGet_GeunYoung_Gil/GeunYoung_Gil/GeunYoung_Gil/multiGet.c:87-89 | Advancing a transfer by one step never changes the state it ends in. |
| Transfers.PerformRunning | multiGet_GeunYoung_Gil/GeunYoung_Gil/GeunYoung_Gil/multiGet.c:34 | With the corrected callback, a running transfer ends with the accepted fragments appended to its buffer in arrival order. It succeeds exactly when every fragment is accepted and the transport completes. |
| Transfers.TransferOutcome | multiGet_GeunYoung_Gil/GeunYoung_Gil/GeunYoung_Gil/multiGet.c:24-35 | With the corrected callback, a transfer into a fresh buffer ends holding the concatenation of the accepted fragments. It succeeds exactly when all of them are accepted and the transport completes. |
| Transfers.SuccessfulAppends | multiGet_GeunYoung_Gil/GeunYoung_Gil/GeunYoung_Gil/multiGet.c:136-145 | After K successful appends of f1..fK to a fresh buffer, the content is f1+...+fK and `size` is the sum of their lengths. |
| MultiGet.SetCurlOpt | multiGet_GeunYoung_Gil/GeunYoung_Gil/GeunYoung_Gil/multiGet.c:111-126 | Returns 1 and configures the request for the URL and range text when the handle exists. Otherwise it returns 0 and configures nothing. |
| MultiGet.SetCurlOptRangeReadsBack | multiGet_GeunYoung_Gil/GeunYoung_Gil/GeunYoung_Gil/multiGet.c:116-118 | For non-negative bounds, the range text a configured handle carries reads back as the bounds it was given. |
| MultiGet.SaveFrom | multiGet_GeunYoung_Gil/GeunYoung_Gil/GeunYoung_Gil/multiGet.c:158-161 | The `fwrite` loop from chunk `i` appends the contents of chunks `i..n-1`, in order, to what is already written. |
| MultiGet.SaveToFile | multiGet_GeunYoung_Gil/GeunYoung_Gil/GeunYoung_Gil/multiGet.c:154-164 | The file is the concatenation of the chunks' contents in index order, each truncated to its `size`. |
| MultiGet.SaveToFileLayout | multiGet_GeunYoung_Gil/GeunYoung_Gil/GeunYoung_Gil/multiGet.c:156-161 | Chunk `i` occupies exactly the file positions after chunks `0..i-1`, with nothing between or after. |
| MultiGet.ChunkTransfer | multiGet_GeunYoung_Gil/GeunYoung_Gil/GeunYoung_Gil/multiGet.c:34 | A chunk's transfer always reaches a terminal state. |
| MultiGet.FetchChunk | multiGet_GeunYoung_Gil/GeunYoung_Gil/GeunYoung_Gil/multiGet.c:22-39 | One serial iteration fails setup exactly when no handle is created. It fetches exactly when the handle exists and the transfer succeeds, and then it yields that transfer's buffer. |
| MultiGet.PrecomputedOutcomes | multiGet_GeunYoung_Gil/GeunYoung_Gil/GeunYoung_Gil/multiGet.c:20-43 | The serial loop that sets up and performs chunk `i`'s request only when it reaches iteration `i` ends exactly like the loop that reads chunk `i`'s outcome from the precomputed outcomes, from every iteration on: same requests, same buffers, same stopping point. |
| MultiGet.FirstFailure | multiGet_GeunYoung_Gil/GeunYoung_Gil/GeunYoung_Gil/multiGet.c:20-43 | Locates the first failing chunk from `i` on: every earlier chunk is fetched and that one is not. |
| MultiGet.SerialLoop | multiGet_GeunYoung_Gil/GeunYoung_Gil/GeunYoung_Gil/multiGet.c:20-43 | The loop from chunk `i` completes exactly when no chunk from `i` on fails, and then holds those chunks' buffers in order. Its requests are the ranges from `i` up to the first failing chunk, that chunk included only when its transfer was attempted. |
| MultiGet.LoopStep | multiGet_GeunYoung_Gil/GeunYoung_Gil/GeunYoung_Gil/multiGet.c:20-43 | After fetching chunk `i`, the loop's outcome from `i + 1` becomes its outcome from `i`, with chunk `i`'s request and buffer in front. |
| MultiGet.LoopEnds | multiGet_GeunYoung_Gil/GeunYoung_Gil/GeunYoung_Gil/multiGet.c:20-45 | The whole loop stops exactly when some chunk is not fetched. When it completes, its buffers are those of the chunks' transfers. |
| MultiGet.SerialRun | multiGet_GeunYoung_Gil/GeunYoung_Gil/GeunYoung_Gil/multiGet.c:12-52 | The serial mode returns 0 exactly when every chunk is fetched, and then writes every chunk's buffer in order to the file at `destFile`. Otherwise it returns 1 and writes nothing. Its requests are a prefix of the plan ending at the first failure. |
| MultiGet.SerialStopsAtFailure | multiGet_GeunYoung_Gil/GeunYoung_Gil/GeunYoung_Gil/multiGet.c:28-39 | No range after the failing chunk's is ever requested in serial mode. |
| MultiGet.PlanNext | multiGet_GeunYoung_Gil/GeunYoung_Gil/GeunYoung_Gil/multiGet.c:72-83 | One iteration of the handle loop appends the next range of the plan, and its upper bound plus one is the next lower bound. |
| MultiGet.SetupTransfers | multiGet_GeunYoung_Gil/GeunYoung_Gil/GeunYoung_Gil/multiGet.c:70-85 | The parallel handle loop succeeds exactly when every chunk gets a handle. It then yields the same ranges as the serial plan, each bound to a fresh transfer for its own request. |
| MultiGet.Poll | multiGet_GeunYoung_Gil/GeunYoung_Gil/GeunYoung_Gil/multiGet.c:87-89 | Whatever the polling schedule, each transfer stays headed for the terminal state it reaches on its own, because fragments only reach their own chunk. |
| MultiGet.Drain | multiGet_GeunYoung_Gil/GeunYoung_Gil/GeunYoung_Gil/multiGet.c:87-89 | Polling until nothing runs leaves every transfer in its own terminal state. |
| MultiGet.ParallelDownload | multiGet_GeunYoung_Gil/GeunYoung_Gil/GeunYoung_Gil/multiGet.c:59-105 | Returns 1, with no request performed and nothing written, exactly when some handle is missing. Otherwise it performs every request, waits for all of them, and writes every chunk in index order to the file at `destFile` even when some transfers failed, returning 0. The chunk buffers are those of the corrected callback. |
| MultiGet.SerialMatchesParallel | multiGet_GeunYoung_Gil/GeunYoung_Gil/GeunYoung_Gil/multiGet.c:12-105 | When every chunk succeeds, serial and parallel modes perform the same requests and write byte-identical files to the same path. |
| CommandLine.Iteration | multiGet_GeunYoung_Gil/GeunYoung_Gil/GeunYoung_Gil/main.c:88-133 | One pass of the option loop either reads a complete option, consuming no more than the arguments before the URL, or rejects. |
| CommandLine.ScanOptions | multiGet_GeunYoung_Gil/GeunYoung_Gil/GeunYoung_Gil/main.c:86-134 | A loop that rejects stops at a non-empty remainder of the arguments. |
| CommandLine.CheckCommand | multiGet_GeunYoung_Gil/GeunYoung_Gil/GeunYoung_Gil/main.c:77-148 | Returns 0 or 1. With fewer than 2 arguments it returns 0 and changes nothing. Accepting means the URL is the last argument and does not start with a dash. |
| CommandLine.CheckUrl | multiGet_GeunYoung_Gil/GeunYoung_Gil/GeunYoung_Gil/main.c:136-147 | After the option loop, the command is accepted only with the URL stored from the last argument, which must not start with a dash. |
| CommandLine.IterationSpells | multiGet_GeunYoung_Gil/GeunYoung_Gil/GeunYoung_Gil/main.c:88-128 | An option the loop reads is well formed, and it is exactly what the arguments in front spell. |
| CommandLine.IterationReads | multiGet_GeunYoung_Gil/GeunYoung_Gil/GeunYoung_Gil/main.c:88-128 | Every well-formed option in front of the arguments is read as that option. |
| CommandLine.ScanReads | multiGet_GeunYoung_Gil/GeunYoung_Gil/GeunYoung_Gil/main.c:86-134 | The options the loop reads are well formed, and the arguments are their spelling followed by what the loop left unread. |
| CommandLine.ScanStops | multiGet_GeunYoung_Gil/GeunYoung_Gil/GeunYoung_Gil/main.c:86-134 | A rejected loop stops at an argument that a pass of the loop rejects. |
| CommandLine.ScanRendered | multiGet_GeunYoung_Gil/GeunYoung_Gil/GeunYoung_Gil/main.c:86-134 | The loop reads back any list of well-formed options, then carries on as it would on the arguments after them. |
| CommandLine.AcceptsRendered | multiGet_GeunYoung_Gil/GeunYoung_Gil/GeunYoung_Gil/main.c:137-147 | Any list of well-formed options followed by a URL not starting with a dash is accepted. The URL is stored and the options are applied left to right. |
| CommandLine.AcceptedIsRendered | multiGet_GeunYoung_Gil/GeunYoung_Gil/GeunYoung_Gil/main.c:86-147 | Conversely, an accepted command line is the program name, well-formed options and the URL, and its outputs are those options applied in order. |
| CommandLine.LoopEndsAtUrl | multiGet_GeunYoung_Gil/GeunYoung_Gil/GeunYoung_Gil/main.c:137 | Once the loop finishes, its index is exactly at the URL, so `i > numOfArgs` never holds. |
| CommandLine.RejectedLoopRejects | multiGet_GeunYoung_Gil/GeunYoung_Gil/GeunYoung_Gil/main.c:86-134 | A command whose option loop stops at a rejected argument returns 0. |
| CommandLine.RejectedScanRejects | multiGet_GeunYoung_Gil/GeunYoung_Gil/GeunYoung_Gil/main.c:86-141 | A command whose option loop rejects returns 0, whatever the URL. |
| CommandLine.RejectsMissingValue | multiGet_GeunYoung_Gil/GeunYoung_Gil/GeunYoung_Gil/main.c:90-98 | `-o`, `-n` or `-s` directly before the URL is rejected, because the last argument is never an option value. |
| CommandLine.RejectsDashValue | multiGet_GeunYoung_Gil/GeunYoung_Gil/GeunYoung_Gil/main.c:88-128 | An option value starting with a dash is rejected. |
| CommandLine.RejectsUnknownOption | multiGet_GeunYoung_Gil/GeunYoung_Gil/GeunYoung_Gil/main.c:129-133 | Any argument before the URL that is not one of the four options, or an option's value, is rejected. |
| CommandLine.LastOutputWins | multiGet_GeunYoung_Gil/GeunYoung_Gil/GeunYoung_Gil/main.c:92-93 | With repeated `-o` options the last one sets the output file. |
| CommandLine.ApplyKeepsChunks | multiGet_GeunYoung_Gil/GeunYoung_Gil/GeunYoung_Gil/main.c:105-110 | `-n` options whose values `sscanf` cannot convert leave the chunk count unchanged. |
| CommandLine.LastChunksWins | multiGet_GeunYoung_Gil/GeunYoung_Gil/GeunYoung_Gil/main.c:105-110 | With repeated `-n` options, the chunk count is the value of the last one `sscanf` converts; a later `-n` without a number does not undo it. |
| CommandLine.ApplyKeepsChunkSize | multiGet_GeunYoung_Gil/GeunYoung_Gil/GeunYoung_Gil/main.c:117-122 | `-s` options whose values `sscanf` cannot convert leave the chunk size unchanged. |
| CommandLine.LastChunkSizeWins | multiGet_GeunYoung_Gil/GeunYoung_Gil/GeunYoung_Gil/main.c:117-122 | With repeated `-s` options, the chunk size is the value of the last one `sscanf` converts; a later `-s` without a number does not undo it. |
| CommandLine.ParallelFlag | multiGet_GeunYoung_Gil/GeunYoung_Gil/GeunYoung_Gil/main.c:101-104 | `isParallel` becomes 1 exactly when `-parallel` occurs, and otherwise keeps its initial value. |
| CommandLine.ChunksReadsNumber | multiGet_GeunYoung_Gil/GeunYoung_Gil/GeunYoung_Gil/main.c:105-110 | `-n` followed by a decimal number sets the chunk count to that number. |
| CommandLine.ChunkSizeWithoutDigits | multiGet_GeunYoung_Gil/GeunYoung_Gil/GeunYoung_Gil/main.c:117-122 | `-s` with a value containing no digit leaves the chunk size unchanged. |
| Program.Defaults | multiGet_GeunYoung_Gil/GeunYoung_Gil/GeunYoung_Gil/main.c:155-159 | Before parsing: serial mode, no URL, and the default chunk count and size, whose plan fits in `int`. |
| Program.RunProgram | multiGet_GeunYoung_Gil/GeunYoung_Gil/GeunYoung_Gil/main.c:153-181 | `main` always returns 0. It downloads and calls `cleanCurlResource` exactly when `checkCommand` accepts. The parallel mode runs exactly when `isParallel == 1`, otherwise the serial mode. Either mode is given the parsed `destFile`, and any file written is written there (main.c lines 166 and 170). |
| Program.UrlOnlyUsesDefaults | multiGet_GeunYoung_Gil/GeunYoung_Gil/GeunYoung_Gil/main.c:155-159 | With only a URL, the command is accepted with output `384MB.jar`, serial mode and 4 chunks of 1000000 bytes, i.e. ranges `0-999999` up to `3000000-3999999`. |
| Program.WritesToLastOutput | multiGet_GeunYoung_Gil/GeunYoung_Gil/GeunYoung_Gil/main.c:88-99 | An accepted command is parsed with `destFile` set to the value of its last `-o`, the path `RunProgram` then writes to. |
| Program.ParallelExactlyWhenRequested | multiGet_GeunYoung_Gil/GeunYoung_Gil/GeunYoung_Gil/main.c:162-171 | An accepted command runs the parallel mode exactly when `-parallel` is among its options. |

## Left out

- libcurl itself (handles, connections, TLS, HTTP): the `Env` oracle stands for it. A response is a list of fragments plus a completion flag.
- Real concurrency. `curl_multi_perform` is modelled as any finite schedule of single-fragment steps followed by polling until every transfer ends. A transport that never ends a transfer (a hung request) is not modelled.
- File I/O. The file is the returned path and bytes. A failing `fopen` is not modelled: `fwrite` to a NULL stream is undefined behaviour in C.
- `saveToFile` is declared to return a value but has no return statement. Both callers ignore the value (multiGet.c lines 45 and 91), so this has no effect and nothing models it.
- Memory lifetime: `free`, `cleanChunksMem`, `curl_easy_cleanup`, `curl_multi_cleanup`, and the leaks on the early-return paths of both modes.
- `printf` diagnostics, the usage text and the completion message.
- The fixed `char[100]` buffers, the `strcpy` overflow, and the `memset` that clears only `sizeof(char*)` bytes of `destFile` (main.c line 92). Strings are unbounded here.
- `cleanCurlResource` is the `cleaned` flag of a run; the global teardown it performs is not modelled.
- RangePlan.Plan: needs the chunk products to fit in `int`, because overflow of `sizeOfChunk * (i + 1)` is undefined behaviour in C.
- Program.RunProgram: needs the accepted chunk count and size to pass `PlanFits`, for the same reason.
- CommandLine.Sscanf: reads out-of-range numbers as unbounded integers; the C library's behaviour for them is undefined.
- ChunkBuffer.WriteMemory: does not model `size_t` wrap-around of `mem->size + realsize + 1`, and the byte `malloc` leaves uninitialised is modelled as 0.
- Transfers.Step: every transfer writes through the corrected `ChunkBuffer.WriteMemory` of the Findings row, not the callback as written. In the code as written, a `realloc` that fails after bytes have arrived leaves `memory == NULL` with `size > 0`. A parallel download then still reaches `saveToFile`, whose `fwrite` at multiGet.c line 160 reads through NULL. That is undefined behaviour, which the model does not reproduce.

Facts about the code that the model keeps:

- `parallelDownload` returns 0 even when transfers fail: the polling loop at multiGet.c lines 87-89 never looks at a transfer's result, and line 104 returns 0.
- `serialDownload` never writes the file after a failure: it returns 1 at multiGet.c line 31 or 38, before `saveToFile` at line 45.
- `cleanCurlResource` runs only when the command line is accepted: the call at main.c line 177 sits inside the `if` at lines 162-178.

## Findings

| source | as written | input that shows it | evidently intended | confidence | as-written member | corrected member |
|---|---|---|---|---|---|---|
| multiGet_GeunYoung_Gil/GeunYoung_Gil/GeunYoung_Gil/multiGet.c:136-142 | The result of `realloc` is stored straight into `mem->memory`. When `realloc` fails, the pointer to the bytes already received is overwritten with NULL while `size` still counts them. | A buffer holding 1 byte whose next `realloc` fails: afterwards `size == 1` and `memory == NULL`. | Keep the old block on failure, as a temporary pointer would, so the received bytes and a valid buffer survive. | not executed | ChunkBuffer.AsWrittenLosesReceivedBytes | ChunkBuffer.WriteMemory |
