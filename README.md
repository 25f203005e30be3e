# fastgrep core in Dafny

This project models the computational core of fastgrep, a multi-threaded
grep written in C, and proves properties of that model. It covers:

- the line index over an in-memory buffer and the growable list of loaded
  files (`src/file_reader.c`), in module `FileReader`;
- the match engine (`src/regex_simd.c`), in module `RegexSimd`. This is
  the compiled pattern, the growable match list, the exact and
  case-folded literal compares, the scalar scan, the 16-byte (SSE4.2) and
  32-byte (AVX2) block kernels, the regex scan and the `search_pattern`
  dispatcher;
- the task queue, the search context and its worker pool, and the
  single-file and multi-file drivers (`src/search.c`), in module `Search`;
- the command line: `config_init` and `parse_arguments` (`main.c`), in
  module `Cli`;
- shared vocabulary (bytes, `Option`, a copying `realloc`), in module
  `Base`.

Objects that the C code updates in place are classes over arrays:
`MatchList`, `FileList`, `TaskQueue` and `SearchContext`. Their growth
goes through a modelled `realloc`. The matching logic itself is made of
specification functions: `ScalarScan`, `KernelScan`, `RegexScan` and
`Dispatch`. The methods with loops are proved equal to these functions,
and lemmas prove what the functions mean.

Several things outside the program become parameters:

- `regcomp` is a function from pattern and flags to an optional matcher.
  `regexec` is that matcher, handed the buffer from the cursor on. It
  reads that as a C string, so a match it reports ends before the first
  0 byte after the cursor.
- `atoi` is a function from strings to integers. `isatty(STDOUT_FILENO)`
  is a boolean.
- Allocation outcomes are booleans: `reallocOk` on each growing add, and
  `listOk` for `matchlist_create` inside `taskqueue_add`.
- The build is a `Platform` value. It says whether the AVX2 and SSE4.2
  kernels were compiled in. It also holds the bytes that a 16- or 32-byte
  vector load from the pattern string reads past the pattern: the
  string's 0 terminator and the bytes after it, taken as arbitrary.
- Thread scheduling is a sequence of worker indices. Each step is one
  atomic action of one worker (claim a task and scan it, or record it in
  the totals). Then `pthread_join` runs every worker to its exit.

## Model

| member | source | states |
|---|---|---|
| Base.Realloc | src/regex_simd.c:86-93 | a fresh array of the new size whose first slots hold the old contents |
| FileReader.CountLines | src/file_reader.c:205-220 | the count equals `LineCount`, which is the number of offsets that start a line; a non-empty buffer has between 1 and `size` lines |
| FileReader.LineCountByNewlines | src/file_reader.c:205-220 | a non-empty buffer has one line per newline, plus one when the last byte is not a newline |
| FileReader.GetLineNumber | src/file_reader.c:244-255 | an offset past the end gives 0; otherwise the result is the 1-based line of the offset, equal to the number of line starts at or before it |
| FileReader.LineOfCountsLineStarts | src/file_reader.c:244-255 | the newline-counting line number equals the count of line starts up to and including the offset |
| FileReader.LineOfBounds | src/file_reader.c:244-255 | every offset lies on a line between 1 and the line count; the last byte lies on the last line |
| FileReader.LineOfMonotone | src/file_reader.c:244-255 | line numbers never decrease as the offset grows |
| FileReader.SameLineBetween | src/file_reader.c:222-242 | offsets with no newline between them lie on the same line |
| FileReader.FindLineStart | src/file_reader.c:222-231 | an offset past the end gives the buffer start; otherwise the result is the start of the offset's line: a line start at or before it, with no newline in between |
| FileReader.FindLineEnd | src/file_reader.c:233-242 | an offset past the end gives the buffer end; otherwise the result is the first newline at or after the offset, or the buffer end when there is none |
| FileReader.LineExamples | tests/unit_tests.c:117-134 | "line1\nline2\nline3" has 3 lines and "line1" has 1 line |
| FileReader.LineNumberExamples | tests/unit_tests.c:136-158 | in "line1\nline2\nline3\nline4", offsets 0, 6 and 12 are on lines 1, 2 and 3 |
| FileReader.FileList.constructor | src/file_reader.c:111-124 | a new list is empty with capacity 1024 |
| FileReader.FileList.Add | src/file_reader.c:137-151 | a null file is refused; a full list doubles its capacity when realloc succeeds and refuses the file when it fails; on success the file is appended and nothing else changes |
| RegexSimd.PatternCreate | src/regex_simd.c:9-42 | a null string gives no pattern; a literal pattern always succeeds; a regex pattern succeeds exactly when `regcomp` with REG_EXTENDED, plus REG_ICASE on request, succeeds; the pattern keeps the string, its length and the case flag, and holds a compiled regex exactly when regex mode was asked for, the one `regcomp` returned |
| RegexSimd.MatchList.constructor | src/regex_simd.c:58-71 | a new list is empty with capacity 1024 |
| RegexSimd.MatchList.Add | src/regex_simd.c:83-101 | the add succeeds when there is room or realloc succeeds; on success the match is appended, otherwise the list is unchanged; a full list doubles its capacity only when realloc succeeds |
| RegexSimd.MatchList.Contents | src/regex_simd.c:83-101 | the returned sequence is exactly the recorded matches, in order |
| RegexSimd.MatchCapacityAfterFits | src/regex_simd.c:83-101 | after n successful adds the capacity holds all n matches and stays below twice n plus twice the initial capacity |
| RegexSimd.AddMany | tests/unit_tests.c:187-189 | n adds of `(i, i + 5, i)` leave exactly those n matches, in order, with the capacity `MatchCapacityAfter(n)` |
| RegexSimd.MatchListTestCapacity | tests/unit_tests.c:160-199 | 2001 adds to a new list leave capacity 2048 |
| RegexSimd.CapacityConstant | src/regex_simd.c:83-101 | up to 1024 adds never grow a new list |
| RegexSimd.CapacityDoubled | src/regex_simd.c:83-101 | 1025 to 2048 adds grow a new list exactly once, to 2048 |
| RegexSimd.ExactMatchAtBytes | src/regex_simd.c:103-109 | the `memcmp` test holds exactly when the pattern fits before the buffer end and every pattern byte equals the buffer byte at the same offset |
| RegexSimd.FoldedIsExactOnLowered | src/regex_simd.c:111-123 | the case-insensitive test is the exact test on both sides folded to lower case |
| RegexSimd.ExactImpliesFolded | src/regex_simd.c:103-123 | every exact occurrence is also a case-insensitive one |
| RegexSimd.PatternMatchAsciiCase | src/regex_simd.c:111-123 | the byte loop answers exactly the case-folded occurrence test |
| RegexSimd.PositionsMembership | src/regex_simd.c:136-167 | the brute-force reference lists exactly the offsets from `from` on where the pattern occurs |
| RegexSimd.ScanStarts | src/regex_simd.c:136-167 | the start offsets the scan appends are exactly the brute-force reference positions |
| RegexSimd.ScanShape | src/regex_simd.c:136-167 | every appended match is a genuine occurrence spanning the pattern length, starts are strictly increasing, and each line is the starting line plus the newlines the counter passed |
| RegexSimd.ScalarScanSpec | src/regex_simd.c:136-167 | from the buffer start, the scan reports every offset where the pattern occurs and no other, in increasing order, each spanning the pattern length; overlapping occurrences are all reported |
| RegexSimd.ScalarScanLines | src/regex_simd.c:136-167 | each match carries 1 plus the newlines at non-matching offsets before it |
| RegexSimd.SkippedIsNewlines | src/regex_simd.c:150-164 | when no match starts on a newline, the newlines the counter passes are all the newlines of the buffer prefix |
| RegexSimd.ScalarLinesAreLineNumbers | src/regex_simd.c:136-167 | when no match starts on a newline, every match carries the true 1-based line of its start |
| RegexSimd.PatternAvoidsNewline | src/regex_simd.c:136-167 | a pattern whose first byte is not a newline never matches at a newline |
| RegexSimd.ScalarLineSkipsMatchedNewline | src/regex_simd.c:150-164 | searching "\n" in "\n\n" gives both matches line 1, while the second newline lies on line 2 |
| RegexSimd.ScalarScanOverlapping | tests/unit_tests.c:238-266 | "aa" in "aaa" gives exactly the matches [0,2) and [1,3), both on line 1 |
| RegexSimd.PositionsSkip | src/regex_simd.c:150-164 | offsets where the pattern does not occur add nothing to the reference positions |
| RegexSimd.HelloMatchesAt | tests/unit_tests.c:31-72 | case-insensitive "HELLO" occurs in "hello HeLLo HELLO" at offsets 0, 6 and 12 and nowhere else |
| RegexSimd.HelloPositions | tests/unit_tests.c:31-72 | the reference positions of that search are [0, 6, 12] |
| RegexSimd.CaseInsensitiveHello | tests/unit_tests.c:31-72 | the scalar scan reports matches starting at 0, 6 and 12 |
| RegexSimd.PatternNotFound | tests/unit_tests.c:201-236 | "xyz" over "hello world" appends no match |
| RegexSimd.FirstByteDiffers | src/regex_simd.c:111-123 | a case-insensitive pattern cannot occur where its folded first byte differs from the folded buffer byte |
| RegexSimd.SearchPatternAscii | src/regex_simd.c:136-167 | the list gains exactly the scalar scan's matches, and the result is 1 exactly when the list is non-empty afterwards |
| RegexSimd.ScanAsciiAt | src/regex_simd.c:146-155 | one offset of the scan: the result is the literal test at that offset, and the list gains that one match exactly when it holds |
| RegexSimd.Lanes | src/regex_simd.c:229 | the loaded pattern vector has one lane per byte of the width, and its first lanes hold the pattern bytes |
| RegexSimd.CompareMask | src/regex_simd.c:234-237 | lane i of the compare mask is set exactly when buffer byte `base + i` equals lane i of the pattern vector |
| RegexSimd.TailStart | src/regex_simd.c:233-268 | the tail offset is at or after the start, and less than one block from the buffer end |
| RegexSimd.BlockStart | src/regex_simd.c:233-258 | every offset before the tail lies in the block that starts at a block boundary at or before it |
| RegexSimd.CandidatesSound | src/regex_simd.c:239-248 | each match found in a block is an exact occurrence, starts at a set lane, and carries that block's line |
| RegexSimd.CandidatesIncreasing | src/regex_simd.c:239-248 | the matches found in a block have increasing starts |
| RegexSimd.CandidatesComplete | src/regex_simd.c:239-248 | every exact occurrence in a block whose lane is set is reported |
| RegexSimd.NoCandidates | src/regex_simd.c:239-248 | a block with no set lane reports nothing |
| RegexSimd.TailSound | src/regex_simd.c:260-268 | each tail match is an exact occurrence and carries the line the loop counter held |
| RegexSimd.TailIncreasing | src/regex_simd.c:260-268 | the tail matches have increasing starts |
| RegexSimd.TailComplete | src/regex_simd.c:260-268 | every exact occurrence in the tail is reported |
| RegexSimd.BlocksSound | src/regex_simd.c:233-268 | every kernel match is an exact occurrence, and its line is the block's or the tail's line counter |
| RegexSimd.BlocksIncreasing | src/regex_simd.c:233-268 | kernel matches have increasing starts |
| RegexSimd.BlocksComplete | src/regex_simd.c:233-268 | every exact occurrence in the tail, or in a block at a lane whose vector byte equals it, is reported |
| RegexSimd.KernelScanSound | src/regex_simd.c:223-271 | for a case-sensitive pattern the kernel reports only genuine occurrences, in increasing order |
| RegexSimd.FirstByteAt | src/regex_simd.c:235-243 | an exact occurrence begins with the pattern's first byte |
| RegexSimd.KernelScanMembership | src/regex_simd.c:223-271 | the kernel reports an offset exactly when the pattern is non-empty and occurs there, and either the pattern is longer than the vector, or the offset is in the tail, or the vector lane at the offset's position in its block holds the pattern's first byte |
| RegexSimd.BlocksMember | src/regex_simd.c:233-268 | the same membership, stated for the block loop with an arbitrary vector |
| RegexSimd.BlocksMemberFound | src/regex_simd.c:233-268 | a reported offset is an exact occurrence, and if it lies before the tail its lane held the first pattern byte |
| RegexSimd.KernelScanLines | src/regex_simd.c:231-268 | each kernel match carries 1 plus the newlines of the blocks before its own block |
| RegexSimd.KernelFindsAligned | src/regex_simd.c:223-271 | an occurrence at a block boundary or in the tail is always reported |
| RegexSimd.KernelMissesMatch | src/regex_simd.c:229-248 | "ab" at offset 1 of a 16-byte block is missed by the 16-byte kernel but found by the scalar scan |
| RegexSimd.KernelLineIsBlockLine | src/regex_simd.c:233-258 | a match after a newline inside the first block is reported on line 1, while it lies on line 2 |
| RegexSimd.FirstMatchAtOne | src/regex_simd.c:229-248 | in that example the first kernel match starts at offset 1 |
| RegexSimd.ScanBlock | src/regex_simd.c:239-248 | the lane loop appends exactly the matches of one block |
| RegexSimd.ScanLane | src/regex_simd.c:240-246 | one lane: the list gains the match at the lane's offset exactly when the lane is set, the pattern fits in the buffer and `memcmp` agrees |
| RegexSimd.ScanWholeBlocks | src/regex_simd.c:233-258 | the block loop stops at the first block that does not fit; the matches it appended, followed by the tail scan from there, are the whole kernel scan |
| RegexSimd.ScanOneBlock | src/regex_simd.c:233-258 | one block: the count is the block's newlines, and the list after the block, followed by the scan from the next block on its next line, is still the whole kernel scan |
| RegexSimd.CountBlockNewlines | src/regex_simd.c:251-255 | the count equals the number of newlines in the block |
| RegexSimd.ScanTail | src/regex_simd.c:260-268 | the tail loop appends exactly the tail matches |
| RegexSimd.ScanByte | src/regex_simd.c:260-266 | one tail offset: the list gains a match there exactly when the pattern occurs there |
| RegexSimd.SearchPatternBlocks | src/regex_simd.c:223-271 | the list gains exactly the kernel's matches, and the result is 1 exactly when the pattern is non-empty and the list is non-empty afterwards |
| RegexSimd.SearchPatternSse42 | src/regex_simd.c:223-271 | the 16-byte kernel: the list gains exactly `KernelScan(16, …)`, with the same result rule |
| RegexSimd.SearchPatternAvx2 | src/regex_simd.c:277-325 | the 32-byte kernel: the list gains exactly `KernelScan(32, …)`, with the same result rule |
| RegexSimd.RegexFromShape | src/regex_simd.c:169-192 | every regex match lies inside the buffer at or after the cursor and carries line 1; successive matches start in order |
| RegexSimd.RegexScanShape | src/regex_simd.c:169-192 | the same, for the whole regex scan from offset 0 |
| RegexSimd.RegexLineIgnoresNewlines | src/regex_simd.c:173-187 | a first regex match that starts after a newline is still reported on line 1 |
| RegexSimd.CStrLen | src/regex_simd.c:177 | `strlen(data + k)` stays inside the buffer |
| RegexSimd.CStrLenBeforeNul | src/regex_simd.c:177 | the bytes `strlen` counts hold no 0, and a 0 byte or the buffer's end follows them |
| RegexSimd.RegexFromAvoidsNul | src/regex_simd.c:176-188 | because `regexec` stops at a 0 byte, no match the loop reports from a cursor spans a 0 byte of the buffer |
| RegexSimd.RegexScanAvoidsNul | src/regex_simd.c:169-192 | no match of the regex scan spans a 0 byte |
| RegexSimd.NulHidesMatch | src/regex_simd.c:176-181 | "foo" over "\0foo": the one `regexec`, at cursor 0, sees the empty string, so the scan appends nothing although "foo" occurs at offset 1 |
| RegexSimd.RegexCursorStalls | src/regex_simd.c:188 | an empty match at relative offset 0 with a non-zero cursor leaves the cursor where it was |
| RegexSimd.EndAnchoredScan | src/regex_simd.c:176-188 | "^$" over "a" is accepted and appends nothing: the loop asks once, at cursor 0, and the empty match at cursor 1, which the loop never asks about, does not matter |
| RegexSimd.RegexStallNeverHalts | src/regex_simd.c:176-188 | a visited non-zero cursor where `regexec` returns a match ending at relative offset 0 is one the loop never leaves |
| RegexSimd.SearchPatternRegex | src/regex_simd.c:169-192 | for any `regexec` whose loop ends, the list gains exactly the regex scan's matches; the result is 1 exactly when a regex is compiled and the list is non-empty afterwards; without a compiled regex nothing is appended |
| RegexSimd.RegexAddMatch | src/regex_simd.c:183-188 | one match from the cursor: it is appended, the cursor moves strictly forward to the match end (or one past the cursor when that end is 0), and the appended list followed by the scan from the new cursor is unchanged |
| RegexSimd.SilentKernelAppendsNothing | src/regex_simd.c:198-212 | a kernel that returns 0 has appended no match, so falling back to the scalar scan does not duplicate matches |
| RegexSimd.DispatchRoutes | src/regex_simd.c:194-218 | regex patterns get the regex scan; case-insensitive literals and builds without kernels get the scalar scan |
| RegexSimd.DispatchFallsBackToScalar | src/regex_simd.c:194-218 | when every available kernel appends nothing, the dispatcher appends the scalar scan |
| RegexSimd.DispatchSound | src/regex_simd.c:194-218 | for literal patterns every dispatched match is a genuine occurrence, in increasing order |
| RegexSimd.DispatchFindsSomeIffScalar | src/regex_simd.c:194-218 | for literal patterns the dispatcher finds some match exactly when the scalar scan does |
| RegexSimd.DispatchDiffersFromScalar | src/regex_simd.c:194-218 | with the SSE4.2 kernel compiled in, an unaligned occurrence is dropped while the scalar scan reports it |
| RegexSimd.DispatchTakesSse | src/regex_simd.c:194-218 | without AVX2, a case-sensitive literal whose 16-byte kernel reports a match gets exactly that kernel's list |
| RegexSimd.SearchPattern | src/regex_simd.c:194-218 | the list gains exactly `Dispatch`'s matches; the result is 1 exactly when the list is non-empty afterwards and the pattern, if a regex, is compiled |
| Search.GrownTaskCapacity | src/search.c:36-43 | a growing queue goes from 0 to 16 slots and otherwise doubles |
| Search.TaskCapacityAfterBounds | src/search.c:33-55 | after n adds the capacity holds all n tasks; it is 16 up to 16 tasks and below 2n past them |
| Search.TaskQueue.constructor | src/search.c:5-20 | a new queue is empty, has no slots and has its cursor at 0 |
| Search.TaskQueue.Add | src/search.c:33-55 | the add succeeds exactly when the pattern and file are present, there is room or realloc succeeds, and the task's match list is created; only then is the task appended with an empty match list; the capacity grows when the queue was full and realloc succeeded, even if the list creation then fails; the cursor is unchanged |
| Search.TaskQueue.GetNext | src/search.c:57-71 | a task remains exactly when the cursor is below the count; then its index is returned and the cursor advances by one; otherwise nothing is returned and nothing changes |
| Search.TaskQueue.ClaimAll | src/search.c:57-71 | repeated claims return every remaining index in order and leave the cursor at the count |
| Search.TaskQueue.SetMatches | src/search.c:115-118 | only the chosen task's matches change |
| Search.Range | src/search.c:57-71 | the claim order from lo to hi is lo, lo + 1, …, hi - 1 |
| Search.Searched | src/search.c:115-118 | scanning a task keeps its pattern, file and index; for literal patterns its matches are genuine |
| Search.SearchedAll | src/search.c:109-124 | every task is scanned with its own pattern and file |
| Search.StepPool | src/search.c:109-124 | one worker step changes no other worker, keeps the queue size, moves the cursor by at most one, never lowers the counters, and makes progress unless the worker has exited |
| Search.RunSchedule | src/search.c:126-142 | any interleaving of steps keeps the pool well formed and never moves the cursor back |
| Search.RunToExit | src/search.c:109-124 | a worker run on its own always reaches its exit, leaving the other workers unchanged |
| Search.Join | src/search.c:137-139 | joining runs every worker to its exit |
| Search.StartInv | src/search.c:126-142 | the pool invariant holds when the workers are created |
| Search.StepInv | src/search.c:109-124 | each worker step keeps the invariant: claimed tasks are scanned exactly once, the cursor is the number claimed, and the counters equal the recorded tasks and their matches |
| Search.ClaimInv | src/search.c:109-124 | a claim keeps the invariant: the task at the cursor is scanned and held by the claiming worker |
| Search.RunScheduleInv | src/search.c:126-142 | any schedule keeps the invariant |
| Search.RunToExitInv | src/search.c:109-124 | running a worker to its exit keeps the invariant |
| Search.JoinInv | src/search.c:137-139 | joining all workers keeps the invariant |
| Search.PoolOutcome | src/search.c:109-142 | for at least one worker and any schedule, after the join every task has been scanned exactly once, the cursor is at the end, `files_searched` is the number of tasks and `total_matches` is the sum of their match counts |
| Search.SearchContext.constructor | src/search.c:73-96 | a new context has no queue, zero counters, and uses the requested thread count, or 1 when 0 is requested |
| Search.SearchContext.Step | src/search.c:109-124 | one worker step on the objects equals one step of the pool model |
| Search.SearchContext.Steps | src/search.c:126-142 | a schedule of steps on the objects equals that schedule on the pool model |
| Search.SearchContext.Finish | src/search.c:109-124 | running one worker to its exit on the objects equals the pool model's run |
| Search.SearchContext.JoinAll | src/search.c:137-139 | joining on the objects equals the pool model's join, and every worker has exited |
| Search.SearchContext.Run | src/search.c:126-142 | running the context on a fresh queue ends in the pool model's outcome for that schedule and returns success |
| Search.ExitedWorkers | src/search.c:137-139 | a worker list in which every worker has exited is the all-exited list |
| Search.SearchSingleFile | src/search.c:144-148 | a missing pattern, file or list gives 0 and changes nothing; otherwise the list gains exactly what `search_pattern` appends, and the result is `search_pattern`'s: 1 exactly when the list is non-empty and the pattern, if a regex, is compiled |
| Search.TasksFor | src/search.c:156-161 | the queued task for file i carries the pattern, file i, index i and an empty match list |
| Search.ResultsFor | src/search.c:171-181 | the result for file i is what the dispatcher finds in file i |
| Search.QueueFiles | src/search.c:153-161 | queueing succeeds exactly when every add succeeds; then the queue holds one task per file, in order |
| Search.QueueOne | src/search.c:156-161 | one add for file i succeeds exactly when the task's list is created and there is room or realloc succeeds; then the task for file i is appended and the capacity is the one after i + 1 adds |
| Search.SearchMultipleFiles | src/search.c:150-187 | the search succeeds exactly when a pattern and a file list are given and every add succeeds; then result i is the dispatcher's matches for file i |
| Search.CollectResults | src/search.c:178-181 | the results are the tasks' match lists, in task order |
| Search.SearchedResults | src/search.c:153-181 | once searched, the queued tasks' match lists are the dispatcher's results for the files, in file order |
| Cli.ClassifyUnknownOrPositional | main.c:108-156 | an argument is an unknown option exactly when it is longer than one character, starts with '-' and is not a known option; it is a positional exactly when it is not of that form and not a known option, so "-" is positional |
| Cli.ClassifyPlain | main.c:108-156 | an argument that does not start with '-' is positional |
| Cli.SizeT | main.c:140-146 | the `size_t` conversion of `atoi`'s value: a value in range is kept, and a negative value wraps modulo 2^64 |
| Cli.StopResult | main.c:108-149 | help, version, a missing `--threads` value and an unknown option all end parsing without a configuration |
| Cli.InterpretCons | main.c:108-158 | a stopping argument decides the result; any other argument updates the configuration and parsing goes on |
| Cli.ParseArguments | main.c:96-182 | the loop returns the modelled result; fewer than two arguments give the usage result; a parsed configuration has a pattern and between 1 and argc - 1 paths |
| Cli.ParseWord | main.c:108-158 | one round of the loop: a stopping argument gives the result the rest of the parse gives, and any other argument moves past itself (past its value for `--threads`) with a configuration from which the rest of the parse gives the same result |
| Cli.AbsorbAllSnoc | main.c:108-158 | absorbing a list of arguments and then one more is one absorb step after the list |
| Cli.InterpretSettled | main.c:108-182 | with no stopping argument, parsing is the final defaults applied to all arguments absorbed in order; otherwise the first stopping argument decides the result |
| Cli.AbsorbPositionalStep | main.c:150-156 | one argument adds its text to the positionals seen exactly when it is positional; paths stay empty until a pattern is set |
| Cli.AbsorbStickyStep | main.c:118-139 | after one argument, a flag that is never cleared is set exactly when it was already set or the argument sets it |
| Cli.AbsorbColorStep | main.c:130-135 | `--color` sets color, `--no-color` clears it, both mark it as set, and other arguments leave it |
| Cli.AbsorbLineNumbersStep | main.c:124-129 | `-n` sets line numbers, `--no-line-number` clears them, both mark them as set, and other arguments leave them |
| Cli.AbsorbThreadsStep | main.c:140-146 | only a `--threads` value changes the thread count, to the `size_t` of its `atoi` |
| Cli.AbsorbShowFilenameStep | main.c:108-158 | no argument sets show_filename during the loop |
| Cli.AbsorbAllPositionals | main.c:150-156 | absorbing arguments adds exactly their positionals, in order |
| Cli.AbsorbAllSticky | main.c:118-139 | a sticky flag ends up set exactly when it was set or some argument sets it |
| Cli.AbsorbAllColor | main.c:130-135 | the last color toggle wins; without one the color is unchanged and unset |
| Cli.AbsorbAllLineNumbers | main.c:124-129 | the last line-number toggle wins; without one it is unchanged and unset |
| Cli.AbsorbAllThreads | main.c:140-146 | the last `--threads` value wins |
| Cli.AbsorbAllKeepsShowFilename | main.c:108-158 | show_filename is untouched by the loop |
| Cli.ParseOutcome | main.c:96-182 | fewer than two arguments give the usage result; with no stopping argument, parsing finds no pattern exactly when there is no positional and succeeds exactly when there is one; otherwise the first stopping argument decides the result |
| Cli.ParsedIsAbsorbed | main.c:96-182 | a successful parse had at least two arguments and no stopping argument, and is the final defaults applied to all arguments absorbed from `config_init` |
| Cli.ParsedPositionals | main.c:150-167 | the first positional is the pattern; the other positionals are the paths, or "-" when there are none |
| Cli.ParsedStickyFlags | main.c:32-47 | recursive, ignore-case, regex, quiet and verbose are set exactly when their option appears, and are off by default |
| Cli.ParsedColor | main.c:169-171 | the last of `--color` and `--no-color` decides the color; without either it is whether stdout is a terminal |
| Cli.ParsedLineNumbers | main.c:124-129 | line numbers are on exactly when the last of `-n` and `--no-line-number` is `-n`; off by default |
| Cli.ParsedThreads | main.c:140-146 | the thread count is the `size_t` of the last `--threads` value, or the default 1 |
| Cli.ParsedShowFilename | main.c:177-179 | file names are shown exactly when there is more than one path or the search is recursive |
| Cli.PositionalsBound | main.c:150-156 | there are no more positionals than arguments scanned |
| Cli.PositionalsCons | main.c:150-156 | a positional argument puts its text at the front of the positionals |
| Cli.ParsedPathsFit | main.c:102-167 | a successful parse has a pattern and between 1 and argc - 1 paths, which is the size of the paths buffer |
| Cli.DashIsPositional | main.c:150-156 | `fastgrep - x` parses with pattern "-" and path "x" |
| Cli.ThreadsWithoutValue | main.c:140-146 | a trailing `--threads` is the missing-argument error |
| Cli.ThreadsConsumesValue | main.c:140-146 | `--threads -x foo` uses "-x" as the thread value and "foo" as the pattern, reading stdin |
| Cli.UnknownOptionRejected | main.c:147-149 | `fastgrep foo -z file` is rejected with unknown option "-z" |

## Left out

- File I/O: `file_open`, `file_close`, `filelist_add_path`, `traverse_directory` and the stdin loop in `main` are system calls. A file is a `FileData` value holding its bytes.
- Output and logging: `src/output.c`, `src/logger.c`, `print_usage`, and the printing and exit codes in `main` are plain I/O. The help and version paths are outcomes of the parse, `Help` and `Version`.
- Threads: `pthread_create` and `pthread_join` are a schedule of atomic worker steps. A claim under the queue mutex and the scan that follows are one step. The update of the counters under the context mutex is another step. Failure to create a thread, and mutex initialisation, are not modelled.
- Search.SearchContext.Step: the worker in the model creates its match list when it claims a task. This is equivalent to using the list `taskqueue_add` created, because that list is still empty when the task is claimed.
- Allocation failures are modelled only for the growing adds (`realloc`) and for `matchlist_create` inside `taskqueue_add`. The `malloc` of patterns, lists, queues, contexts, the paths buffer and the results, and `strdup`, are assumed to succeed.
- Search.SearchMultipleFiles: the null check on the `results` out-parameter is not modelled, because the model returns the results as a value.
- PatternCreate: requires the string to hold no 0 byte, because a C string ends at its first NUL and `strlen`/`strdup` see only the bytes before it.
- RegexSimd.RegexReadsCString: `regexec` reads `data + pos` as a C string, so it sees the buffer from the cursor only up to its first 0 byte. The model takes the terminator to lie at `size`. Only the small-file path of `file_read` writes it there (src/file_reader.c:102). For memory-mapped files over 1 MiB (src/file_reader.c:77-85) and for standard input (main.c:250-287) there is none, and `regexec` reads past the buffer. The model does not capture that read.
- `regcomp` and `regexec` are oracles. RegexSimd.RegexOracleOk states that `regexec` returns a match inside the suffix it searched. RegexSimd.RegexHalts states that the loop started at cursor 0 ends. It fails exactly when, at some cursor the loop visits, `regexec` returns a match that ends at relative offset 0 from a non-zero cursor; from there the C loop never ends (RegexSimd.RegexCursorStalls, RegexSimd.RegexStallNeverHalts). The regex scan is modelled for the runs that end, and cursors the loop never visits are not constrained (RegexSimd.EndAnchoredScan).
- SIMD intrinsics are byte-wise lane compares. The bytes a vector load reads past the pattern string are an arbitrary value in `Platform`. `is_simd_available` is true whenever a kernel was compiled in.
- The scans call RegexSimd.MatchList.Add with a successful `realloc`. In the C code a failed growth inside a scan silently drops that match, and the scan goes on; the scan functions' contracts do not cover that case.
- RegexSimd.SearchPatternBlocks: the model counts a block's newlines before it tests the block's lanes, while the C code tests the lanes first. The count only reads the buffer and the lane tests use the line value from before the block, so the matches and lines are the same.
- `size_t` overflow of offsets and counts is not modelled, because buffers are far smaller than 2^64.
- Search.TasksFor, Search.QueueOne: the `(int)i` cast of the file index passed to `taskqueue_add` (src/search.c:157) is not modelled. No file list reaches 2^31 entries, and `file_index` is never read back, because the results are collected by task position (src/search.c:178-181).
- The free functions are not modelled, because they only release memory: `pattern_free`, `matchlist_free`, `filelist_free`, `taskqueue_free`, `search_context_free` and `config_free`.
- Cli.ConfigInit: the defaults of `config_init` are stated through the parse lemmas (Cli.ParsedStickyFlags, Cli.ParsedThreads, Cli.ParsedLineNumbers) rather than in a contract of their own.

## Behaviour of the code

The model follows the code in each of the following, and the named
lemmas exhibit each one. The kernels are meant to agree with the scalar
scan, and a match's line is meant to be the line it lies on; the code
falls short of both in the ways listed here.

- The block kernels compare every byte of a block with the vector lane
  at the same position, and that vector holds the whole pattern, not its
  first byte repeated. An occurrence that does not start at a block
  boundary is therefore usually missed (KernelMissesMatch). The
  dispatcher then keeps that partial answer (DispatchDiffersFromScalar),
  so the kernels are not equivalent to the scalar scan. When a kernel
  finds nothing, the dispatcher falls back to the scalar scan, so whether
  any match is found is the same either way (DispatchFindsSomeIffScalar).
- The kernels' line counter advances once per block, so a match inside a
  block carries the line at the block's start (KernelLineIsBlockLine).
- The scalar scan does not count a newline at an offset where the pattern
  matched (ScalarLineSkipsMatchedNewline). Line numbers are exact when no
  match starts on a newline (ScalarLinesAreLineNumbers).
- The regex scan reports every match on line 1 (RegexLineIgnoresNewlines).
- The regex scan stops at a 0 byte, which the literal scans do not (NulHidesMatch).
- `pattern_create` accepts the empty pattern (PatternCreate).
