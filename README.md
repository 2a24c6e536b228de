# Cache hotness benchmark: verified model of its sequential core

The cache hotness benchmark forks a parent and a child onto the same CPU and
has them take turns over a working set of cache-line-sized memory blocks. It
measures how long the increment passes take when the two processes alternate
(concurrent mode), and compares that with one process running after the
other (sequential mode). Around that measurement the program reads the cache
topology and the CPU frequency from sysfs, formats sizes and frequencies, and
keeps the two processes in step with a pipe barrier.

This project models the parts of that program that can be stated exactly once
the system calls are turned into inputs:

- `CLib`: the C library behaviour the code relies on. This covers
  truncating `/` and `%`, `strtol`/`atoi` scanning, `printf`'s `%zu` and
  `%03ld`, NUL-terminated buffers, and `snprintf` into a buffer (as a function
  on the buffer's contents, and as a method on a character array).
- `Sizes`: `parse_size`, `human_readable_size`, `cpu_freq_to_str`, and the
  strtol acceptance test that `get_cache_line_size` and `get_cpu_freq`
  share.
- `CacheProbe`:
  - `get_cache_size`, with sysfs files given as `Option<string>` contents.
  - `get_cache_sizes`, a method that fills the caller's array in place while
    reading the `readdir` listing.
  - `get_cache_sizes_str`, a method that appends into the caller's character
    buffer.
  - Each method is proved against a function on sequences. Lemmas about
    those functions state what the listing means.
- `Barrier`: `synchronize` and `open_pipes`. The two pipes are FIFO byte
  queues held in a `Pipes` class. A pure specification of one call sits
  beside it, with a lemma about the start barrier as both processes run it.
- `Timing`: the nanosecond difference of two `timespec` readings, its
  re-split into seconds and nanoseconds with C's truncating `/` and `%`, and
  the average of the parent's and child's totals.
- `Settings`: the fields of `struct settings` that the timed run reads, and
  the parent/child role.
- `Workload`: the allocation loop and the timed loops of `main`, as methods
  over a sequence of `int` arrays. A ghost trace records every increment
  pass, every `sched_yield` and the midpoint clock reading.

Where the code as written and its evident intent differ, the model keeps
both: a member for the code as written, a lemma exhibiting an input where it
goes wrong, and a corrected member with the intended property proved about it
(see "## Findings"). The methods of `CacheProbe` take a flag `asWritten` that
selects the code as written or the corrected code, and each is proved against
the matching function for either setting.

## Model

| member | source | states |
|---|---|---|
| CLib.CDiv | 01-cache-hotness/code/main.c:777 | C's `/` on a positive divisor truncates toward zero: the remainder it leaves, `a - q*b`, lies in [0, b) for a non-negative dividend and in (-b, 0] for a negative one |
| CLib.CMod | 01-cache-hotness/code/main.c:778 | C's `%` is the remainder that goes with the truncated quotient (`q*b + m == a`), in [0, b) for a non-negative dividend and in (-b, 0] for a negative one |
| CLib.Decimal | 01-cache-hotness/code/main.c:481 | `%zu` of a number is a non-empty digit string without NUL, whose digits denote the number, with no leading zero |
| CLib.ZeroPadValue | 01-cache-hotness/code/main.c:341 | `%03ld` padding keeps the digits' value and gives at least the field width |
| CLib.StrToLong | 01-cache-hotness/code/main.c:274 | strtol skips leading white space and one sign; when a digit follows, it stops right after the digit run that starts there and returns that run's value, negated after a minus; it makes no progress and returns 0 exactly when no digit follows the white space and sign |
| CLib.ScanDecimal | 01-cache-hotness/code/main.c:274 | strtol reads back what `%zu` printed and stops right after it, whatever non-digit follows |
| CLib.ScanNegative | 01-cache-hotness/code/main.c:274 | a leading minus sign negates what strtol reads and is consumed with the digits |
| CLib.Atoi | 01-cache-hotness/code/main.c:96 | atoi is the value strtol reads; ParseSizeSuffixed, ParseSizeUnsuffixed and HumanReadableSizeShows state what it gives on the texts the program builds |
| CLib.CString | 01-cache-hotness/code/main.c:364-368 | the C string in a buffer is NUL-free and no longer than the buffer |
| CLib.CStringIs | 01-cache-hotness/code/main.c:369 | a buffer holding `s` followed by a NUL (or ending there) holds the C string `s` |
| CLib.SnprintfCString | 01-cache-hotness/code/main.c:483 | snprintf keeps the text before the write position, and the buffer then reads as that text followed by at most size-1 characters of the argument |
| CLib.SnprintfFits | 01-cache-hotness/code/main.c:483 | an argument shorter than the size is written whole and followed by a NUL |
| CLib.WriteString | 01-cache-hotness/code/main.c:483 | the array after snprintf is the Snprintf function of its old contents, and the return value is the length of the full argument |
| Sizes.Multiplier | 01-cache-hotness/code/main.c:78-90 | k/K selects 1024, m/M 1024^2 and g/G 1024^3, and each only those letters; any other last character gives 1 |
| Sizes.ParseSize | 01-cache-hotness/code/main.c:75-101 | parse_size: the multiplier of the last character times atoi of everything before that character; its meaning is stated by ParseSizeSuffixed, ParseSizeUnsuffixed, ParseSizeOfDigitEnd and ParseSizeSingle |
| Sizes.ParseSizeSuffixed | 01-cache-hotness/code/main.c:75-101 | digits followed by a size suffix parse to the number times the suffix's multiplier ("32K" is 32768) |
| Sizes.ParseSizeUnsuffixed | 01-cache-hotness/code/main.c:92-96 | without a suffix the last digit is still dropped before atoi, so a number of two or more digits parses to the number divided by 10 ("64" is 6) |
| Sizes.ParseSizeOfDigitEnd | 01-cache-hotness/code/main.c:92-96 | a text ending in a digit parses to atoi of everything before that digit |
| Sizes.ParseSizeSingle | 01-cache-hotness/code/main.c:92-96 | a one-character text parses to 0, since atoi sees the empty string |
| Sizes.UnitFor | 01-cache-hotness/code/main.c:107-122 | the unit chosen is the largest whose scale does not exceed the size, bytes below 1024 |
| Sizes.HumanReadableSize | 01-cache-hotness/code/main.c:103-124 | human_readable_size's text has no NUL and at least three characters, so it is copied whole with `%s`; HumanReadableSizeShows states its content |
| Sizes.HumanReadableSizeShows | 01-cache-hotness/code/main.c:103-124 | the text is the truncated quotient, a space and the unit; the quotient times the scale brackets the size; it is below 1024 for every unit but GB and at least 1 above bytes; atoi reads the quotient back |
| Sizes.CpuFreqToStr | 01-cache-hotness/code/main.c:337-343 | cpu_freq_to_str as written, with `cpu_freq / 1000` after the point; CpuFreqToStrShowsWholeMegahertz states what it prints |
| Sizes.CpuFreqToStrShowsWholeMegahertz | 01-cache-hotness/code/main.c:337-343 | as written, the text after the point is the whole frequency in megahertz; from 1 GHz on it has four or more digits and differs from the intended text |
| Sizes.CpuFreqText | 01-cache-hotness/code/main.c:337-343 | cpu_freq_to_str as evidently intended, with the megahertz below the gigahertz after the point; CpuFreqTextReadsBack states what it prints |
| Sizes.CpuFreqTextReadsBack | 01-cache-hotness/code/main.c:339-341 | the corrected text has exactly three digits after the point, and the gigahertz and those digits give back the whole megahertz |
| Sizes.SysfsNumber | 01-cache-hotness/code/main.c:273-279 | the test get_cache_line_size and get_cpu_freq apply after strtol: some digit consumed and the scan stopped at a NUL, a newline or the end; the Accepts and Rejects lemmas below state which texts pass |
| Sizes.SysfsNumberAccepts | 01-cache-hotness/code/main.c:273-279 | a number followed by a newline, or by nothing, is accepted with its value |
| Sizes.SysfsNumberRejectsTrailing | 01-cache-hotness/code/main.c:302-308 | a number followed by any character other than a digit, a newline or a NUL is rejected |
| Sizes.SysfsNumberRejectsNoDigits | 01-cache-hotness/code/main.c:302-308 | when strtol consumed nothing the value is rejected |
| Sizes.ReadSysfsNumber | 01-cache-hotness/code/main.c:254-308 | get_cache_line_size and get_cpu_freq on a file's contents: -1 for a failed open or read and for a text the test rejects, otherwise the number read; SysfsValueRoundTrip states the value returned for what sysfs writes |
| Sizes.SysfsValueRoundTrip | 01-cache-hotness/code/main.c:254-308 | a value sysfs writes as digits and a newline is returned as written by get_cache_line_size and get_cpu_freq, provided it fits the 31-byte read |
| CacheProbe.ReadStrip | 01-cache-hotness/code/main.c:355-367 | a read of at most 31 bytes into the 32-byte buffer copies the file's first bytes, turns the last byte read into a NUL when it is a newline, and leaves every byte after the read as it was |
| CacheProbe.ReadStripLine | 01-cache-hotness/code/main.c:388-398 | a newline-terminated file that fits the read leaves its line as the C string, whatever the buffer held before |
| CacheProbe.ClassifyType | 01-cache-hotness/code/main.c:369-378 | the strcmp chain: "Instruction", "Data" and "Unified" name their type and any other string is invalid; TypeLine and CacheSizeOfSysfs state how a type file is classified |
| CacheProbe.CacheSizeAsWritten | 01-cache-hotness/code/main.c:345-404 | get_cache_size as written, with the size read into the type's buffer; it demands a size file only of data and unified caches; StaleTypeTailCounterexample, CacheSizeAgreesOnLines and SizeFileUnread state where it differs from the corrected probe and where not |
| CacheProbe.CacheSize | 01-cache-hotness/code/main.c:345-404 | get_cache_size with a cleared buffer for the size read; it demands a size file only of data and unified caches; CacheSizeOfSysfs and SizeFileUnread state its results |
| CacheProbe.SizeFileUnread | 01-cache-hotness/code/main.c:369-378 | for an instruction cache or an unknown type, both probes give the same result whatever the size file holds: 0 for an instruction cache, -1 otherwise, without errno |
| CacheProbe.CacheSizeOfSysfs | 01-cache-hotness/code/main.c:369-404 | "Data" and "Unified" caches give their size text times its multiplier, "Instruction" gives 0 whatever the size file holds, any other type gives -1, and none of these sets errno |
| CacheProbe.TypeLine | 01-cache-hotness/code/main.c:355-378 | a one-line type file is classified by its line |
| CacheProbe.CacheSizeAgreesOnLines | 01-cache-hotness/code/main.c:388-398 | when the size file is a newline-terminated line, the as-written probe and the corrected one agree |
| CacheProbe.StaleTypeTailCounterexample | 01-cache-hotness/code/main.c:388-401 | with type "Data\n" and size "32K" (no newline) the code as written returns 32 and the corrected probe 32768 |
| CacheProbe.GetCacheSize | 01-cache-hotness/code/main.c:434 | the probe get_cache_sizes calls, as written or corrected as its flag selects |
| CacheProbe.Probed | 01-cache-hotness/code/main.c:422-434 | the index directories of the listing in readdir order, each with its probe; the loop of GetCacheSizes follows it entry by entry |
| CacheProbe.Stored | 01-cache-hotness/code/main.c:435 | a probed directory is stored exactly when its size is positive |
| CacheProbe.AnyErrno | 01-cache-hotness/code/main.c:421-450 | errno is set after the loop exactly when some probe's open or read failed, since nothing in the loop clears it |
| CacheProbe.Fill | 01-cache-hotness/code/main.c:435-437 | the table after the stores in readdir order keeps the caller's length; FillStored, FillAt and LastStoreWins state its contents |
| CacheProbe.Highest | 01-cache-hotness/code/main.c:419-443 | highest_index is at least its initial -1 and no stored index exceeds it |
| CacheProbe.HighestAttained | 01-cache-hotness/code/main.c:440-443 | a highest_index other than -1 is the index of a directory whose size was stored |
| CacheProbe.Table | 01-cache-hotness/code/main.c:407-455 | the table get_cache_sizes leaves has the caller's length; an unopenable directory leaves it untouched; every stored directory's slot ends positive; every slot that changed holds a positive size |
| CacheProbe.CacheCount | 01-cache-hotness/code/main.c:413-454 | get_cache_sizes' return value: -1 on an opendir, readdir or file error, otherwise highest_index + 1; CacheCountMeaning states what it says about the table |
| CacheProbe.GetCacheSizes | 01-cache-hotness/code/main.c:407-455 | with either probe (as written or corrected), the array after the loop is the table function of its old contents and the listing, and the return value is the count function for that probe |
| CacheProbe.StoreFound | 01-cache-hotness/code/main.c:435-437 | `cache_sizes[index] = cache_size` happens exactly for a stored directory and changes that slot alone |
| CacheProbe.FoundAppended | 01-cache-hotness/code/main.c:434-443 | one more probed directory updates the table at its index when stored, raises highest_index to its index when stored and higher, and sets errno when its probe did |
| CacheProbe.FillStored | 01-cache-hotness/code/main.c:435-437 | every stored directory's slot ends positive, and a slot that changed holds a positive size |
| CacheProbe.FillAt | 01-cache-hotness/code/main.c:434-437 | a slot no directory stores into keeps its value, and a changed slot holds the positive size of a directory with that index |
| CacheProbe.LastStoreWins | 01-cache-hotness/code/main.c:435-437 | when directory w is the last in readdir order to store into slot k, the slot ends holding w's size |
| CacheProbe.CacheCountMeaning | 01-cache-hotness/code/main.c:419-454 | for either probe, the count never exceeds the table; a positive count's last slot holds a positive size, and every slot from the count on is untouched |
| CacheProbe.Render | 01-cache-hotness/code/main.c:474-482 | a positive size renders as human_readable_size's text or as `%zu` digits, non-empty and without NUL, so it can be copied with `%s` |
| CacheProbe.Rendered | 01-cache-hotness/code/main.c:470-482 | only positive sizes are rendered, so there are at most as many pieces as slots, and no piece contains a NUL |
| CacheProbe.ListedJoin | 01-cache-hotness/code/main.c:483-497 | the pieces each followed by ", " are the pieces joined by ", " plus a final ", " |
| CacheProbe.AppendPiece | 01-cache-hotness/code/main.c:483-489 | one append keeps result_size at least 1 and within the buffer |
| CacheProbe.AppendSizes | 01-cache-hotness/code/main.c:470-491 | the whole loop keeps result_size at least 1 and within the buffer |
| CacheProbe.AppendPieceCorrected | 01-cache-hotness/code/main.c:483-489 | with the corrected check, an append fails exactly when "[", the text so far, the piece and the NUL no longer fit; otherwise the buffer holds "[" and the text extended by the piece |
| CacheProbe.AppendSizesCorrected | 01-cache-hotness/code/main.c:468-491 | the corrected loop fails exactly when some piece no longer fits with its NUL; otherwise the buffer holds "[" and every positive size followed by ", " |
| CacheProbe.AppendSizesStaysFailed | 01-cache-hotness/code/main.c:484-488 | once an append has failed, the remaining slots change nothing, as the early return does |
| CacheProbe.Finish | 01-cache-hotness/code/main.c:493-499 | after the loop: -1 when an append failed or nothing was appended, otherwise "]" written at result_size - 2 with the as-written bound or the corrected one; CloseList states what it writes |
| CacheProbe.CacheListAsWritten | 01-cache-hotness/code/main.c:457-500 | get_cache_sizes_str as written; ExactFitCounterexample, DroppedBracketCounterexample and CacheListAgreesWithRoom state where it differs from the corrected listing and where not |
| CacheProbe.CacheList | 01-cache-hotness/code/main.c:457-500 | get_cache_sizes_str with both bounds corrected; CacheListMeaning states its result |
| CacheProbe.CacheListMeaning | 01-cache-hotness/code/main.c:457-500 | for the corrected listing, the result is 0 or -1; it is 0 exactly when the count is positive, some slot below it is positive and "[", every size followed by ", ", and the NUL fit (one byte more than "[", the joined sizes, "]" and the NUL, since the last piece is written with its ", " before "]" replaces it); the buffer then reads "[" + positive sizes in index order joined by ", " + "]" |
| CacheProbe.CloseList | 01-cache-hotness/code/main.c:497 | "]" over the final ", " closes the list; with the as-written bound the result is still 0, and the list is closed exactly when two bytes follow the ", " |
| CacheProbe.CacheListAgreesWithRoom | 01-cache-hotness/code/main.c:483-497 | with a spare byte after the last ", ", the as-written listing succeeds with the same text as the corrected one |
| CacheProbe.AppendSizesAgree | 01-cache-hotness/code/main.c:484 | while no piece is cut short, the as-written and corrected checks take the same steps |
| CacheProbe.ExactFitCounterexample | 01-cache-hotness/code/main.c:483-489 | a 4-byte buffer and one cache of 7 bytes: the code as written returns 0 with the buffer reading "[7,", the corrected check returns -1 |
| CacheProbe.DroppedBracketCounterexample | 01-cache-hotness/code/main.c:497 | a 5-byte buffer and one cache of 7 bytes: as written the result is 0 but the buffer reads "[7"; the corrected bound gives "[7]" |
| CacheProbe.WritePiece | 01-cache-hotness/code/main.c:483-489 | one snprintf at result_size and its truncation check, as written (`>`) or corrected (`>=`), leave the array and result_size as the append function for that check says |
| CacheProbe.WriteList | 01-cache-hotness/code/main.c:468-499 | the result and the array are the as-written or the corrected listing function of the old buffer, the table and the count, as the flag selects |
| CacheProbe.GetCacheSizesStr | 01-cache-hotness/code/main.c:457-500 | with either probe and listing (as written or corrected), the count of the 10-slot zeroed table never exceeds 10, and the result and buffer are that listing of the table get_cache_sizes fills, with that count |
| Barrier.Inbound | 01-cache-hotness/code/main.c:555-556 | the pipe a role reads is the pipe the other role writes |
| Barrier.Send | 01-cache-hotness/code/main.c:555-562 | the write appends the phase byte to the role's own pipe and leaves the pipe it reads alone |
| Barrier.Receive | 01-cache-hotness/code/main.c:564-577 | the read half of synchronize: a failed read returns -1 and consumes nothing, an empty pipe blocks, otherwise one byte is consumed; SyncMovesOneByte and SyncFaults state the outcomes |
| Barrier.SyncSpec | 01-cache-hotness/code/main.c:553-578 | one synchronize call on the pipe state: the write, then the read and the phase comparison; SyncMovesOneByte, SyncFaults and Rendezvous state its meaning |
| Barrier.SyncMovesOneByte | 01-cache-hotness/code/main.c:553-578 | a call that does not fail appends exactly its phase to its own pipe; it blocks iff its inbound pipe is empty, and otherwise consumes exactly the first byte and returns 0 iff that byte is the phase, else -1 |
| Barrier.SyncFaults | 01-cache-hotness/code/main.c:558-569 | a failed write or read returns -1 and consumes nothing, and a failed write also writes nothing |
| Barrier.Pipes.constructor | 01-cache-hotness/code/main.c:536-551 | open_pipes yields two empty pipes |
| Barrier.Pipes.ReadPhase | 01-cache-hotness/code/main.c:564-577 | the read half of synchronize changes the pipes and returns as the receive function says |
| Barrier.Pipes.Synchronize | 01-cache-hotness/code/main.c:553-578 | synchronize changes the pipes and returns as the one-call specification says |
| Barrier.Rendezvous | 01-cache-hotness/code/main.c:737-740 | from fresh pipes, the first caller blocks, the second returns 0 iff the phases agree, the first then returns 0 iff they agree, and both pipes end empty |
| Settings.Other | 01-cache-hotness/code/main.c:555-556 | the other role is never the role itself |
| Settings.BlockWords | 01-cache-hotness/code/main.c:727-733 | a block of cache_line_size bytes holds every word the run accesses |
| Timing.DiffNs | 01-cache-hotness/code/main.c:774-775 | the nanosecond difference is the difference of the two readings in nanoseconds |
| Timing.Split | 01-cache-hotness/code/main.c:776-779 | the re-split of a nanosecond count with C's truncating `/` and `%`; SplitRecombines and SplitOfToNs state its meaning |
| Timing.Elapsed | 01-cache-hotness/code/main.c:774-779 | a timing between two readings; ElapsedMeasures states its meaning |
| Timing.SplitRecombines | 01-cache-hotness/code/main.c:776-779 | the split gives back the difference (`tv_sec*10^9 + tv_nsec == d`), normalized with `0 <= tv_nsec < 10^9` for d >= 0, and with both parts non-positive for d < 0 |
| Timing.SplitOfToNs | 01-cache-hotness/code/main.c:810-813 | splitting a normalized duration's nanoseconds gives the same duration back |
| Timing.AverageNs | 01-cache-hotness/code/main.c:848-849 | the truncated half of the parent's and child's totals in nanoseconds; AverageBetween states its meaning |
| Timing.Average | 01-cache-hotness/code/main.c:848-853 | the average re-split into seconds and nanoseconds; AverageCommutes, AverageSame and AverageBetween state its meaning |
| Timing.ElapsedMeasures | 01-cache-hotness/code/main.c:808-813 | for readings in order the duration is normalized and measures the time between them |
| Timing.AverageCommutes | 01-cache-hotness/code/main.c:848-853 | the average of the parent's and child's totals does not depend on their order |
| Timing.AverageSame | 01-cache-hotness/code/main.c:848-853 | the average of a normalized duration with itself is that duration |
| Timing.AverageBetween | 01-cache-hotness/code/main.c:848-853 | the average is normalized, is the truncated half of the sum, and lies between the two durations |
| Workload.CountAppend | 01-cache-hotness/code/main.c:749-766 | events counted over a concatenation add up |
| Workload.ExpectedTrace | 01-cache-hotness/code/main.c:749-793 | the passes, yields and midpoint a run goes through; TraceShape states its shape and TimedRun proves the loops produce it |
| Workload.RepeatLength | 01-cache-hotness/code/main.c:749 | n rounds of a unit are n times as long as the unit |
| Workload.RepeatCount | 01-cache-hotness/code/main.c:749-766 | n rounds of a unit hold n times its count of each event |
| Workload.TraceShape | 01-cache-hotness/code/main.c:749-793 | the midpoint occurs once; a sequential child only yields before it, n times, and only passes after it, n times; every other run does n passes and n yields before it and nothing after; every run does n passes |
| Workload.AllocateWorkingSet | 01-cache-hotness/code/main.c:723-735 | memory_total / cache_line_size new, distinct blocks of cache_line_size bytes, each with its accessed words set to 0 |
| Workload.ZeroWords | 01-cache-hotness/code/main.c:731-734 | the first access_per_cache_line words become 0 and the rest keep their value |
| Workload.IncrementBlock | 01-cache-hotness/code/main.c:759-762 | the first access_per_cache_line words are incremented once and the rest keep their value |
| Workload.IncrementPass | 01-cache-hotness/code/main.c:757-763 | one pass increments the accessed words of every block once and writes nothing else |
| Workload.TimedRun | 01-cache-hotness/code/main.c:742-813 | every accessed word ends incremented yield_count times and no other word changes; the trace is the expected one for the role and mode; both durations are normalized and measure start to middle and start to finish |
| Workload.RunWorkload | 01-cache-hotness/code/main.c:723-813 | in both modes and both roles every accessed word of every block ends equal to yield_count |

## Left out

- Process plumbing: `fork`, `wait`, `exit`, and the sending of the child's durations to the parent over the pipe. These are process creation and inter-process I/O. The barrier is modelled call by call on the pipe state. `Barrier.Rendezvous` covers the start barrier as the two processes run it. No other interleaving of the two processes is modelled.
- Scheduling calls: `sched_setaffinity`, `sched_setscheduler` and `sched_yield` are system calls with no result the model could use. `sched_yield` appears only as a `Yield` event in the ghost trace. `set_affinity` pins to `cpu - 1`; that choice is not modelled.
- Clocks and `getrusage`: clock readings are method parameters, ordered start <= middle <= finish. The measured times and the frequency drift check after the run are not modelled.
- Filesystem: `open`, `read`, `opendir` and `readdir` are replaced by file contents (`None` for a failed open or read) and by a listing whose order is an input.
- `sscanf(d_name, "index%d")`: the index is part of the listing; name parsing is not modelled.
- The `PATH_MAX` path formatting in `get_cache_size` and `get_cache_sizes` is not modelled, nor the error return taken when that check fails.
- Output and option handling: `write_file`, `print_msg` and other logging, `show_help`, `parse_options`/`getopt_long`, `initialize_settings` and `configure` are command-line and I/O glue.
- Integer widths: `size_t` and `long` arithmetic is unbounded in the model. This covers signed overflow in the nanosecond differences, strtol's clamp on overflow, a negative atoi result wrapping to `size_t` in `parse_size`, and the `cache_count` loop bound compared as `size_t`.
- Sizes.ParseSize: an empty string (which the C code indexes at `str[-1]`) is excluded by a precondition. A size file that is read is non-empty, does not start with a NUL and is not a lone newline (see CacheProbe.SizeFileOk).
- Sizes.ReadSysfsNumber: the C buffer is not NUL-terminated after `read`. The model treats the end of the bytes read as the end of the string, instead of reading whatever the uninitialised stack bytes hold.
- `human_readable_size` and `cpu_freq_to_str` write through `snprintf(buf, buf_size-1, ...)`. The model gives their text, not the buffer. With the callers' 128-byte buffers the text always fits. Their return values are not modelled.
- CacheProbe.CacheSize: errno is modelled only as "a failed open or read set it". Since errno is never cleared in the loop, `get_cache_sizes` then returns -1. Whether logging calls touch errno is not modelled.
- Workload.AllocateWorkingSet: `malloc` never fails in the model. The words of a block that the run never accesses are left as allocated, rather than as arbitrary garbage. `free` is not modelled.
- Settings.ValidConfig: the C code checks neither `cache_line_size > 0` nor `access_per_cache_line * sizeof(size_t) <= cache_line_size`. The model requires both, so that the working set can be divided into blocks and every access stays inside its block; a configuration that breaks them divides by zero or writes past a block in C and is not modelled.
- CacheProbe.ValidEntries: `get_cache_sizes` writes `cache_sizes[index]` without checking the index. The model requires every stored index to lie inside the caller's array; an index outside it writes out of bounds in C and is not modelled.
- CacheProbe.TypeFileOk: `get_cache_size` reads `buf[bytes_read - 1]`, which is out of bounds for an empty type file. The model requires a readable type file to be non-empty.
- CacheProbe.SizeFileOk: the size file of a data or unified cache, when readable, must be non-empty (`get_cache_size` reads `buf[bytes_read - 1]`), must not start with a NUL and must not be a lone newline, because otherwise `parse_size` receives the empty string (see Sizes.ParseSize above). Instruction caches and unknown types never read their size file and are modelled whatever it holds (CacheProbe.ProbeOk).
- CacheProbe.Fill: its own contract states only that the table keeps its length. The contents are stated by the lemmas FillStored, FillAt and LastStoreWins, which keeps the quantified facts out of the loop proof of GetCacheSizes.

## Findings

| source | as written | input that shows it | evidently intended | confidence | as-written member | corrected member |
|---|---|---|---|---|---|---|
| 01-cache-hotness/code/main.c:340-341 | `megahz = cpu_freq / 1000` is printed after the point with `%03ld` | 2400000 kHz prints "2." followed by 2400, not "2.400 GHz" | the megahertz below the gigahertz, `cpu_freq / 1000 % 1000` | not executed | Sizes.CpuFreqToStrShowsWholeMegahertz | Sizes.CpuFreqTextReadsBack |
| 01-cache-hotness/code/main.c:388-398 | the size file is read into the same buffer as the type file without clearing it | type "Data\n", size "32K" with no newline: the buffer reads "32Ka" and the probe returns 32 | the size parsed from the size file alone, 32768 | not executed | CacheProbe.StaleTypeTailCounterexample | CacheProbe.CacheSizeOfSysfs |
| 01-cache-hotness/code/main.c:484 | truncation is detected only when `chars_written > buf_size - result_size` | a 4-byte buffer and one cache of 7 bytes: "7, " is cut to "7," and the call returns 0 | failure whenever snprintf had to cut the piece (`>=`) | not executed | CacheProbe.ExactFitCounterexample | CacheProbe.CacheListMeaning |
| 01-cache-hotness/code/main.c:497 | "]" is written at `result_size - 2` with the bound `buf_size - result_size` | a 5-byte buffer and one cache of 7 bytes: only the NUL fits and the list reads "[7" | the bound `buf_size - result_size + 2`, the room left at the write position, giving "[7]" | not executed | CacheProbe.DroppedBracketCounterexample | CacheProbe.CacheListMeaning |
