# MapReduceFramework in Dafny

A model of the core of MapReduceFramework. This is a MapReduce engine written in Java, with a small Angular web console. A job's mapper turns input lines into key/value records. The shuffle routes each record by key hash to one reducer, sorts the records externally, merges the sorted runs and groups them by key. The reducer then turns every group into output records. Map and reduce tasks run in one of two ways. The sequential runner runs them in one process. In the distributed setting, a coordinator hands them to workers over HTTP.

The model covers:

- **The data path.** It covers the line format of records (`KeyValueFormat`) and the plain and ZIP file sinks (`FileSinks`, `ZipFileSinks`). It covers the line reader (`KeyValueFileIterators`) and the two external-sort sinks (`SortedFileSinks`, `AltSortedFileSinks`, with their shared sorted runs in `SortedRuns`). It also covers the hash-partitioning sink (`PartitionedFileSinks`), the k-way heap merge (`MergedKeyValueIterators`) and the grouping iterator (`GroupedKeyValuesIterators`). These are classes whose fields the methods update, as in the Java code. Stable sorting and comparators are in `Ordering`.
- **The task bodies and the sequential runner.** `MapReduceTasksRunner` models a map task and a reduce task end to end. `MapReduceSequentialRunner` covers the split of the input among the map tasks, the map phase, the reduce phase and the whole run. It proves what each reducer's output file holds.
- **Scheduling and bookkeeping.** This covers the coordinator's scheduler, shared by the embedded and the stand-alone coordinator (`Coordinators`). It also covers the worker's task slot and history and the shared FAILED status (`Workers`), and the embedded endpoint's `WorkerManager`. Finally, it covers the two job logs (`JobMetrics`, `JobRegistry`).
- **Configuration and entry points.** This covers `Configuration` and the predefined serializers and hash (`PredefinedFunctions`). It covers the choice of a storage provider and its connection parameters (`StorageProviders`), and the worker endpoint's routing (`WorkerEndpoints`). It also covers the command lines of the two applications (`Application`, `WorkerApplication`) and the web console's `JobService` URL building (`JobServices`).
- **Java semantics the code relies on.** `JavaInt` gives 32-bit `int` arithmetic and the truncating `%`. `JavaString` gives `split`, `trim`, `compareTo`, `hashCode`, `Integer.parseInt` and `Integer.toString`. `Wrappers` gives `Option` and `Result`, whose errors carry the Java exception class and message.

How the model stands in for the outside world:

- **Files.** A sink writes texts, each followed by a newline. A reader sees the lines `readLine` cuts that content into, at '\n', '\r' and "\r\n", so a written text that holds a line break comes back as several lines. A directory maps a file name to the lines a reader sees.
- **Exceptions.** A Java exception is an `Err` value.
- **Outcomes the code cannot control.** These are parameters of the model:
  - whether a task reached a worker (`delivered`),
  - the result of running a task on a worker (`runner`),
  - the network interfaces and free ports,
  - the storage listing.
- **Where the two sources disagree.** Where the repository's documentation and its code differ, the model follows the code. For example, the sequential runner really reads `.zip` names in its reduce phase (see "## Findings").

## Model

| member | source | states |
|---|---|---|
| FileSinks.FileSink.constructor | mr-core/src/main/java/ru/nsu/mr/sinks/FileSink.java:15-20 | a new sink holds no lines and no puts and is open |
| FileSinks.FileSink.Put | mr-core/src/main/java/ru/nsu/mr/sinks/FileSink.java:22-28 | on an open writer, appends exactly one line, `serialize(key) + " " + serialize(value)`, and records the pair; on a closed writer, fails with an IOException and changes nothing |
| FileSinks.FileSink.Close | mr-core/src/main/java/ru/nsu/mr/sinks/FileSink.java:30-33 | closes the writer and leaves the written lines unchanged |
| FileSinks.PutAll | mr-core/src/main/java/ru/nsu/mr/sinks/FileSink.java:22-28 | putting records one by one appends their lines in put order, and the sink keeps its line invariant |
| FileSinks.WriteFile | mr-core/src/main/java/ru/nsu/mr/sinks/FileSink.java:15-33 | a file written through a fresh sink holds exactly one formatted line per record, in put order, and is empty when nothing was put |
| ZipFileSinks.EntryName | mr-core/src/main/java/ru/nsu/mr/sinks/ZipFileSink.java:26 | wherever `\.zip$` matches, that is where ".zip" ends the name or only one final line terminator (\n, \r, \r\n, U+0085, U+2028 or U+2029) follows it, the ".zip" becomes ".txt" and the terminator stays; a name where it matches nowhere is kept; the length never changes |
| ZipFileSinks.OnlyLastSuffixRewritten | mr-core/src/main/java/ru/nsu/mr/sinks/ZipFileSink.java:26 | "a.zip.zip" becomes "a.zip.txt": only the final ".zip" is rewritten |
| ZipFileSinks.ZipPosition | mr-core/src/main/java/ru/nsu/mr/sinks/ZipFileSink.java:26 | the position it finds is one where `\.zip$` matches |
| ZipFileSinks.ZipAtIsPosition | mr-core/src/main/java/ru/nsu/mr/sinks/ZipFileSink.java:26 | `\.zip$` matches at one position at most, the one ZipPosition finds, since no line terminator holds a 'p' |
| ZipFileSinks.ZipSuffixReplaced | mr-core/src/main/java/ru/nsu/mr/sinks/ZipFileSink.java:26 | a name that ends in ".zip" has that suffix replaced by ".txt" |
| ZipFileSinks.OtherSuffixKept | mr-core/src/main/java/ru/nsu/mr/sinks/ZipFileSink.java:26 | "a.zip.gz" is kept, since ".zip" is not at its end |
| ZipFileSinks.TerminatedZipName | mr-core/src/main/java/ru/nsu/mr/sinks/ZipFileSink.java:26 | a ".zip" followed by one final line terminator becomes ".txt" with the terminator kept |
| ZipFileSinks.FinalTerminatorKept | mr-core/src/main/java/ru/nsu/mr/sinks/ZipFileSink.java:26 | "a.zip\n" becomes "a.txt\n" and "a.zip\r\n" becomes "a.txt\r\n" |
| ZipFileSinks.ZipFileSink.constructor | mr-core/src/main/java/ru/nsu/mr/sinks/ZipFileSink.java:19-30 | exactly one entry is opened, named by `EntryName` of the archive name, before anything is put |
| ZipFileSinks.ZipFileSink.Put | mr-core/src/main/java/ru/nsu/mr/sinks/ZipFileSink.java:32-38 | writes the same one-line `key value` format as FileSink into the one entry, in put order; a closed writer fails with an IOException and nothing changes |
| ZipFileSinks.ZipFileSink.Close | mr-core/src/main/java/ru/nsu/mr/sinks/ZipFileSink.java:40-45 | closes the writer and keeps the lines and the single entry |
| KeyValueFormat.Lines | mr-core/src/main/java/ru/nsu/mr/sinks/FileSink.java:22-28 | one line per record, in put order, each `serialize(key) + " " + serialize(value)` |
| KeyValueFormat.LinesAppend | mr-core/src/main/java/ru/nsu/mr/sinks/FileSink.java:22-28 | the lines of two put sequences, one after the other, are the lines of their concatenation |
| KeyValueFormat.SplitLine | mr-core/src/main/java/ru/nsu/mr/sources/KeyValueFileIterator.java:60-63 | fails with IllegalArgumentException "Invalid key-value pair: " + line exactly when the line has no space, an empty line included; otherwise the key text is the space-free prefix and the line is key text, one space, value text, so later spaces stay in the value and empty parts are kept |
| KeyValueFormat.ParseLine | mr-core/src/main/java/ru/nsu/mr/sources/KeyValueFileIterator.java:60-66 | a line parses exactly when it holds a space |
| KeyValueFormat.ReadAll | mr-core/src/main/java/ru/nsu/mr/sources/KeyValueFileIterator.java:42-73 | a file reads back exactly when every line holds a space; then it gives one pair per line, in file order, each the parse of its line; otherwise it fails with the IllegalArgumentException of the first line without a space |
| KeyValueFormat.LineTextRoundTrip | mr-core/src/main/java/ru/nsu/mr/sinks/FileSink.java:26 | when the key text has no space, splitting the written line gives back the exact key text and value text |
| KeyValueFormat.LineWithSpacedKey | mr-core/src/main/java/ru/nsu/mr/sources/KeyValueFileIterator.java:60 | a key text holding a space does not survive: the line still parses, but with a different key text |
| KeyValueFormat.ReadAllLines | mr-core/src/main/java/ru/nsu/mr/sources/KeyValueFileIterator.java:44-66 | with line-safe codecs, reading back the lines of a file a sink wrote gives back exactly the records put, in order |
| KeyValueFormat.WrittenLinesAreOneLine | mr-core/src/main/java/ru/nsu/mr/sinks/FileSink.java:26-27 | with line-safe codecs no written text holds '\n' or '\r' |
| KeyValueFormat.LineEndIs | mr-core/src/main/java/ru/nsu/mr/sources/KeyValueFileIterator.java:46 | `readLine` ends a line at the first '\n' or '\r': no character before that point is either |
| KeyValueFormat.ReadLinesAppend | mr-core/src/main/java/ru/nsu/mr/sources/KeyValueFileIterator.java:46 | reading the lines of two texts, the first ending in a newline, is reading the lines of each, one after the other |
| KeyValueFormat.ReadLinesOneLine | mr-core/src/main/java/ru/nsu/mr/sources/KeyValueFileIterator.java:46 | a text without '\n' or '\r', written with `newLine`, reads back as exactly that one line |
| KeyValueFormat.ReadTwoLines | mr-core/src/main/java/ru/nsu/mr/sources/KeyValueFileIterator.java:46 | two such texts, each followed by a newline, read back as exactly those two lines |
| KeyValueFormat.FileLinesSnoc | mr-core/src/main/java/ru/nsu/mr/sinks/FileSink.java:26-27 | the file after one more record is the lines read so far followed by the lines of that record's text and newline |
| KeyValueFormat.FileLinesOneLine | mr-core/src/main/java/ru/nsu/mr/sinks/FileSink.java:26-27 | when no written text holds a line break, `readLine` gives back exactly the texts written |
| KeyValueFormat.FileLinesOfLines | mr-core/src/main/java/ru/nsu/mr/sinks/FileSink.java:26-27 | one more put adds exactly the lines of its own record to what `readLine` gives |
| KeyValueFormat.ReadableSameRecords | mr-core/src/main/java/ru/nsu/mr/sources/KeyValueFileIterator.java:44-66 | whether records read back depends only on which records they are, not on their order |
| KeyValueFormat.ReadableAppend | mr-core/src/main/java/ru/nsu/mr/sources/KeyValueFileIterator.java:44-66 | two batches of records read back exactly when each of them does |
| KeyValueFormat.ReadableByColumn | mr-core/src/main/java/ru/nsu/mr/sources/KeyValueFileIterator.java:44-66 | every column of files reads back exactly when every file of every column does |
| KeyValueFormat.UnreadLine | mr-core/src/main/java/ru/nsu/mr/sources/KeyValueFileIterator.java:60-62 | records that do not read back have a written line without a space, which is the line `next` rejects |
| KeyValueFormat.LineSafeReadsBack | mr-core/src/main/java/ru/nsu/mr/sources/KeyValueFileIterator.java:44-66 | with line-safe codecs `readLine` gives back exactly the texts written, and they read back |
| KeyValueFormat.OneRecordFile | mr-core/src/main/java/ru/nsu/mr/sinks/FileSink.java:26-27 | one record written with the plain codec is the text `key + " " + value` and a newline, read line by line |
| KeyValueFormat.BrokenValueFails | mr-core/src/main/java/ru/nsu/mr/sources/KeyValueFileIterator.java:60-62 | the value "a\nb" is written as the lines "k a" and "b", and reading that file back fails with "Invalid key-value pair: b" |
| KeyValueFormat.SpacedBreakSplits | mr-core/src/main/java/ru/nsu/mr/sources/KeyValueFileIterator.java:60-66 | the value "a\n b" is read back, without an error, as the two records ("k", "a") and ("", "b") |
| KeyValueFormat.BrokenValueNotLineSafe | mr-core/src/main/java/ru/nsu/mr/sources/KeyValueFileIterator.java:46 | a value codec that writes "a\nb" as is is not line-safe |
| KeyValueFormat.WrittenLinesParse | mr-core/src/main/java/ru/nsu/mr/sources/KeyValueFileIterator.java:44-66 | the lines `readLine` returns from a file a sink wrote parse exactly when every record's written text, split at its own line terminators, gives only lines that hold a space (`Readable`); a text with a line break can therefore fail the file |
| KeyValueFileIterators.OpenLines | mr-core/src/main/java/ru/nsu/mr/sources/KeyValueFileIterator.java:29-40 | a ".zip" path with no archive entry fails with IOException "ZIP file is empty: " + path; a ".zip" path otherwise reads its first entry; any other path reads as plain text |
| KeyValueFileIterators.KeyValueFileIterator.constructor | mr-core/src/main/java/ru/nsu/mr/sources/KeyValueFileIterator.java:23-43 | the first line is pending after construction |
| KeyValueFileIterators.KeyValueFileIterator.HasNext | mr-core/src/main/java/ru/nsu/mr/sources/KeyValueFileIterator.java:49-52 | true exactly when a line is pending |
| KeyValueFileIterators.KeyValueFileIterator.Next | mr-core/src/main/java/ru/nsu/mr/sources/KeyValueFileIterator.java:54-74 | at end of input, NoSuchElementException; a pending line without a space gives IllegalArgumentException and the iterator does not move; otherwise it returns the parse of the pending line and moves to the next line |
| KeyValueFileIterators.KeyValueFileIterator.ReadRemaining | mr-core/src/main/java/ru/nsu/mr/sources/KeyValueFileIterator.java:49-74 | draining the iterator with `next` gives `ReadAll` of the remaining lines: one pair per line, in file order, or the first line's error |
| KeyValueFileIterators.ReadAllStep | mr-core/src/main/java/ru/nsu/mr/sources/KeyValueFileIterator.java:54-73 | reading from a position is the parse of that line followed by reading from the next position, or that line's error |
| KeyValueFileIterators.SinkLineReadBack | mr-core/src/main/java/ru/nsu/mr/sources/KeyValueFileIterator.java:60-66 | with line-safe codecs, the line a sink writes for a pair parses back to that pair |
| PartitionedFileSinks.SinkIndexInRange | mr-core/src/main/java/ru/nsu/mr/sinks/PartitionedFileSink.java:32-35 | for every 32-bit hash, negative ones included, and up to 2^30 sinks, the index `(hash % n + n) % n` is the non-negative residue of the hash and names an existing sink |
| PartitionedFileSinks.SinkIndexOverflow | mr-core/src/main/java/ru/nsu/mr/sinks/PartitionedFileSink.java:32-35 | with more than 2^30 sinks the `int` sum `hash % n + n` can wrap and the index is negative (hash 0x5FFFFFFF over 0x60000000 sinks) |
| PartitionedFileSinks.Routed | mr-core/src/main/java/ru/nsu/mr/sinks/PartitionedFileSink.java:20-23 | the share of one sink is no longer than the records put and holds only records whose key routes to that sink |
| PartitionedFileSinks.RoutedSnoc | mr-core/src/main/java/ru/nsu/mr/sinks/PartitionedFileSink.java:20-23 | one more put extends exactly its own destination's share by that record and leaves every other share as it was |
| PartitionedFileSinks.RoutedHolds | mr-core/src/main/java/ru/nsu/mr/sinks/PartitionedFileSink.java:20-23 | every record put is in the share of its own destination |
| PartitionedFileSinks.RoutedAppend | mr-core/src/main/java/ru/nsu/mr/sinks/PartitionedFileSink.java:20-23 | the share of two batches of puts is the share of the first followed by the share of the second |
| PartitionedFileSinks.RoutedPartition | mr-core/src/main/java/ru/nsu/mr/sinks/PartitionedFileSink.java:20-23 | when every destination is a sink index, the shares together hold exactly as many records as were put |
| PartitionedFileSinks.RoutingPartitions | mr-core/src/main/java/ru/nsu/mr/sinks/PartitionedFileSink.java:20-35 | hash routing over at most 2^30 sinks sends each record to a sink that exists, and no record is lost or duplicated across the shares |
| PartitionedFileSinks.ReadableShares | mr-core/src/main/java/ru/nsu/mr/sinks/PartitionedFileSink.java:20-30 | the records put read back exactly when every sink's share does |
| PartitionedFileSinks.ShareReadable | mr-core/src/main/java/ru/nsu/mr/sinks/PartitionedFileSink.java:20-30 | when the records put read back, so does every share |
| PartitionedFileSinks.PartitionedFileSink.constructor | mr-core/src/main/java/ru/nsu/mr/sinks/PartitionedFileSink.java:12-18 | the sink keeps the list and the hasher it is given, and no record has been put yet |
| PartitionedFileSinks.PartitionedFileSink.Put | mr-core/src/main/java/ru/nsu/mr/sinks/PartitionedFileSink.java:20-23 | succeeds exactly when the routed index is inside the list; then the record is appended to that sink and no other sink changes; otherwise it fails with the `List.get` IndexOutOfBoundsException and nothing changes; each sink always holds its initial records plus its routed share |
| PartitionedFileSinks.PartitionedFileSink.Close | mr-core/src/main/java/ru/nsu/mr/sinks/PartitionedFileSink.java:25-30 | closes the sinks in list order; it succeeds exactly when every sink's records read back (`Readable`), and then every sink is closed with its records sorted by key; otherwise it fails with the RuntimeException wrapping a line without a space, raised by the first sink whose records do not read back, every sink before that one being closed; no sink's records change |
| PartitionedFileSinks.PartitionedFileSink.CloseSink | mr-core/src/main/java/ru/nsu/mr/sinks/PartitionedFileSink.java:27-29 | one turn of the loop: closing sink i succeeds exactly when its records read back, and then it is closed; the earlier sinks stay closed and no record changes |
| PartitionedFileSinks.NewPartitionedFileSink | mr-core/src/main/java/ru/nsu/mr/sinks/PartitionedFileSink.java:12-18 | an empty sink list fails with IllegalArgumentException "Sink list cannot be null or empty."; any other list gives a fresh sink over that list with no records put |
| SortedFileSinks.Capacity | mr-worker/src/main/java/ru/nsu/mr/sinks/SortedFileSink.java:48-53 | the number of records that triggers a spill is at least 1: it is `bufferSize` when that is positive and 1 otherwise, since `size >= bufferSize` holds after every add |
| SortedFileSinks.SortedFileSink.constructor | mr-worker/src/main/java/ru/nsu/mr/sinks/SortedFileSink.java:28-45 | a new sink keeps its codecs, buffer size and comparator, with an empty buffer, no dumps and no output |
| SortedFileSinks.SortedFileSink.Put | mr-worker/src/main/java/ru/nsu/mr/sinks/SortedFileSink.java:47-53 | the record is appended to the records put; when the buffer reaches `bufferSize` it is spilled (buffer empty, one more sorted dump), otherwise it is just buffered; the invariant (every dump a key-sorted chunk, the chunks followed by the buffer being the records put) is kept |
| SortedFileSinks.SortedFileSink.Flush | mr-worker/src/main/java/ru/nsu/mr/sinks/SortedFileSink.java:55-68 | an empty buffer creates no dump; otherwise the buffer is stably sorted by key, written as a new dump, and cleared; the records put are unchanged |
| SortedFileSinks.SortedFileSink.Close | mr-worker/src/main/java/ru/nsu/mr/sinks/SortedFileSink.java:70-96 | spills the buffer, then reads every dump back and merges it into the output; it succeeds exactly when the records put read back (`Readable`), and otherwise fails with a RuntimeException wrapping the IllegalArgumentException of a line without a space, writing no output; with line-safe codecs it succeeds and the output holds exactly the records put (as a multiset), sorted by key |
| SortedFileSinks.MergeSpills | mr-worker/src/main/java/ru/nsu/mr/sinks/SortedFileSink.java:74-96 | the read-back and merge step of `close`: it succeeds exactly when the records put read back, otherwise it fails with the wrapped error of a line without a space; on success the output lines are the merged records, and with line-safe codecs they are a permutation of the records put, sorted by key |
| SortedFileSinks.ClosedOutput | mr-worker/src/main/java/ru/nsu/mr/sinks/SortedFileSink.java:70-96 | from the sink invariant and the merge's guarantees: the dumps read back exactly when the records put do, and with line-safe codecs the merged output is a key-sorted permutation of the records put |
| SortedFileSinks.CeilDivIs | mr-worker/src/main/java/ru/nsu/mr/sinks/SortedFileSink.java:48-72 | the number of spills counted buffer by buffer is ceil(n / c) |
| SortedFileSinks.CeilDivSplit | mr-worker/src/main/java/ru/nsu/mr/sinks/SortedFileSink.java:48-72 | q full buffers plus r < c leftover records spill q times, plus once more at close when r > 0 |
| SortedFileSinks.PutEach | mr-worker/src/main/java/ru/nsu/mr/sinks/SortedFileSink.java:47-53 | putting every record into a fresh sink records them all in order, leaves a buffer smaller than the capacity, and the spills so far plus a non-empty leftover buffer number ceil(n / bufferSize) |
| SortedFileSinks.SortAll | mr-worker/src/main/java/ru/nsu/mr/sinks/SortedFileSink.java:47-96 | putting n records and closing spills ceil(n / capacity) times; the close succeeds exactly when the records read back, failing otherwise with the wrapped error of a line without a space; with line-safe codecs the output is a key-sorted permutation of the records |
| SortedRuns.RunsOfSnoc | mr-worker/src/main/java/ru/nsu/mr/sinks/SortedFileSink.java:55-68 | spilling one more buffer adds exactly its key-sorted run |
| SortedRuns.RunsOfFacts | mr-worker/src/main/java/ru/nsu/mr/sinks/SortedFileSink.java:59 | sorting each spilled chunk keeps its records and makes each run key-sorted |
| SortedRuns.FlattenSameRecords | mr-worker/src/main/java/ru/nsu/mr/sinks/SortedFileSink.java:48-67 | chunks that pairwise hold the same records hold the same records once concatenated |
| SortedRuns.DumpsHoldSnoc | mr-worker/src/main/java/ru/nsu/mr/sinks/SortedFileSink.java:60-66 | writing one more run to a new dump keeps every dump holding the lines of its run |
| SortedRuns.ReadBack | mr-worker/src/main/java/ru/nsu/mr/sinks/SortedFileSink.java:74-79 | the dumps read back exactly when every run written to them does (`Readable`), then one record sequence per dump, each what its own dump reads back to; otherwise the error is the IllegalArgumentException of a line without a space |
| SortedRuns.ReadRun | mr-worker/src/main/java/ru/nsu/mr/sinks/SortedFileSink.java:74-79 | one dump reads back exactly when its run does (`Readable`); otherwise with the IllegalArgumentException of a line without a space |
| SortedRuns.ReadBackPrefixFails | mr-worker/src/main/java/ru/nsu/mr/sinks/SortedFileSink.java:74-79 | a dump that fails to read back fails every longer list of dumps with the same error |
| SortedRuns.ReadableFlatten | mr-worker/src/main/java/ru/nsu/mr/sinks/SortedFileSink.java:74-79 | all dumps read back exactly when their runs, concatenated, do |
| SortedRuns.ReadBackWrapped | mr-worker/src/main/java/ru/nsu/mr/sinks/SortedFileSink.java:89-90 | a read-back error, wrapped in a RuntimeException by `close`, is the wrapped error of a line without a space |
| SortedRuns.ReadBackEach | mr-worker/src/main/java/ru/nsu/mr/sinks/SortedFileSink.java:74-79 | when each dump reads back to its own run, the dumps read back to the runs |
| SortedRuns.ReadBackSnoc | mr-worker/src/main/java/ru/nsu/mr/sinks/SortedFileSink.java:74-79 | reading one more dump either fails with its error or adds its records |
| SortedRuns.ReadRunLineSafe | mr-worker/src/main/java/ru/nsu/mr/sinks/SortedFileSink.java:61-77 | with line-safe codecs a dump read back gives exactly the run written to it |
| SortedRuns.ReadBackLineSafe | mr-worker/src/main/java/ru/nsu/mr/sinks/SortedFileSink.java:74-79 | with line-safe codecs all dumps read back give exactly the runs written |
| SortedRuns.ReadDumps | mr-worker/src/main/java/ru/nsu/mr/sinks/SortedFileSink.java:74-79 | opening a `KeyValueFileIterator` on every dump, in order, and draining it gives exactly `ReadBack` of the runs written: the records of each dump, or the first error |
| SortedRuns.MergeDumps | mr-worker/src/main/java/ru/nsu/mr/sinks/SortedFileSink.java:74-88 | fails exactly when reading the dumps back fails, with that error wrapped in a RuntimeException; otherwise the output lines are the merged records, which are a permutation of all records read back, and are key-sorted when every dump is |
| AltSortedFileSinks.Collect | mr-core/src/main/java/ru/nsu/mr/sinks/AltSortedFileSink.java:52 | after `computeIfAbsent(key, …).add(value)` for each record, the last record's key is in the buffer |
| AltSortedFileSinks.CollectValues | mr-core/src/main/java/ru/nsu/mr/sinks/AltSortedFileSink.java:52 | the buffer holds a key exactly when some record put since the last flush has it, and then its list is that key's values in put order |
| AltSortedFileSinks.CollectEmpty | mr-core/src/main/java/ru/nsu/mr/sinks/AltSortedFileSink.java:52-62 | the buffer is empty exactly when nothing was put since the last flush |
| AltSortedFileSinks.ReduceAllAppend | mr-core/src/main/java/ru/nsu/mr/sinks/AltSortedFileSink.java:65-71 | reducing two key lists one after the other emits the concatenation of what each emits |
| AltSortedFileSinks.ReduceAllBag | mr-core/src/main/java/ru/nsu/mr/sinks/AltSortedFileSink.java:65-71 | the HashMap's iteration order does not matter: every order of the keys emits the same pairs up to order |
| AltSortedFileSinks.ReduceBuffer | mr-core/src/main/java/ru/nsu/mr/sinks/AltSortedFileSink.java:63-71 | the reducer runs once per buffered key, in some order that lists every key exactly once, with that key's values, and the emitted pairs are collected in call order |
| AltSortedFileSinks.MergeReduced | mr-core/src/main/java/ru/nsu/mr/sinks/AltSortedFileSink.java:84-106 | after the final flush every put has been flushed; it succeeds exactly when everything the reducer emitted over all flushes reads back, and otherwise fails with the wrapped error of a line without a space; with line-safe codecs the output holds exactly what the reducer emitted, sorted by key |
| AltSortedFileSinks.AltSortedFileSink.constructor | mr-core/src/main/java/ru/nsu/mr/sinks/AltSortedFileSink.java:28-48 | a new sink keeps its codecs, threshold, comparator and reducer, with an empty buffer, a zero counter and no dumps |
| AltSortedFileSinks.AltSortedFileSink.Buffer | mr-core/src/main/java/ru/nsu/mr/sinks/AltSortedFileSink.java:52-53 | the value is added to its key's list and the 32-bit counter is incremented, with no flush |
| AltSortedFileSinks.AltSortedFileSink.Put | mr-core/src/main/java/ru/nsu/mr/sinks/AltSortedFileSink.java:50-57 | the record is buffered and the 32-bit counter incremented; when the counter reaches `bufferMaxSize` the buffer is flushed (buffer empty, one more reduced dump), otherwise nothing else changes |
| AltSortedFileSinks.AltSortedFileSink.Flush | mr-core/src/main/java/ru/nsu/mr/sinks/AltSortedFileSink.java:59-82 | an empty buffer creates no dump; otherwise the buffered records are reduced key by key, the emitted pairs sorted by key into one new dump, and the buffer cleared; the counter is not reset |
| AltSortedFileSinks.AltSortedFileSink.Close | mr-core/src/main/java/ru/nsu/mr/sinks/AltSortedFileSink.java:84-110 | flushes, then reads every dump back and merges it into the output: every put is in exactly one flush; it succeeds exactly when everything the reducer emitted reads back, otherwise fails with the wrapped error of a line without a space and writes no output; with line-safe codecs the output is exactly what the reducer emitted over all flushes, sorted by key |
| AltSortedFileSinks.PutPastThreshold | mr-core/src/main/java/ru/nsu/mr/sinks/AltSortedFileSink.java:53-56 | once the counter has reached the threshold the next put flushes too, and the counter stays at or above the threshold, because a flush never resets it |
| MergedKeyValueIterators.PrefixesAdvance | mr-worker/src/main/java/ru/nsu/mr/sources/MergedKeyValueIterator.java:39-41 | taking one more record from source i adds exactly that record to what has been taken |
| MergedKeyValueIterators.MinimumExists | mr-worker/src/main/java/ru/nsu/mr/sources/MergedKeyValueIterator.java:14-34 | a non-empty heap has an entry of minimum key under a total comparator, so `poll` has something to return |
| MergedKeyValueIterators.PollOrder | mr-worker/src/main/java/ru/nsu/mr/sources/MergedKeyValueIterator.java:34-41 | when every source is key-sorted, the record polled is no smaller than any record returned before it and no larger than anything still to come |
| MergedKeyValueIterators.PollKeeps | mr-worker/src/main/java/ru/nsu/mr/sources/MergedKeyValueIterator.java:34-36 | polling a minimum entry moves its record to the output and keeps the merge invariant |
| MergedKeyValueIterators.RefillKeeps | mr-worker/src/main/java/ru/nsu/mr/sources/MergedKeyValueIterator.java:39-41 | refilling from the polled source with its next record restores the invariant (at most one entry per source, the entry being that source's next record) |
| MergedKeyValueIterators.ExhaustedKeeps | mr-worker/src/main/java/ru/nsu/mr/sources/MergedKeyValueIterator.java:39-41 | a polled source with no more records needs no entry |
| MergedKeyValueIterators.InitialHeap | mr-worker/src/main/java/ru/nsu/mr/sources/MergedKeyValueIterator.java:16-20 | the constructor's loop puts exactly the first record of every non-empty source into the heap, tagged with its index |
| MergedKeyValueIterators.Refilled | mr-worker/src/main/java/ru/nsu/mr/sources/MergedKeyValueIterator.java:34-41 | after polling the entry of source idx, idx is back in the heap exactly when that source has another record, the heap shrinks by one otherwise, and no other source's entry changes |
| MergedKeyValueIterators.PollAndRefill | mr-worker/src/main/java/ru/nsu/mr/sources/MergedKeyValueIterator.java:34-41 | one poll and refill keeps the invariant, with the polled record appended to the output |
| MergedKeyValueIterators.MergedKeyValueIterator.constructor | mr-worker/src/main/java/ru/nsu/mr/sources/MergedKeyValueIterator.java:12-21 | the heap holds the first record of every non-empty source, keyed by its index, and nothing has been returned yet |
| MergedKeyValueIterators.MergedKeyValueIterator.HasNext | mr-worker/src/main/java/ru/nsu/mr/sources/MergedKeyValueIterator.java:23-26 | there is a next record exactly when the heap is not empty |
| MergedKeyValueIterators.MergedKeyValueIterator.HeapBounded | mr-worker/src/main/java/ru/nsu/mr/sources/MergedKeyValueIterator.java:16-41 | the heap holds at most one entry per source |
| MergedKeyValueIterators.MergedKeyValueIterator.Progress | mr-worker/src/main/java/ru/nsu/mr/sources/MergedKeyValueIterator.java:28-44 | the records returned are a sub-multiset of all records, and all of them once the heap is empty |
| MergedKeyValueIterators.MergedKeyValueIterator.Next | mr-worker/src/main/java/ru/nsu/mr/sources/MergedKeyValueIterator.java:28-44 | an empty heap is a NoSuchElementException and nothing changes; otherwise the result is an entry of minimum key, it is appended to the records returned, and only its own source refills the heap |
| MergedKeyValueIterators.MergeAll | mr-worker/src/main/java/ru/nsu/mr/sources/MergedKeyValueIterator.java:23-44 | draining the merge returns a permutation of all the records of all sources, key-sorted whenever every source is (also mr-worker/src/test/java/ru/nsu/mr/sources/MergedKeyValueIteratorTest.java:35-57) |
| GroupedKeyValuesIterators.RunLength | mr-core/src/main/java/ru/nsu/mr/sources/GroupedKeyValuesIterator.java:53-57 | the run of key k at the front of the input: every record in it has key k, and the record after it, if any, does not |
| GroupedKeyValuesIterators.RunLengthUnique | mr-core/src/main/java/ru/nsu/mr/sources/GroupedKeyValuesIterator.java:53-57 | any prefix of records with key k that stops at a different key or at the end is that run |
| GroupedKeyValuesIterators.RunLengthDrop | mr-core/src/main/java/ru/nsu/mr/sources/GroupedKeyValuesIterator.java:53-57 | reading i values of a run leaves the rest of the run at the front |
| GroupedKeyValuesIterators.PairsOfRun | mr-core/src/main/java/ru/nsu/mr/sources/GroupedKeyValuesIterator.java:33-60 | a run's key paired with its values gives the run back |
| GroupedKeyValuesIterators.UngroupGroups | mr-core/src/main/java/ru/nsu/mr/sources/GroupedKeyValuesIterator.java:27-61 | the groups, each key paired with its values, concatenate back to the input (also mr-core/src/test/java/ru/nsu/mr/sources/GroupedKeyValuesIteratorTest.java:36-68) |
| GroupedKeyValuesIterators.GroupsMaximal | mr-core/src/main/java/ru/nsu/mr/sources/GroupedKeyValuesIterator.java:53-57 | every group is non-empty and consecutive groups have different keys, so the groups are the maximal runs of equal keys (also mr-core/src/test/java/ru/nsu/mr/sources/GroupedKeyValuesIteratorTest.java:36-68) |
| GroupedKeyValuesIterators.GroupedKeyValuesIterator.constructor | mr-core/src/main/java/ru/nsu/mr/sources/GroupedKeyValuesIterator.java:14-19 | the first input record, if any, becomes the head, and what remains to be grouped is the whole input |
| GroupedKeyValuesIterators.GroupedKeyValuesIterator.HasNext | mr-core/src/main/java/ru/nsu/mr/sources/GroupedKeyValuesIterator.java:21-24 | there is a next group exactly when there is a head record |
| GroupedKeyValuesIterators.GroupedKeyValuesIterator.Next | mr-core/src/main/java/ru/nsu/mr/sources/GroupedKeyValuesIterator.java:26-61 | with no head record it fails with NoSuchElementException; otherwise it returns the head's key with a fresh value iterator over this iterator, holding the head's value, and does not advance the input |
| GroupedKeyValuesIterators.GroupedKeyValuesIterator.Advance | mr-core/src/main/java/ru/nsu/mr/sources/GroupedKeyValuesIterator.java:53 | the next input record becomes the head, or there is none once the input is exhausted |
| GroupedKeyValuesIterators.ValueIterator.constructor | mr-core/src/main/java/ru/nsu/mr/sources/GroupedKeyValuesIterator.java:37-38 | the value iterator belongs to its group's key and holds the head record's value |
| GroupedKeyValuesIterators.ValueIterator.HasNext | mr-core/src/main/java/ru/nsu/mr/sources/GroupedKeyValuesIterator.java:40-43 | while in step with the shared head, there is a next value exactly when the run of the group's key has not ended, and the value held is the head's value |
| GroupedKeyValuesIterators.ValueIterator.Next | mr-core/src/main/java/ru/nsu/mr/sources/GroupedKeyValuesIterator.java:45-59 | with no value held it fails with NoSuchElementException and nothing changes; otherwise it returns the value held, advances the shared head by one record, and keeps a value only when the new head has the group's key |
| GroupedKeyValuesIterators.ReadValues | mr-core/src/main/java/ru/nsu/mr/sources/GroupedKeyValuesIterator.java:45-59 | reading at most `limit` values returns the first min(limit, run length) values of the group's run, and the shared head moves exactly past them |
| GroupedKeyValuesIterators.ReadCount | mr-core/src/main/java/ru/nsu/mr/sources/GroupedKeyValuesIterator.java:45-59 | a consumer that stops once it has enough reads at most the run, and stops early only at a point where it has enough |
| GroupedKeyValuesIterators.ReadCountIs | mr-core/src/main/java/ru/nsu/mr/sources/GroupedKeyValuesIterator.java:45-59 | a reading that stops where it first has enough, or at the end of the run, reads exactly `ReadCount` values |
| GroupedKeyValuesIterators.ReadCountFirst | mr-core/src/main/java/ru/nsu/mr/sources/GroupedKeyValuesIterator.java:45-59 | before the point where `ReadCount` stops, the consumer never had enough |
| GroupedKeyValuesIterators.ReadUntil | mr-core/src/main/java/ru/nsu/mr/sources/GroupedKeyValuesIterator.java:40-59 | the values read are the front of the group's run, exactly `ReadCount` of them, and the shared head moves past them |
| GroupedKeyValuesIterators.ReadGroup | mr-core/src/main/java/ru/nsu/mr/sources/GroupedKeyValuesIterator.java:26-61 | delivering a group and reading all its values consumes exactly the first maximal run of the input |
| GroupedKeyValuesIterators.ReadAllGroups | mr-core/src/main/java/ru/nsu/mr/sources/GroupedKeyValuesIterator.java:21-61 | reading every group to its end returns the maximal runs of the input, in order, and exhausts the input (also mr-core/src/test/java/ru/nsu/mr/sources/GroupedKeyValuesIteratorTest.java:36-68) |
| GroupedKeyValuesIterators.EmptyInput | mr-core/src/main/java/ru/nsu/mr/sources/GroupedKeyValuesIterator.java:14-31 | over an empty input the constructor takes no head, `hasNext` is false and `next` fails with NoSuchElementException |
| GroupedKeyValuesIterators.Redelivery | mr-core/src/main/java/ru/nsu/mr/sources/GroupedKeyValuesIterator.java:28-57 | a group whose values were not all read is delivered again: the next `next` returns the same key, and its value iterator starts at the first value not read |
| GroupedKeyValuesIterators.NoReadNoProgress | mr-core/src/main/java/ru/nsu/mr/sources/GroupedKeyValuesIterator.java:26-38 | as written: when the reducer reads no value, two `next` calls in a row return the same key with the same first value, and the input does not move |
| GroupedKeyValuesIterators.NoReadCount | mr-core/src/main/java/ru/nsu/mr/sources/GroupedKeyValuesIterator.java:26-38 | as written: a reducer that has enough before reading any value reads nothing, so the rest of the input is the whole input again |
| GroupedKeyValuesIterators.Roll | mr-core/src/main/java/ru/nsu/mr/sources/GroupedKeyValuesIterator.java:28 | the intended skip: advancing past the rest of the current key's run leaves the input just after that run |
| GroupedKeyValuesIterators.RolledGroup | mr-core/src/main/java/ru/nsu/mr/sources/GroupedKeyValuesIterator.java:26-61 | one group with the skip: the reducer gets the key and the values it reads, the rest of the run is skipped, and the calls that remain are those of the rest of the input |
| GroupedKeyValuesIterators.ReadGroupsRolled | mr-core/src/main/java/ru/nsu/mr/sources/GroupedKeyValuesIterator.java:21-61 | with the skip, the loop ends on every input and reducer and makes exactly `RolledCalls` of the input |
| GroupedKeyValuesIterators.RolledCallsGroups | mr-core/src/main/java/ru/nsu/mr/sources/GroupedKeyValuesIterator.java:21-61 | with the skip, there is one call per group of equal keys, with that group's key and a prefix of its values |
| GroupedKeyValuesIterators.RolledCallsReadAll | mr-core/src/main/java/ru/nsu/mr/sources/GroupedKeyValuesIterator.java:21-61 | with the skip, a reducer that reads every value gets each group's values in full |
| GroupedKeyValuesIterators.ValuesPrefix | mr-core/src/main/java/ru/nsu/mr/sources/GroupedKeyValuesIterator.java:45-59 | the values of a shorter front of a run are a prefix of those of a longer one |
| Ordering.Insert | mr-worker/src/main/java/ru/nsu/mr/sinks/SortedFileSink.java:59 | inserting a record into a sequence adds exactly that record |
| Ordering.SortByKey | mr-worker/src/main/java/ru/nsu/mr/sinks/SortedFileSink.java:59 | `List.sort` by key keeps exactly the records it is given (also mr-core/src/main/java/ru/nsu/mr/sinks/AltSortedFileSink.java:73) |
| Ordering.InsertSorted | mr-worker/src/main/java/ru/nsu/mr/sinks/SortedFileSink.java:59 | inserting into a key-sorted sequence keeps it key-sorted |
| Ordering.SortByKeySorted | mr-worker/src/main/java/ru/nsu/mr/sinks/SortedFileSink.java:59 | the sorted result is ordered by key under any comparator that is a total preorder (also mr-core/src/main/java/ru/nsu/mr/sinks/AltSortedFileSink.java:73) |
| Ordering.InsertTiedWith | mr-worker/src/main/java/ru/nsu/mr/sinks/SortedFileSink.java:59 | inserting a record puts it in front of the records of the sequence that tie with it, so among the records tied with any key it comes first |
| Ordering.SortByKeyStable | mr-worker/src/main/java/ru/nsu/mr/sinks/SortedFileSink.java:59 | the sort is stable: the records that tie with any key keep their relative order (also mr-core/src/main/java/ru/nsu/mr/sinks/AltSortedFileSink.java:73) |
| Ordering.SortByKeyOfSorted | mr-worker/src/main/java/ru/nsu/mr/sinks/SortedFileSink.java:59 | sorting an already key-sorted sequence changes nothing |
| MapReduceTasksRunner.OpenFile | mr-core/src/main/java/ru/nsu/mr/MapReduceTasksRunner.java:54-112 | a file opens exactly when it exists and is not named ".zip"; a missing file is a NoSuchFileException carrying its path, and a ".zip" file, written here only as plain text, is an archive without entries, an IOException "ZIP file is empty: " + path |
| MapReduceTasksRunner.InputPairs | mr-core/src/main/java/ru/nsu/mr/MapReduceTasksRunner.java:57-79 | the mapper is given one (file path, line) pair per line, in line order |
| MapReduceTasksRunner.InputIterator.constructor | mr-core/src/main/java/ru/nsu/mr/MapReduceTasksRunner.java:54-59 | the iterator is at the first line of its file |
| MapReduceTasksRunner.InputIterator.HasNext | mr-core/src/main/java/ru/nsu/mr/MapReduceTasksRunner.java:61-64 | there is a next pair exactly while a line is pending |
| MapReduceTasksRunner.InputIterator.Next | mr-core/src/main/java/ru/nsu/mr/MapReduceTasksRunner.java:66-78 | past the end it throws a RuntimeException and stays put; otherwise it returns the pending line with the file's path and moves one line on |
| MapReduceTasksRunner.ReadInput | mr-core/src/main/java/ru/nsu/mr/MapReduceTasksRunner.java:57-79 | a mapper that reads its iterator to the end sees every line of the file, in order, paired with the path |
| MapReduceTasksRunner.RoutableUpTo2p30 | mr-core/src/main/java/ru/nsu/mr/MapReduceTasksRunner.java:49-87 | with at most 2^30 reducers every emitted record routes to a sink |
| MapReduceTasksRunner.PutEmitted | mr-core/src/main/java/ru/nsu/mr/MapReduceTasksRunner.java:85-93 | every emitted pair is put through the partitioned sink, in order; the batch succeeds exactly when every pair routes to a sink, and otherwise fails with the IndexOutOfBoundsException of the first pair that does not |
| MapReduceTasksRunner.MapAllAppend | mr-core/src/main/java/ru/nsu/mr/MapReduceTasksRunner.java:51-94 | the emissions over the first files come before those over the rest |
| MapReduceTasksRunner.MapOutcomePrefix | mr-core/src/main/java/ru/nsu/mr/MapReduceTasksRunner.java:51-94 | a failure while reading the first files is the failure of the whole task |
| MapReduceTasksRunner.MapOutcomeOk | mr-core/src/main/java/ru/nsu/mr/MapReduceTasksRunner.java:51-94 | a successful task read every path, in order, and everything the mapper emitted routes to a sink |
| MapReduceTasksRunner.MapOutcomeSucceeds | mr-core/src/main/java/ru/nsu/mr/MapReduceTasksRunner.java:51-94 | with every input file present and at most 2^30 reducers, reading the inputs and routing every emitted record succeeds (whether the sinks' close then succeeds is `MapTaskSucceeds`) |
| MapReduceTasksRunner.ClosedShares | mr-core/src/main/java/ru/nsu/mr/MapReduceTasksRunner.java:49-95 | once the partitioned sink over distinct, initially empty sorted sinks is closed, sink i has merged exactly the records routed to reducer i, key-sorted with line-safe codecs |
| MapReduceTasksRunner.SharesReadable | mr-core/src/main/java/ru/nsu/mr/MapReduceTasksRunner.java:95 | the records put into the partitioned sink read back exactly when every sink's share does |
| MapReduceTasksRunner.NewSortedSinks | mr-core/src/main/java/ru/nsu/mr/MapReduceTasksRunner.java:33-48 | one fresh, empty sorted sink per reducer (none when the count is not positive), all distinct, sink i writing "mapper-output-{mapperId}-{i}.txt" with buffer size SORTER_IN_MEMORY_RECORDS |
| MapReduceTasksRunner.MapFiles | mr-core/src/main/java/ru/nsu/mr/MapReduceTasksRunner.java:51-94 | the loop over the input files succeeds exactly when the whole task's outcome does, with the same error otherwise, and on success the partitioned sink received everything the mapper emitted over the files, in order |
| MapReduceTasksRunner.MapTaskSucceeds | mr-core/src/main/java/ru/nsu/mr/MapReduceTasksRunner.java:25-96 | with every input present and at most 2^30 reducers, the task succeeds exactly when everything the mapper emits over its files reads back, and always with line-safe codecs |
| MapReduceTasksRunner.ExecuteMapperTask | mr-core/src/main/java/ru/nsu/mr/MapReduceTasksRunner.java:25-96 | no reducers: the PartitionedFileSink constructor's IllegalArgumentException; otherwise it succeeds exactly when every file is present, every emitted record routes to a sink and everything emitted reads back; a missing file or an unroutable record fails with that error, and a failed close with the wrapped error of a line without a space; on success output i is "mapper-output-{mapperId}-{i}.txt", holding the lines `readLine` gives for the merged records of reducer i, which with line-safe codecs are exactly the records routed to i, sorted by key |
| MapReduceTasksRunner.CloseOutputs | mr-core/src/main/java/ru/nsu/mr/MapReduceTasksRunner.java:95 | closing the partitioned sink succeeds exactly when every record put reads back, failing otherwise with the wrapped error of a line without a space; on success there is one output file per reducer, named after it, holding the lines of the merged records of its share, which with line-safe codecs are that share sorted by key |
| MapReduceTasksRunner.OpenAll | mr-core/src/main/java/ru/nsu/mr/MapReduceTasksRunner.java:106-113 | the inputs open exactly when every path does, each to its own file content, in order |
| MapReduceTasksRunner.ParseAll | mr-core/src/main/java/ru/nsu/mr/MapReduceTasksRunner.java:106-124 | parsing all opened files gives one record sequence per file |
| MapReduceTasksRunner.ParseAllEach | mr-core/src/main/java/ru/nsu/mr/MapReduceTasksRunner.java:106-124 | the files parse exactly when each of them does, and then each to its own records |
| MapReduceTasksRunner.ParseAllFails | mr-core/src/main/java/ru/nsu/mr/MapReduceTasksRunner.java:106-124 | when parsing fails, some file has a malformed line |
| MapReduceTasksRunner.OpenInputs | mr-core/src/main/java/ru/nsu/mr/MapReduceTasksRunner.java:106-113 | opening a `KeyValueFileIterator` per path, in order, gives exactly `OpenAll` |
| MapReduceTasksRunner.OpenAllPrefix | mr-core/src/main/java/ru/nsu/mr/MapReduceTasksRunner.java:106-113 | a path that fails to open fails every longer list of paths at the same place |
| MapReduceTasksRunner.OpenAllFirstError | mr-core/src/main/java/ru/nsu/mr/MapReduceTasksRunner.java:106-113 | the first path that cannot be opened decides the error |
| MapReduceTasksRunner.ParseInputs | mr-core/src/main/java/ru/nsu/mr/MapReduceTasksRunner.java:106-124 | reading every opened file to its end gives exactly `ParseAll` |
| MapReduceTasksRunner.ReduceCallsStep | mr-core/src/main/java/ru/nsu/mr/MapReduceTasksRunner.java:125-139 | the first reducer call is handed the values a reading of `ReadCount` values gives, and the calls go on from there |
| MapReduceTasksRunner.EmitAllAppend | mr-core/src/main/java/ru/nsu/mr/MapReduceTasksRunner.java:131-139 | the emissions of two batches of calls are those of the first followed by those of the second |
| MapReduceTasksRunner.ReduceCallsCover | mr-core/src/main/java/ru/nsu/mr/MapReduceTasksRunner.java:125-139 | every merged record is handed to exactly one reducer call, in input order |
| MapReduceTasksRunner.ReduceCallsNonEmpty | mr-core/src/main/java/ru/nsu/mr/MapReduceTasksRunner.java:125-139 | every reducer call is handed at least one value |
| MapReduceTasksRunner.ReduceCallsGroups | mr-core/src/main/java/ru/nsu/mr/MapReduceTasksRunner.java:125-139 | a reducer that reads every value is called once per group of equal keys, with all of that group's values |
| MapReduceTasksRunner.PartialCallRedelivered | mr-core/src/main/java/ru/nsu/mr/MapReduceTasksRunner.java:125-139 | a call that stops before the end of its run leaves the rest of the run to a second call under the same key, starting at the first value not read |
| MapReduceTasksRunner.RolledOutputAgrees | mr-core/src/main/java/ru/nsu/mr/MapReduceTasksRunner.java:125-139 | for a reducer that reads every value, the output with the group rolled past after each call equals the output of the loop as written, one call per group of equal keys |
| MapReduceTasksRunner.ReduceGroup | mr-core/src/main/java/ru/nsu/mr/MapReduceTasksRunner.java:126-139 | one turn of the loop takes the next group, the reducer reads from it, and what it emits is appended to the output sink |
| MapReduceTasksRunner.ReduceGroups | mr-core/src/main/java/ru/nsu/mr/MapReduceTasksRunner.java:125-140 | while the grouped iterator has a group the reducer is called on it, and the output sink receives everything the reducer calls emit, in order |
| MapReduceTasksRunner.ExecuteReduceTask | mr-core/src/main/java/ru/nsu/mr/MapReduceTasksRunner.java:98-142 | for a reducer that reads at least one value per call: fails exactly when an input file cannot be opened or a line cannot be parsed, with the first such error; otherwise "output-{reducerId}.txt" holds the lines of what the reducer emitted over the merged records, which are a permutation of all records read and key-sorted when every input is |
| MapReduceSequentialRunner.Assignment | mr-core/src/main/java/ru/nsu/mr/MapReduceSequentialRunner.java:27-36 | there is one input list per map task (none when the mappers count is not positive) |
| MapReduceSequentialRunner.AssignmentCovers | mr-core/src/main/java/ru/nsu/mr/MapReduceSequentialRunner.java:29-44 | the map tasks' input lists, concatenated, are exactly the input files in order: every file goes to exactly one task |
| MapReduceSequentialRunner.AssignmentBalanced | mr-core/src/main/java/ru/nsu/mr/MapReduceSequentialRunner.java:30-31 | each of the `m` tasks gets `n / m` or `n / m + 1` of the `n` files |
| MapReduceSequentialRunner.IntToStringInjective | mr-core/src/main/java/ru/nsu/mr/MapReduceSequentialRunner.java:50 | the decimal text of a non-negative int determines it |
| MapReduceSequentialRunner.DigitsThenDash | mr-core/src/main/java/ru/nsu/mr/MapReduceSequentialRunner.java:50 | a digit string followed by `-` is split off uniquely, so `k + "-" + i` determines `k` and `i` |
| MapReduceSequentialRunner.MapperOutputNameInjective | mr-core/src/main/java/ru/nsu/mr/MapReduceTasksRunner.java:36-45 | distinct (map task, reduce task) pairs name distinct `mapper-output-k-i.txt` files |
| MapReduceSequentialRunner.ReducerOutputNameInjective | mr-core/src/main/java/ru/nsu/mr/MapReduceTasksRunner.java:115-121 | distinct reduce tasks write distinct `output-i.txt` files |
| MapReduceSequentialRunner.MapperOutputNameIsText | mr-core/src/main/java/ru/nsu/mr/MapReduceTasksRunner.java:36-45 | the names map tasks write do not end in `.zip` |
| MapReduceSequentialRunner.StoreKeeps | mr-core/src/main/java/ru/nsu/mr/MapReduceTasksRunner.java:35-47 | writing a task's files leaves every other file of the directory as it was, present or absent |
| MapReduceSequentialRunner.StoreHolds | mr-core/src/main/java/ru/nsu/mr/MapReduceTasksRunner.java:35-47 | a file the task writes holds exactly the lines written to it |
| MapReduceSequentialRunner.MapPhaseOutcome | mr-core/src/main/java/ru/nsu/mr/MapReduceSequentialRunner.java:29-44 | on success the phase reports, per task, the files it read, one list per task |
| MapReduceSequentialRunner.MapPhasePrefix | mr-core/src/main/java/ru/nsu/mr/MapReduceSequentialRunner.java:37-42 | a failure among the first tasks is the failure of the whole phase, later tasks are never run |
| MapReduceSequentialRunner.MapPhaseOk | mr-core/src/main/java/ru/nsu/mr/MapReduceSequentialRunner.java:29-44 | a successful phase had at least one reducer and every task read exactly its own input paths |
| MapReduceSequentialRunner.MapPhaseSucceeds | mr-core/src/main/java/ru/nsu/mr/MapReduceSequentialRunner.java:29-44 | with every input file present and 1 to 2^30 reducers, the map phase succeeds exactly when every task's emissions read back (`MapTaskOk`); a failure is then a sink's wrapped error of a line without a space; with line-safe codecs it always succeeds |
| MapReduceSequentialRunner.StoreOutputs | mr-core/src/main/java/ru/nsu/mr/MapReduceTasksRunner.java:33-48 | writing map task `k`'s per-reducer files puts each in place and keeps the files of every other task |
| MapReduceSequentialRunner.RunMapper | mr-core/src/main/java/ru/nsu/mr/MapReduceSequentialRunner.java:37-42 | a map task with no reducers fails with "Sink list cannot be null or empty."; otherwise it succeeds exactly when the task's inputs are read and routed and its emissions read back; a read or routing failure is that error with any IOException rethrown as a RuntimeException, and a close failure is the wrapped error of a line without a space; on success it writes one file per reducer and keeps the earlier tasks' files |
| MapReduceSequentialRunner.MapPhaseStops | mr-core/src/main/java/ru/nsu/mr/MapReduceSequentialRunner.java:37-42 | the first failing task's error is the phase's error |
| MapReduceSequentialRunner.MapLoopFails | mr-core/src/main/java/ru/nsu/mr/MapReduceSequentialRunner.java:29-44 | a failing task `i` ends the first loop with the phase's error |
| MapReduceSequentialRunner.MapLoopNext | mr-core/src/main/java/ru/nsu/mr/MapReduceSequentialRunner.java:29-44 | a successful task `i` advances the file counter by its share and keeps the loop invariant for task `i + 1` |
| MapReduceSequentialRunner.MapNext | mr-core/src/main/java/ru/nsu/mr/MapReduceSequentialRunner.java:30-43 | one turn of the first loop: it fails with the phase's error, or re-establishes the loop invariant one task further |
| MapReduceSequentialRunner.MapPhase | mr-core/src/main/java/ru/nsu/mr/MapReduceSequentialRunner.java:27-44 | the first loop succeeds exactly when MapPhaseOutcome does and fails with its error, up to which line without a space is reported; on success every task's per-reducer files are in the mappers' directory, one per reducer, each sorted by key and holding that task's emissions routed to that reducer when the codecs are line-safe |
| MapReduceSequentialRunner.Column | mr-core/src/main/java/ru/nsu/mr/MapReduceSequentialRunner.java:46-51 | reduce task `i` reads one file per map task |
| MapReduceSequentialRunner.ReducePhaseStops | mr-core/src/main/java/ru/nsu/mr/MapReduceSequentialRunner.java:46-58 | the second loop stops at the first reduce task that fails |
| MapReduceSequentialRunner.ReducePhaseFailsAt | mr-core/src/main/java/ru/nsu/mr/MapReduceSequentialRunner.java:52-57 | a reduce task that cannot load its inputs ends the run with a RuntimeException |
| MapReduceSequentialRunner.ReduceLoopNext | mr-core/src/main/java/ru/nsu/mr/MapReduceSequentialRunner.java:46-58 | writing reduce task `i`'s output keeps the earlier reducers' outputs and extends the loop invariant |
| MapReduceSequentialRunner.ReduceNext | mr-core/src/main/java/ru/nsu/mr/MapReduceSequentialRunner.java:47-57 | one turn of the second loop: it fails with the rethrown error or writes output `i` and keeps the invariant |
| MapReduceSequentialRunner.ReducePhase | mr-core/src/main/java/ru/nsu/mr/MapReduceSequentialRunner.java:46-58 | for a reducer that reads at least one value per call, the second loop fails exactly as ReducePhaseOutcome says, with its error; on success `output-i.txt` holds, for every reducer `i`, the reduction of the records merged from its column |
| MapReduceSequentialRunner.Contents | mr-core/src/main/java/ru/nsu/mr/MapReduceTasksRunner.java:51-79 | each input file is read as the pair (path, line) for every line, in order |
| MapReduceSequentialRunner.ReadIsContents | mr-core/src/main/java/ru/nsu/mr/MapReduceTasksRunner.java:51-79 | tasks that each read their own paths together read every path of every task, in order |
| MapReduceSequentialRunner.MapPhaseReadsInputs | mr-core/src/main/java/ru/nsu/mr/MapReduceSequentialRunner.java:29-44 | a successful map phase with at least one task read every input file exactly once, in input order |
| MapReduceSequentialRunner.MapPhaseOfPresentInputs | mr-core/src/main/java/ru/nsu/mr/MapReduceSequentialRunner.java:29-44 | with every input file present and 1 to 2^30 reducers, the map phase succeeds exactly when there is no map task or everything the mapper emits over all inputs reads back; a failure is a wrapped error of a line without a space; with line-safe codecs it always succeeds |
| MapReduceSequentialRunner.ReadableEmissions | mr-core/src/main/java/ru/nsu/mr/MapReduceSequentialRunner.java:29-44 | everything emitted over all tasks reads back exactly when each task's emissions do |
| MapReduceSequentialRunner.MapOutcomeFailsOnIO | mr-core/src/main/java/ru/nsu/mr/MapReduceTasksRunner.java:54 | below 2^30 reducers, reading a map task's inputs can fail only on an input it cannot open, with an IOException |
| MapReduceSequentialRunner.MapPhaseFailsOnIO | mr-core/src/main/java/ru/nsu/mr/MapReduceSequentialRunner.java:40-41 | so a failing map phase fails either with the RuntimeException the runner rethrows for that IOException, or, only with codecs that are not line-safe, with a sink's wrapped error of a line without a space |
| MapReduceSequentialRunner.RoutedShares | mr-core/src/main/java/ru/nsu/mr/MapReduceTasksRunner.java:49-95 | reducer `i`'s share of each map task's emissions, one per task |
| MapReduceSequentialRunner.RoutedFlatten | mr-core/src/main/java/ru/nsu/mr/MapReduceTasksRunner.java:49-95 | routing the emissions of all files is routing them task by task and concatenating |
| MapReduceSequentialRunner.Share | mr-core/src/main/java/ru/nsu/mr/MapReduceSequentialRunner.java:48-51 | reducer `i`'s column: what each map task wrote for it |
| MapReduceSequentialRunner.Texts | mr-core/src/main/java/ru/nsu/mr/MapReduceTasksRunner.java:95 | the lines `readLine` gives for the file written from each run |
| MapReduceSequentialRunner.ParseWritten | mr-core/src/main/java/ru/nsu/mr/MapReduceTasksRunner.java:106-113 | parsing the lines `readLine` gives for the intermediate files is reading the written runs back: it succeeds exactly when they read back, with the same records or the same error |
| MapReduceSequentialRunner.ColumnOpens | mr-core/src/main/java/ru/nsu/mr/MapReduceSequentialRunner.java:46-51 | with the corrected names, reduce task `i` opens exactly the file every map task wrote for it |
| MapReduceSequentialRunner.ColumnLoads | mr-core/src/main/java/ru/nsu/mr/MapReduceTasksRunner.java:106-113 | reduce task `i` loads from every map task's file for `i` exactly what reading back the records that task wrote for `i` gives, records or error |
| MapReduceSequentialRunner.ColumnReadable | mr-core/src/main/java/ru/nsu/mr/MapReduceTasksRunner.java:106-124 | reduce task `i` loads its inputs exactly when every file written for `i` reads back, and otherwise fails with the IllegalArgumentException of a line without a space |
| MapReduceSequentialRunner.FirstFailure | mr-core/src/main/java/ru/nsu/mr/MapReduceSequentialRunner.java:46-58 | the reduce loop's outcome over tasks in order: success exactly when every task loads, otherwise the rethrown error of a task that does not |
| MapReduceSequentialRunner.Loads | mr-core/src/main/java/ru/nsu/mr/MapReduceSequentialRunner.java:46-58 | one load per reduce task, task `j` loading its own column |
| MapReduceSequentialRunner.ReducePhaseIsFirstFailure | mr-core/src/main/java/ru/nsu/mr/MapReduceSequentialRunner.java:46-58 | the reduce phase outcome is the first failure among the reduce tasks' loads |
| MapReduceSequentialRunner.ReducePhaseLoads | mr-core/src/main/java/ru/nsu/mr/MapReduceSequentialRunner.java:46-58 | the reduce phase succeeds exactly when every reduce task loads its inputs, and otherwise fails with the rethrown error of one that does not |
| MapReduceSequentialRunner.ColumnsReadable | mr-core/src/main/java/ru/nsu/mr/MapReduceTasksRunner.java:106-124 | each reduce task loads exactly when the files written for it read back, failing otherwise with the error of a line without a space |
| MapReduceSequentialRunner.LoadsReadable | mr-core/src/main/java/ru/nsu/mr/MapReduceSequentialRunner.java:46-58 | the first failure among the loads is none exactly when every map output file reads back, and is otherwise the error of a line without a space |
| MapReduceSequentialRunner.ReducePhaseLoadsShares | mr-core/src/main/java/ru/nsu/mr/MapReduceSequentialRunner.java:46-58 | with the corrected names, the reduce phase succeeds exactly when every file the map tasks wrote for its reducers reads back, and otherwise fails with the IllegalArgumentException of a line without a space |
| MapReduceSequentialRunner.NoMapTasks | mr-core/src/main/java/ru/nsu/mr/MapReduceSequentialRunner.java:46-51 | without map tasks every reduce task reads no file and reduces no record |
| MapReduceSequentialRunner.ReducedShare | mr-core/src/main/java/ru/nsu/mr/MapReduceSequentialRunner.java:18-59 | with line-safe codecs, reduce task `i` reduces exactly the records the mapper emits over all the input files that route to `i` (same multiset), sorted by key |
| MapReduceSequentialRunner.MapPhaseNoReducers | mr-core/src/main/java/ru/nsu/mr/MapReduceTasksRunner.java:49-50 | with no reducers, the first map task fails on its empty sink list |
| MapReduceSequentialRunner.ReducePhaseWithoutMaps | mr-core/src/main/java/ru/nsu/mr/MapReduceSequentialRunner.java:46-58 | without map tasks the reduce phase opens no file and succeeds |
| MapReduceSequentialRunner.ZipColumnFails | mr-core/src/main/java/ru/nsu/mr/MapReduceSequentialRunner.java:48-51 | as written, a reduce task with at least one map task fails on an I/O error, since the first file it opens ends in `.zip` |
| MapReduceSequentialRunner.ZipReducePhaseFails | mr-core/src/main/java/ru/nsu/mr/MapReduceSequentialRunner.java:46-58 | as written, the reduce phase fails with a RuntimeException as soon as there is a map task and a reducer |
| MapReduceSequentialRunner.RunAsWritten | mr-core/src/main/java/ru/nsu/mr/MapReduceSequentialRunner.java:18-59 | `run` as written, for a reducer that reads at least one value per call: a failing map phase fails the job with its error; after a successful map phase with a map task and a reducer, the job always fails with a RuntimeException |
| MapReduceSequentialRunner.ReducePhaseAfterMap | mr-core/src/main/java/ru/nsu/mr/MapReduceSequentialRunner.java:46-58 | after a successful map phase, the corrected reduce phase succeeds exactly when every map output file reads back, and otherwise fails with the IllegalArgumentException of a line without a space |
| MapReduceSequentialRunner.MapPhaseErrors | mr-core/src/main/java/ru/nsu/mr/MapReduceSequentialRunner.java:29-44 | a failing map phase fails with "Sink list cannot be null or empty." when there is a task and no reducer; with 1 to 2^30 reducers it fails either with a RuntimeException caused by a missing input file, or, only with codecs that are not line-safe, with a sink's wrapped error of a line without a space |
| MapReduceSequentialRunner.JobOutputs | mr-core/src/main/java/ru/nsu/mr/MapReduceSequentialRunner.java:18-59 | after both phases every reducer's output file holds the reduction of its records, which are, with line-safe codecs, the mapper's emissions routed to it, sorted by key |
| MapReduceSequentialRunner.Run | mr-core/src/main/java/ru/nsu/mr/MapReduceSequentialRunner.java:18-59 | the corrected `run`, for a reducer that reads at least one value per call: a failing map phase fails the job with its error; after a successful map phase the job can fail only on a line without a space, and only with codecs that are not line-safe; with line-safe codecs, a map task and 1 to 2^30 reducers it succeeds exactly when every input file exists, and fails otherwise with a RuntimeException; with no reducers it fails on the empty sink list; on success `output-i.txt` holds the reduction of the merged records of reducer `i`, which with line-safe codecs are exactly the records the mapper emits over all inputs that route to `i`, sorted by key |
| Coordinators.MapTasks | mr-core/src/main/java/ru/nsu/mr/Coordinator.java:119-129 | one map task per mapper, task `j` with id `j`, type MAP and the `j`-th share of the input files |
| Coordinators.AssignmentStep | mr-coordinator/src/main/java/ru/nsu/mr/Coordinator.java:174-185 | one round of the split: task `i` takes the next (n - processed) / (m - i) files, and the rest is the split of the remaining files among the later tasks |
| Coordinators.ReduceInputs | mr-core/src/main/java/ru/nsu/mr/Coordinator.java:132-135 | one input name per map task, name `k` being the file map task `k` writes for reducer `i` |
| Coordinators.ReduceTasks | mr-core/src/main/java/ru/nsu/mr/Coordinator.java:131-139 | one reduce task per reducer, task `i` with id `m + i`, type REDUCE and one input name per map task |
| Coordinators.MapTasksSplitInput | mr-core/src/main/java/ru/nsu/mr/Coordinator.java:119-129 | the map tasks have ids 0..m-1, their inputs concatenate back to the input list in order, and each gets n/m or n/m + 1 of the n files |
| Coordinators.ReduceTasksReadMapOutputs | mr-core/src/main/java/ru/nsu/mr/Coordinator.java:131-138 | reduce task `m + i` reads, from each map task `k`, `mapper-output-k-i.txt`, the name that task writes for reducer `i`, and no name twice |
| Coordinators.StandaloneReduceInputs | mr-coordinator/src/main/java/ru/nsu/mr/Coordinator.java:191-197 | the stand-alone coordinator's reduce inputs are the same names prefixed by the map output directory and `/` |
| Coordinators.RequeueRestoresTask | mr-coordinator/src/main/java/ru/nsu/mr/Coordinator.java:229-236 | a failure report echoing a queued task re-queues that very task, with the storage directory of its type |
| Coordinators.TakeFiles | mr-core/src/main/java/ru/nsu/mr/Coordinator.java:123-126 | the inner split loop collects the `count` files from index `processed` on, in order |
| Coordinators.SplitIntoMapTasks | mr-core/src/main/java/ru/nsu/mr/Coordinator.java:119-129 | the first loop of `start` queues exactly MapTasks |
| Coordinators.CollectReduceTasks | mr-core/src/main/java/ru/nsu/mr/Coordinator.java:131-139 | the second loop of `start` queues exactly ReduceTasks |
| Coordinators.MapSuccesses | mr-core/src/main/java/ru/nsu/mr/Coordinator.java:161-167 | `k` map successes from the start count `k` finished maps; the phase is REDUCE from the m-th on |
| Coordinators.AfterSuccessesAppend | mr-core/src/main/java/ru/nsu/mr/Coordinator.java:161-175 | success reports in two series give the same progress as in one |
| Coordinators.ReduceSuccesses | mr-core/src/main/java/ru/nsu/mr/Coordinator.java:168-175 | in the reduce phase `k` reduce successes end the job exactly when `k` reaches the reducers count |
| Coordinators.JobEndsAfterEveryTask | mr-coordinator/src/main/java/ru/nsu/mr/Coordinator.java:214-228 | `m` map successes then `r` reduce successes end the job |
| Coordinators.NoReducersNeverEnd | mr-core/src/main/java/ru/nsu/mr/Coordinator.java:168-175 | with no reducers the job never reaches JOB_ENDED, since the reduce counter only counts up from 1 |
| Coordinators.FirstFreeFrom | mr-core/src/main/java/ru/nsu/mr/Coordinator.java:200-201 | `findFirst` of the free workers: the first free index, with every worker before it busy, or none when all are busy |
| Coordinators.FreeFrom | mr-core/src/main/java/ru/nsu/mr/Coordinator.java:200-201 | the free workers' indices, in order |
| Coordinators.FirstFreeIsFirst | mr-core/src/main/java/ru/nsu/mr/Coordinator.java:200-201 | the first free worker is the head of the free workers, and exists exactly when some worker is free |
| Coordinators.FillFirstFree | mr-core/src/main/java/ru/nsu/mr/Coordinator.java:203-213 | giving the first free worker a task removes it, and only it, from the free workers |
| Coordinators.DistributeStep | mr-core/src/main/java/ru/nsu/mr/Coordinator.java:199-224 | one turn of the loop: no free worker stops; a delivered send places the head and continues; a failed send moves the head to the tail and stops |
| Coordinators.DistributeKeepsBusy | mr-core/src/main/java/ru/nsu/mr/Coordinator.java:199-224 | distribution never takes a task from a busy worker and places at most the queued tasks |
| Coordinators.DistributeFillsFree | mr-core/src/main/java/ru/nsu/mr/Coordinator.java:199-224 | the first `placed` queued tasks go, in order, to the first `placed` free workers; the later free workers stay free |
| Coordinators.DistributeQueue | mr-core/src/main/java/ru/nsu/mr/Coordinator.java:199-224 | the queue keeps the unplaced tasks in order, the task whose send failed moving to the tail; without a failure it stops only when the queue is empty or no worker is free |
| Coordinators.FirstRunning | mr-core/src/main/java/ru/nsu/mr/Coordinator.java:186-189 | the first worker whose current task is `id`, or none when no worker runs it |
| Coordinators.Released | mr-core/src/main/java/ru/nsu/mr/Coordinator.java:186-189 | a success frees the first worker running the id; every other worker, including later ones running the same id, keeps its task |
| Coordinators.ConnectedWorker.constructor | mr-core/src/main/java/ru/nsu/mr/Coordinator.java:37-40 | a new worker has the given port and is free |
| Coordinators.ConnectedWorker.AssignTask | mr-core/src/main/java/ru/nsu/mr/Coordinator.java:46-48 | the worker runs the given task id |
| Coordinators.ConnectedWorker.Release | mr-core/src/main/java/ru/nsu/mr/Coordinator.java:50-52 | the worker is free |
| Coordinators.AssignmentsOf | mr-core/src/main/java/ru/nsu/mr/Coordinator.java:59 | one entry per registered worker, its current task id, in registration order |
| Coordinators.Coordinator.constructor | mr-core/src/main/java/ru/nsu/mr/Coordinator.java:59-80 | a new coordinator has no workers, empty queues, zero counters and the map phase |
| Coordinators.Coordinator.Start | mr-coordinator/src/main/java/ru/nsu/mr/Coordinator.java:168-198 | a failed listing rethrows a RuntimeException and queues nothing; otherwise the map queue gains MapTasks of the listing and the reduce queue ReduceTasks, with that layout's names and storage; workers and progress are unchanged |
| Coordinators.Coordinator.FindFreeWorker | mr-core/src/main/java/ru/nsu/mr/Coordinator.java:200-201 | returns FirstFreeFrom of the workers' assignments |
| Coordinators.Coordinator.FindRunning | mr-core/src/main/java/ru/nsu/mr/Coordinator.java:186-188 | returns FirstRunning of the workers' assignments |
| Coordinators.Coordinator.AssignWorker | mr-core/src/main/java/ru/nsu/mr/Coordinator.java:213 | worker `w` now runs the task and no other worker changes |
| Coordinators.Coordinator.ReleaseWorker | mr-core/src/main/java/ru/nsu/mr/Coordinator.java:189 | worker `w` is now free and no other worker changes |
| Coordinators.Coordinator.DistributeTasks | mr-core/src/main/java/ru/nsu/mr/Coordinator.java:194-225 | serves the map queue in the map phase and the reduce queue otherwise; the workers' tasks and that queue become what Distribute gives, and the other queue is untouched |
| Coordinators.Coordinator.ServeQueue | mr-core/src/main/java/ru/nsu/mr/Coordinator.java:199-224 | the loop of `distributeTasks` leaves the workers and the queue as Distribute says |
| Coordinators.Coordinator.RegisterWorker | mr-core/src/main/java/ru/nsu/mr/Coordinator.java:148-153 | a new free worker with that port joins last, the earlier workers stay, and tasks are distributed over the workers including it; the connection string is unchanged, so a later re-queued task carries the same storage path |
| Coordinators.Coordinator.ReceiveTaskCompletion | mr-core/src/main/java/ru/nsu/mr/Coordinator.java:155-192 | a report not "SUCCEED" appends the re-queued task to its type's queue and changes nothing else, the worker staying busy; a success updates the counters and phase, frees the first worker running the id and distributes |
| Coordinators.Coordinator.CountSuccess | mr-core/src/main/java/ru/nsu/mr/Coordinator.java:161-175 | the counter of the report's type goes up by one, and the phase moves on when it reaches that type's task count |
| Coordinators.Coordinator.ReleaseRunning | mr-core/src/main/java/ru/nsu/mr/Coordinator.java:186-189 | the workers' assignments become Released for the id |
| Coordinators.FailedTaskWorkerStaysBusy | mr-core/src/main/java/ru/nsu/mr/Coordinator.java:176-184 | after a failure report the only worker stays busy, so distribution places nothing until a worker frees up or joins |
| Workers.StatusText | mr-core/src/main/java/ru/nsu/mr/Worker.java:22-36 | a status reads as its name, and FAILED with an exception reads `"FAILED: " + exception.toString()` |
| Workers.FailedStatus.constructor | mr-core/src/main/java/ru/nsu/mr/Worker.java:25-27 | the shared FAILED status starts without an exception |
| Workers.ResolveAll | mr-core/src/main/java/ru/nsu/mr/Worker.java:219 | each input name of a reduce task is resolved against the map output directory, in order |
| Workers.Worker.constructor | mr-core/src/main/java/ru/nsu/mr/Worker.java:79-101 | a new worker has no current task and an empty history |
| Workers.Worker.CreateTask | mr-core/src/main/java/ru/nsu/mr/Worker.java:140-157 | refused with an IllegalStateException while a task is current, changing nothing; otherwise the task becomes current with status RUNNING and its details are returned |
| Workers.Worker.GetTaskDetails | mr-core/src/main/java/ru/nsu/mr/Worker.java:159-166 | the current task's details when its id matches, otherwise the history entry's, otherwise none |
| Workers.Worker.GetAllTasks | mr-core/src/main/java/ru/nsu/mr/Worker.java:168-176 | one entry per history task in the map's key order, then the current task, if any |
| Workers.Worker.ExecuteCurrentTask | mr-core/src/main/java/ru/nsu/mr/Worker.java:206-239 | a normal run marks the task SUCCEED; an IOException marks it FAILED and stores the exception's text on the shared FAILED status; any other exception propagates and changes nothing; a reduce task runs with reducer index id minus MAPPERS_COUNT |
| Workers.Worker.MoveCurrentTaskToHistory | mr-core/src/main/java/ru/nsu/mr/Worker.java:250-253 | the current task is stored under its id, replacing any earlier entry, and the slot is emptied |
| Workers.Worker.FinishCurrentTask | mr-core/src/main/java/ru/nsu/mr/Worker.java:183-188 | after a run ending normally or on an IOException the task is filed with its final status and its details are what the coordinator is told: an IOException sets the shared FAILED text to "<class>: <message>", a normal return leaves it; another exception leaves the task current, the history and the FAILED text as they were |
| Workers.AllTasksListsHistoryOnce | mr-core/src/main/java/ru/nsu/mr/Worker.java:168-176 | the task list shows every history task once, no two entries share an id, and the current task comes last |
| Workers.ReportCountsIffSucceeded | mr-core/src/main/java/ru/nsu/mr/Worker.java:33-239 | a report reads "SUCCEED", the only status the coordinator counts, exactly when the run returned normally |
| Workers.FailedTasksReadAlike | mr-core/src/main/java/ru/nsu/mr/Worker.java:27-239 | because the exception lives on the shared FAILED constant, every failed task reads the same, showing the latest failure's exception |
| Workers.FailedStatusShared | mr-core/src/main/java/ru/nsu/mr/Worker.java:27-36 | two workers in one process share that exception, so one worker's failed task shows the other's latest failure |
| Workers.MissingFileStatus | mr-core/src/main/java/ru/nsu/mr/Worker.java:226-239 | a task whose input file is missing reads "FAILED: java.nio.file.NoSuchFileException: " followed by the path |
| Workers.ReduceTaskRunsItsReducer | mr-core/src/main/java/ru/nsu/mr/Worker.java:216-223 | a reduce task from the embedded coordinator runs as reducer `i` over `mapper-output-k-i.txt` in the map output directory, for every map task `k`, when both count the same map tasks |
| Workers.MapTaskRunsItsMapper | mr-core/src/main/java/ru/nsu/mr/Worker.java:208-215 | a map task runs under the id the coordinator gave it |
| WorkerManagers.WorkerManager.constructor | mr-core/src/main/java/ru/nsu/mr/endpoints/WorkerManager.java:9-10 | a new manager holds no task and is not running |
| WorkerManagers.WorkerManager.AddTask | mr-core/src/main/java/ru/nsu/mr/endpoints/WorkerManager.java:12-20 | while a task runs, returns "Error: Task already in progress" and changes nothing; otherwise stores the task, sets running and returns no error |
| WorkerManagers.WorkerManager.GetCurrentTask | mr-core/src/main/java/ru/nsu/mr/endpoints/WorkerManager.java:22-27 | the stored task, only when there is one and it runs |
| WorkerManagers.WorkerManager.CompleteCurrentTask | mr-core/src/main/java/ru/nsu/mr/endpoints/WorkerManager.java:29-32 | the slot is empty and nothing runs, so the next `addTask` is accepted |
| WorkerManagers.CurrentTaskIsSlot | mr-core/src/main/java/ru/nsu/mr/endpoints/WorkerManager.java:9-32 | under the invariant that running holds exactly when a task is stored, `getCurrentTask` shows exactly the stored task |
| JobMetrics.TouchMatching | mr-core/src/main/java/ru/nsu/mr/endpoints/LoggerWithMetricsCalculation.java:48-88 | each entry whose date equals the event's is updated by it; every other entry, and the list's length, stay the same |
| JobMetrics.FirstWithDate | mr-core/src/main/java/ru/nsu/mr/endpoints/LoggerWithMetricsCalculation.java:102-103 | the first entry with that date, every earlier entry having another date, or none when no entry has it |
| JobMetrics.Summaries | mr-core/src/main/java/ru/nsu/mr/endpoints/LoggerWithMetricsCalculation.java:92-95 | one (date, status) per entry, in list order |
| JobMetrics.LoggerWithMetricsCalculation.constructor | mr-core/src/main/java/ru/nsu/mr/endpoints/LoggerWithMetricsCalculation.java:41 | a new logger has no entries |
| JobMetrics.LoggerWithMetricsCalculation.JobAdd | mr-core/src/main/java/ru/nsu/mr/endpoints/LoggerWithMetricsCalculation.java:19-46 | appends a PENDING entry with zero counters for the date |
| JobMetrics.LoggerWithMetricsCalculation.ForEachMatching | mr-core/src/main/java/ru/nsu/mr/endpoints/LoggerWithMetricsCalculation.java:50-54 | the loop over the entries applies the event to exactly the entries with its date |
| JobMetrics.LoggerWithMetricsCalculation.JobStart | mr-core/src/main/java/ru/nsu/mr/endpoints/LoggerWithMetricsCalculation.java:24-55 | every entry with the date becomes IN_PROGRESS; the others are unchanged |
| JobMetrics.LoggerWithMetricsCalculation.MapTaskStart | mr-core/src/main/java/ru/nsu/mr/endpoints/LoggerWithMetricsCalculation.java:57-58 | changes nothing |
| JobMetrics.LoggerWithMetricsCalculation.MapTaskFinish | mr-core/src/main/java/ru/nsu/mr/endpoints/LoggerWithMetricsCalculation.java:32-67 | every entry with the date counts one more finished map task |
| JobMetrics.LoggerWithMetricsCalculation.ReduceTaskStart | mr-core/src/main/java/ru/nsu/mr/endpoints/LoggerWithMetricsCalculation.java:69-70 | changes nothing |
| JobMetrics.LoggerWithMetricsCalculation.ReduceTaskFinish | mr-core/src/main/java/ru/nsu/mr/endpoints/LoggerWithMetricsCalculation.java:36-79 | every entry with the date counts one more finished reduce task |
| JobMetrics.LoggerWithMetricsCalculation.JobFinish | mr-core/src/main/java/ru/nsu/mr/endpoints/LoggerWithMetricsCalculation.java:28-88 | every entry with the date becomes COMPLETED |
| JobMetrics.LoggerWithMetricsCalculation.GetJobs | mr-core/src/main/java/ru/nsu/mr/endpoints/LoggerWithMetricsCalculation.java:90-98 | one (date, status) per entry, sorted ascending by date with `String.compareTo`, a permutation of the entries' summaries, equal dates keeping list order |
| JobMetrics.LoggerWithMetricsCalculation.GetJobInfo | mr-core/src/main/java/ru/nsu/mr/endpoints/LoggerWithMetricsCalculation.java:100-112 | the first entry with that date, with its status and counters, present exactly when some entry has that date |
| JobMetrics.OtherJobsUntouched | mr-core/src/main/java/ru/nsu/mr/endpoints/LoggerWithMetricsCalculation.java:43-88 | events for one date never change an entry with another date |
| JobMetrics.ReplayAppend | mr-core/src/main/java/ru/nsu/mr/endpoints/LoggerWithMetricsCalculation.java:43-88 | replaying two series of events one after the other is replaying them together |
| JobMetrics.EntryFollowsEvents | mr-core/src/main/java/ru/nsu/mr/endpoints/LoggerWithMetricsCalculation.java:43-88 | an entry evolves with its own date's events only: the last start or finish sets its status, and the finish events count up its counters |
| JobMetrics.ExpectedSnoc | mr-core/src/main/java/ru/nsu/mr/endpoints/LoggerWithMetricsCalculation.java:43-88 | one more event for the entry's date acts on the entry last; an event for another date leaves it alone |
| JobMetrics.ExpectedCounts | mr-core/src/main/java/ru/nsu/mr/endpoints/LoggerWithMetricsCalculation.java:24-88 | after a series of events an entry has, added to its counters, the number of map and reduce finish events for its date, and the status of its last start or finish event for that date, its old status if none |
| JobMetrics.EntryCountsEvents | mr-core/src/main/java/ru/nsu/mr/endpoints/LoggerWithMetricsCalculation.java:43-88 | a job added once has, after any later events, exactly that many more finished map and reduce tasks and that last status, wherever it sits in the list |
| JobMetrics.FirstJobScenario | mr-core/src/test/java/ru/nsu/mr/endpoints/LoggerWithMetricsCalculationTest.java:17-36 | after add, start, one map task, one reduce task and finish, the job reads COMPLETED with one finished task of each kind |
| JobMetrics.InterleavedJobsScenario | mr-core/src/test/java/ru/nsu/mr/endpoints/LoggerWithMetricsCalculationTest.java:38-76 | with three jobs' events interleaved, the second job still reads IN_PROGRESS with 4 maps and 0 reduces while the third reads COMPLETED with 2 and 2 |
| JobMetrics.RepeatedFinishScenario | mr-core/src/test/java/ru/nsu/mr/endpoints/LoggerWithMetricsCalculationTest.java:78-85 | finishing a job again after more finished tasks leaves it COMPLETED |
| JobMetrics.JobsInDateOrder | mr-core/src/test/java/ru/nsu/mr/endpoints/LoggerWithMetricsCalculationTest.java:87-91 | jobs added in ascending date order are listed by `getJobs` in that order |
| JobRegistry.SummariesOf | mr-common/src/main/java/ru/nsu/mr/endpoints/LoggerWithMetricsCalculation.java:71-76 | one (id, name, state) summary per id, in the order given |
| JobRegistry.LoggerWithMetricsCalculation.constructor | mr-common/src/main/java/ru/nsu/mr/endpoints/LoggerWithMetricsCalculation.java:43 | a new logger has no jobs |
| JobRegistry.LoggerWithMetricsCalculation.JobReceived | mr-common/src/main/java/ru/nsu/mr/endpoints/LoggerWithMetricsCalculation.java:20-49 | stores a QUEUED job with zero counters under its id, replacing any job with that id |
| JobRegistry.LoggerWithMetricsCalculation.Update | mr-common/src/main/java/ru/nsu/mr/endpoints/LoggerWithMetricsCalculation.java:51-69 | an event on an unknown id fails with a NullPointerException and changes nothing; otherwise it updates only that job |
| JobRegistry.LoggerWithMetricsCalculation.JobStart | mr-common/src/main/java/ru/nsu/mr/endpoints/LoggerWithMetricsCalculation.java:26-54 | the job becomes RUNNING; an unknown id fails with a NullPointerException |
| JobRegistry.LoggerWithMetricsCalculation.MapTaskFinish | mr-common/src/main/java/ru/nsu/mr/endpoints/LoggerWithMetricsCalculation.java:34-59 | the job counts one more finished map task; an unknown id fails with a NullPointerException |
| JobRegistry.LoggerWithMetricsCalculation.ReduceTaskFinish | mr-common/src/main/java/ru/nsu/mr/endpoints/LoggerWithMetricsCalculation.java:38-64 | the job counts one more finished reduce task; an unknown id fails with a NullPointerException |
| JobRegistry.LoggerWithMetricsCalculation.JobFinish | mr-common/src/main/java/ru/nsu/mr/endpoints/LoggerWithMetricsCalculation.java:30-69 | the job becomes COMPLETED; an unknown id fails with a NullPointerException |
| JobRegistry.LoggerWithMetricsCalculation.GetJobs | mr-common/src/main/java/ru/nsu/mr/endpoints/LoggerWithMetricsCalculation.java:71-76 | exactly one summary per stored job, each with that job's id, name and state, in an unspecified order |
| JobRegistry.LoggerWithMetricsCalculation.GetJobDetails | mr-common/src/main/java/ru/nsu/mr/endpoints/LoggerWithMetricsCalculation.java:78-88 | none for an unknown id; otherwise that job's id, name, state and both counters |
| JobRegistry.DistinctKeysCount | mr-common/src/main/java/ru/nsu/mr/endpoints/LoggerWithMetricsCalculation.java:71-76 | a list of distinct ids naming exactly the stored jobs is as long as the job map |
| JobRegistry.Received | mr-common/src/main/java/ru/nsu/mr/endpoints/LoggerWithMetricsCalculation.java:45-69 | receiving a job and then its events adds that id and leaves every other job unchanged |
| JobRegistry.CountOf | mr-common/src/main/java/ru/nsu/mr/endpoints/LoggerWithMetricsCalculation.java:56-64 | the number of events of one kind in a series |
| JobRegistry.DetailsCountEvents | mr-common/src/main/java/ru/nsu/mr/endpoints/LoggerWithMetricsCalculation.java:45-88 | after receipt and a series of events, the job's counters equal the numbers of its finish events and its state is set by the last start or completion |
| PredefinedFunctions.StringCodec | mr-api/src/main/java/ru/nsu/mr/PredefinedFunctions.java:8-10 | STRING_SERIALIZER and STRING_DESERIALIZER are both the identity |
| PredefinedFunctions.IntegerSerialize | mr-api/src/main/java/ru/nsu/mr/PredefinedFunctions.java:9 | `Integer.toString` writes a non-empty text with no space and no comma |
| PredefinedFunctions.IntegerDeserialize | mr-api/src/main/java/ru/nsu/mr/PredefinedFunctions.java:11 | `Integer.parseInt` reads only values in the `int` range and rejects the empty string |
| PredefinedFunctions.IntegerRoundTrip | mr-core/src/main/java/ru/nsu/mr/PredefinedFunctions.java:7-9 | the integer deserializer reads back every `int` the serializer writes |
| PredefinedFunctions.StringKeyComparatorValid | mr-api/src/main/java/ru/nsu/mr/PredefinedFunctions.java:12 | STRING_KEY_COMPARATOR is a valid comparator, is zero only on equal strings, and orders a proper prefix first |
| PredefinedFunctions.StringKeyHashIsPolynomial | mr-core/src/main/java/ru/nsu/mr/PredefinedFunctions.java:11 | STRING_KEY_HASH is s[0]*31^(n-1) + ... + s[n-1] wrapped into `int`, and "" hashes to 0 |
| PredefinedFunctions.ListSerialize | mr-api/src/main/java/ru/nsu/mr/PredefinedFunctions.java:15-16 | a one-element list is written as its element, and two elements or more are joined with commas |
| PredefinedFunctions.ListDeserialize | mr-api/src/main/java/ru/nsu/mr/PredefinedFunctions.java:18-19 | no piece read back holds a comma, and a text without a comma reads as the one-element list of itself |
| PredefinedFunctions.EmptyListReadsBack | mr-api/src/main/java/ru/nsu/mr/PredefinedFunctions.java:15-19 | the empty list is written as "" and read back as [""] |
| PredefinedFunctions.ListRoundTrip | mr-api/src/main/java/ru/nsu/mr/PredefinedFunctions.java:15-19 | a list reads back as written exactly when it is non-empty, no element has a comma and, from two elements on, the last is not empty |
| JavaString.IndexOf | mr-core/src/main/java/ru/nsu/mr/storages/S3StorageProvider.java:53 | the first position of the character, present exactly when the character occurs |
| JavaString.SplitAll | mr-api/src/main/java/ru/nsu/mr/PredefinedFunctions.java:19 | the pieces between separators, none holding the separator |
| JavaString.DropTrailingEmpty | mr-api/src/main/java/ru/nsu/mr/PredefinedFunctions.java:19 | the longest prefix of the pieces that does not end with an empty piece; everything dropped is empty |
| JavaString.Split | mr-api/src/main/java/ru/nsu/mr/PredefinedFunctions.java:19 | `split` with limit 0: the string itself when the separator is absent, otherwise the pieces without trailing empty ones |
| JavaString.SplitLimit2 | mr-core/src/main/java/ru/nsu/mr/sources/KeyValueFileIterator.java:60 | `split` with limit 2: the string itself when the separator is absent, otherwise exactly the parts before and after its first occurrence |
| JavaString.JoinHasSeparator | mr-api/src/main/java/ru/nsu/mr/PredefinedFunctions.java:16 | two pieces or more joined hold the separator |
| JavaString.JoinSplitAll | mr-api/src/main/java/ru/nsu/mr/PredefinedFunctions.java:15-19 | splitting at every separator and joining back gives the original text |
| JavaString.SplitAllJoin | mr-api/src/main/java/ru/nsu/mr/PredefinedFunctions.java:15-19 | joining pieces free of the separator and splitting at every separator gives them back |
| JavaString.SplitJoin | mr-api/src/main/java/ru/nsu/mr/PredefinedFunctions.java:15-19 | pieces free of the separator, the last not empty, are given back by `split` after `join` |
| JavaString.TrimStart | mr-core/src/main/java/ru/nsu/mr/storages/StorageProviderFactory.java:5 | drops exactly the leading characters `trim` removes |
| JavaString.TrimEnd | mr-core/src/main/java/ru/nsu/mr/storages/StorageProviderFactory.java:5 | drops exactly the trailing characters `trim` removes |
| JavaString.TrimShape | mr-core/src/main/java/ru/nsu/mr/storages/StorageProviderFactory.java:5-6 | a trimmed string starts and ends with a kept character, and is empty exactly when every character is trimmed |
| JavaString.ToUpperCase | mr-worker/src/main/java/ru/nsu/mr/WorkerEndpoint.java:57 | upper-cases every character, keeping the length |
| JavaString.DigitsRoundTrip | mr-api/src/main/java/ru/nsu/mr/PredefinedFunctions.java:9-11 | the decimal digits of a natural number read back as that number |
| JavaString.IntToString | mr-api/src/main/java/ru/nsu/mr/PredefinedFunctions.java:9 | `Integer.toString` is never empty |
| JavaString.ParseInt | mr-worker/src/main/java/ru/nsu/mr/WorkerEndpoint.java:111 | `Integer.parseInt` gives only values in the `int` range |
| JavaString.IntStringRoundTrip | mr-api/src/main/java/ru/nsu/mr/PredefinedFunctions.java:9-11 | `Integer.parseInt(Integer.toString(n)) == n` for every `int` |
| JavaString.CompareToZero | mr-api/src/main/java/ru/nsu/mr/PredefinedFunctions.java:12 | `compareTo` is zero exactly on equal strings |
| JavaString.CompareToAntisymmetric | mr-api/src/main/java/ru/nsu/mr/PredefinedFunctions.java:12 | `compareTo` is antisymmetric |
| JavaString.CompareToTransitive | mr-api/src/main/java/ru/nsu/mr/PredefinedFunctions.java:12 | `compareTo` is transitive |
| JavaString.CompareToPrefix | mr-api/src/main/java/ru/nsu/mr/PredefinedFunctions.java:12 | a proper prefix compares below the longer string |
| JavaString.HashCode | mr-api/src/main/java/ru/nsu/mr/PredefinedFunctions.java:13 | `hashCode` stays in the `int` range |
| JavaString.HashCodeIsWrappedPolynomial | mr-api/src/main/java/ru/nsu/mr/PredefinedFunctions.java:13 | the loop `h = 31 * h + c` in `int` arithmetic computes the polynomial hash wrapped into `int` |
| JavaInt.Wrap32 | mr-core/src/main/java/ru/nsu/mr/sinks/PartitionedFileSink.java:32-35 | two's-complement wrap-around: an `int` congruent to the input modulo 2^32, equal to it when it already fits |
| JavaInt.Inc32 | mr-core/src/main/java/ru/nsu/mr/sinks/AltSortedFileSink.java:53 | Java's `n + 1` on an `int`: in range, and exact below INT_MAX |
| JavaInt.Inc32Wraps | mr-core/src/main/java/ru/nsu/mr/sinks/AltSortedFileSink.java:53 | the increment is the wrap of the exact sum |
| JavaInt.JavaRem | mr-core/src/main/java/ru/nsu/mr/sinks/PartitionedFileSink.java:34 | Java's truncating `%` for a positive divisor: sign of the dividend, magnitude below the divisor, congruent to the dividend |
| Configurations.OptionNamesDistinct | mr-core/src/main/java/ru/nsu/mr/config/ConfigurationOption.java:7-35 | no two predefined options share a name, so setting one never changes another |
| Configurations.Configuration.constructor | mr-core/src/main/java/ru/nsu/mr/config/Configuration.java:7 | a fresh configuration has nothing set, and every option reads as its default |
| Configurations.Configuration.Set | mr-core/src/main/java/ru/nsu/mr/config/Configuration.java:9-24 | returns the same configuration; the option is now set and reads as the stored value, even null; every option with another name reads as before |
| StorageProviders.StorageProviderFor | mr-core/src/main/java/ru/nsu/mr/storages/StorageProviderFactory.java:4-21 | null selects the local provider; a provider other than local comes from a string that does not name local; every other string fails with "Invalid connection string: " and the string |
| StorageProviders.NotLocal | mr-core/src/main/java/ru/nsu/mr/storages/StorageProviderFactory.java:5-6 | a string whose first non-blank character is not an 'l' does not name the local provider |
| StorageProviders.S3Selected | mr-core/src/main/java/ru/nsu/mr/storages/StorageProviderFactory.java:8-10 | "S3:" plus anything selects S3 with the rest trimmed |
| StorageProviders.MinIOSelected | mr-core/src/main/java/ru/nsu/mr/storages/StorageProviderFactory.java:11-17 | "MINIO:" plus anything selects MinIO with the rest trimmed |
| StorageProviders.BlankIsLocal | mr-core/src/main/java/ru/nsu/mr/storages/StorageProviderFactory.java:5-7 | a blank string selects the local provider |
| StorageProviders.BlankFirstRejected | mr-core/src/main/java/ru/nsu/mr/storages/StorageProviderFactory.java:8-20 | a string starting with a blank that does not name local is rejected |
| StorageProviders.SpacedPrefixRejected | mr-core/src/main/java/ru/nsu/mr/storages/StorageProviderFactory.java:8-20 | a space before "S3:" makes the string invalid |
| StorageProviders.SegmentEntry | mr-core/src/main/java/ru/nsu/mr/storages/S3StorageProvider.java:53-55 | a segment yields an entry exactly when it holds a '=' |
| StorageProviders.SegmentAtFirstEquals | mr-core/src/main/java/ru/nsu/mr/storages/S3StorageProvider.java:53-55 | a segment is cut at its first '=', later '=' staying in the value, and key and value are trimmed |
| StorageProviders.PutAllKeys | mr-core/src/main/java/ru/nsu/mr/storages/S3StorageProvider.java:52-57 | a key is in the map exactly when some segment carries it |
| StorageProviders.PutAllLastWins | mr-core/src/main/java/ru/nsu/mr/storages/S3StorageProvider.java:55 | a key's value comes from the last segment that carries it |
| StorageProviders.SegmentEntries | mr-core/src/main/java/ru/nsu/mr/storages/S3StorageProvider.java:52-57 | one entry per segment, in order |
| StorageProviders.ParseConfig | mr-core/src/main/java/ru/nsu/mr/storages/S3StorageProvider.java:49-59 | the loop builds the map of the entries of the string split on ';' |
| StorageProviders.BucketName | mr-core/src/main/java/ru/nsu/mr/storages/S3StorageProvider.java:31 | the bucket name is present exactly when the parameters have a "bucketName" entry |
| StorageProviders.SegmentsSeparable | mr-core/src/test/java/ru/nsu/mr/storages/StorageProviderTest.java:36-37 | written segments hold no ';' and none is empty |
| StorageProviders.SplitParameterString | mr-core/src/test/java/ru/nsu/mr/storages/StorageProviderTest.java:36-37 | a written parameter string splits back into its segments |
| StorageProviders.SegmentsReadBack | mr-core/src/test/java/ru/nsu/mr/storages/StorageProviderTest.java:36-37 | every written segment gives back its pair |
| StorageProviders.ParseWrittenParameters | mr-core/src/main/java/ru/nsu/mr/storages/MinIOStorageProvider.java:42-52 | parameters written from trimmed pairs with no ';' and no '=' in a key parse back to exactly the keys written, each with its last value |
| StorageProviders.PresentKeys | mr-core/src/test/java/ru/nsu/mr/storages/StorageProviderTest.java:36-37 | the map of written pairs holds exactly the keys written |
| WorkerEndpoints.HandleCreateTask | mr-worker/src/main/java/ru/nsu/mr/WorkerEndpoint.java:69-81 | 200 with the created task, or 400 with "Failed to create task: " and the exception's message |
| WorkerEndpoints.HandleRetrieveAllTasks | mr-worker/src/main/java/ru/nsu/mr/WorkerEndpoint.java:96-106 | 200 with every task, or 400 with "Failed to retrieve tasks: " and the message |
| WorkerEndpoints.HandleRetrieveTaskById | mr-worker/src/main/java/ru/nsu/mr/WorkerEndpoint.java:108-127 | 400 "Invalid task ID format" for a non-`int` id; otherwise 200 with the task, 404 when there is none, or 400 when the provider throws |
| WorkerEndpoints.HandleRetrieveTask | mr-worker/src/main/java/ru/nsu/mr/WorkerEndpoint.java:83-94 | two path segments list every task; three with a non-empty last one fetch that id; anything else is 400 "Invalid request path" |
| WorkerEndpoints.Handle | mr-worker/src/main/java/ru/nsu/mr/WorkerEndpoint.java:55-67 | PUT creates and GET retrieves, the method name upper-cased; every other method gets 405 "Method Not Allowed"; the status is always 200, 400, 404 or 405 |
| WorkerEndpoints.CreateSucceedsIffCreated | mr-worker/src/main/java/ru/nsu/mr/WorkerEndpoint.java:69-81 | a PUT answers 200 with the task exactly when creation succeeds |
| WorkerEndpoints.MethodCaseInsensitive | mr-worker/src/main/java/ru/nsu/mr/WorkerEndpoint.java:57 | method names match whatever their letter case, and POST gets 405 |
| WorkerEndpoints.JoinedPath | mr-worker/src/main/java/ru/nsu/mr/WorkerEndpoint.java:85 | a path is its segments joined with '/', a leading '/' giving an empty first segment |
| WorkerEndpoints.TrailingSlashDropped | mr-worker/src/main/java/ru/nsu/mr/WorkerEndpoint.java:85 | a trailing '/' adds one empty segment, which `split` drops |
| WorkerEndpoints.ContextPathSegments | mr-worker/src/main/java/ru/nsu/mr/WorkerEndpoint.java:42-88 | "/tasks" and "/tasks/" both have the two segments that list every task |
| WorkerEndpoints.IdPathSegments | mr-worker/src/main/java/ru/nsu/mr/WorkerEndpoint.java:85-89 | "/tasks/{id}", with or without a trailing '/', has the three segments that name a task |
| WorkerEndpoints.ListRoute | mr-worker/src/main/java/ru/nsu/mr/WorkerEndpoint.java:87-88 | GET "/tasks" and "/tasks/" list every task |
| WorkerEndpoints.IdRoute | mr-worker/src/main/java/ru/nsu/mr/WorkerEndpoint.java:89-90 | GET "/tasks/{id}/" answers as "/tasks/{id}" |
| WorkerEndpoints.FetchById | mr-worker/src/main/java/ru/nsu/mr/WorkerEndpoint.java:108-119 | GET "/tasks/n" asks for task n: 200 with it, 404 with "Task not found for ID: n" when absent, 400 when the provider throws |
| WorkerEndpoints.MalformedIdRejected | mr-worker/src/main/java/ru/nsu/mr/WorkerEndpoint.java:120-122 | an id that is not a decimal `int` is refused with 400 before the provider is asked |
| WorkerEndpoints.RootRejected | mr-worker/src/main/java/ru/nsu/mr/WorkerEndpoint.java:91-92 | GET "/" is a bad request |
| Application.FirstAcceptedSpec | mr-app/src/main/java/ru/nsu/mr/Application.java:19-25 | the first address of an interface that is not loopback and is IPv4, or none when it has no such address |
| Application.FirstNonLocalSpec | mr-app/src/main/java/ru/nsu/mr/Application.java:15-27 | an address is found exactly when an interface that is up and not loopback has a non-loopback IPv4 address, and it is such an address |
| Application.GetNonLocalIpAddress | mr-app/src/main/java/ru/nsu/mr/Application.java:13-32 | the walk returns FirstNonLocal of the interfaces, and null when the listing fails |
| Application.NoneAccepted | mr-app/src/main/java/ru/nsu/mr/Application.java:18 | an interface that is down or loopback contributes no address |
| Application.FirstFreePortSpec | mr-app/src/main/java/ru/nsu/mr/Application.java:34-43 | the port found binds, no earlier port from the start binds, and a failure means no port up to 65535 binds |
| Application.FindFreePort | mr-app/src/main/java/ru/nsu/mr/Application.java:34-43 | the loop returns FirstFreePort from the start port |
| Application.BaseUrl | mr-app/src/main/java/ru/nsu/mr/Application.java:51 | a base URL starts with "http://" and holds the host, a ':' and the port |
| Application.BaseUrlRoundTrip | mr-app/src/main/java/ru/nsu/mr/Application.java:51 | the host and port read back from an assigned URL by cutting at the first ':' after "http://" |
| Application.AutoAssignBaseUrl | mr-app/src/main/java/ru/nsu/mr/Application.java:45-52 | the local address, or 127.0.0.1 without one, with the first free port from 8080 |
| Application.Dispatch | mr-app/src/main/java/ru/nsu/mr/Application.java:63-114 | exit status 1 with USAGE without a mode, "Unknown mode: " + mode for an unknown one, and WORKER_USAGE for a worker without a coordinator URL; the coordinator reads a lone ".yaml" argument as a configuration file and another lone one as its URL, and two or more as file and URL, ignoring the rest; the worker takes the coordinator URL and an optional own URL |
| Application.ParseArgs | mr-app/src/main/java/ru/nsu/mr/Application.java:54-68 | a leading "--logs" and its value set the log directory, "./logs" otherwise; no arguments is a usage error |
| Application.LogsOptionSkipped | mr-app/src/main/java/ru/nsu/mr/Application.java:58-61 | "--logs" and its value are skipped before the mode is read |
| Application.LoneLogsFlag | mr-app/src/main/java/ru/nsu/mr/Application.java:58-113 | a lone "--logs" is read as an unknown mode |
| Application.ModeCaseInsensitive | mr-app/src/main/java/ru/nsu/mr/Application.java:70-95 | two spellings of a mode that differ in case launch the same thing |
| Application.ExtraArgumentsIgnored | mr-app/src/main/java/ru/nsu/mr/Application.java:84-103 | arguments after the mode, the configuration and the URL change nothing |
| WorkerApplication.LauncherArguments | mr-worker/src/main/java/ru/nsu/mr/Application.java:11-18 | the launcher receives "worker" followed by the command line after its first argument |
| WorkerApplication.RewriteArguments | mr-worker/src/main/java/ru/nsu/mr/Application.java:6-18 | an empty command line exits with status 1; otherwise a fresh array of the same length holds "worker" and a copy of every argument after the first |
| JobServices.StripTrailingSlashes | mr-web/src/app/features/jobs/job.service.ts:43 | removes exactly the run of '/' the URL ends with |
| JobServices.StripUnchanged | mr-web/src/app/features/jobs/job.service.ts:43 | a URL without a trailing '/' is kept |
| JobServices.StripIdempotent | mr-web/src/app/features/jobs/job.service.ts:43 | stripping twice is stripping once |
| JobServices.StripEmpty | mr-web/src/app/features/jobs/job.service.ts:43 | only a URL of '/' alone, or nothing, strips to "" |
| JobServices.StripIgnoresAddedSlashes | mr-web/src/app/features/jobs/job.service.ts:43 | adding '/' at the end changes nothing |
| JobServices.JobPath | mr-web/src/app/features/jobs/job.service.ts:58-62 | "/jobs/" followed by the id in decimal |
| JobServices.ProgressPath | mr-web/src/app/features/jobs/job.service.ts:66 | the job's path followed by "/progress" |
| JobServices.JobPathRoundTrip | mr-web/src/app/features/jobs/job.service.ts:58-62 | the id in a job path reads back as that id |
| JobServices.JobService.constructor | mr-web/src/app/features/jobs/job.service.ts:40 | no base URL is set |
| JobServices.JobService.SetCoordinatorUrl | mr-web/src/app/features/jobs/job.service.ts:42-44 | stores the URL without its trailing '/' |
| JobServices.JobService.Api | mr-web/src/app/features/jobs/job.service.ts:46-51 | fails with "Coordinator URL not set" exactly when no URL is stored; otherwise the URL followed by the path |
| JobServices.RequestsAfterSet | mr-web/src/app/features/jobs/job.service.ts:42-51 | after a URL with something other than '/' is set, every request goes to that URL without its trailing '/' followed by the path |
| JobServices.RequestsWithoutUrl | mr-web/src/app/features/jobs/job.service.ts:46-49 | with no URL, or one made only of '/', every request fails with the same error |
| JobServices.EndpointRequests | mr-web/src/app/features/jobs/job.service.ts:53-71 | the five requests use GET /jobs, DELETE /jobs/{id}, GET /jobs/{id}, GET /jobs/{id}/progress and POST /jobs after the base URL |
| JobServices.EndpointsWithoutUrl | mr-web/src/app/features/jobs/job.service.ts:53-71 | without a usable base URL every request fails with the error `api` raises |
| Wrappers.ExceptionText | mr-core/src/main/java/ru/nsu/mr/Worker.java:35 | an IOException reads as its class name, ": " and its message; a RuntimeException without a message reads as its class name alone |

## Left out

- KeyValueFormat.Codec: serializers and deserializers are total functions. A deserializer that throws in Java, such as `Integer.parseInt` on a malformed value, is not modelled. A malformed record therefore never fails a task here.
- MapReduceTasksRunner.ExecuteReduceTask: reads and parses every input file completely before merging. Java parses lazily while it merges and reduces. There, a malformed line late in a file fails the task only after the reducer has already emitted part of its output, so that partial output file is not modelled.
- MapReduceTasksRunner.ExecuteReduceTask: the reducer is required to read at least one value per call (`ReadsAValue`). A reducer that reads none makes Java's loop hand it the same key forever, because `next` does not skip the unread values (see "## Findings"). The loop with that skip is modelled and proved apart from the runner.
- MapReduceSequentialRunner.ReducePhase: the reducer is required to read at least one value per call (`ReadsAValue`). A reducer that reads none makes Java's loop hand it the same key forever, because `next` does not skip the unread values (see "## Findings"). The loop with that skip is modelled and proved apart from the runner.
- MapReduceSequentialRunner.Run: the reducer is required to read at least one value per call (`ReadsAValue`). A reducer that reads none makes Java's loop hand it the same key forever, because `next` does not skip the unread values (see "## Findings"). The loop with that skip is modelled and proved apart from the runner. Run also does not say which line without a space is reported when several records fail to read back. Java reads the dumps lazily during the merge, so the line it meets first depends on the merge order.
- MapReduceSequentialRunner.RunAsWritten: the reducer is required to read at least one value per call (`ReadsAValue`). A reducer that reads none makes Java's loop hand it the same key forever, because `next` does not skip the unread values (see "## Findings"). The loop with that skip is modelled and proved apart from the runner.
- SortedRuns.ReadDumps: reads every dump completely, in dump order, before merging, so a failure names the first bad line of the first bad dump. Java reads the dumps lazily during the merge and may meet another bad line first.
- SortedFileSinks.SortedFileSink.Close: on a read-back failure the model writes no output. Java has already written the merged records that come before the failing line. Close also does not say which line without a space is reported when several records fail to read back. Java reads the dumps lazily during the merge, so the line it meets first depends on the merge order.
- SortedFileSinks.MergeSpills: does not say which line without a space is reported when several records fail to read back. Java reads the dumps lazily during the merge, so the line it meets first depends on the merge order.
- SortedFileSinks.SortAll: does not say which line without a space is reported when several records fail to read back. Java reads the dumps lazily during the merge, so the line it meets first depends on the merge order.
- AltSortedFileSinks.AltSortedFileSink.Close: on a read-back failure the model writes no output, where Java has already written the merged records before the failing line. Close also does not say which line without a space is reported when several records fail to read back. Java reads the dumps lazily during the merge, so the line it meets first depends on the merge order.
- AltSortedFileSinks.MergeReduced: does not say which line without a space is reported when several records fail to read back. Java reads the dumps lazily during the merge, so the line it meets first depends on the merge order.
- PartitionedFileSinks.PartitionedFileSink.Close: after the first sink that fails, the model does not state the later sinks' state; Java never reaches them. Close also does not say which line without a space is reported when several records fail to read back. Java reads the dumps lazily during the merge, so the line it meets first depends on the merge order.
- MapReduceTasksRunner.CloseOutputs: does not say which line without a space is reported when several records fail to read back. Java reads the dumps lazily during the merge, so the line it meets first depends on the merge order.
- MapReduceSequentialRunner.RunMapper: does not say which line without a space is reported when several records fail to read back. Java reads the dumps lazily during the merge, so the line it meets first depends on the merge order.
- MapReduceSequentialRunner.MapPhase: does not say which line without a space is reported when several records fail to read back. Java reads the dumps lazily during the merge, so the line it meets first depends on the merge order.
- MapReduceTasksRunner.ExecuteMapperTask: a failed map task returns only its error. The dump files and the partial `mapper-output-*` files that Java leaves behind on disk are not modelled. It also does not say which line without a space is reported when several records fail to read back. Java reads the dumps lazily during the merge, so the line it meets first depends on the merge order.
- MapReduceTasksRunner.OpenFile: every file in the model is plain text, so a name ending in `.zip` opens as an archive without entries. A real ZIP archive and its first entry are not modelled.
- JavaString.ToUpperCase: upper-cases ASCII letters only, so the length never changes. Java's `toUpperCase` maps all of Unicode and can lengthen a string: "ß" becomes "SS".
- JavaString.CompareTo: compares Unicode scalar values. Java compares UTF-16 code units, so the order differs for characters outside the Basic Multilingual Plane.
- JavaString.HashCode: hashes Unicode scalar values. Java hashes UTF-16 code units, so a supplementary character hashes differently.
- JavaString.EqualsIgnoreCase: folds ASCII letters only. Java's `equalsIgnoreCase` also folds other pairs, for example the dotless ı and the Kelvin sign.
- JavaString.ParseInt: accepts ASCII digits only. `Integer.parseInt` also accepts other Unicode decimal digits.
- JobMetrics.LoggerWithMetricsCalculation.MapTaskFinish: the finished-map counter is unbounded. Java's `int` counter would wrap after 2^31 - 1 events.
- JobMetrics.LoggerWithMetricsCalculation.ReduceTaskFinish: the finished-reduce counter is unbounded. Java's `int` counter would wrap after 2^31 - 1 events.
- JobRegistry.LoggerWithMetricsCalculation.MapTaskFinish: the finished-map counter is unbounded, where Java's `int` would wrap.
- JobRegistry.LoggerWithMetricsCalculation.ReduceTaskFinish: the finished-reduce counter is unbounded, where Java's `int` would wrap.
- JobServices.JobPath: the job id is an integer. A TypeScript `number` may also be non-integral, and from 1e21 on it prints in exponent form. Neither case is modelled.
- PartitionedFileSinks.PartitionedFileSink: modelled over a list of `SortedFileSink`s, which is the only kind of sink it is given in the code. Partitioning over other sink kinds is not modelled.
- StorageProviders.StorageProviderFor: picks the provider kind only. The RuntimeException "Error initializing MinIOStorageProvider" is not modelled. Java throws it when building the MinIO client fails.
- Coordinators.Coordinator.Start: a failed listing becomes a RuntimeException, but the model does not keep the listing error as the exception's cause.
- MergedKeyValueIterators.MergedKeyValueIterator: `poll` may return any entry of minimum key. The actual tie order of `PriorityQueue` is not modelled, so the merge is proved sorted and complete, but not stable.
- ZipFileSinks.ZipFileSink: the file holds the entry's lines. The ZIP byte encoding and compression are not modelled.
- Coordinators.Coordinator.DistributeTasks: the HTTP request that sends a task and the JSON body are not modelled. Whether each send succeeded is a parameter.
- Workers.Worker: the threads that run tasks, the waiting and notifying between them, and the HTTP calls back to the coordinator are not modelled. `synchronized` sections are treated as atomic steps.
- WorkerEndpoints: the HTTP server and the JSON encoding are not modelled. A request is its method, path and parameters.
- Logging in every component (log files, console output, the logger's log lines) is not modelled. It does not affect any result.
- The storage providers' S3 and MinIO client operations (listing, upload, download) are not part of this model. They talk to an external service. Only the choice of provider and the connection parameters are modelled.
- Loading the configuration file, loading the job's jar through reflection, and the launcher that starts a coordinator or a worker are not modelled. They need class loading and the file system.
- The Angular component code of the web console, and the HTTP client behind `JobService`, are not modelled. Only the URLs and verbs of the requests are modelled.

## Findings

| source | as written | input that shows it | evidently intended | confidence | as-written member | corrected member |
|---|---|---|---|---|---|---|
| mr-core/src/main/java/ru/nsu/mr/MapReduceSequentialRunner.java:50 | the reduce phase reads `mapper-output-k-i.zip`, but the map tasks write `mapper-output-k-i.txt` (MapReduceTasksRunner.java:36); opening the `.zip` name fails, and the IOException is rethrown as a RuntimeException | any run with at least one map task and one reducer, for example one input file, 1 mapper and 1 reducer | read `mapper-output-k-i.txt`, the name the map task wrote | high, not executed | MapReduceSequentialRunner.RunAsWritten (with MapReduceSequentialRunner.ZipReducePhaseFails) | MapReduceSequentialRunner.Run |
| mr-core/src/main/java/ru/nsu/mr/sources/GroupedKeyValuesIterator.java:28 | `next` does not skip the values of the current group that the reducer left unread (the TODO at this line), so the reduce loop at MapReduceTasksRunner.java:125-139 is handed the same key again, from the first value not read (MapReduceTasksRunner.PartialCallRedelivered); the runner models this loop as written | a reducer that reads no value, on any non-empty input: every call returns the same key and the input never moves, so the loop never ends | roll past the rest of the group, so that each group of equal keys gets exactly one call | high, not executed | GroupedKeyValuesIterators.NoReadNoProgress (with GroupedKeyValuesIterators.NoReadCount) | GroupedKeyValuesIterators.ReadGroupsRolled (with GroupedKeyValuesIterators.RolledCallsGroups and MapReduceTasksRunner.RolledOutputAgrees) |
