# go_csv_agg, modelled in Dafny

go_csv_agg counts how often each value of one column occurs in a large CSV file. It then
prints the most frequent values. The repository holds three variants of the program:

- `aggcsv.go` reads the file with `encoding/csv`. It cuts the records into batches of 500
  (`BulkCount`). It counts field 1 (`AggColNo`) of each batch in its own goroutine
  (`processData`), then merges the partial maps as they come off a channel. It sorts the
  entries by count descending and then by name ascending (`List.Less`), and prints the
  first five rows. That print loop has no bound check, so the program panics when there
  are fewer than five distinct keys.
- `basic/aggcsv.go` is the same pipeline. Its print loop is bounded, so it prints the
  first `min(10, len(results))` rows.
- `dispatcher/aggcsv_d.go` scans the file line by line as bytes. From each line it cuts a
  name: from two bytes past the first comma up to one byte before the next comma. It deals
  the names round-robin to `concurrency` worker goroutines, each of which counts its names
  in its own map. The worker maps are merged, sorted with the same ordering, and the top
  ten rows are printed.

The comment at aggcsv.go:43 (and basic/aggcsv.go:43) says rows with too few columns are
ignored. The code does not do that: with `FieldsPerRecord = -1` the reader returns short
records, and `rec[AggColNo]` then panics. The model follows the code, so a short record
ends the run with `MissingColumn`.

The model follows the sequential core under the goroutines.

- The modules are `Base`, `Lex`, `Counting`, `Ranking`, `Batching`, `AggCsv`, `Basic` and
  `Dispatcher`. `Batching` holds the part that `aggcsv.go` and `basic/aggcsv.go` share.
- Loops in the source are methods with loops. Each is proved against a specification
  function: `Counts` for counting, `Merge`/`MergeAll` for merging, `IsRanking` for
  sorting, `IsBatching` for batching, and `Names`/`Columns` for scanning and dealing.
- `List.Swap` works in place on an array.
- Every Go panic becomes a `Failure` carrying the runtime error that ends the run.
- The order of values the source leaves unspecified is an arbitrary choice (`:|`) in the
  model. This covers the order in which goroutines deliver their maps and the order of map
  iteration. The lemmas show the result does not depend on that choice.

Go's `<` on strings compares bytes lexicographically. Dafny's `<` on sequences means
"proper prefix", so `Lex.LexLess` defines the Go order explicitly.

## Model

| member | source | states |
|---|---|---|
| Lex.LexLessMeaning | aggcsv.go:141 | `a < b` on Go strings holds iff `a` is a proper prefix of `b` or the first differing byte of `a` is smaller |
| Lex.LexIrreflexive | aggcsv.go:141 | no name is less than itself |
| Lex.LexTransitive | aggcsv.go:141 | the name order is transitive |
| Lex.LexTotal | aggcsv.go:141 | of two different names, one is less than the other |
| Lex.LexAsymmetric | aggcsv.go:141 | two names are never less than each other both ways |
| Ranking.LessIrreflexive | aggcsv.go:139-145 | `Less(e, e)` never holds |
| Ranking.LessTransitive | aggcsv.go:139-145 | `Less` is transitive |
| Ranking.LessTotal | aggcsv.go:139-145 | two entries with different names are ordered one way or the other, so `Less` is a strict total order on entries with distinct names |
| Ranking.LessAsymmetric | basic/aggcsv.go:130-136 | `Less(e, f)` excludes `Less(f, e)` |
| Ranking.NotAfterTransitive | dispatcher/aggcsv_d.go:108-113 | "not after" (the negation of the closure with its arguments swapped) is transitive |
| Ranking.NotAfterAntisymmetric | dispatcher/aggcsv_d.go:108-113 | two entries that may each stand before the other are equal, so ties cannot occur |
| Ranking.SortedUnique | aggcsv.go:103 | two sorted lists with the same entries are the same list |
| Ranking.RankingUnique | basic/aggcsv.go:98 | a map has exactly one ranking, whatever order its entries were listed in |
| Ranking.EntryListFacts | aggcsv.go:96-100 | a list holding exactly the map's entries has one row per key, carrying that key's count, with no name twice |
| Ranking.TopOutranksRest | dispatcher/aggcsv_d.go:114-116 | the printed prefix has `min(n, keys)` rows with true counts, and each printed row ranks before every key not printed |
| Ranking.Swap | aggcsv.go:135-137 | positions i and j are exchanged, every other position is unchanged, and the contents are a permutation of the old ones |
| Ranking.Sort | aggcsv.go:103 | the array ends sorted under `Less` and is a permutation of its old contents |
| Ranking.ToEntries | aggcsv.go:96-100 | whatever order the map is visited in, the list holds each entry of the map exactly once |
| Ranking.SortedEntries | basic/aggcsv.go:91-98 | the result is the ranking of the map: sorted, and a permutation of its entries |
| Ranking.PrintTop | basic/aggcsv.go:100-102 | the printed rows are exactly the first `min(n, len(results))` entries |
| Counting.CountsMeaning | aggcsv.go:115-118 | a key is counted iff it occurs, and its count is its number of occurrences |
| Counting.CountsSnoc | aggcsv.go:117 | counting one more key is `m[k]++` on the counts so far, with an absent key starting from zero |
| Counting.MergeCounts | aggcsv.go:90-92 | merging the counts of two key sequences gives the counts of their concatenation |
| Counting.MergeAllCounts | aggcsv.go:85-93 | merging the counts of every batch gives the counts of all batches together |
| Counting.TotalCounts | aggcsv.go:85-93 | the counts add up to the number of keys counted |
| Counting.TotalInc | aggcsv.go:117 | `m[k]++` adds one to the sum of the counts |
| Counting.MergeEmpty | basic/aggcsv.go:82 | merging into an empty map yields the part unchanged |
| Counting.MergeCommutative | basic/aggcsv.go:84-86 | merging a into b and b into a give the same map |
| Counting.MergeAssociative | basic/aggcsv.go:83-87 | the merge is associative |
| Counting.MergeAllAppend | basic/aggcsv.go:83-87 | merging two runs of partials one after the other is merging the two results |
| Counting.MergeAllPermutation | aggcsv.go:87-93 | any two arrival orders of the same partial maps merge to the same map |
| Counting.MergeInto | basic/aggcsv.go:84-86 | in any key order, the result holds the keys of both maps, each with the sum of its two counts (absent reads as zero) |
| Counting.MergeSequence | dispatcher/aggcsv_d.go:95-100 | merging a slice of partial maps in slice order yields `MergeAll` of the slice |
| Batching.ConcatAppend | aggcsv.go:48-76 | putting batches back together distributes over concatenation |
| Batching.BatchCount | aggcsv.go:49-57 | n records make `n / 500 + 1` batches, and the last holds `n % 500` records (an empty last batch when 500 divides n) |
| Batching.BatchContents | aggcsv.go:48-63 | batch i holds exactly records `500 i` up to `500 (i + 1)`, cut off at the end of the input |
| Batching.BatchingUnique | basic/aggcsv.go:48-73 | a record sequence has exactly one batching |
| Batching.KeysConcat | aggcsv.go:64-71 | the keys of all the batches, batch after batch, are the keys of the whole input |
| Batching.SplitBatches | aggcsv.go:48-76 | it fails with a read error iff the stream ends in a non-EOF error; otherwise it yields full batches of 500 and a short last one that together give back the input in order |
| Batching.ProcessData | aggcsv.go:111-122 | for a batch whose records all have field 1, the keys are exactly the field-1 values and each maps to its number of occurrences |
| Batching.Collect | aggcsv.go:84-93 | whatever order the partial maps arrive in, the sum is the merge of all of them |
| Batching.Aggregate | aggcsv.go:42-93 | a read error gives ReadFailed, and a record without field 1 gives MissingColumn; otherwise the merged map is the count of field 1 over all records, and its values add up to the number of records |
| AggCsv.PrintFirstFive | aggcsv.go:105-107 | it succeeds iff there are at least 5 entries, then printing exactly the first 5; otherwise it fails with an index-out-of-range panic |
| AggCsv.Run | aggcsv.go:25-109 | read error, short record and fewer than 5 keys each fail with their panic; otherwise it prints the first 5 rows of the ranking of the field-1 counts |
| Basic.Run | basic/aggcsv.go:25-104 | a read error fails with ReadFailed (reported first when a short record also occurs), and a short record in a stream ending in EOF fails with MissingColumn; otherwise it prints exactly the first `min(10, keys)` rows of the ranking of the field-1 counts |
| Dispatcher.IndexByte | dispatcher/aggcsv_d.go:81 | the result is -1 iff the byte is absent; otherwise it is the index of its first occurrence |
| Dispatcher.ExtractName | dispatcher/aggcsv_d.go:80-87 | a line yields no name iff it has no comma; a name holds no comma; any failure is a slice-bounds panic |
| Dispatcher.ExtractNameAt | dispatcher/aggcsv_d.go:81-87 | with the first comma at k and the next comma from k+2 on at j >= k+3, the name is bytes k+2 .. j-2, of length j-k-3 |
| Dispatcher.ExtractNamePanics | dispatcher/aggcsv_d.go:85-87 | a line with a comma at k panics iff it ends before k+2, or has no comma from k+2 on, or has one right at k+2 |
| Dispatcher.NamesStep | dispatcher/aggcsv_d.go:79-89 | a line without a comma leaves the names (and so `i`) unchanged, a line with a name appends it, and a line that panics ends the scan |
| Dispatcher.NamesWithoutCommas | dispatcher/aggcsv_d.go:82-84 | lines without commas yield no names |
| Dispatcher.NamesPrefixFailure | dispatcher/aggcsv_d.go:85-87 | once a line panics, later lines change nothing |
| Dispatcher.NamesFailure | dispatcher/aggcsv_d.go:79-90 | the scan panics iff some line's slicing panics, and the panic is a slice-bounds one |
| Dispatcher.NamesCount | dispatcher/aggcsv_d.go:79-90 | a scan that does not panic yields one name per line with a comma |
| Dispatcher.ColumnLength | dispatcher/aggcsv_d.go:88-89 | worker w's queue reaches every stream position `q c + w` inside the stream and none beyond it |
| Dispatcher.ColumnElements | dispatcher/aggcsv_d.go:88-89 | the q-th name worker w receives is the name at stream position `q c + w` |
| Dispatcher.NameGoesTo | dispatcher/aggcsv_d.go:88-89 | the n-th extracted name goes to worker `n % c`, as the `(n / c)`-th name of its queue |
| Dispatcher.ColumnsSnoc | dispatcher/aggcsv_d.go:88-89 | sending the next name appends it to queue `i % c` and leaves every other queue unchanged |
| Dispatcher.ColumnsPartition | dispatcher/aggcsv_d.go:88-89 | the queues together hold exactly the extracted names, each once |
| Dispatcher.Dispatch | dispatcher/aggcsv_d.go:77-90 | for c > 0 it fails iff the scan panics, and otherwise queue w is the residue class w of the names; for c <= 0 it fails iff some line has a comma, and the first such line decides the panic: a slice panic if its slicing fails, otherwise divide by zero from `i % concurrency` when c = 0, or index out of range on the empty `task` slice when c < 0 |
| Dispatcher.Worker | dispatcher/aggcsv_d.go:39-42 | a worker's map counts exactly the names it received |
| Dispatcher.CountAndMerge | dispatcher/aggcsv_d.go:91-100 | the merged map is the merge, in slice order, of every worker's counts |
| Dispatcher.WorkersCountAll | dispatcher/aggcsv_d.go:95-100 | the merged worker maps count every extracted name exactly once |
| Dispatcher.Conservation | dispatcher/aggcsv_d.go:95-100 | the merged counts add up to the number of lines with a comma |
| Dispatcher.Run | dispatcher/aggcsv_d.go:15-119 | it fails exactly when the scan panics (for c > 0), or when some line has a comma (for c <= 0); otherwise it prints exactly the first `min(10, keys)` rows of the ranking of the name counts |

## Left out

- Goroutines, channels and their buffers, `sync.WaitGroup` and the closer goroutine. The
  workers become sequential calls. Channel arrival order is an arbitrary permutation
  (`Batching.Collect`). Each worker's queue is the sequence of names sent to its channel.
- `flag` parsing, `os.Open` and its error, `time` measurement, and all `fmt` printing. The
  printed rows are returned as the result. The unused `numChannels` flag is not modelled.
- `encoding/csv` parsing (quoting, `FieldsPerRecord`) and `bufio.Scanner` line splitting.
  The input is a given sequence of records ending in EOF or an error (`Batching.Stream`),
  or a given sequence of byte lines.
- The algorithms inside `sort.Sort` and `sort.Slice`. `Ranking.Sort` is an insertion sort
  over `Swap` and `Less`. Any correct sort gives the same list, because the ranking is
  unique (`Ranking.RankingUnique`).
- `List.Len` is the length of the array and has no member of its own.
- The commented-out "Generic Plan" block of dispatcher/aggcsv_d.go is dead code.
- Go's `int` overflow of counts and of the round-robin counter `i`. Counts are unbounded
  naturals.
- AggCsv.PrintFirstFive: when there are fewer than five entries, Go prints the existing
  rows before panicking. The model returns only the panic.
- AggCsv.Run: a read error in the main loop and a short record in an earlier batch's
  goroutine race to panic first. The model always reports the read error.
- Basic.Run: a read error in the main loop and a short record in an earlier batch's
  goroutine race to panic first (basic/aggcsv.go:60 against basic/aggcsv.go:109). The
  model always reports the read error.
- Batching.Aggregate: several short records in different batches race the same way. The
  model reports `MissingColumn` without saying which record.
- Dispatcher.Run: it states only which panics occur. Lines before the panicking one are
  sent to workers, but nothing of that reaches the output.
