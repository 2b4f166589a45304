/** aggcsv.go: batched counting, merge, sort, and an unguarded top-5 print. */
module AggCsv {
  import opened Base
  import opened Counting
  import opened Ranking
  import opened Batching

  /** `for i := 0; i < 5; i++ { fmt.Println(results[i]) }`: panics when fewer than 5 entries. */
  method PrintFirstFive(results: seq<Entry>) returns (res: Result<seq<Entry>>)
    ensures res.Success? <==> |results| >= 5
    ensures res.Success? ==> res.value == results[..5]
    ensures res.Failure? ==> res.error == IndexOutOfRange
  {
    var printed := [];
    for i := 0 to 5
      invariant i <= |results|
      invariant printed == results[..i]
    {
      if i >= |results| {
        return Failure(IndexOutOfRange);
      }
      printed := printed + [results[i]];
    }
    return Success(printed);
  }

  /**
   * The whole program on one record stream. It succeeds only when the stream ends in
   * io.EOF, every record has field AggColNo, and there are at least 5 distinct keys;
   * it then prints the 5 best-ranked keys with their true counts.
   */
  method Run(src: Stream) returns (res: Result<seq<Entry>>)
    ensures src.ending == ReadError ==> res == Failure(ReadFailed)
    ensures src.ending == EndOfFile && !AllHaveColumn(src.records) ==> res == Failure(MissingColumn)
    ensures src.ending == EndOfFile && AllHaveColumn(src.records) && |Counts(Keys(src.records))| < 5 ==>
              res == Failure(IndexOutOfRange)
    ensures src.ending == EndOfFile && AllHaveColumn(src.records) && |Counts(Keys(src.records))| >= 5 ==>
              res.Success? && exists r :: IsRanking(r, Counts(Keys(src.records))) && |r| >= 5 && res.value == r[..5]
  {
    var sum :- Aggregate(src);
    var results := SortedEntries(sum);
    EntryListFacts(results, sum);
    var printed :- PrintFirstFive(results);
    return Success(printed);
  }
}
