/** basic/aggcsv.go: the same pipeline as aggcsv.go, with a bounded top-10 print. */
module Basic {
  import opened Base
  import opened Counting
  import opened Ranking
  import opened Batching

  /**
   * The whole program on one record stream. On a stream that ends in io.EOF and whose
   * records all have field AggColNo it prints the first min(10, keys) entries of the
   * ranking of the key counts; it never indexes past the end of the list.
   */
  method Run(src: Stream) returns (res: Result<seq<Entry>>)
    ensures src.ending == ReadError ==> res == Failure(ReadFailed)
    ensures src.ending == EndOfFile && !AllHaveColumn(src.records) ==> res == Failure(MissingColumn)
    ensures src.ending == EndOfFile && AllHaveColumn(src.records) ==>
              && res.Success?
              && |res.value| == Min(10, |Counts(Keys(src.records))|)
              && exists r :: IsRanking(r, Counts(Keys(src.records))) && res.value == r[..Min(10, |r|)]
  {
    var sumMap :- Aggregate(src);
    var results := SortedEntries(sumMap);
    EntryListFacts(results, sumMap);
    var printed := PrintTop(results, 10);
    return Success(printed);
  }
}
