/**
 * The ingestion half of aggcsv.go and basic/aggcsv.go (the two files share this code):
 * the main loop cuts the record stream into batches of BulkCount records, each batch is
 * counted by processData, and the partial maps are merged as they arrive.
 */
module Batching {
  import opened Base
  import opened Counting

  /** `BulkCount`: records per batch. */
  const BulkCount: nat := 500

  /** `AggColNo`: the zero-based column whose values are counted. */
  const AggColNo: nat := 1

  /** One CSV record: its fields. */
  type Record = seq<Key>

  type Batch = seq<Record>

  /** How the record source ends once its records are used up. */
  datatype Ending = EndOfFile | ReadError

  /** What the CSV reader yields: the records in order, then io.EOF or another error. */
  datatype Stream = Stream(records: seq<Record>, ending: Ending)

  /** The outcome of one `reader.Read()`. */
  datatype ReadResult = Got(record: Record) | Eof | Err

  /** `reader.Read()` after `pos` records have been read. */
  function Read(src: Stream, pos: nat): (r: ReadResult)
  {
    if pos < |src.records| then Got(src.records[pos])
    else if src.ending.EndOfFile? then Eof
    else Err
  }

  /** What the batching loop must produce: full batches, then one short (possibly empty) one. */
  ghost predicate IsBatching(bs: seq<Batch>, records: seq<Record>)
  {
    && |bs| > 0
    && Concat(bs) == records
    && (forall i :: 0 <= i < |bs| - 1 ==> |bs[i]| == BulkCount)
    && |bs[|bs| - 1]| < BulkCount
  }

  predicate HasColumn(rec: Record)
  {
    |rec| > AggColNo
  }

  predicate AllHaveColumn(rs: seq<Record>)
  {
    forall i :: 0 <= i < |rs| ==> HasColumn(rs[i])
  }

  /** Field AggColNo of every record, in order. */
  function Keys(rs: seq<Record>): (r: seq<Key>)
    requires AllHaveColumn(rs)
  {
    seq(|rs|, i requires 0 <= i < |rs| => rs[i][AggColNo])
  }

  // ---------------------------------------------------------------------------
  // Facts about batchings

  lemma {:induction false} ConcatAppend(a: seq<Batch>, b: seq<Batch>)
    ensures Concat(a + b) == Concat(a) + Concat(b)
  {
    if |b| == 0 {
      assert a + b == a;
    } else {
      assert (a + b)[..|a + b| - 1] == a + b[..|b| - 1];
      ConcatAppend(a, b[..|b| - 1]);
    }
  }

  /** Appending the batch that covers records[start..pos] extends the covered prefix to pos. */
  lemma ConcatStep(bs: seq<Batch>, b: Batch, records: seq<Record>, start: nat, pos: nat)
    requires start <= pos <= |records|
    requires Concat(bs) == records[..start] && b == records[start..pos]
    ensures Concat(bs + [b]) == records[..pos]
  {
    assert (bs + [b])[..|bs|] == bs;
    assert records[..pos] == records[..start] + records[start..pos];
  }

  lemma {:induction false} ConcatFull(bs: seq<Batch>)
    requires forall i :: 0 <= i < |bs| ==> |bs[i]| == BulkCount
    ensures |Concat(bs)| == |bs| * BulkCount
  {
    if |bs| > 0 {
      ConcatFull(bs[..|bs| - 1]);
    }
  }

  lemma {:induction false} ConcatMember(bs: seq<Batch>, q: nat, rec: Record)
    requires q < |bs| && rec in bs[q]
    ensures rec in Concat(bs)
  {
    var n := |bs| - 1;
    if q < n {
      ConcatMember(bs[..n], q, rec);
    }
  }

  /**
   * With n records there are n / 500 + 1 batches, and the last one holds n % 500
   * records: when n is a multiple of 500 an empty last batch is still dispatched.
   */
  lemma BatchCount(bs: seq<Batch>, records: seq<Record>)
    requires IsBatching(bs, records)
    ensures |bs| == |records| / BulkCount + 1
    ensures |bs[|bs| - 1]| == |records| % BulkCount
  {
    var n := |bs| - 1;
    assert bs[..n] + [bs[n]] == bs;
    ConcatAppend(bs[..n], [bs[n]]);
    assert Concat([bs[n]]) == bs[n];
    ConcatFull(bs[..n]);
  }

  /** Batch i holds exactly records 500 * i up to 500 * (i + 1), cut off at the end of input. */
  lemma BatchContents(bs: seq<Batch>, records: seq<Record>, i: nat)
    requires IsBatching(bs, records) && i < |bs|
    ensures i * BulkCount <= |records|
    ensures bs[i] == records[i * BulkCount .. Min((i + 1) * BulkCount, |records|)]
  {
    BatchCount(bs, records);
    assert bs == bs[..i] + [bs[i]] + bs[i + 1..];
    ConcatAppend(bs[..i] + [bs[i]], bs[i + 1..]);
    ConcatAppend(bs[..i], [bs[i]]);
    assert Concat([bs[i]]) == bs[i];
    ConcatFull(bs[..i]);
    var before := Concat(bs[..i]);
    assert records == before + bs[i] + Concat(bs[i + 1..]);
    assert records[|before|..|before| + |bs[i]|] == bs[i];
  }

  /** The batching of a record sequence is unique. */
  lemma BatchingUnique(bs: seq<Batch>, cs: seq<Batch>, records: seq<Record>)
    requires IsBatching(bs, records) && IsBatching(cs, records)
    ensures bs == cs
  {
    BatchCount(bs, records);
    BatchCount(cs, records);
    forall i | 0 <= i < |bs| ensures bs[i] == cs[i] {
      BatchContents(bs, records, i);
      BatchContents(cs, records, i);
    }
  }

  lemma {:induction false} KeysConcat(bs: seq<Batch>)
    requires forall q :: 0 <= q < |bs| ==> AllHaveColumn(bs[q])
    ensures AllHaveColumn(Concat(bs))
    ensures Keys(Concat(bs)) == Concat(seq(|bs|, q requires 0 <= q < |bs| => Keys(bs[q])))
  {
    var ks := seq(|bs|, q requires 0 <= q < |bs| => Keys(bs[q]));
    if |bs| > 0 {
      var n := |bs| - 1;
      KeysConcat(bs[..n]);
      assert ks[..n] == seq(n, q requires 0 <= q < n => Keys(bs[..n][q]));
      assert Keys(Concat(bs)) == Keys(Concat(bs[..n])) + Keys(bs[n]);
    }
  }

  // ---------------------------------------------------------------------------
  // The operations

  /**
   * The batching loop of `main`: read up to BulkCount records per batch; io.EOF marks
   * the batch as the last one; any other read error panics.
   */
  method SplitBatches(src: Stream) returns (res: Result<seq<Batch>>)
    ensures res.Failure? <==> src.ending == ReadError
    ensures res.Failure? ==> res.error == ReadFailed
    ensures res.Success? ==> IsBatching(res.value, src.records)
  {
    var pos: nat := 0;
    var batches: seq<Batch> := [];
    var i := 0;
    while true
      invariant pos <= |src.records|
      invariant Concat(batches) == src.records[..pos]
      invariant forall q :: 0 <= q < |batches| ==> |batches[q]| == BulkCount
      invariant i == |batches|
      decreases |src.records| - pos
    {
      ghost var start := pos;
      var records: Batch := [];
      var isLast := false;
      var bi := 0;
      while bi < BulkCount
        invariant 0 <= bi <= BulkCount
        invariant pos == start + bi <= |src.records|
        invariant records == src.records[start..pos]
        invariant !isLast
      {
        var r := Read(src, pos);
        if r.Eof? {
          isLast := true;
          break;
        } else if r.Err? {
          return Failure(ReadFailed);
        }
        assert src.records[start..pos + 1] == records + [r.record];
        records := records + [r.record];
        pos := pos + 1;
        bi := bi + 1;
      }
      ConcatStep(batches, records, src.records, start, pos);
      i := i + 1;
      batches := batches + [records];
      if isLast {
        assert src.records[..pos] == src.records;
        break;
      }
    }
    res := Success(batches);
  }

  /** `processData`: count field AggColNo of every record of one batch. */
  method ProcessData(r: Batch) returns (m: map<Key, nat>)
    requires AllHaveColumn(r)
    ensures m.Keys == set rec | rec in r :: rec[AggColNo]
    ensures m == Counts(Keys(r))
  {
    m := map[];
    for j := 0 to |r|
      invariant m == Counts(Keys(r[..j]))
    {
      assert Keys(r[..j + 1]) == Keys(r[..j]) + [r[j][AggColNo]];
      CountsSnoc(Keys(r[..j]), r[j][AggColNo]);
      m := Inc(m, r[j][AggColNo]);
    }
    assert r[..|r|] == r;
    forall k ensures k in m <==> k in set rec | rec in r :: rec[AggColNo] {
      CountsMeaning(Keys(r), k);
      if k in Keys(r) {
        var j :| 0 <= j < |r| && Keys(r)[j] == k;
        assert r[j] in r;
      }
      if k in set rec | rec in r :: rec[AggColNo] {
        var rec :| rec in r && rec[AggColNo] == k;
        var j :| 0 <= j < |r| && r[j] == rec;
        assert Keys(r)[j] == k;
      }
    }
  }

  /**
   * The receive loop `for rec := range ch`: the partial maps arrive in whatever order
   * the goroutines finish, and the merged map is the same for every such order.
   */
  method Collect(partials: seq<map<Key, nat>>) returns (sum: map<Key, nat>)
    ensures sum == MergeAll(partials)
  {
    var arrivals :| multiset(arrivals) == multiset(partials);
    sum := MergeSequence(arrivals);
    MergeAllPermutation(arrivals, partials);
  }

  /**
   * `main` up to the merged map: batch the records, count each batch, merge. A read
   * error, or a record without field AggColNo, ends the run without a result.
   */
  method Aggregate(src: Stream) returns (res: Result<map<Key, nat>>)
    ensures src.ending == ReadError ==> res == Failure(ReadFailed)
    ensures src.ending == EndOfFile && !AllHaveColumn(src.records) ==> res == Failure(MissingColumn)
    ensures src.ending == EndOfFile && AllHaveColumn(src.records) ==>
              res.Success? && res.value == Counts(Keys(src.records)) && Total(res.value) == |src.records|
  {
    var batches :- SplitBatches(src);
    var partials: seq<map<Key, nat>> := [];
    for b := 0 to |batches|
      invariant |partials| == b
      invariant forall q :: 0 <= q < b ==> AllHaveColumn(batches[q]) && partials[q] == Counts(Keys(batches[q]))
    {
      if !AllHaveColumn(batches[b]) {
        var j :| 0 <= j < |batches[b]| && !HasColumn(batches[b][j]);
        ConcatMember(batches, b, batches[b][j]);
        return Failure(MissingColumn);
      }
      var p := ProcessData(batches[b]);
      partials := partials + [p];
    }
    var sum := Collect(partials);
    KeysConcat(batches);
    var ks := seq(|batches|, q requires 0 <= q < |batches| => Keys(batches[q]));
    MergeAllCounts(ks);
    assert partials == seq(|ks|, i requires 0 <= i < |ks| => Counts(ks[i]));
    TotalCounts(Keys(src.records));
    res := Success(sum);
  }
}
