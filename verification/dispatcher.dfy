/**
 * dispatcher/aggcsv_d.go: lines are scanned as bytes, a name is cut out of each line,
 * the names are dealt round-robin to `concurrency` workers that count them, and the
 * worker maps are merged, sorted and the top 10 printed.
 */
module Dispatcher {
  import opened Base
  import opened Counting
  import opened Ranking

  /** The number of rows printed. */
  const TopCount: nat := 10

  /** `bytes.IndexByte`: the index of the first `c` in `b`, or -1. */
  function IndexByte(b: Bytes, c: Byte): (r: int)
    ensures -1 <= r < |b|
    ensures r == -1 <==> c !in b
    ensures r >= 0 ==> b[r] == c && c !in b[..r]
  {
    if |b| == 0 then -1
    else if b[0] == c then 0
    else
      var r := IndexByte(b[1..], c);
      if r < 0 then -1 else r + 1
  }

  /** What the scan loop makes of one line: nothing, or a name to send. */
  datatype Scanned = Skip | Name(name: Key)

  /**
   * The body of the scan loop up to the send: find the first comma, step two bytes past
   * it, and take the bytes up to one before the next comma. Out-of-range slice bounds panic.
   */
  function ExtractName(b: Bytes): (r: Result<Scanned>)
    ensures r == Success(Skip) <==> Comma !in b
    ensures r.Success? && r.value.Name? ==> Comma !in r.value.name && |r.value.name| < |b|
    ensures r.Failure? ==> r.error == SliceOutOfRange
  {
    var first := IndexByte(b, Comma);
    if first < 0 then Success(Skip)
    else
      var start := first + 2;
      if start > |b| then Failure(SliceOutOfRange)
      else
        var offset := IndexByte(b[start..], Comma) - 1;
        if offset < 0 then Failure(SliceOutOfRange)
        else Success(Name(b[start..start + offset]))
  }

  /** The first comma of `b` is at index `k`. */
  ghost predicate FirstCommaAt(b: Bytes, k: int)
  {
    0 <= k < |b| && b[k] == Comma && Comma !in b[..k]
  }

  lemma FirstCommaIndex(b: Bytes, k: int)
    requires FirstCommaAt(b, k)
    ensures IndexByte(b, Comma) == k
  {
  }

  /**
   * With the first comma at k and the first comma from k + 2 on at j, the name is bytes
   * k + 2 through j - 2: it holds no comma and has j - k - 3 bytes.
   */
  lemma ExtractNameAt(b: Bytes, k: int, j: int)
    requires FirstCommaAt(b, k)
    requires k + 3 <= j < |b| && b[j] == Comma && Comma !in b[k + 2..j]
    ensures ExtractName(b) == Success(Name(b[k + 2..j - 1]))
    ensures |b[k + 2..j - 1]| == j - k - 3
  {
    FirstCommaIndex(b, k);
    var rest := b[k + 2..];
    assert rest[..j - (k + 2)] == b[k + 2..j];
    assert rest[j - (k + 2)] == Comma;
    FirstCommaIndex(rest, j - (k + 2));
    var offset := j - (k + 2) - 1;
    assert b[k + 2..k + 2 + offset] == b[k + 2..j - 1];
  }

  /**
   * The two panics of a line with a comma: the line ends right after its first comma,
   * or `b[start:]` has no comma at offset 1 or later before its first comma.
   */
  lemma ExtractNamePanics(b: Bytes, k: int)
    requires FirstCommaAt(b, k)
    ensures ExtractName(b).Failure? <==> k + 2 > |b| || Comma !in b[k + 2..] || b[k + 2] == Comma
  {
    FirstCommaIndex(b, k);
    if k + 2 <= |b| && Comma in b[k + 2..] && b[k + 2] != Comma {
      var j := IndexByte(b[k + 2..], Comma);
      assert j != 0;
    }
  }

  /** The names the scan loop sends, in order; the first line whose slicing panics ends the scan. */
  function Names(lines: seq<Bytes>): (r: Result<seq<Key>>)
  {
    if |lines| == 0 then Success([])
    else
      match Names(lines[..|lines| - 1])
      case Failure(e) => Failure(e)
      case Success(ns) =>
        match ExtractName(lines[|lines| - 1])
        case Failure(e) => Failure(e)
        case Success(Skip) => Success(ns)
        case Success(Name(n)) => Success(ns + [n])
  }

  /** The number of lines that contain a comma. */
  function CommaLines(lines: seq<Bytes>): (r: nat)
  {
    if |lines| == 0 then 0
    else CommaLines(lines[..|lines| - 1]) + if Comma in lines[|lines| - 1] then 1 else 0
  }

  /** The scan panics exactly when some line's slicing panics. */
  lemma {:induction false} NamesFailure(lines: seq<Bytes>)
    ensures Names(lines).Failure? <==> exists i :: 0 <= i < |lines| && ExtractName(lines[i]).Failure?
    ensures Names(lines).Failure? ==> Names(lines).error == SliceOutOfRange
  {
    if |lines| > 0 {
      var n := |lines| - 1;
      var init := lines[..n];
      NamesFailure(init);
      assert forall i :: 0 <= i < n ==> init[i] == lines[i];
    }
  }

  /** One name per line with a comma: lines without a comma are skipped, the rest all yield one. */
  lemma {:induction false} NamesCount(lines: seq<Bytes>)
    requires Names(lines).Success?
    ensures |Names(lines).value| == CommaLines(lines)
  {
    if |lines| > 0 {
      NamesCount(lines[..|lines| - 1]);
    }
  }

  // ---------------------------------------------------------------------------
  // Round-robin dealing

  /** The names worker `w` receives: those at stream positions n with n % c == w, in order. */
  function Column(names: seq<Key>, c: nat, w: nat): (r: seq<Key>)
    requires c > 0
  {
    if |names| == 0 then []
    else
      Column(names[..|names| - 1], c, w)
        + if (|names| - 1) % c == w then [names[|names| - 1]] else []
  }

  /** Stream position of the q-th name in worker w's queue. */
  function Slot(q: int, c: int, w: int): (r: int)
  {
    q * c + w
  }

  lemma MulLe(a: int, b: int, c: int)
    requires a <= b && c > 0
    ensures a * c <= b * c
  {
    assert (b - a) * c >= 0;
  }

  lemma SlotNext(q: int, c: int, w: int)
    ensures Slot(q + 1, c, w) == Slot(q, c, w) + c
  {
  }

  lemma SlotMod(q: int, c: int, w: int)
    requires c > 0 && 0 <= w < c
    ensures Slot(q, c, w) % c == w
    ensures Slot(q, c, w) / c == q
  {
    var n := Slot(q, c, w);
    var q0, r0 := n / c, n % c;
    assert n == q0 * c + r0;
    if q0 > q {
      MulLe(q + 1, q0, c);
    } else if q0 < q {
      MulLe(q0 + 1, q, c);
    }
  }

  /** Between two consecutive slots of worker w no position belongs to w. */
  lemma SlotGap(n: int, q: int, c: int, w: int)
    requires c > 0 && 0 <= w < c
    requires Slot(q, c, w) < n < Slot(q + 1, c, w)
    ensures n % c != w
  {
    if n % c == w {
      var q0 := n / c;
      assert n == Slot(q0, c, w);
      if q0 <= q {
        MulLe(q0, q, c);
      } else {
        MulLe(q + 1, q0, c);
      }
    }
  }

  /** Worker w's queue reaches every slot of w inside the stream and no slot beyond it. */
  lemma {:induction false} ColumnLength(names: seq<Key>, c: nat, w: nat)
    requires w < c
    ensures Slot(|Column(names, c, w)|, c, w) >= |names|
    ensures |Column(names, c, w)| > 0 ==> Slot(|Column(names, c, w)| - 1, c, w) < |names|
  {
    if |names| > 0 {
      var n := |names| - 1;
      ColumnLength(names[..n], c, w);
      var k := |Column(names[..n], c, w)|;
      assert |Column(names, c, w)| == k + if n % c == w then 1 else 0;
      SlotNext(k, c, w);
      if n % c == w {
        if Slot(k, c, w) > n {
          SlotGap(n, k - 1, c, w);
        }
      } else if Slot(k, c, w) == n {
        SlotMod(k, c, w);
      }
    }
  }

  /** The q-th name worker w receives is the name at stream position q * c + w. */
  lemma {:induction false} ColumnElements(names: seq<Key>, c: nat, w: nat)
    requires w < c
    ensures forall q :: 0 <= q < |Column(names, c, w)| ==>
              Slot(q, c, w) < |names| && Column(names, c, w)[q] == names[Slot(q, c, w)]
  {
    if |names| > 0 {
      var n := |names| - 1;
      ColumnElements(names[..n], c, w);
      ColumnLength(names, c, w);
      ColumnLength(names[..n], c, w);
    }
  }

  /** The n-th extracted name goes to worker n % c, as the (n / c)-th name of its queue. */
  lemma NameGoesTo(names: seq<Key>, c: nat, n: nat)
    requires c > 0 && n < |names|
    ensures n / c < |Column(names, c, n % c)|
    ensures Column(names, c, n % c)[n / c] == names[n]
  {
    var q, w := n / c, n % c;
    assert n == Slot(q, c, w);
    ColumnLength(names, c, w);
    ColumnElements(names, c, w);
    var k := |Column(names, c, w)|;
    if q >= k {
      MulLe(k, q, c);
    }
  }

  /** All workers' queues. */
  function Columns(names: seq<Key>, c: nat): (cols: seq<seq<Key>>)
    requires c > 0
    ensures |cols| == c
  {
    seq(c, w requires 0 <= w < c => Column(names, c, w))
  }

  /** The next name goes to the end of queue |names| % c, and every other queue stays as it was. */
  lemma ColumnsSnoc(names: seq<Key>, x: Key, c: nat)
    requires c > 0
    ensures Columns(names + [x], c) == Columns(names, c)[|names| % c := Column(names, c, |names| % c) + [x]]
  {
    var ns := names + [x];
    var w := |names| % c;
    assert ns[..|ns| - 1] == names;
    var after := Columns(ns, c);
    var expected := Columns(names, c)[w := Column(names, c, w) + [x]];
    forall v | 0 <= v < c
      ensures after[v] == expected[v]
    {
      assert after[v] == Column(ns, c, v);
      if v == w {
        assert Column(ns, c, v) == Column(names, c, v) + [x];
      } else {
        assert Column(ns, c, v) == Column(names, c, v);
      }
    }
  }

  lemma {:induction false} ConcatExtend(ks: seq<seq<Key>>, w: nat, x: Key)
    requires w < |ks|
    ensures multiset(Concat(ks[w := ks[w] + [x]])) == multiset(Concat(ks)) + multiset{x}
  {
    var n := |ks| - 1;
    var ks' := ks[w := ks[w] + [x]];
    assert Concat(ks') == Concat(ks'[..n]) + ks'[n];
    assert Concat(ks) == Concat(ks[..n]) + ks[n];
    if w < n {
      assert ks'[..n] == ks[..n][w := ks[w] + [x]];
      ConcatExtend(ks[..n], w, x);
    } else {
      assert ks'[..n] == ks[..n];
    }
  }

  /** Every name goes to exactly one worker: the queues together hold the names. */
  lemma {:induction false} ColumnsPartition(names: seq<Key>, c: nat)
    requires c > 0
    ensures multiset(Concat(Columns(names, c))) == multiset(names)
  {
    if |names| == 0 {
      assert Columns(names, c) == seq(c, w => []);
      ConcatEmpty(c);
    } else {
      var n := |names| - 1;
      ColumnsPartition(names[..n], c);
      var w := n % c;
      var prev := Columns(names[..n], c);
      ColumnsSnoc(names[..n], names[n], c);
      assert names[..n] + [names[n]] == names;
      assert Columns(names, c) == prev[w := prev[w] + [names[n]]];
      ConcatExtend(prev, w, names[n]);
    }
  }

  lemma {:induction false} ConcatEmpty(c: nat)
    ensures Concat<Key>(seq(c, w => [])) == []
  {
    if c > 0 {
      var empty: seq<seq<Key>> := seq(c, w => []);
      assert empty[..c - 1] == seq(c - 1, w => []);
      ConcatEmpty(c - 1);
    }
  }

  // ---------------------------------------------------------------------------
  // The program

  /** Line n is the first line that contains a comma. */
  ghost predicate FirstCommaLine(lines: seq<Bytes>, n: int)
  {
    0 <= n < |lines| && Comma in lines[n] && forall i :: 0 <= i < n ==> Comma !in lines[i]
  }

  /**
   * The scan loop: each line with a comma yields a name, sent to worker i % concurrency,
   * after which i counts up; a line without a comma is skipped and leaves i alone. When
   * no worker was started (concurrency <= 0), the first name cannot be sent.
   */
  method Dispatch(lines: seq<Bytes>, concurrency: int) returns (res: Result<seq<seq<Key>>>)
    ensures concurrency > 0 ==> (res.Failure? <==> Names(lines).Failure?)
    ensures concurrency > 0 && res.Failure? ==> res == Names(lines).PropagateFailure()
    ensures concurrency > 0 && res.Success? ==> res.value == Columns(Names(lines).value, concurrency)
    ensures concurrency <= 0 ==> (res.Success? <==> forall i :: 0 <= i < |lines| ==> Comma !in lines[i])
    ensures concurrency <= 0 && res.Success? ==> res.value == []
    ensures concurrency <= 0 && res.Failure? ==>
              exists n ::
                && FirstCommaLine(lines, n)
                && (ExtractName(lines[n]).Failure? ==> res.error == SliceOutOfRange)
                && (ExtractName(lines[n]).Success? && concurrency == 0 ==> res.error == DivideByZero)
                && (ExtractName(lines[n]).Success? && concurrency < 0 ==> res.error == IndexOutOfRange)
  {
    var workers := if concurrency > 0 then concurrency else 0;
    var task: seq<seq<Key>> := seq(workers, w => []);
    var i := 0;
    for n := 0 to |lines|
      invariant Names(lines[..n]).Success?
      invariant i == |Names(lines[..n]).value|
      invariant concurrency > 0 ==> task == Columns(Names(lines[..n]).value, concurrency)
      invariant concurrency <= 0 ==> task == [] && forall j :: 0 <= j < n ==> Comma !in lines[j]
    {
      NamesStep(lines, n);
      var scanned := ExtractName(lines[n]);
      if scanned.Failure? {
        if concurrency > 0 {
          NamesPrefixFailure(lines, n + 1);
        } else {
          assert FirstCommaLine(lines, n);
        }
        return Failure(scanned.error);
      }
      if scanned.value.Name? {
        if concurrency == 0 {
          assert FirstCommaLine(lines, n);
          return Failure(DivideByZero);
        }
        var w := i % concurrency;
        if w >= |task| {
          assert FirstCommaLine(lines, n);
          return Failure(IndexOutOfRange);
        }
        ColumnsSnoc(Names(lines[..n]).value, scanned.value.name, concurrency);
        task := task[w := task[w] + [scanned.value.name]];
        i := i + 1;
      }
    }
    assert lines[..|lines|] == lines;
    return Success(task);
  }

  /** Lines without a comma yield no names. */
  lemma {:induction false} NamesWithoutCommas(lines: seq<Bytes>)
    requires forall i :: 0 <= i < |lines| ==> Comma !in lines[i]
    ensures Names(lines) == Success([])
  {
    if |lines| > 0 {
      var n := |lines| - 1;
      NamesWithoutCommas(lines[..n]);
    }
  }

  /** One more line of the scan. */
  lemma NamesStep(lines: seq<Bytes>, n: nat)
    requires n < |lines| && Names(lines[..n]).Success?
    ensures ExtractName(lines[n]).Failure? ==> Names(lines[..n + 1]) == Failure(ExtractName(lines[n]).error)
    ensures ExtractName(lines[n]) == Success(Skip) ==> Names(lines[..n + 1]) == Names(lines[..n])
    ensures ExtractName(lines[n]).Success? && ExtractName(lines[n]).value.Name? ==>
              Names(lines[..n + 1]) == Success(Names(lines[..n]).value + [ExtractName(lines[n]).value.name])
  {
    assert lines[..n + 1][..n] == lines[..n];
  }

  /** A panic on some line ends the whole scan. */
  lemma {:induction false} NamesPrefixFailure(lines: seq<Bytes>, n: nat)
    requires n <= |lines| && Names(lines[..n]).Failure?
    ensures Names(lines) == Names(lines[..n])
    decreases |lines| - n
  {
    if n < |lines| {
      assert lines[..n + 1][..n] == lines[..n];
      NamesPrefixFailure(lines, n + 1);
    } else {
      assert lines[..n] == lines;
    }
  }

  /** One worker goroutine: `for s := range ch { m[s]++ }` over the names sent to it. */
  method Worker(queue: seq<Key>) returns (m: map<Key, nat>)
    ensures m == Counts(queue)
  {
    m := map[];
    for j := 0 to |queue|
      invariant m == Counts(queue[..j])
    {
      assert queue[..j + 1] == queue[..j] + [queue[j]];
      CountsSnoc(queue[..j], queue[j]);
      m := Inc(m, queue[j]);
    }
    assert queue[..|queue|] == queue;
  }

  /**
   * The workers and the final merge: each worker counts its queue, and once all are
   * done the worker maps are merged in slice order.
   */
  method CountAndMerge(task: seq<seq<Key>>) returns (m: map<Key, nat>)
    ensures m == MergeAll(WorkerMaps(task))
  {
    var res: seq<map<Key, nat>> := [];
    for w := 0 to |task|
      invariant res == WorkerMaps(task[..w])
    {
      var counted := Worker(task[w]);
      res := res + [counted];
    }
    assert task[..|task|] == task;
    m := MergeSequence(res);
  }

  /** What each worker's map holds once its channel is closed and drained. */
  function WorkerMaps(task: seq<seq<Key>>): (r: seq<map<Key, nat>>)
  {
    seq(|task|, w requires 0 <= w < |task| => Counts(task[w]))
  }

  /** The merged worker maps count every extracted name exactly once. */
  lemma WorkersCountAll(names: seq<Key>, c: nat)
    requires c > 0
    ensures MergeAll(WorkerMaps(Columns(names, c))) == Counts(names)
  {
    var cols := Columns(names, c);
    MergeAllCounts(cols);
    assert WorkerMaps(cols) == seq(|cols|, i requires 0 <= i < |cols| => Counts(cols[i]));
    ColumnsPartition(names, c);
  }

  /**
   * Every key's merged count is its number of occurrences among the extracted names, and
   * the counts add up to the number of lines that contain a comma.
   */
  lemma Conservation(lines: seq<Bytes>)
    requires Names(lines).Success?
    ensures Total(Counts(Names(lines).value)) == CommaLines(lines)
  {
    NamesCount(lines);
    TotalCounts(Names(lines).value);
  }

  /**
   * The whole program on a sequence of lines: it fails exactly when some line's slicing
   * panics; otherwise it prints the first min(10, keys) entries of the ranking of the
   * extracted names' counts.
   */
  method Run(lines: seq<Bytes>, concurrency: int) returns (res: Result<seq<Entry>>)
    ensures concurrency > 0 ==> (res.Failure? <==> exists i :: 0 <= i < |lines| && ExtractName(lines[i]).Failure?)
    ensures concurrency > 0 && res.Failure? ==> res.error == SliceOutOfRange
    ensures concurrency <= 0 ==> (res.Failure? <==> exists i :: 0 <= i < |lines| && Comma in lines[i])
    ensures concurrency <= 0 && res.Failure? ==>
              exists n ::
                && FirstCommaLine(lines, n)
                && (ExtractName(lines[n]).Failure? ==> res.error == SliceOutOfRange)
                && (ExtractName(lines[n]).Success? && concurrency == 0 ==> res.error == DivideByZero)
                && (ExtractName(lines[n]).Success? && concurrency < 0 ==> res.error == IndexOutOfRange)
    ensures res.Success? ==> Names(lines).Success?
    ensures res.Success? ==>
              && |res.value| == Min(TopCount, |Counts(Names(lines).value)|)
              && exists r :: IsRanking(r, Counts(Names(lines).value)) && res.value == r[..Min(TopCount, |r|)]
  {
    NamesFailure(lines);
    var task :- Dispatch(lines, concurrency);
    var names := Names(lines).value;
    var m := CountAndMerge(task);
    if concurrency > 0 {
      WorkersCountAll(names, concurrency);
    } else {
      NamesWithoutCommas(lines);
      assert m == map[] == Counts(names);
    }
    var results := SortedEntries(m);
    EntryListFacts(results, m);
    var printed := PrintTop(results, TopCount);
    return Success(printed);
  }
}
