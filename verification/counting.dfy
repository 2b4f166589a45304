/**
 * Key -> count maps: the per-batch and per-worker counters (`m[k]++`), the merge of
 * partial maps into one global map (`sum[k] += v`), and what both compute.
 */
module Counting {
  import opened Base

  /** Reading a Go map: an absent key reads as the zero value. */
  function Get(m: map<Key, nat>, k: Key): (r: nat)
  {
    if k in m then m[k] else 0
  }

  /** Go's `m[k]++`. */
  function Inc(m: map<Key, nat>, k: Key): (r: map<Key, nat>)
  {
    m[k := Get(m, k) + 1]
  }

  /** The reference count: every key of `keys` mapped to its number of occurrences. */
  function Counts(keys: seq<Key>): (r: map<Key, nat>)
  {
    map k | k in multiset(keys) :: multiset(keys)[k]
  }

  /** Go's `for k, v := range part { sum[k] += v }`, as one map. */
  function Merge(sum: map<Key, nat>, part: map<Key, nat>): (r: map<Key, nat>)
  {
    map k | k in sum.Keys + part.Keys :: Get(sum, k) + Get(part, k)
  }

  /** The partial maps merged one after another, in the order of the sequence. */
  function MergeAll(parts: seq<map<Key, nat>>): (r: map<Key, nat>)
  {
    if |parts| == 0 then map[] else Merge(MergeAll(parts[..|parts| - 1]), parts[|parts| - 1])
  }

  /** Sum of all the counts in a map. */
  ghost function Total(m: map<Key, nat>): (r: nat)
    decreases |m|
  {
    if m == map[] then 0
    else
      assert exists k :: k in m.Keys by { var k :| k in m; }
      var k :| k in m.Keys;
      m[k] + Total(m - {k})
  }

  // ---------------------------------------------------------------------------
  // Counting

  /** The per-key meaning of Counts: present exactly for the keys that occur, with their number. */
  lemma CountsMeaning(keys: seq<Key>, k: Key)
    ensures k in Counts(keys) <==> k in keys
    ensures Get(Counts(keys), k) == multiset(keys)[k]
  {
  }

  /** Counting one more key is Go's `m[k]++` on the counts so far. */
  lemma CountsSnoc(keys: seq<Key>, k: Key)
    ensures Counts(keys + [k]) == Inc(Counts(keys), k)
  {
    assert multiset(keys + [k]) == multiset(keys) + multiset{k};
  }

  /** Merging the counts of two key sequences gives the counts of their concatenation. */
  lemma MergeCounts(a: seq<Key>, b: seq<Key>)
    ensures Merge(Counts(a), Counts(b)) == Counts(a + b)
  {
    assert multiset(a + b) == multiset(a) + multiset(b);
  }

  /** Merging the counts of every batch gives the counts of all batches together. */
  lemma {:induction false} MergeAllCounts(ks: seq<seq<Key>>)
    ensures MergeAll(seq(|ks|, i requires 0 <= i < |ks| => Counts(ks[i]))) == Counts(Concat(ks))
  {
    var parts := seq(|ks|, i requires 0 <= i < |ks| => Counts(ks[i]));
    if |ks| == 0 {
      assert Counts([]) == map[];
    } else {
      var n := |ks| - 1;
      MergeAllCounts(ks[..n]);
      assert parts[..n] == seq(n, i requires 0 <= i < n => Counts(ks[..n][i]));
      MergeCounts(Concat(ks[..n]), ks[n]);
    }
  }

  /** The number of keys counted is the sum of the counts. */
  lemma {:induction false} TotalCounts(keys: seq<Key>)
    ensures Total(Counts(keys)) == |keys|
  {
    if |keys| == 0 {
      assert Counts(keys) == map[];
    } else {
      var n := |keys| - 1;
      TotalCounts(keys[..n]);
      assert keys == keys[..n] + [keys[n]];
      CountsSnoc(keys[..n], keys[n]);
      TotalInc(Counts(keys[..n]), keys[n]);
    }
  }

  // ---------------------------------------------------------------------------
  // Sums

  /** Total does not depend on which key it takes out first. */
  lemma {:induction false} TotalRemove(m: map<Key, nat>, k: Key)
    requires k in m
    ensures Total(m) == m[k] + Total(m - {k})
    decreases |m|
  {
    var j :| j in m.Keys && Total(m) == m[j] + Total(m - {j});
    if j != k {
      TotalRemove(m - {j}, k);
      TotalRemove(m - {k}, j);
      assert m - {j} - {k} == m - {k} - {j};
    }
  }

  /** `m[k]++` adds one to the total. */
  lemma TotalInc(m: map<Key, nat>, k: Key)
    ensures Total(Inc(m, k)) == Total(m) + 1
  {
    var m' := Inc(m, k);
    TotalRemove(m', k);
    if k in m {
      TotalRemove(m, k);
      assert m' - {k} == m - {k};
    } else {
      assert m' - {k} == m;
    }
  }

  // ---------------------------------------------------------------------------
  // Merge order does not matter

  lemma MergeEmpty(m: map<Key, nat>)
    ensures Merge(map[], m) == m
  {
  }

  lemma MergeCommutative(a: map<Key, nat>, b: map<Key, nat>)
    ensures Merge(a, b) == Merge(b, a)
  {
    assert Merge(a, b).Keys == Merge(b, a).Keys;
  }

  lemma MergeAssociative(a: map<Key, nat>, b: map<Key, nat>, c: map<Key, nat>)
    ensures Merge(Merge(a, b), c) == Merge(a, Merge(b, c))
  {
    var l, r := Merge(Merge(a, b), c), Merge(a, Merge(b, c));
    assert l.Keys == a.Keys + b.Keys + c.Keys == r.Keys;
    forall k | k in l.Keys
      ensures l[k] == r[k]
    {
      assert l[k] == Get(a, k) + Get(b, k) + Get(c, k);
    }
  }

  lemma {:induction false} MergeAllAppend(s: seq<map<Key, nat>>, t: seq<map<Key, nat>>)
    ensures MergeAll(s + t) == Merge(MergeAll(s), MergeAll(t))
  {
    if |t| == 0 {
      assert s + t == s;
      assert Merge(MergeAll(s), map[]) == MergeAll(s);
    } else {
      var n := |t| - 1;
      assert (s + t)[..|s + t| - 1] == s + t[..n];
      MergeAllAppend(s, t[..n]);
      MergeAssociative(MergeAll(s), MergeAll(t[..n]), t[n]);
    }
  }

  /**
   * The merged map depends only on which partial maps arrive, not on their order:
   * any two arrival orders of the same partial maps merge to the same map.
   */
  lemma {:induction false} MergeAllPermutation(s: seq<map<Key, nat>>, t: seq<map<Key, nat>>)
    requires multiset(s) == multiset(t)
    ensures MergeAll(s) == MergeAll(t)
    decreases |s|
  {
    if |s| == 0 {
      assert |t| == |multiset(t)| == 0;
    } else {
      var n := |s| - 1;
      var x := s[n];
      assert s == s[..n] + [x];
      assert x in multiset(t);
      var i :| 0 <= i < |t| && t[i] == x;
      var rest := t[..i] + t[i + 1..];
      assert t == t[..i] + [x] + t[i + 1..];
      assert multiset(t) == multiset(t[..i]) + multiset{x} + multiset(t[i + 1..]);
      assert multiset(s) == multiset(s[..n]) + multiset{x};
      assert multiset(rest) == multiset(t[..i]) + multiset(t[i + 1..]);
      assert multiset(rest) == multiset(t) - multiset{x};
      assert multiset(s[..n]) == multiset(s) - multiset{x};
      MergeAllPermutation(s[..n], rest);
      MergeAllAppend(t[..i] + [x], t[i + 1..]);
      MergeAllAppend(t[..i], t[i + 1..]);
      assert (t[..i] + [x])[..i] == t[..i];
      MergeCommutative(MergeAll(t[..i]), x);
      MergeAssociative(MergeAll(t[..i]), x, MergeAll(t[i + 1..]));
      MergeAssociative(MergeAll(t[..i]), MergeAll(t[i + 1..]), x);
      MergeCommutative(x, MergeAll(t[i + 1..]));
    }
  }

  // ---------------------------------------------------------------------------
  // The merge loops

  /** The inner merge loop: Go visits the keys of `part` in an unspecified order. */
  method MergeInto(sum: map<Key, nat>, part: map<Key, nat>) returns (r: map<Key, nat>)
    ensures r.Keys == sum.Keys + part.Keys
    ensures forall k :: Get(r, k) == Get(sum, k) + Get(part, k)
    ensures r == Merge(sum, part)
  {
    r := sum;
    var rest := part.Keys;
    while rest != {}
      invariant rest <= part.Keys
      invariant r == Merge(sum, part - rest)
      decreases rest
    {
      var k :| k in rest;
      MergeOneMore(sum, part, rest, k);
      r := r[k := Get(r, k) + part[k]];
      rest := rest - {k};
    }
    assert part - {} == part;
  }

  /** Adding one more key of `part` into the sum so far. */
  lemma MergeOneMore(sum: map<Key, nat>, part: map<Key, nat>, rest: set<Key>, k: Key)
    requires k in rest && rest <= part.Keys
    ensures Merge(sum, part - (rest - {k})) == Merge(sum, part - rest)[k := Get(Merge(sum, part - rest), k) + part[k]]
  {
    var before, after := Merge(sum, part - rest), Merge(sum, part - (rest - {k}));
    var expected := before[k := Get(before, k) + part[k]];
    assert after.Keys == before.Keys + {k} == expected.Keys;
    forall j | j in after.Keys
      ensures after[j] == expected[j]
    {
      if j != k {
        assert Get(part - (rest - {k}), j) == Get(part - rest, j);
      }
    }
  }

  /** The outer merge loop over a slice of partial maps, in slice order. */
  method MergeSequence(parts: seq<map<Key, nat>>) returns (sum: map<Key, nat>)
    ensures sum == MergeAll(parts)
  {
    sum := map[];
    for j := 0 to |parts|
      invariant sum == MergeAll(parts[..j])
    {
      assert parts[..j + 1][..j] == parts[..j];
      sum := MergeInto(sum, parts[j]);
    }
    assert parts[..|parts|] == parts;
  }
}
