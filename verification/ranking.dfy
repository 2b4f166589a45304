/**
 * The ranking step: the global map becomes a list of entries, the list is sorted by
 * count descending and then name ascending, and a prefix of it is printed.
 */
module Ranking {
  import opened Base
  import opened Lex

  /** One row of the result: a key and its count (Go's `Entry{name, value}`). */
  datatype Entry = Entry(name: Key, value: nat)

  /** `List.Less` (and the `sort.Slice` closure): higher count first, equal counts by name. */
  predicate Less(e: Entry, f: Entry)
  {
    if e.value == f.value then LexLess(e.name, f.name) else e.value > f.value
  }

  /** `e` may stand before `f` in a sorted list. */
  predicate NotAfter(e: Entry, f: Entry)
  {
    !Less(f, e)
  }

  ghost predicate Sorted(s: seq<Entry>)
  {
    forall p, q :: 0 <= p < q < |s| ==> NotAfter(s[p], s[q])
  }

  /** The entries of a map, one per key. */
  function EntrySet(m: map<Key, nat>): (r: set<Entry>)
  {
    set k | k in m :: Entry(k, m[k])
  }

  /** `r` holds each entry of `m` exactly once, sorted under Less. */
  ghost predicate IsRanking(r: seq<Entry>, m: map<Key, nat>)
  {
    Sorted(r) && multiset(r) == multiset(EntrySet(m))
  }

  // ---------------------------------------------------------------------------
  // Less is a strict total order

  lemma LessIrreflexive(e: Entry)
    ensures !Less(e, e)
  {
    LexIrreflexive(e.name);
  }

  lemma LessTransitive(e: Entry, f: Entry, g: Entry)
    requires Less(e, f) && Less(f, g)
    ensures Less(e, g)
  {
    if e.value == f.value == g.value {
      LexTransitive(e.name, f.name, g.name);
    }
  }

  /** Two entries with different names are always ordered one way or the other. */
  lemma LessTotal(e: Entry, f: Entry)
    requires e.name != f.name
    ensures Less(e, f) || Less(f, e)
  {
    LexTotal(e.name, f.name);
  }

  lemma LessAsymmetric(e: Entry, f: Entry)
    requires Less(e, f)
    ensures !Less(f, e)
  {
    if e.value == f.value {
      LexAsymmetric(e.name, f.name);
    }
  }

  lemma NotAfterTransitive(e: Entry, f: Entry, g: Entry)
    requires NotAfter(e, f) && NotAfter(f, g)
    ensures NotAfter(e, g)
  {
    if Less(g, e) {
      LexTotal(e.name, f.name);
      if Less(e, f) {
        LessTransitive(g, e, f);
      }
    }
  }

  /** Only equal entries are in both orders: ties are impossible. */
  lemma NotAfterAntisymmetric(e: Entry, f: Entry)
    requires NotAfter(e, f) && NotAfter(f, e)
    ensures e == f
  {
    LexTotal(e.name, f.name);
  }

  // ---------------------------------------------------------------------------
  // The ranking is unique

  /** The head of a sorted list comes no later than anything in it. */
  lemma SortedHead(a: seq<Entry>, x: Entry)
    requires Sorted(a) && x in a
    ensures NotAfter(a[0], x)
  {
    var q :| 0 <= q < |a| && a[q] == x;
    if q == 0 {
      LessIrreflexive(x);
    }
  }

  lemma SortedTail(a: seq<Entry>)
    requires Sorted(a) && |a| > 0
    ensures Sorted(a[1..])
    ensures multiset(a[1..]) == multiset(a) - multiset{a[0]}
  {
    assert a == [a[0]] + a[1..];
  }

  /** Two sorted lists holding the same entries are the same list. */
  lemma {:induction false} SortedUnique(a: seq<Entry>, b: seq<Entry>)
    requires Sorted(a) && Sorted(b) && multiset(a) == multiset(b)
    ensures a == b
  {
    if |a| == 0 {
      assert |b| == |multiset(b)| == 0;
    } else {
      assert a[0] in multiset(b);
      assert b[0] in multiset(a);
      SortedHead(b, a[0]);
      SortedHead(a, b[0]);
      NotAfterAntisymmetric(a[0], b[0]);
      SortedTail(a);
      SortedTail(b);
      SortedUnique(a[1..], b[1..]);
      assert a == [a[0]] + a[1..];
      assert b == [b[0]] + b[1..];
    }
  }

  /**
   * Ranking is deterministic: whatever order the map's entries were listed in,
   * there is only one sorted arrangement of them.
   */
  lemma RankingUnique(a: seq<Entry>, b: seq<Entry>, m: map<Key, nat>)
    requires IsRanking(a, m) && IsRanking(b, m)
    ensures a == b
  {
    SortedUnique(a, b);
  }

  lemma EntrySetRemove(m: map<Key, nat>, k: Key)
    requires k in m
    ensures EntrySet(m) == EntrySet(m - {k}) + {Entry(k, m[k])}
  {
    forall x | x in EntrySet(m) ensures x in EntrySet(m - {k}) + {Entry(k, m[k])} {
      var j :| j in m && x == Entry(j, m[j]);
      if j != k { assert j in m - {k}; }
    }
  }

  lemma {:induction false} EntrySetSize(m: map<Key, nat>)
    ensures |EntrySet(m)| == |m|
    decreases |m|
  {
    if m != map[] {
      var k :| k in m;
      var e := Entry(k, m[k]);
      EntrySetSize(m - {k});
      EntrySetRemove(m, k);
      assert e !in EntrySet(m - {k});
    }
  }

  lemma TwiceCounted(r: seq<Entry>, p: int, q: int)
    requires 0 <= p < q < |r| && r[p] == r[q]
    ensures multiset(r)[r[p]] >= 2
  {
    assert r == r[..q] + [r[q]] + r[q + 1..];
    assert r[p] == r[..q][p];
    assert multiset(r) == multiset(r[..q]) + multiset{r[q]} + multiset(r[q + 1..]);
  }

  /** A list holding exactly the entries of `m`: one row per key, carrying that key's count. */
  lemma EntryListFacts(r: seq<Entry>, m: map<Key, nat>)
    requires multiset(r) == multiset(EntrySet(m))
    ensures |r| == |m|
    ensures forall e :: e in r <==> e.name in m && e.value == m[e.name]
    ensures forall p, q :: 0 <= p < q < |r| ==> r[p].name != r[q].name
  {
    EntrySetSize(m);
    assert |r| == |multiset(r)| == |EntrySet(m)|;
    forall e ensures e in r <==> e.name in m && e.value == m[e.name] {
      assert e in r <==> e in multiset(r);
    }
    forall p, q | 0 <= p < q < |r| ensures r[p].name != r[q].name {
      if r[p].name == r[q].name {
        assert r[p] in multiset(r) && r[q] in multiset(r);
        assert r[p] == r[q];
        TwiceCounted(r, p, q);
      }
    }
  }

  /**
   * What the printed prefix of a ranking says: it has min(n, number of keys) rows,
   * each row is a key with its count, and every row outranks every key not printed.
   */
  lemma TopOutranksRest(r: seq<Entry>, m: map<Key, nat>, n: nat)
    requires IsRanking(r, m)
    ensures |r[..Min(n, |r|)]| == Min(n, |m|)
    ensures forall e :: e in r[..Min(n, |r|)] ==> e.name in m && e.value == m[e.name]
    ensures forall e, k :: e in r[..Min(n, |r|)] && k in m && Entry(k, m[k]) !in r[..Min(n, |r|)]
              ==> Less(e, Entry(k, m[k]))
  {
    EntryListFacts(r, m);
    var t := r[..Min(n, |r|)];
    forall e, k | e in t && k in m && Entry(k, m[k]) !in t
      ensures Less(e, Entry(k, m[k]))
    {
      var f := Entry(k, m[k]);
      assert f in r;
      var p :| 0 <= p < |t| && t[p] == e;
      var q :| 0 <= q < |r| && r[q] == f;
      assert r[p] == e;
      if q < |t| { assert t[q] == f; }
      assert NotAfter(e, f);
      LexTotal(e.name, f.name);
    }
  }

  // ---------------------------------------------------------------------------
  // The sort

  /** `List.Swap`: exchanges two positions and leaves every other one unchanged. */
  method Swap(l: array<Entry>, i: int, j: int)
    requires 0 <= i < l.Length && 0 <= j < l.Length
    modifies l
    ensures l[..] == old(l[..])[i := old(l[j])][j := old(l[i])]
    ensures multiset(l[..]) == multiset(old(l[..]))
  {
    l[i], l[j] := l[j], l[i];
  }

  /** `sort.Sort(results)`: an insertion sort that moves entries with Swap under Less. */
  method Sort(l: array<Entry>)
    modifies l
    ensures Sorted(l[..])
    ensures multiset(l[..]) == multiset(old(l[..]))
  {
    var i := 0;
    while i < l.Length
      invariant 0 <= i <= l.Length
      invariant forall p, q :: 0 <= p < q < i ==> NotAfter(l[p], l[q])
      invariant multiset(l[..]) == multiset(old(l[..]))
    {
      var j := i;
      while j > 0 && Less(l[j], l[j - 1])
        invariant 0 <= j <= i
        invariant forall p, q :: 0 <= p < q <= i && p != j && q != j ==> NotAfter(l[p], l[q])
        invariant forall q :: j < q <= i ==> NotAfter(l[j], l[q])
        invariant multiset(l[..]) == multiset(old(l[..]))
      {
        LessAsymmetric(l[j], l[j - 1]);
        Swap(l, j - 1, j);
        j := j - 1;
      }
      forall p | 0 <= p < j
        ensures NotAfter(l[p], l[j])
      {
        if p < j - 1 {
          NotAfterTransitive(l[p], l[j - 1], l[j]);
        }
      }
      i := i + 1;
    }
  }

  /** `for k, v := range m { results = append(results, Entry{k, v}) }`, in map order. */
  method ToEntries(m: map<Key, nat>) returns (r: seq<Entry>)
    ensures multiset(r) == multiset(EntrySet(m))
  {
    r := [];
    var rest := m.Keys;
    while rest != {}
      invariant rest <= m.Keys
      invariant multiset(r) == multiset(EntrySet(m - rest))
      decreases rest
    {
      var k :| k in rest;
      var e := Entry(k, m[k]);
      assert e !in EntrySet(m - rest);
      assert (m - (rest - {k})) - {k} == m - rest;
      EntrySetRemove(m - (rest - {k}), k);
      r := r + [e];
      rest := rest - {k};
    }
    assert m - {} == m;
  }

  /** The entries of `m`, sorted: lines 96-103 of aggcsv.go and their twins. */
  method SortedEntries(m: map<Key, nat>) returns (r: seq<Entry>)
    ensures IsRanking(r, m)
  {
    var results := ToEntries(m);
    var l := new Entry[|results|](i requires 0 <= i < |results| => results[i]);
    assert l[..] == results;
    Sort(l);
    r := l[..];
  }

  /** `for i := 0; i < n && i < len(results); i++ { fmt.Println(results[i]) }` */
  method PrintTop(results: seq<Entry>, n: nat) returns (printed: seq<Entry>)
    ensures |printed| == Min(n, |results|)
    ensures printed == results[..Min(n, |results|)]
  {
    printed := [];
    var i := 0;
    while i < n && i < |results|
      invariant 0 <= i <= Min(n, |results|)
      invariant printed == results[..i]
    {
      printed := printed + [results[i]];
      i := i + 1;
    }
  }
}
