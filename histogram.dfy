/** Block histograms: dictionaries from a key to how often it was seen, as
    built by `list_blocks_from_chunk`, combined key by key by `list_blocks`
    (through `combine_dicts`) and by the aggregation loop of mcblock.py, and
    summed up by `sum(blocks.values())`. */
module Histogram {

  /** The count of k, 0 for a key the dictionary does not hold. */
  function Get<K>(m: map<K, nat>, k: K): nat
  {
    if k in m then m[k] else 0
  }

  /** Key-wise sum of two histograms: every key of either, with the sum of
      its counts. */
  function Merge<K>(a: map<K, nat>, b: map<K, nat>): (r: map<K, nat>)
    ensures r.Keys == a.Keys + b.Keys
  {
    map k | k in a.Keys + b.Keys :: Get(a, k) + Get(b, k)
  }

  /** The histogram of a stream: each key that occurs, with the number of
      times it occurs. */
  function HistogramOf<K>(s: seq<K>): map<K, nat>
  {
    map k | k in s :: multiset(s)[k]
  }

  /** The sum of all counts. */
  ghost function Total<K>(m: map<K, nat>): nat
    decreases |m.Keys|
  {
    if m.Keys == {} then 0
    else
      var k :| k in m.Keys;
      assert |(m - {k}).Keys| < |m.Keys| by { assert (m - {k}).Keys == m.Keys - {k}; }
      m[k] + Total(m - {k})
  }

  // ---------------------------------------------------------------------
  // Properties

  /** Every key's count in a merge is the sum of its counts. */
  lemma MergeGet<K>(a: map<K, nat>, b: map<K, nat>, k: K)
    ensures Get(Merge(a, b), k) == Get(a, k) + Get(b, k)
  {
  }

  /** A histogram holds exactly the keys of its stream, each with its number
      of occurrences. */
  lemma HistogramGet<K>(s: seq<K>, k: K)
    ensures k in HistogramOf(s) <==> k in s
    ensures Get(HistogramOf(s), k) == multiset(s)[k]
  {
  }

  /** Merging is commutative: the order in which regions or chunks are
      combined does not matter. */
  lemma MergeCommutes<K>(a: map<K, nat>, b: map<K, nat>)
    ensures Merge(a, b) == Merge(b, a)
  {
    assert Merge(a, b).Keys == Merge(b, a).Keys;
    forall k | k in Merge(a, b) ensures Merge(a, b)[k] == Merge(b, a)[k] {
      MergeGet(a, b, k);
      MergeGet(b, a, k);
    }
  }

  /** Merging is associative. */
  lemma MergeAssociates<K>(a: map<K, nat>, b: map<K, nat>, c: map<K, nat>)
    ensures Merge(Merge(a, b), c) == Merge(a, Merge(b, c))
  {
    var l, r := Merge(Merge(a, b), c), Merge(a, Merge(b, c));
    assert l.Keys == r.Keys;
    forall k | k in l ensures l[k] == r[k] {
      MergeGet(Merge(a, b), c, k);
      MergeGet(a, b, k);
      MergeGet(a, Merge(b, c), k);
      MergeGet(b, c, k);
    }
  }

  /** The empty dictionary `{}` the folds start from is neutral. */
  lemma MergeEmpty<K>(b: map<K, nat>)
    ensures Merge(map[], b) == b
  {
    assert Merge(map[], b).Keys == b.Keys;
  }

  /** The histogram of two streams one after the other is the merge of
      their histograms. */
  lemma HistogramConcat<K>(a: seq<K>, b: seq<K>)
    ensures HistogramOf(a + b) == Merge(HistogramOf(a), HistogramOf(b))
  {
    var l, r := HistogramOf(a + b), Merge(HistogramOf(a), HistogramOf(b));
    assert multiset(a + b) == multiset(a) + multiset(b);
    forall k ensures k in l <==> k in r {
      assert k in a + b <==> k in a || k in b;
    }
    assert l.Keys == r.Keys;
    forall k | k in l ensures l[k] == r[k] {
      HistogramGet(a, k);
      HistogramGet(b, k);
      MergeGet(HistogramOf(a), HistogramOf(b), k);
    }
  }

  /** Counting one more occurrence of x: the update `list_blocks_from_chunk`
      makes for each block (`+= 1`, or `= 1` for a new key). */
  lemma HistogramSnoc<K>(s: seq<K>, x: K)
    ensures HistogramOf(s + [x]) == HistogramOf(s)[x := Get(HistogramOf(s), x) + 1]
  {
    var l, r := HistogramOf(s + [x]), HistogramOf(s)[x := Get(HistogramOf(s), x) + 1];
    assert multiset(s + [x]) == multiset(s) + multiset{x};
    forall k ensures k in l <==> k in r {
      assert k in s + [x] <==> k in s || k == x;
    }
    assert l.Keys == r.Keys;
    forall k | k in l ensures l[k] == r[k] {
      HistogramGet(s, k);
    }
  }

  /** Total does not depend on which key is taken first. */
  lemma {:induction false} TotalRemove<K>(m: map<K, nat>, k: K)
    requires k in m
    ensures Total(m) == m[k] + Total(m - {k})
    decreases |m.Keys|
  {
    var j :| j in m.Keys && Total(m) == m[j] + Total(m - {j});
    if j != k {
      var mj, mk := m - {j}, m - {k};
      assert |mj.Keys| < |m.Keys| by { assert mj.Keys == m.Keys - {j}; }
      assert |mk.Keys| < |m.Keys| by { assert mk.Keys == m.Keys - {k}; }
      TotalRemove(mj, k);
      TotalRemove(mk, j);
      assert mj - {k} == mk - {j};
    }
  }

  /** Total with one key's count taken out, whether or not it is present. */
  lemma TotalSplit<K>(m: map<K, nat>, k: K)
    ensures Total(m) == Get(m, k) + Total(m - {k})
  {
    if k in m {
      TotalRemove(m, k);
    } else {
      assert m - {k} == m;
    }
  }

  /** Taking a key out of a merge takes it out of both sides. */
  lemma MergeRemove<K>(a: map<K, nat>, b: map<K, nat>, k: K)
    ensures Merge(a, b) - {k} == Merge(a - {k}, b - {k})
  {
    var l, r := Merge(a, b) - {k}, Merge(a - {k}, b - {k});
    assert l.Keys == r.Keys;
    forall j | j in l ensures l[j] == r[j] {
      assert Get(a - {k}, j) == Get(a, j) && Get(b - {k}, j) == Get(b, j);
    }
  }

  /** The total of a merge is the sum of the totals. */
  lemma {:induction false} TotalMerge<K>(a: map<K, nat>, b: map<K, nat>)
    ensures Total(Merge(a, b)) == Total(a) + Total(b)
    decreases |a.Keys|
  {
    if a.Keys == {} {
      assert a == map[];
      MergeEmpty(b);
    } else {
      var k :| k in a.Keys;
      var a', b' := a - {k}, b - {k};
      assert |a'.Keys| < |a.Keys| by { assert a'.Keys == a.Keys - {k}; }
      TotalMerge(a', b');
      MergeRemove(a, b, k);
      TotalSplit(Merge(a, b), k);
      MergeGet(a, b, k);
      TotalSplit(a, k);
      TotalSplit(b, k);
    }
  }

  /** The counts of a stream's histogram add up to the stream's length: the
      block total printed is the number of blocks seen. */
  lemma {:induction false} TotalHistogram<K>(s: seq<K>)
    ensures Total(HistogramOf(s)) == |s|
  {
    if s != [] {
      var init, x := s[..|s| - 1], s[|s| - 1];
      assert s == init + [x];
      TotalHistogram(init);
      var h := HistogramOf(init);
      HistogramSnoc(init, x);
      TotalSplit(HistogramOf(s), x);
      TotalSplit(h, x);
      assert HistogramOf(s) - {x} == h - {x};
    }
  }
}
