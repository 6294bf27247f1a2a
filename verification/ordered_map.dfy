/**
 * Python dictionaries as ordered association lists. Iteration order is insertion order,
 * assigning to an existing key keeps its position, and keys are distinct.
 */
module OrderedMap {
  import opened Common

  type AList<K, V> = seq<(K, V)>

  function Keys<K, V>(m: AList<K, V>): (ks: seq<K>)
    ensures |ks| == |m|
    ensures forall i :: 0 <= i < |m| ==> ks[i] == m[i].0
  {
    seq(|m|, i requires 0 <= i < |m| => m[i].0)
  }

  predicate Distinct<K(==)>(ks: seq<K>) {
    forall i, j :: 0 <= i < j < |ks| ==> ks[i] != ks[j]
  }

  predicate DistinctKeys<K(==), V>(m: AList<K, V>) {
    Distinct(Keys(m))
  }

  /** The position of the first entry for `k`. */
  function IndexOf<K(==), V>(m: AList<K, V>, k: K): (r: Option<nat>)
    ensures r.Some? ==> r.value < |m| && m[r.value].0 == k
    ensures r.Some? ==> forall j :: 0 <= j < r.value ==> m[j].0 != k
    ensures r.None? <==> k !in Keys(m)
  {
    if m == [] then None
    else if m[0].0 == k then Some(0)
    else match IndexOf(m[1..], k)
      case None => (assert Keys(m) == [m[0].0] + Keys(m[1..]); None)
      case Some(i) => Some(i + 1)
  }

  /** `d.get(k)`. */
  function Get<K(==), V>(m: AList<K, V>, k: K): (r: Option<V>)
    ensures r.Some? <==> k in Keys(m)
  {
    match IndexOf(m, k)
    case None => None
    case Some(i) => Some(m[i].1)
  }

  lemma GetAt<K, V>(m: AList<K, V>, i: nat)
    requires DistinctKeys(m) && i < |m|
    ensures Get(m, m[i].0) == Some(m[i].1)
  {
    var j := IndexOf(m, m[i].0).value;
    assert Keys(m)[i] == Keys(m)[j];
  }

  /** `d[k] = v`: an existing key keeps its position, a new key goes last. */
  function Put<K(==), V>(m: AList<K, V>, k: K, v: V): (r: AList<K, V>)
    ensures Keys(r) == if k in Keys(m) then Keys(m) else Keys(m) + [k]
    ensures DistinctKeys(m) ==> DistinctKeys(r)
    ensures DistinctKeys(m) ==> Get(r, k) == Some(v)
  {
    match IndexOf(m, k)
    case None =>
      var r := m + [(k, v)];
      assert Keys(r) == Keys(m) + [k];
      assert DistinctKeys(m) ==> Get(r, k) == Some(v) by {
        if DistinctKeys(m) { GetAt(r, |m|); }
      }
      r
    case Some(i) =>
      var r := m[i := (k, v)];
      assert Keys(r) == Keys(m);
      assert DistinctKeys(m) ==> Get(r, k) == Some(v) by {
        if DistinctKeys(m) { GetAt(r, i); }
      }
      r
  }

  /** The first entry holding `k` is the one `IndexOf` finds. */
  lemma IndexOfFirst<K, V>(m: AList<K, V>, k: K, i: nat)
    requires i < |m| && m[i].0 == k && forall j :: 0 <= j < i ==> m[j].0 != k
    ensures IndexOf(m, k) == Some(i)
  {
    assert Keys(m)[i] == k;
  }

  /** Assigning to one key leaves every other key's value as it was. */
  lemma PutOther<K, V>(m: AList<K, V>, k: K, v: V, k': K)
    requires k' != k
    ensures Get(Put(m, k, v), k') == Get(m, k')
  {
    var r := Put(m, k, v);
    match IndexOf(m, k')
    case None =>
      assert k' !in Keys(r);
    case Some(i) =>
      assert forall j :: 0 <= j < |m| ==> r[j].0 == Keys(r)[j] == Keys(m)[j] == m[j].0;
      assert r[i] == m[i];
      IndexOfFirst(r, k', i);
  }

  /** What one `setdefault(k, []).append(v)` does to the bucket of any key. */
  lemma AppendToGet<K, V>(m: AList<K, seq<V>>, k: K, v: V, q: K)
    requires DistinctKeys(m)
    ensures Get(AppendTo(m, k, v), q) == if q == k then Some(Get(m, k).GetOr([]) + [v]) else Get(m, q)
  {
    if q != k {
      PutOther(m, k, Get(m, k).GetOr([]) + [v], q);
    }
  }

  /** `d.setdefault(k, []).append(v)`. */
  function AppendTo<K(==), V>(m: AList<K, seq<V>>, k: K, v: V): AList<K, seq<V>> {
    Put(m, k, Get(m, k).GetOr([]) + [v])
  }

  /** Groups the values of `ps` under their keys, as the bucketing loops of the analyzer do. */
  function Collect<K(==), V>(ps: seq<(K, V)>): AList<K, seq<V>> {
    if ps == [] then [] else AppendTo(Collect(ps[..|ps| - 1]), ps[|ps| - 1].0, ps[|ps| - 1].1)
  }

  /** Repeated `d[k] = v` over `ps`: the last value for each key wins. */
  function PutAll<K(==), V>(ps: seq<(K, V)>): AList<K, V> {
    if ps == [] then [] else Put(PutAll(ps[..|ps| - 1]), ps[|ps| - 1].0, ps[|ps| - 1].1)
  }

  // ---------------------------------------------------------------------------
  // Reference definitions the folds are proved against.

  /** The keys of `ks` in order of first appearance. */
  function Dedup<K(==)>(ks: seq<K>): (r: seq<K>)
    ensures forall i :: 0 <= i < |r| ==> r[i] in ks
    ensures forall i :: 0 <= i < |ks| ==> ks[i] in r
    ensures Distinct(r)
  {
    if ks == [] then []
    else
      var init := Dedup(ks[..|ks| - 1]);
      assert forall i :: 0 <= i < |ks| - 1 ==> ks[i] == ks[..|ks| - 1][i];
      if ks[|ks| - 1] in ks[..|ks| - 1] then init else init + [ks[|ks| - 1]]
  }

  /** `list.index(v)`: the first position holding `v`. */
  function FirstIndex<T(==)>(xs: seq<T>, v: T): (i: nat)
    requires v in xs
    ensures i < |xs| && xs[i] == v
    ensures forall j :: 0 <= j < i ==> xs[j] != v
  {
    if xs[0] == v then 0 else 1 + FirstIndex(xs[1..], v)
  }

  /** A value already in the prefix is first found where the prefix first holds it. */
  lemma FirstIndexPrefix<T>(xs: seq<T>, v: T)
    requires |xs| > 0 && v in xs[..|xs| - 1]
    ensures FirstIndex(xs, v) == FirstIndex(xs[..|xs| - 1], v)
  {
    var init := xs[..|xs| - 1];
    var p, q := FirstIndex(init, v), FirstIndex(xs, v);
    assert xs[p] == init[p] == v;
    assert q <= p;
    assert init[q] == xs[q] == v;
  }

  /** Every element of `r` occurs in `ks`, and earlier elements first occur earlier. */
  predicate InFirstOrder<K(==)>(ks: seq<K>, r: seq<K>) {
    && (forall i :: 0 <= i < |r| ==> r[i] in ks)
    && (forall i, j :: 0 <= i < j < |r| ==> FirstIndex(ks, r[i]) < FirstIndex(ks, r[j]))
  }

  /** Appending to `ks` keeps an order, and a value new to `ks` may follow all the others. */
  lemma InFirstOrderSnoc<K>(init: seq<K>, last: K, r: seq<K>)
    requires InFirstOrder(init, r)
    ensures InFirstOrder(init + [last], r)
    ensures last !in init ==> InFirstOrder(init + [last], r + [last])
  {
    var ks := init + [last];
    assert ks[..|ks| - 1] == init;
    forall i | 0 <= i < |r|
      ensures r[i] in ks && FirstIndex(ks, r[i]) == FirstIndex(init, r[i]) < |init|
    {
      FirstIndexPrefix(ks, r[i]);
    }
    if last !in init {
      var r' := r + [last];
      assert FirstIndex(ks, last) == |init|;
      forall i, j | 0 <= i < j < |r'|
        ensures FirstIndex(ks, r'[i]) < FirstIndex(ks, r'[j])
      {
        assert r'[i] == r[i];
        if j < |r| {
          assert r'[j] == r[j];
        }
      }
    }
  }

  /**
   * The keys come out in order of first appearance: of two distinct keys, the one listed
   * earlier first appears earlier in `ks`.
   */
  lemma {:induction false} DedupOrder<K>(ks: seq<K>)
    ensures InFirstOrder(ks, Dedup(ks))
  {
    if ks != [] {
      var init, last := ks[..|ks| - 1], ks[|ks| - 1];
      DedupOrder(init);
      assert ks == init + [last];
      InFirstOrderSnoc(init, last, Dedup(init));
    }
  }

  /** Every value paired with `k` in `ps`, in order. */
  function ValuesAt<K(==), V>(ps: seq<(K, V)>, k: K): (r: seq<V>)
    ensures |r| <= |ps|
  {
    if ps == [] then []
    else ValuesAt(ps[..|ps| - 1], k) + (if ps[|ps| - 1].0 == k then [ps[|ps| - 1].1] else [])
  }

  /** The last value paired with `k` in `ps`. */
  function LastAt<K(==), V>(ps: seq<(K, V)>, k: K): Option<V> {
    if ps == [] then None
    else if ps[|ps| - 1].0 == k then Some(ps[|ps| - 1].1)
    else LastAt(ps[..|ps| - 1], k)
  }

  lemma KeysSnoc<K, V>(ps: seq<(K, V)>)
    requires ps != []
    ensures Keys(ps) == Keys(ps[..|ps| - 1]) + [ps[|ps| - 1].0]
  {
  }

  lemma {:induction false} ValuesAtEmpty<K, V>(ps: seq<(K, V)>, k: K)
    ensures ValuesAt(ps, k) == [] <==> k !in Keys(ps)
  {
    if ps != [] {
      ValuesAtEmpty(ps[..|ps| - 1], k);
      KeysSnoc(ps);
    }
  }

  lemma {:induction false} ValuesAtAppend<K, V>(ps: seq<(K, V)>, qs: seq<(K, V)>, k: K)
    ensures ValuesAt(ps + qs, k) == ValuesAt(ps, k) + ValuesAt(qs, k)
  {
    if qs == [] {
      assert ps + qs == ps;
    } else {
      var init := qs[..|qs| - 1];
      ValuesAtAppend(ps, init, k);
      assert (ps + qs)[..|ps + qs| - 1] == ps + init;
    }
  }

  /** Grouping keeps keys distinct and in order of first appearance. */
  lemma {:induction false} CollectKeys<K, V>(ps: seq<(K, V)>)
    ensures DistinctKeys(Collect(ps))
    ensures Keys(Collect(ps)) == Dedup(Keys(ps))
  {
    if ps != [] {
      var init := ps[..|ps| - 1];
      CollectKeys(init);
      KeysSnoc(ps);
      assert Keys(ps)[..|ps| - 1] == Keys(init);
    }
  }

  /** Grouping puts under each key exactly the values paired with it, in order. */
  lemma {:induction false} CollectGet<K, V>(ps: seq<(K, V)>, k: K)
    ensures Get(Collect(ps), k) == if k in Keys(ps) then Some(ValuesAt(ps, k)) else None
  {
    if ps != [] {
      var init := ps[..|ps| - 1];
      var k' := ps[|ps| - 1].0;
      var v := ps[|ps| - 1].1;
      var c := Collect(init);
      assert Collect(ps) == AppendTo(c, k', v);
      assert ValuesAt(ps, k) == ValuesAt(init, k) + (if k' == k then [v] else []);
      CollectKeys(init);
      CollectGet(init, k);
      KeysSnoc(ps);
      assert k in Keys(ps) <==> k in Keys(init) || k == k';
      AppendToGet(c, k', v, k);
      if k == k' {
        ValuesAtEmpty(init, k);
        var before := Get(c, k).GetOr([]);
        assert before == ValuesAt(init, k);
        assert Get(Collect(ps), k) == Some(before + [v]);
        assert ValuesAt(ps, k) == before + [v];
      } else {
        assert Get(Collect(ps), k) == Get(c, k);
        assert ValuesAt(ps, k) == ValuesAt(init, k);
      }
    }
  }

  lemma CollectSpec<K, V>(ps: seq<(K, V)>)
    ensures DistinctKeys(Collect(ps))
    ensures Keys(Collect(ps)) == Dedup(Keys(ps))
    ensures forall k :: Get(Collect(ps), k) == if k in Keys(ps) then Some(ValuesAt(ps, k)) else None
  {
    CollectKeys(ps);
    forall k
      ensures Get(Collect(ps), k) == if k in Keys(ps) then Some(ValuesAt(ps, k)) else None
    {
      CollectGet(ps, k);
    }
  }

  /** Every bucket a grouping creates holds at least one value. */
  lemma CollectNonEmpty<K, V>(ps: seq<(K, V)>)
    ensures forall i :: 0 <= i < |Collect(ps)| ==> |Collect(ps)[i].1| > 0
  {
    var c := Collect(ps);
    CollectSpec(ps);
    forall i | 0 <= i < |c|
      ensures |c[i].1| > 0
    {
      GetAt(c, i);
      ValuesAtEmpty(ps, c[i].0);
    }
  }

  /** Repeated assignment keeps keys distinct and in order of first appearance. */
  lemma {:induction false} PutAllKeys<K, V>(ps: seq<(K, V)>)
    ensures DistinctKeys(PutAll(ps))
    ensures Keys(PutAll(ps)) == Dedup(Keys(ps))
  {
    if ps != [] {
      var init := ps[..|ps| - 1];
      PutAllKeys(init);
      KeysSnoc(ps);
      assert Keys(ps)[..|ps| - 1] == Keys(init);
    }
  }

  /** Repeated assignment leaves the last value paired with each key. */
  lemma {:induction false} PutAllGet<K, V>(ps: seq<(K, V)>, k: K)
    ensures Get(PutAll(ps), k) == LastAt(ps, k)
  {
    if ps != [] {
      var init := ps[..|ps| - 1];
      var (k', v) := ps[|ps| - 1];
      PutAllKeys(init);
      PutAllGet(init, k);
      if k != k' {
        PutOther(PutAll(init), k', v, k);
      }
    }
  }

  /** `for k, v in ps: d.setdefault(k, []).append(v)` applied to an existing `d`. */
  function AppendAll<K(==), V>(m: AList<K, seq<V>>, ps: seq<(K, V)>): AList<K, seq<V>> {
    if ps == [] then m else AppendTo(AppendAll(m, ps[..|ps| - 1]), ps[|ps| - 1].0, ps[|ps| - 1].1)
  }

  /**
   * A loop over files whose body appends every pair of one file: the map starts empty and each
   * file's pairs are appended after those of the files before it.
   */
  function GroupFiles<F, K(==), V>(pairs: F -> seq<(K, V)>, files: seq<F>): AList<K, seq<V>> {
    if files == [] then [] else AppendAll(GroupFiles(pairs, files[..|files| - 1]), pairs(files[|files| - 1]))
  }

  /** Appending more pairs to a grouping is grouping the longer list. */
  lemma {:induction false} AppendAllCollect<K, V>(ps: seq<(K, V)>, qs: seq<(K, V)>)
    ensures AppendAll(Collect(ps), qs) == Collect(ps + qs)
  {
    if qs == [] {
      assert ps + qs == ps;
    } else {
      var init := qs[..|qs| - 1];
      var (k, v) := qs[|qs| - 1];
      var pq := ps + qs;
      assert pq[..|pq| - 1] == ps + init && pq[|pq| - 1] == (k, v);
      calc {
        AppendAll(Collect(ps), qs);
        AppendTo(AppendAll(Collect(ps), init), k, v);
        { AppendAllCollect(ps, init); }
        AppendTo(Collect(ps + init), k, v);
        { CollectSnoc(pq); }
        Collect(pq);
      }
    }
  }

  lemma CollectSnoc<K, V>(ps: seq<(K, V)>)
    requires ps != []
    ensures Collect(ps) == AppendTo(Collect(ps[..|ps| - 1]), ps[|ps| - 1].0, ps[|ps| - 1].1)
  {
  }

  /** Grouping file by file is grouping the pairs of all files read one after another. */
  lemma {:induction false} GroupFilesCollect<F, K, V>(pairs: F -> seq<(K, V)>, files: seq<F>)
    ensures GroupFiles(pairs, files) == Collect(FlatMap(pairs, files))
  {
    if files != [] {
      var init := files[..|files| - 1];
      GroupFilesCollect(pairs, init);
      AppendAllCollect(FlatMap(pairs, init), pairs(files[|files| - 1]));
    }
  }

  /** The first value paired with `k` in `ps`. */
  function FirstAt<K(==), V>(ps: seq<(K, V)>, k: K): Option<V> {
    if ps == [] then None
    else if ps[0].0 == k then Some(ps[0].1)
    else FirstAt(ps[1..], k)
  }

  /** Appending a pair leaves the first value of a key unchanged once the key has been seen. */
  lemma {:induction false} FirstAtSnoc<K, V>(ps: seq<(K, V)>, p: (K, V), k: K)
    ensures FirstAt(ps, k).Some? <==> k in Keys(ps)
    ensures FirstAt(ps + [p], k) ==
      if k in Keys(ps) then FirstAt(ps, k) else if p.0 == k then Some(p.1) else None
  {
    if ps != [] {
      FirstAtSnoc(ps[1..], p, k);
      assert (ps + [p])[1..] == ps[1..] + [p];
      assert Keys(ps) == [ps[0].0] + Keys(ps[1..]);
    } else {
      assert [p][1..] == [];
    }
  }

  /** The bucket of `k`, empty when `k` was never seen. */
  function Bucket<K(==), V>(m: AList<K, seq<V>>, k: K): seq<V> {
    Get(m, k).GetOr([])
  }

  lemma KeysAppend<K, V>(ps: seq<(K, V)>, qs: seq<(K, V)>)
    ensures Keys(ps + qs) == Keys(ps) + Keys(qs)
  {
  }

  /** Grouping file by file puts under each key exactly that key's values, in file order. */
  lemma GroupFilesBucket<F, K, V>(pairs: F -> seq<(K, V)>, files: seq<F>, k: K)
    ensures DistinctKeys(GroupFiles(pairs, files))
    ensures Keys(GroupFiles(pairs, files)) == Dedup(Keys(FlatMap(pairs, files)))
    ensures Get(GroupFiles(pairs, files), k).Some? <==> k in Keys(FlatMap(pairs, files))
    ensures Bucket(GroupFiles(pairs, files), k) == ValuesAt(FlatMap(pairs, files), k)
  {
    var ps := FlatMap(pairs, files);
    GroupFilesCollect(pairs, files);
    CollectKeys(ps);
    CollectGet(ps, k);
    ValuesAtEmpty(ps, k);
  }

  /** Grouping two runs of files concatenates every bucket. */
  lemma GroupFilesAppend<F, K, V>(pairs: F -> seq<(K, V)>, a: seq<F>, b: seq<F>, k: K)
    ensures Bucket(GroupFiles(pairs, a + b), k) == Bucket(GroupFiles(pairs, a), k) + Bucket(GroupFiles(pairs, b), k)
  {
    FlatMapAppend(pairs, a, b);
    ValuesAtAppend(FlatMap(pairs, a), FlatMap(pairs, b), k);
    GroupFilesBucket(pairs, a + b, k);
    GroupFilesBucket(pairs, a, k);
    GroupFilesBucket(pairs, b, k);
  }

  /** Every bucket of a file-by-file grouping holds at least one value. */
  lemma GroupFilesNonEmpty<F, K, V>(pairs: F -> seq<(K, V)>, files: seq<F>)
    ensures forall i :: 0 <= i < |GroupFiles(pairs, files)| ==> |GroupFiles(pairs, files)[i].1| > 0
  {
    GroupFilesCollect(pairs, files);
    CollectNonEmpty(FlatMap(pairs, files));
  }

  /** A key of the flattened pairs is a key of the pairs of some file. */
  lemma {:induction false} FlatMapKeys<F, K, V>(pairs: F -> seq<(K, V)>, files: seq<F>, k: K)
    requires k in Keys(FlatMap(pairs, files))
    ensures exists i :: 0 <= i < |files| && k in Keys(pairs(files[i]))
  {
    var init := files[..|files| - 1];
    var last := files[|files| - 1];
    KeysAppend(FlatMap(pairs, init), pairs(last));
    if k in Keys(FlatMap(pairs, init)) {
      FlatMapKeys(pairs, init, k);
      var i :| 0 <= i < |init| && k in Keys(pairs(init[i]));
      assert init[i] == files[i];
    } else {
      assert k in Keys(pairs(files[|files| - 1]));
    }
  }

  /** Appending an entry for another key leaves a lookup as it was. */
  lemma GetSnocOther<K, V>(m: AList<K, V>, k: K, v: V, q: K)
    requires q != k
    ensures Get(m + [(k, v)], q) == Get(m, q)
  {
    var r := m + [(k, v)];
    match IndexOf(m, q)
    case None =>
      assert Keys(r) == Keys(m) + [k];
    case Some(i) =>
      assert forall j :: 0 <= j < |m| ==> r[j] == m[j];
      IndexOfFirst(r, q, i);
  }

  /**
   * The entries `f` keeps, each with the value `f` gives it, in map order: a loop that
   * assigns `d[k] = ...` only for some entries.
   */
  function FilterMap<K, V, U>(m: AList<K, V>, f: (K, V) -> Option<U>): (r: seq<(K, U)>)
    ensures |r| <= |m|
  {
    if m == [] then []
    else
      var (k, v) := m[|m| - 1];
      FilterMap(m[..|m| - 1], f) + match f(k, v) case None => [] case Some(u) => [(k, u)]
  }

  lemma LastAtSnoc<K, V>(ps: seq<(K, V)>, qs: seq<(K, V)>, k: K)
    requires |qs| <= 1
    ensures LastAt(ps + qs, k) == if qs != [] && qs[0].0 == k then Some(qs[0].1) else LastAt(ps, k)
  {
    if qs == [] {
      assert ps + qs == ps;
    } else {
      assert (ps + qs)[..|ps + qs| - 1] == ps;
    }
  }

  /** On distinct keys, the last value kept for `k` is what `f` makes of `k`'s entry. */
  lemma {:induction false} FilterMapAt<K, V, U>(m: AList<K, V>, f: (K, V) -> Option<U>, k: K)
    requires DistinctKeys(m)
    ensures LastAt(FilterMap(m, f), k) == match Get(m, k) case None => None case Some(v) => f(k, v)
  {
    if m != [] {
      var init := m[..|m| - 1];
      var (q, v) := m[|m| - 1];
      assert Keys(init) == Keys(m)[..|m| - 1];
      FilterMapAt(init, f, k);
      var tail := match f(q, v) case None => [] case Some(u) => [(q, u)];
      assert FilterMap(m, f) == FilterMap(init, f) + tail;
      LastAtSnoc(FilterMap(init, f), tail, k);
      assert m == init + [(q, v)];
      if q == k {
        GetAt(m, |m| - 1);
      } else {
        GetSnocOther(init, q, v, k);
      }
    }
  }
}
