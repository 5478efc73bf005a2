/**
 * Python's insertion-ordered `dict`, as a sequence of key/value pairs with
 * distinct keys, and the "in first-seen order" view of a sequence.
 */
module OrderedDicts {
  import opened Wrappers

  type Dict<K, V> = seq<(K, V)>

  /** The keys of a dict (or of any sequence of pairs), in order. */
  function Keys<K, V>(d: seq<(K, V)>): (ks: seq<K>)
    ensures |ks| == |d| && forall i :: 0 <= i < |d| ==> ks[i] == d[i].0
  {
    seq(|d|, i requires 0 <= i < |d| => d[i].0)
  }

  predicate DistinctKeys<K(==), V>(d: Dict<K, V>) {
    forall i, j :: 0 <= i < j < |d| ==> d[i].0 != d[j].0
  }

  /** Position of key `k`, if present. */
  function Find<K(==), V>(d: Dict<K, V>, k: K): (r: Option<nat>)
    ensures r.Some? ==> r.value < |d| && d[r.value].0 == k
    ensures r.Some? ==> forall j :: 0 <= j < r.value ==> d[j].0 != k
    ensures r.None? <==> forall j :: 0 <= j < |d| ==> d[j].0 != k
    decreases |d|
  {
    if |d| == 0 then None
    else if d[0].0 == k then Some(0)
    else
      match Find(d[1..], k)
      case None => None
      case Some(j) => Some(j + 1)
  }

  /** `d.get(k)`. */
  function Get<K(==), V>(d: Dict<K, V>, k: K): Option<V> {
    match Find(d, k)
    case None => None
    case Some(j) => Some(d[j].1)
  }

  lemma FindUnique<K, V>(d: Dict<K, V>, k: K, j: nat)
    requires DistinctKeys(d) && j < |d| && d[j].0 == k
    ensures Find(d, k) == Some(j)
  {
  }

  lemma FindIffKey<K, V>(d: Dict<K, V>, k: K)
    ensures Find(d, k).Some? <==> k in Keys(d)
  {
    if k in Keys(d) {
      var j :| 0 <= j < |d| && Keys(d)[j] == k;
      assert d[j].0 == k;
    }
  }

  /**
   * `d[k] = v`: a key already present keeps its position and takes the new
   * value; a new key goes last; every other key keeps its value.
   */
  function Put<K(==,!new), V>(d: Dict<K, V>, k: K, v: V): (r: Dict<K, V>)
    requires DistinctKeys(d)
    ensures DistinctKeys(r)
    ensures Get(r, k) == Some(v)
    ensures forall k' :: k' != k ==> Get(r, k') == Get(d, k')
    ensures Keys(r) == if Find(d, k).Some? then Keys(d) else Keys(d) + [k]
  {
    match Find(d, k)
    case None =>
      var r := d + [(k, v)];
      FindUnique(r, k, |d|);
      forall k' | k' != k ensures Get(r, k') == Get(d, k') {
        if Find(d, k').Some? {
          FindUnique(r, k', Find(d, k').value);
        }
      }
      assert Keys(r) == Keys(d) + [k];
      r
    case Some(j) =>
      var r := d[j := (k, v)];
      FindUnique(r, k, j);
      forall k' | k' != k ensures Get(r, k') == Get(d, k') {
        if Find(d, k').Some? {
          FindUnique(r, k', Find(d, k').value);
        }
      }
      assert Keys(r) == Keys(d);
      r
  }

  /** Index of the first occurrence of `x` in `xs`. */
  function FirstIndex<T(==)>(xs: seq<T>, x: T): (r: nat)
    requires x in xs
    ensures r < |xs| && xs[r] == x
    ensures forall j :: 0 <= j < r ==> xs[j] != x
  {
    if xs[0] == x then 0 else 1 + FirstIndex(xs[1..], x)
  }

  lemma FirstIndexExtend<T>(xs: seq<T>, y: T, x: T)
    requires x in xs
    ensures x in xs + [y] && FirstIndex(xs + [y], x) == FirstIndex(xs, x)
  {
    var i := FirstIndex(xs, x);
    assert (xs + [y])[i] == x;
  }

  /** The distinct elements of `xs`, each where it first appears. */
  function FirstSeen<T(==)>(xs: seq<T>): seq<T>
    decreases |xs|
  {
    if xs == [] then []
    else
      var prev := FirstSeen(xs[..|xs| - 1]);
      if xs[|xs| - 1] in prev then prev else prev + [xs[|xs| - 1]]
  }

  lemma FirstSeenSnoc<T>(xs: seq<T>, y: T)
    ensures FirstSeen(xs + [y]) == if y in FirstSeen(xs) then FirstSeen(xs) else FirstSeen(xs) + [y]
  {
    assert (xs + [y])[..|xs|] == xs;
  }

  /**
   * `FirstSeen(xs)` holds exactly the elements of `xs`, each once, ordered by
   * the position of their first occurrence in `xs`.
   */
  lemma {:induction false} FirstSeenSpec<T>(xs: seq<T>)
    ensures forall x :: x in FirstSeen(xs) <==> x in xs
    ensures forall i, j :: 0 <= i < j < |FirstSeen(xs)| ==> FirstSeen(xs)[i] != FirstSeen(xs)[j]
    ensures forall i, j :: 0 <= i < j < |FirstSeen(xs)| ==>
              FirstIndex(xs, FirstSeen(xs)[i]) < FirstIndex(xs, FirstSeen(xs)[j])
    decreases |xs|
  {
    if xs != [] {
      var init := xs[..|xs| - 1];
      var y := xs[|xs| - 1];
      assert xs == init + [y];
      FirstSeenSpec(init);
      var prev := FirstSeen(init);
      forall x | x in init {
        FirstIndexExtend(init, y, x);
      }
      if y !in prev {
        assert y !in init;
        assert FirstIndex(xs, y) == |init|;
      }
    }
  }

  /** The value of the last pair with key `k`. */
  function LastValue<K(==), V>(ps: seq<(K, V)>, k: K): Option<V>
    decreases |ps|
  {
    if ps == [] then None
    else if ps[|ps| - 1].0 == k then Some(ps[|ps| - 1].1)
    else LastValue(ps[..|ps| - 1], k)
  }

  /** The dict obtained by assigning the pairs, in order, into an empty dict. */
  function FromPairs<K(==,!new), V>(ps: seq<(K, V)>): (d: Dict<K, V>)
    ensures DistinctKeys(d)
    decreases |ps|
  {
    if ps == [] then []
    else Put(FromPairs(ps[..|ps| - 1]), ps[|ps| - 1].0, ps[|ps| - 1].1)
  }

  /** For a repeated key the last assignment wins. */
  lemma {:induction false} FromPairsLastWins<K(!new), V>(ps: seq<(K, V)>, k: K)
    ensures Get(FromPairs(ps), k) == LastValue(ps, k)
    decreases |ps|
  {
    if ps != [] {
      FromPairsLastWins(ps[..|ps| - 1], k);
    }
  }

  /** A key sits where it was first assigned: the keys are the first-seen keys of the pairs. */
  lemma {:induction false} FromPairsKeys<K(!new), V>(ps: seq<(K, V)>)
    ensures Keys(FromPairs(ps)) == FirstSeen(Keys(ps))
    decreases |ps|
  {
    if ps != [] {
      var init := ps[..|ps| - 1];
      var p := ps[|ps| - 1];
      FromPairsKeys(init);
      assert Keys(ps)[..|ps| - 1] == Keys(init);
      FindIffKey(FromPairs(init), p.0);
    }
  }

  /** Every pair of `d[k] = v` is the new pair or one of `d`. */
  lemma PutElements<K(!new), V>(d: Dict<K, V>, k: K, v: V, p: (K, V))
    requires DistinctKeys(d) && p in Put(d, k, v)
    ensures p == (k, v) || p in d
  {
    var r := Put(d, k, v);
    match Find(d, k)
    case None =>
      assert r == d + [(k, v)];
    case Some(j) =>
      assert r == d[j := (k, v)];
      var i :| 0 <= i < |r| && r[i] == p;
      if i != j {
        assert d[i] == p;
      }
  }

  /** Every pair of the dict built from `ps` is one of the pairs assigned. */
  lemma {:induction false} FromPairsElements<K(!new), V>(ps: seq<(K, V)>)
    ensures forall p :: p in FromPairs(ps) ==> p in ps
    decreases |ps|
  {
    if ps != [] {
      var init := ps[..|ps| - 1];
      FromPairsElements(init);
      forall p | p in FromPairs(ps) ensures p in ps {
        PutElements(FromPairs(init), ps[|ps| - 1].0, ps[|ps| - 1].1, p);
        if p in init {
          var j :| 0 <= j < |init| && init[j] == p;
          assert ps[j] == p;
        }
      }
    }
  }

  /** Assigning one more pair is one more `Put`. */
  lemma FromPairsSnoc<K(!new), V>(ps: seq<(K, V)>, p: (K, V))
    ensures FromPairs(ps + [p]) == Put(FromPairs(ps), p.0, p.1)
  {
    assert (ps + [p])[..|ps|] == ps;
  }
}
