/** Shared vocabulary: option and result types, bytes, and finite sums over
    sequences and maps. */
module Prelude {

  datatype Option<+T> = None | Some(value: T)

  datatype Result<+T, +E> = Ok(value: T) | Err(error: E)

  type byte = x: int | 0 <= x < 256

  /** The sum of `w` over a sequence. */
  ghost function Sum<T>(s: seq<T>, w: T -> int): int {
    if s == [] then 0 else w(s[0]) + Sum(s[1..], w)
  }

  lemma {:induction false} SumUpdate<T>(s: seq<T>, i: nat, x: T, w: T -> int)
    requires i < |s|
    ensures Sum(s[i := x], w) == Sum(s, w) - w(s[i]) + w(x)
  {
    if i == 0 {
      assert s[i := x][1..] == s[1..];
    } else {
      assert s[i := x][1..] == s[1..][i - 1 := x];
      SumUpdate(s[1..], i - 1, x, w);
    }
  }

  lemma {:induction false} SumAppend<T>(s: seq<T>, x: T, w: T -> int)
    ensures Sum(s + [x], w) == Sum(s, w) + w(x)
  {
    if s != [] {
      assert (s + [x])[1..] == s[1..] + [x];
      SumAppend(s[1..], x, w);
    } else {
      assert s + [x] == [x];
    }
  }

  /** Pointwise bounds carry over to the sum; one element is at most the sum
      of non-negative terms. */
  lemma {:induction false} SumBounds<T>(s: seq<T>, w: T -> int, hi: nat)
    requires forall x :: x in s ==> 0 <= w(x) <= hi
    ensures 0 <= Sum(s, w) <= hi * |s|
    ensures forall x :: x in s ==> w(x) <= Sum(s, w)
  {
    if s != [] {
      SumBounds(s[1..], w, hi);
      assert hi * |s| == hi + hi * |s[1..]|;
      forall x | x in s ensures w(x) <= Sum(s, w) {
        if x != s[0] { assert x in s[1..]; }
      }
    }
  }

  lemma {:induction false} SumLeq<T>(s: seq<T>, v: T -> int, w: T -> int)
    requires forall x :: x in s ==> v(x) <= w(x)
    ensures Sum(s, v) <= Sum(s, w)
  {
    if s != [] { SumLeq(s[1..], v, w); }
  }

  lemma RemoveOne<K, V>(m: map<K, V>, k: K)
    requires k in m
    ensures |m - {k}| == |m| - 1
  {
    assert m == (m - {k})[k := m[k]];
  }

  /** The sum of `w` over the values of a map. */
  ghost function MapSum<K, V>(m: map<K, V>, w: V -> int): int
    decreases |m|
  {
    if m == map[] then 0
    else
      var k :| k in m;
      w(m[k]) + MapSum(m - {k}, w)
  }

  lemma {:induction false} MapSumRemove<K, V>(m: map<K, V>, k: K, w: V -> int)
    requires k in m
    ensures MapSum(m, w) == w(m[k]) + MapSum(m - {k}, w)
    decreases |m|
  {
    var j :| j in m && MapSum(m, w) == w(m[j]) + MapSum(m - {j}, w);
    if j != k {
      MapSumRemove(m - {j}, k, w);
      MapSumRemove(m - {k}, j, w);
      assert m - {j} - {k} == m - {k} - {j};
    }
  }

  lemma {:induction false} MapSumUpdate<K, V>(m: map<K, V>, k: K, v: V, w: V -> int)
    ensures MapSum(m[k := v], w) == MapSum(m, w) - (if k in m then w(m[k]) else 0) + w(v)
  {
    MapSumRemove(m[k := v], k, w);
    assert m[k := v] - {k} == m - {k};
    if k in m {
      MapSumRemove(m, k, w);
    } else {
      assert m - {k} == m;
    }
  }
}
