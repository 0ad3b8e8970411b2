/**
 * The array operations the handlers are built from, over sequences of
 * records identified by a key: `filter` by key, `map` where the key
 * matches, `find`, and the uniqueness of keys that these preserve.
 */
module Collections {
  import opened Wrappers

  /** No two elements share a key. */
  ghost predicate DistinctKeys<T, K>(xs: seq<T>, key: T -> K) {
    forall i, j :: 0 <= i < j < |xs| ==> key(xs[i]) != key(xs[j])
  }

  /** Some element has key `k`. */
  ghost predicate HasKey<T, K>(xs: seq<T>, key: T -> K, k: K) {
    exists i :: 0 <= i < |xs| && key(xs[i]) == k
  }

  /** `xs.filter(x => key(x) !== k)`. */
  function RemoveWhere<T, K(==)>(xs: seq<T>, key: T -> K, k: K): (r: seq<T>)
    ensures |r| <= |xs|
    ensures forall i :: 0 <= i < |r| ==> r[i] in xs && key(r[i]) != k
    ensures forall i :: 0 <= i < |xs| && key(xs[i]) != k ==> xs[i] in r
  {
    if xs == [] then []
    else (if key(xs[0]) == k then [] else [xs[0]]) + RemoveWhere(xs[1..], key, k)
  }

  /** Filtering distributes over concatenation, so the kept elements stay in their order. */
  lemma {:induction false} RemoveWhereAppend<T, K>(a: seq<T>, b: seq<T>, key: T -> K, k: K)
    ensures RemoveWhere(a + b, key, k) == RemoveWhere(a, key, k) + RemoveWhere(b, key, k)
  {
    if a == [] {
      assert a + b == b;
    } else {
      assert (a + b)[1..] == a[1..] + b;
      RemoveWhereAppend(a[1..], b, key, k);
    }
  }

  /** Filtering out a key nobody has changes nothing. */
  lemma {:induction false} RemoveWhereAbsent<T, K>(xs: seq<T>, key: T -> K, k: K)
    requires forall i :: 0 <= i < |xs| ==> key(xs[i]) != k
    ensures RemoveWhere(xs, key, k) == xs
  {
    if xs != [] {
      RemoveWhereAbsent(xs[1..], key, k);
    }
  }

  /**
   * With distinct keys, filtering out the key of the element at `i` removes
   * exactly that element and keeps the others in order.
   */
  lemma RemoveWhereUnique<T, K>(xs: seq<T>, key: T -> K, i: int)
    requires DistinctKeys(xs, key) && 0 <= i < |xs|
    ensures RemoveWhere(xs, key, key(xs[i])) == xs[..i] + xs[i + 1..]
  {
    RemoveAt(xs, key, i);
  }

  /** Filtering out a key only the element at `i` has removes exactly that element. */
  lemma {:induction false} RemoveAt<T, K>(xs: seq<T>, key: T -> K, i: int)
    requires 0 <= i < |xs|
    requires forall j :: 0 <= j < |xs| && j != i ==> key(xs[j]) != key(xs[i])
    ensures RemoveWhere(xs, key, key(xs[i])) == xs[..i] + xs[i + 1..]
  {
    var k := key(xs[i]);
    var tail := xs[1..];
    if i == 0 {
      forall j | 0 <= j < |tail|
        ensures key(tail[j]) != k
      {
        assert tail[j] == xs[j + 1];
      }
      RemoveWhereAbsent(tail, key, k);
    } else {
      forall j | 0 <= j < |tail| && j != i - 1
        ensures key(tail[j]) != key(tail[i - 1])
      {
        assert tail[j] == xs[j + 1];
      }
      RemoveAt(tail, key, i - 1);
      assert xs[..i] == [xs[0]] + tail[..i - 1];
      assert xs[i + 1..] == tail[i..];
    }
  }

  /** Filtering by one key keeps any key that was distinct distinct. */
  lemma {:induction false} RemoveWhereKeepsDistinct<T, K, L>(xs: seq<T>, key: T -> K, k: K, other: T -> L)
    requires DistinctKeys(xs, other)
    ensures DistinctKeys(RemoveWhere(xs, key, k), other)
  {
    if xs != [] {
      RemoveWhereKeepsDistinct(xs[1..], key, k, other);
      var rest := RemoveWhere(xs[1..], key, k);
      forall j | 0 <= j < |rest|
        ensures other(rest[j]) != other(xs[0])
      {
        var m :| 0 <= m < |xs[1..]| && xs[1..][m] == rest[j];
        assert xs[1 + m] == rest[j];
      }
    }
  }

  /** `xs.map(x => key(x) === k ? f(x) : x)`. */
  function UpdateWhere<T, K(==)>(xs: seq<T>, key: T -> K, k: K, f: T -> T): (r: seq<T>)
    ensures |r| == |xs|
    ensures forall i :: 0 <= i < |xs| ==> r[i] == if key(xs[i]) == k then f(xs[i]) else xs[i]
  {
    if xs == [] then []
    else [if key(xs[0]) == k then f(xs[0]) else xs[0]] + UpdateWhere(xs[1..], key, k, f)
  }

  /** The index of the first element satisfying `p`, or -1: what `find` and `some` search for. */
  function FirstIndex<T>(xs: seq<T>, p: T -> bool): (r: int)
    ensures -1 <= r < |xs|
    ensures r == -1 <==> forall i :: 0 <= i < |xs| ==> !p(xs[i])
    ensures r >= 0 ==> p(xs[r]) && forall j :: 0 <= j < r ==> !p(xs[j])
  {
    if xs == [] then -1
    else if p(xs[0]) then 0
    else
      var k := FirstIndex(xs[1..], p);
      if k == -1 then -1 else k + 1
  }

  /** `xs.find(p)`: the first element satisfying `p`, if any. */
  function FindFirst<T>(xs: seq<T>, p: T -> bool): (r: Option<T>)
    ensures r.None? <==> forall i :: 0 <= i < |xs| ==> !p(xs[i])
    ensures r.Some? ==> p(r.value) && r.value in xs
    ensures forall i :: 0 <= i < |xs| && p(xs[i]) && (forall j :: 0 <= j < i ==> !p(xs[j])) ==> r == Some(xs[i])
  {
    var i := FirstIndex(xs, p);
    if i == -1 then None else Some(xs[i])
  }

  /** The first match in a concatenation is the first part's, else the second part's shifted. */
  lemma {:induction false} FirstIndexAppend<T>(a: seq<T>, b: seq<T>, p: T -> bool)
    ensures FirstIndex(a + b, p) ==
      if FirstIndex(a, p) >= 0 then FirstIndex(a, p)
      else if FirstIndex(b, p) >= 0 then |a| + FirstIndex(b, p)
      else -1
  {
    if a == [] {
      assert a + b == b;
    } else {
      assert (a + b)[1..] == a[1..] + b;
      FirstIndexAppend(a[1..], b, p);
    }
  }

  /** Searching a concatenation looks in the second part only when the first has no match. */
  lemma FindFirstAppend<T>(a: seq<T>, b: seq<T>, p: T -> bool)
    ensures FindFirst(a + b, p) == if FindFirst(a, p).Some? then FindFirst(a, p) else FindFirst(b, p)
  {
    FirstIndexAppend(a, b, p);
    var ia, ib := FirstIndex(a, p), FirstIndex(b, p);
    if ia >= 0 {
      assert (a + b)[ia] == a[ia];
    } else if ib >= 0 {
      assert (a + b)[|a| + ib] == b[ib];
    }
  }

  /** `xs.find(x => key(x) === k)`. */
  function FindByKey<T, K(==)>(xs: seq<T>, key: T -> K, k: K): (r: Option<T>)
    ensures r.None? <==> !HasKey(xs, key, k)
    ensures r.Some? ==> key(r.value) == k && r.value in xs
  {
    FindFirst(xs, x => key(x) == k)
  }

  /** With distinct keys, the element found for a key is the one at its index. */
  lemma FindByKeyUnique<T, K>(xs: seq<T>, key: T -> K, i: int)
    requires DistinctKeys(xs, key) && 0 <= i < |xs|
    ensures FindByKey(xs, key, key(xs[i])) == Some(xs[i])
  {
    var r := FindByKey(xs, key, key(xs[i]));
    var j :| 0 <= j < |xs| && xs[j] == r.value;
    assert j == i;
  }

  /** Appending an element whose key is new keeps keys distinct. */
  lemma AppendKeepsDistinct<T, K>(xs: seq<T>, key: T -> K, x: T)
    requires DistinctKeys(xs, key) && !HasKey(xs, key, key(x))
    ensures DistinctKeys(xs + [x], key)
  {
  }

  /** The keys of `[x] + xs` are `x`'s key and the keys of `xs`. */
  lemma HasKeyPrepend<T, K>(x: T, xs: seq<T>, key: T -> K)
    ensures forall k :: HasKey([x] + xs, key, k) <==> key(x) == k || HasKey(xs, key, k)
  {
    forall k
      ensures HasKey([x] + xs, key, k) <==> key(x) == k || HasKey(xs, key, k)
    {
      if HasKey([x] + xs, key, k) && key(x) != k {
        var i :| 0 <= i < |[x] + xs| && key(([x] + xs)[i]) == k;
        assert ([x] + xs)[i] == xs[i - 1];
      }
      if HasKey(xs, key, k) {
        var i :| 0 <= i < |xs| && key(xs[i]) == k;
        assert ([x] + xs)[i + 1] == xs[i];
      }
      if key(x) == k {
        assert ([x] + xs)[0] == x;
      }
    }
  }

  /** Prepending an element whose key is new keeps keys distinct. */
  lemma PrependKeepsDistinct<T, K>(xs: seq<T>, key: T -> K, x: T)
    requires DistinctKeys(xs, key) && !HasKey(xs, key, key(x))
    ensures DistinctKeys([x] + xs, key)
  {
    var ys := [x] + xs;
    forall i, j | 0 <= i < j < |ys|
      ensures key(ys[i]) != key(ys[j])
    {
      assert ys[j] == xs[j - 1];
      if i > 0 {
        assert ys[i] == xs[i - 1];
      }
    }
  }

  /** A map that keeps a key of every element keeps that key where it was, and distinct. */
  lemma UpdateWhereKeepsKeys<T, K, L>(xs: seq<T>, key: T -> K, k: K, f: T -> T, other: T -> L)
    requires forall x :: other(f(x)) == other(x)
    ensures forall i :: 0 <= i < |xs| ==> other(UpdateWhere(xs, key, k, f)[i]) == other(xs[i])
    ensures DistinctKeys(xs, other) ==> DistinctKeys(UpdateWhere(xs, key, k, f), other)
  {
  }

  /** Searching by key looks at the head first, then at the tail. */
  lemma {:induction false} FindByKeyCons<T, K>(xs: seq<T>, key: T -> K, k: K)
    requires xs != []
    ensures FindByKey(xs, key, k) == if key(xs[0]) == k then Some(xs[0]) else FindByKey(xs[1..], key, k)
  {
    if key(xs[0]) != k {
      var j := FirstIndex(xs[1..], x => key(x) == k);
      if j != -1 {
        assert xs[1..][j] == xs[j + 1];
      }
    }
  }

  /**
   * After a key-preserving map of the elements with key `k`, the element
   * found for `k` is the mapped version of the one found before.
   */
  lemma {:induction false} FindByKeyAfterUpdate<T, K>(xs: seq<T>, key: T -> K, k: K, f: T -> T)
    requires forall x :: key(f(x)) == key(x)
    ensures FindByKey(UpdateWhere(xs, key, k, f), key, k) ==
      if FindByKey(xs, key, k).Some? then Some(f(FindByKey(xs, key, k).value)) else None
  {
    var ys := UpdateWhere(xs, key, k, f);
    if xs != [] {
      FindByKeyCons(xs, key, k);
      FindByKeyCons(ys, key, k);
      assert ys[1..] == UpdateWhere(xs[1..], key, k, f);
      FindByKeyAfterUpdate(xs[1..], key, k, f);
    }
  }

  /** `xs.filter(p).length`, counted from the left as `reduce` does. */
  function Count<T>(xs: seq<T>, p: T -> bool): (r: nat)
    ensures r <= |xs|
    ensures r == 0 <==> forall i :: 0 <= i < |xs| ==> !p(xs[i])
    ensures |xs| == 1 ==> r == (if p(xs[0]) then 1 else 0)
  {
    if xs == [] then 0
    else
      var init := xs[..|xs| - 1];
      assert forall i :: 0 <= i < |init| ==> init[i] == xs[i];
      Count(init, p) + (if p(xs[|xs| - 1]) then 1 else 0)
  }

  /** Counting distributes over concatenation; with the one-element case this fixes the count. */
  lemma {:induction false} CountAppend<T>(a: seq<T>, b: seq<T>, p: T -> bool)
    ensures Count(a + b, p) == Count(a, p) + Count(b, p)
    decreases |b|
  {
    if b == [] {
      assert a + b == a;
    } else {
      var init := b[..|b| - 1];
      assert (a + b)[..|a + b| - 1] == a + init;
      assert (a + b)[|a + b| - 1] == b[|b| - 1];
      CountAppend(a, init, p);
    }
  }

  /** The positions of `xs` whose element satisfies `p`. */
  function MatchingIndices<T>(xs: seq<T>, p: T -> bool): set<int> {
    set i | 0 <= i < |xs| && p(xs[i])
  }

  /** The count is the number of positions whose element matches. */
  lemma {:induction false} CountIsMatchingIndices<T>(xs: seq<T>, p: T -> bool)
    ensures Count(xs, p) == |MatchingIndices(xs, p)|
    decreases |xs|
  {
    if xs != [] {
      var n := |xs| - 1;
      var init := xs[..n];
      CountIsMatchingIndices(init, p);
      var front := MatchingIndices(init, p);
      assert front == set i | 0 <= i < n && p(xs[i]);
      if p(xs[n]) {
        assert MatchingIndices(xs, p) == front + {n};
        assert n !in front;
      } else {
        assert MatchingIndices(xs, p) == front;
      }
    }
  }
}
