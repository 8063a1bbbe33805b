/** Orders of a list of keys: what a sort may make of it, insertion, and binary search. */
module Sorting {
  import opened Bytes
  import opened StringOrder

  /** order lists the numbers below n, each once. */
  predicate IsOrder(order: seq<nat>, n: nat) {
    && |order| == n
    && (forall j | 0 <= j < n :: order[j] < n)
    && (forall j, k | 0 <= j < k < n :: order[j] != order[k])
    && (forall i | 0 <= i < n :: i in order)
  }

  lemma OrderLength(order: seq<nat>, n: nat)
    requires IsOrder(order, n)
    ensures |order| == n
  {}

  /** No key is less than one before it. */
  predicate SortedKeys(keys: seq<bytes>) {
    forall j, k | 0 <= j < k < |keys| :: !StringLessThan(keys[k], keys[j])
  }

  function Identity(n: nat): (order: seq<nat>)
    ensures IsOrder(order, n)
  {
    var order := seq(n, i requires 0 <= i < n => i);
    CountsUp(order, n);
    order
  }

  lemma CountsUp(order: seq<nat>, n: nat)
    requires |order| == n && forall i | 0 <= i < n :: order[i] == i
    ensures IsOrder(order, n)
  {
    forall i | 0 <= i < n
      ensures i in order
    {
      assert order[i] == i;
    }
  }

  predicate Distinct(keys: seq<bytes>) {
    forall i, j | 0 <= i < j < |keys| :: keys[i] != keys[j]
  }

  lemma LessThenNotLess(a: bytes, b: bytes, c: bytes)
    requires StringLessThan(a, b) && (b == c || !StringLessThan(c, b))
    ensures StringLessThan(a, c)
  {
    hide StringLessThan;
    EquivalentIsEqual(b, c);
    if b != c {
      LessTransitive(a, b, c);
    }
  }

  lemma AboveAll(keys: seq<bytes>, key: bytes, mid: nat)
    requires SortedKeys(keys) && mid < |keys| && StringLessThan(key, keys[mid])
    ensures forall i | mid <= i < |keys| :: StringLessThan(key, keys[i])
  {
    hide StringLessThan;
    forall i | mid <= i < |keys|
      ensures StringLessThan(key, keys[i])
    {
      LessThenNotLess(key, keys[mid], keys[i]);
    }
  }

  lemma BelowAll(keys: seq<bytes>, key: bytes, mid: nat)
    requires SortedKeys(keys) && mid < |keys| && StringLessThan(keys[mid], key)
    ensures forall i | 0 <= i <= mid :: StringLessThan(keys[i], key)
  {
    hide StringLessThan;
    forall i | 0 <= i <= mid
      ensures StringLessThan(keys[i], key)
    {
      EquivalentIsEqual(keys[i], keys[mid]);
      if keys[i] != keys[mid] {
        LessTransitive(keys[i], keys[mid], key);
      }
    }
  }

  lemma NotAmong(keys: seq<bytes>, key: bytes, lo: nat)
    requires forall i | 0 <= i < |keys| :: if i < lo then StringLessThan(keys[i], key) else StringLessThan(key, keys[i])
    ensures key !in keys
  {
    EquivalentIsEqual(key, key);
  }

  function Nth(ks: seq<bytes>, i: nat): bytes {
    if i < |ks| then ks[i] else []
  }

  ghost predicate InOrder(ks: seq<bytes>, order: seq<nat>) {
    forall j, k | 0 <= j < k < |order| :: !StringLessThan(Nth(ks, order[k]), Nth(ks, order[j]))
  }

  lemma InsertedIsOrder(order: seq<nat>, i: nat, p: nat)
    requires IsOrder(order, i) && p <= i
    ensures IsOrder(order[..p] + [i] + order[p..], i + 1)
  {
    var r := order[..p] + [i] + order[p..];
    forall n | 0 <= n < i + 1
      ensures n in r
    {
      if n < i {
        assert n in order;
        var j :| 0 <= j < |order| && order[j] == n;
        assert r[if j < p then j else j + 1] == n;
      } else {
        assert r[p] == n;
      }
    }
  }

  lemma GreaterThanInserted(ks: seq<bytes>, order: seq<nat>, i: nat, p: nat, b: nat)
    requires i < |ks| && InOrder(ks, order) && p <= b < |order|
    requires StringLessThan(ks[i], Nth(ks, order[p]))
    ensures !StringLessThan(Nth(ks, order[b]), ks[i])
  {
    hide StringLessThan;
    LessThenNotLess(ks[i], Nth(ks, order[p]), Nth(ks, order[b]));
    EquivalentIsEqual(ks[i], Nth(ks, order[b]));
  }

  /** Inserting pair i before the first greater key keeps the order. */
  lemma Inserted(ks: seq<bytes>, order: seq<nat>, i: nat, p: nat)
    requires i < |ks| && IsOrder(order, i) && InOrder(ks, order) && p <= |order|
    requires forall a | 0 <= a < p :: !StringLessThan(ks[i], Nth(ks, order[a]))
    requires p < |order| ==> StringLessThan(ks[i], Nth(ks, order[p]))
    ensures IsOrder(order[..p] + [i] + order[p..], i + 1) && InOrder(ks, order[..p] + [i] + order[p..])
  {
    hide StringLessThan, IsOrder;
    OrderLength(order, i);
    InsertedIsOrder(order, i, p);
    forall b | p <= b < |order|
      ensures !StringLessThan(Nth(ks, order[b]), ks[i])
    {
      GreaterThanInserted(ks, order, i, p, b);
    }
    var r := order[..p] + [i] + order[p..];
    forall j, k | 0 <= j < k < |r|
      ensures !StringLessThan(Nth(ks, r[k]), Nth(ks, r[j]))
    {
      if j < p {
        assert r[j] == order[j];
      } else if j > p {
        assert r[j] == order[j - 1];
      }
      if k < p {
        assert r[k] == order[k];
      } else if k > p {
        assert r[k] == order[k - 1];
      }
    }
  }

  // An insertion sort, one of the sorts that std::sort may be.

  /** A comparison of the i-th key with the j-th tells whether it is less. */
  ghost predicate Compares(compare: (nat, nat) --> int, ks: seq<bytes>) {
    forall i: nat, j: nat | i < |ks| && j < |ks| ::
      compare.requires(i, j) && (compare(i, j) < 0 <==> StringLessThan(ks[i], ks[j]))
  }

  /** It also tells whether the keys are equal. */
  ghost predicate ComparesEqual(compare: (nat, nat) --> int, ks: seq<bytes>) {
    Compares(compare, ks) && forall i: nat, j: nat | i < |ks| && j < |ks| :: compare(i, j) == 0 <==> ks[i] == ks[j]
  }

  /** The first place whose key is greater than the i-th, and whether an equal one was met before it. */
  method FindPlace(compare: (nat, nat) --> int, sorted: seq<nat>, i: nat, ghost ks: seq<bytes>)
    returns (p: nat, equal: bool)
    requires Compares(compare, ks) && i < |ks| && IsOrder(sorted, i)
    ensures p <= |sorted|
    ensures forall a | 0 <= a < p :: !StringLessThan(ks[i], Nth(ks, sorted[a]))
    ensures p < |sorted| ==> StringLessThan(ks[i], Nth(ks, sorted[p]))
    ensures ComparesEqual(compare, ks) ==> (equal <==> exists a | 0 <= a < p :: Nth(ks, sorted[a]) == ks[i])
  {
    hide StringLessThan;
    p, equal := 0, false;
    while p < |sorted|
      invariant p <= |sorted|
      invariant forall a | 0 <= a < p :: !StringLessThan(ks[i], Nth(ks, sorted[a]))
      invariant ComparesEqual(compare, ks) ==> (equal <==> exists a | 0 <= a < p :: Nth(ks, sorted[a]) == ks[i])
    {
      var j := sorted[p];
      assert j < i;
      var comp := compare(i, j);
      if comp < 0 {
        return;
      }
      assert Nth(ks, sorted[p]) == ks[j];
      equal := equal || comp == 0;
      p := p + 1;
    }
  }

  /** An equal key among those inserted before is met before the first greater one. */
  lemma MetBefore(ks: seq<bytes>, order: seq<nat>, i: nat, p: nat)
    requires i < |ks| && IsOrder(order, i) && InOrder(ks, order) && p <= |order|
    requires p < |order| ==> StringLessThan(ks[i], Nth(ks, order[p]))
    ensures (exists a | 0 <= a < p :: Nth(ks, order[a]) == ks[i]) <==> ks[i] in ks[..i]
  {
    hide StringLessThan;
    if ks[i] in ks[..i] {
      var n :| 0 <= n < i && ks[n] == ks[i];
      assert n in order;
      var b :| 0 <= b < |order| && order[b] == n;
      if p <= b {
        LessThenNotLess(ks[i], Nth(ks, order[p]), Nth(ks, order[b]));
        EquivalentIsEqual(ks[i], ks[i]);
      }
      assert Nth(ks, order[b]) == ks[i];
    }
    if a :| 0 <= a < p && Nth(ks, order[a]) == ks[i] {
      assert ks[..i][order[a]] == ks[i];
    }
  }

  lemma DistinctGrows(ks: seq<bytes>, i: nat)
    requires i < |ks|
    ensures Distinct(ks[..i + 1]) <==> Distinct(ks[..i]) && ks[i] !in ks[..i]
  {
    var s, t := ks[..i], ks[..i + 1];
    assert forall j | 0 <= j < i :: s[j] == t[j];
    assert t[i] == ks[i];
  }

  /** Sorts the numbers of the keys, and tells whether two keys were found equal. */
  method InsertionSort(n: nat, compare: (nat, nat) --> int, ghost ks: seq<bytes>)
    returns (sorted: seq<nat>, equal: bool)
    requires n == |ks| && Compares(compare, ks)
    ensures IsOrder(sorted, n) && InOrder(ks, sorted)
    ensures ComparesEqual(compare, ks) ==> (equal <==> !Distinct(ks))
  {
    hide StringLessThan, InOrder, IsOrder, Distinct, Compares, ComparesEqual;
    sorted, equal := [], false;
    NothingSorted(ks);
    var i := 0;
    while i < n
      invariant i <= n && IsOrder(sorted, i) && InOrder(ks, sorted)
      invariant ComparesEqual(compare, ks) ==> (equal <==> !Distinct(ks[..i]))
    {
      var p, met := FindPlace(compare, sorted, i, ks);
      MetBefore(ks, sorted, i, p);
      DistinctGrows(ks, i);
      Inserted(ks, sorted, i, p);
      sorted := sorted[..p] + [i] + sorted[p..];
      equal := equal || met;
      i := i + 1;
    }
    assert ks[..n] == ks;
  }

  lemma NothingSorted(ks: seq<bytes>)
    ensures IsOrder([], 0) && InOrder(ks, []) && Distinct(ks[..0])
  {}
}
