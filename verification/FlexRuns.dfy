/** FlexBuffers: whole runs of the Builder, and the round trip through Finish and GetRoot. */
module FlexRuns {
  import opened Bytes
  import opened Padding
  import opened StringOrder
  import opened Sorting
  import opened FlexReading
  import opened FlexBuilder
  import opened FlexWidths
  import opened FlexWriting
  import opened FlexVectors

  // Keys

  /** Some NUL-terminated string is at p. */
  ghost predicate IsCString(m: bytes, p: nat) {
    exists k :: CStringAt(m, p, k)
  }

  /** The same NUL-terminated string is at p and at q. */
  ghost predicate SameKey(m: bytes, p: nat, q: nat) {
    exists k :: CStringAt(m, p, k) && CStringAt(m, q, k)
  }

  /** The pool has keys, each once. */
  ghost predicate PoolOk(m: bytes, pool: seq<nat>) {
    && (forall i | 0 <= i < |pool| :: IsCString(m, pool[i]))
    && (forall i, j | 0 <= i < j < |pool| :: !SameKey(m, pool[i], pool[j]))
  }

  /** The key k is in the pool, at p. */
  predicate PooledAt(m: bytes, pool: seq<nat>, k: bytes, p: nat) {
    p in pool && CStringAt(m, p, k)
  }

  ghost predicate Pooled(m: bytes, pool: seq<nat>, k: bytes) {
    exists p :: PooledAt(m, pool, k, p)
  }

  /** Appending leaves the string at p as it was. */
  lemma CStringSame(m: bytes, post: bytes, p: nat, k: bytes)
    requires IsCString(m, p)
    ensures CStringAt(m + post, p, k) <==> CStringAt(m, p, k)
  {
    hide CStringAt;
    var j :| CStringAt(m, p, j);
    CStringKept(m, post, p, j);
    if CStringAt(m + post, p, k) {
      CStringUnique(m + post, p, j, k);
    }
    if CStringAt(m, p, k) {
      CStringKept(m, post, p, k);
    }
  }

  lemma SameKeyKept(m: bytes, post: bytes, p: nat, q: nat)
    requires IsCString(m, p) && IsCString(m, q)
    ensures IsCString(m + post, p) && (SameKey(m + post, p, q) <==> SameKey(m, p, q))
  {
    hide CStringAt;
    var j :| CStringAt(m, p, j);
    CStringSame(m, post, p, j);
    if k :| CStringAt(m + post, p, k) && CStringAt(m + post, q, k) {
      CStringSame(m, post, p, k);
      CStringSame(m, post, q, k);
    }
    if k :| CStringAt(m, p, k) && CStringAt(m, q, k) {
      CStringSame(m, post, p, k);
      CStringSame(m, post, q, k);
    }
  }

  lemma PoolKept(m: bytes, post: bytes, pool: seq<nat>)
    requires PoolOk(m, pool)
    ensures PoolOk(m + post, pool)
  {
    hide SameKey, IsCString;
    forall i, j | 0 <= i < |pool| && 0 <= j < |pool|
      ensures IsCString(m + post, pool[i]) && (SameKey(m + post, pool[i], pool[j]) <==> SameKey(m, pool[i], pool[j]))
    {
      SameKeyKept(m, post, pool[i], pool[j]);
    }
  }

  lemma PooledGrows(m: bytes, pool: seq<nat>, m': bytes, pool': seq<nat>, k: bytes, p: nat)
    requires PooledAt(m, pool, k, p) && m <= m' && pool <= pool'
    ensures PooledAt(m', pool', k, p)
  {
    hide CStringAt;
    assert m' == m + m'[|m|..] && pool' == pool + pool'[|pool|..];
    CStringKept(m, m'[|m|..], p, k);
  }

  lemma OnePooled(m: bytes, pool: seq<nat>, k: bytes, p: nat, q: nat)
    requires PoolOk(m, pool) && PooledAt(m, pool, k, p) && PooledAt(m, pool, k, q)
    ensures p == q
  {
    hide CStringAt;
    var i :| 0 <= i < |pool| && pool[i] == p;
    var j :| 0 <= j < |pool| && pool[j] == q;
    assert SameKey(m, p, q) && SameKey(m, q, p);
  }

  /** The search for a key just written finds the pooled key that is the same, if there is one. */
  lemma {:induction false} FindKeyFinds(m: bytes, pool: seq<nat>, k: bytes, r: Option<nat>)
    requires PoolOk(m, pool) && NulFree(k)
    requires r == FindKey(m + k + [0], pool, |m|)
    ensures r.Some? ==> PooledAt(m, pool, k, r.value)
    ensures r.None? ==> !Pooled(m, pool, k)
    decreases |pool|
  {
    hide CStringAt, SameKey, IsCString;
    if pool != [] {
      SameAsWritten(m, pool[0], k);
      if StrCmp(m + k + [0], pool[0], m + k + [0], |m|) != 0 {
        var rest := pool[1..];
        assert forall i | 0 <= i < |rest| :: rest[i] == pool[i + 1];
        FindKeyFinds(m, rest, k, r);
        forall p
          ensures PooledAt(m, pool, k, p) ==> PooledAt(m, rest, k, p)
        {
          assert pool == [pool[0]] + rest;
        }
      }
    }
  }

  /** strcmp against a key just written tells whether it is that key. */
  lemma SameAsWritten(m: bytes, p: nat, k: bytes)
    requires IsCString(m, p) && NulFree(k)
    ensures StrCmp(m + k + [0], p, m + k + [0], |m|) == 0 <==> CStringAt(m, p, k)
  {
    hide CStringAt;
    var j :| CStringAt(m, p, j);
    NewKey(m, k);
    ConcatAssoc(m, k, [0]);
    CStringKept(m, k + [0], p, j);
    StrCmpOrder(m + k + [0], p, j, m + k + [0], |m|, k);
    if CStringAt(m, p, k) {
      CStringUnique(m, p, j, k);
    }
  }

  lemma NewKey(m: bytes, k: bytes)
    requires NulFree(k)
    ensures CStringAt(m + k + [0], |m|, k)
  {}

  /** A key that is in the pool is taken from there and leaves the buffer as it was. Otherwise it is
    * written, and recorded when keys are shared. */
  lemma PushKeyExact(st: State, k: bytes, r: State)
    requires NulFree(k) && PoolOk(st.buf, st.keyPool) && r == PushKey(st, k)
    ensures r.stack == st.stack + [r.stack[|st.stack|]]
    ensures var v := r.stack[|st.stack|];
            && r == st.(buf := r.buf, keyPool := r.keyPool, stack := r.stack)
            && v == Value(v.u, FBT_KEY, 0)
            && if st.shareKeys && Pooled(st.buf, st.keyPool, k)
               then PooledAt(st.buf, st.keyPool, k, v.u) && r.buf == st.buf && r.keyPool == st.keyPool
               else v.u == |st.buf| && r.buf == st.buf + k + [0]
                    && r.keyPool == if st.shareKeys then st.keyPool + [v.u] else st.keyPool
  {
    hide CStringAt, PoolOk, IsCString, PooledAt, FindKey;
    FindKeyFinds(st.buf, st.keyPool, k, FindKey(st.buf + k + [0], st.keyPool, |st.buf|));
  }

  lemma PushKeyHolds(st: State, k: bytes, r: State)
    requires NulFree(k) && PoolOk(st.buf, st.keyPool)
    requires r == PushKey(st, k)
    ensures r.stack == st.stack + [r.stack[|st.stack|]] && Holds(r.buf, r.stack[|st.stack|], Key(k))
    ensures PoolOk(r.buf, r.keyPool) && st.buf <= r.buf && r.hasDuplicateKeys == st.hasDuplicateKeys
  {
    hide CStringAt, PoolOk, IsCString, Pooled, PushKey;
    PushKeyExact(st, k, r);
    NewKey(st.buf, k);
    ConcatAssoc(st.buf, k, [0]);
    PoolKept(st.buf, k + [0], st.keyPool);
    if st.shareKeys && !Pooled(st.buf, st.keyPool, k) {
      PoolAdd(st.buf, k, st.keyPool);
    }
  }

  lemma PoolAdd(m: bytes, k: bytes, pool: seq<nat>)
    requires PoolOk(m, pool) && NulFree(k) && !Pooled(m, pool, k)
    ensures PoolOk(m + k + [0], pool + [|m|])
  {
    hide CStringAt, SameKey, IsCString;
    var buf := m + k + [0];
    NewKey(m, k);
    ConcatAssoc(m, k, [0]);
    PoolKept(m, k + [0], pool);
    WrittenIsKey(m, k);
    forall i | 0 <= i < |pool|
      ensures !SameKey(buf, pool[i], |m|)
    {
      assert !PooledAt(m, pool, k, pool[i]);
      NewIsOther(m, pool[i], k);
    }
  }

  lemma WrittenIsKey(m: bytes, k: bytes)
    requires NulFree(k)
    ensures IsCString(m + k + [0], |m|)
  {
    NewKey(m, k);
  }

  lemma NewIsOther(m: bytes, p: nat, k: bytes)
    requires IsCString(m, p) && NulFree(k) && !CStringAt(m, p, k)
    ensures !SameKey(m + k + [0], p, |m|)
  {
    hide CStringAt;
    NewKey(m, k);
    ConcatAssoc(m, k, [0]);
    if j :| CStringAt(m + k + [0], p, j) && CStringAt(m + k + [0], |m|, j) {
      CStringUnique(m + k + [0], |m|, j, k);
      CStringSame(m, k + [0], p, k);
    }
  }

  lemma SizeWrittenAt(a: bytes, n: nat, b: nat, post: bytes, m: bytes)
    requires n < Pow256(b) && m == a + Encode(n, b) + post
    ensures SizeIs(m, |a| + b, b, n)
  {
    hide Encode;
    ReadWritten(a, n, b, post);
  }

  lemma StringWritten(a: bytes, s: bytes, b: nat, m: bytes)
    requires |s| < Pow256(b) && m == a + Encode(|s|, b) + s + [0]
    ensures StringAt(m, |a| + b, b, s)
  {
    hide Encode, SizeIs;
    var e := Encode(|s|, b);
    ConcatAssoc(a + e, s, [0]);
    SizeWrittenAt(a, |s|, b, s + [0], m);
    StringBehind(a + e, s, m);
  }

  lemma StringBehind(c: bytes, s: bytes, m: bytes)
    requires m == c + s + [0]
    ensures m[|c|..|c| + |s|] == s && m[|c| + |s|] == 0
  {}

  lemma PushStringHolds(st: State, s: bytes, r: State)
    requires r == PushString(st, s) && |r.buf| < TWO64
    ensures r.stack == st.stack + [r.stack[|st.stack|]] && Holds(r.buf, r.stack[|st.stack|], Str(s))
    ensures st.buf <= r.buf
  {
    hide PaddingBytes, Encode, WidthU, StringAt;
    var w := WidthU(|s|);
    WidthUBound(|s|, w);
    StringWritten(Align(st.buf, w), s, ByteWidth(w), r.buf);
  }

  // The Builder as a stack machine.

  datatype Command =
    | Scalar(x: Tree)
    | AddKey(k: bytes)
    | AddString(s: bytes)
    | CloseVector(start: nat)
    | CloseMap(start: nat, order: seq<nat>)
    | SetMinimumWidth(w: BitWidth)

  /** The caller's side of the contract: ranges of the argument types, and matched starts. */
  predicate Able(st: State, c: Command) {
    match c
    case Scalar(x) => IsScalar(x) && (x.Int? ==> -TWO63 <= x.i < TWO63) && (x.UInt? ==> x.u < TWO64)
    case AddKey(k) => NulFree(k)
    case AddString(s) => true
    case CloseVector(start) => start <= |st.stack|
    case CloseMap(start, order) => start <= |st.stack| && Sorts(st.buf, st.stack[start..], order)
    case SetMinimumWidth(w) => true
  }

  function Execute(st: State, c: Command): State
    requires Able(st, c)
  {
    match c
    case Scalar(Null) => PushNull(st)
    case Scalar(Bool(b)) => PushBool(st, b)
    case Scalar(Int(i)) => PushInt(st, i)
    case Scalar(UInt(u)) => PushUInt(st, u)
    case Scalar(_) => st
    case AddKey(k) => PushKey(st, k)
    case AddString(s) => PushString(st, s)
    case CloseVector(start) => EndVector(st, start)
    case CloseMap(start, order) => EndMap(st, start, order)
    case SetMinimumWidth(w) => st.(forceMinWidth := w)
  }

  datatype Outcome = Done(st: State) | AssertionFailed | OutOfMemory

  function Run(st: State, cmds: seq<Command>): Outcome
    decreases |cmds|
  {
    if cmds == [] then Done(st)
    else if !Able(st, cmds[0]) then AssertionFailed
    else
      var st' := Execute(st, cmds[0]);
      if Small(st'.buf, |st'.stack|) then Run(st', cmds[1..]) else OutOfMemory
  }

  // What a run means, on trees.

  function KeysOf(pairs: seq<Tree>, order: seq<nat>): (ks: seq<bytes>)
    requires KeyValuePairs(pairs) && IsOrder(order, |pairs| / 2)
    ensures |ks| == |order|
  {
    seq(|order|, j requires 0 <= j < |order| => assert order[j] < |pairs| / 2; pairs[2 * order[j]].k)
  }

  function ValuesOf(pairs: seq<Tree>, order: seq<nat>): (xs: seq<Tree>)
    requires KeyValuePairs(pairs) && IsOrder(order, |pairs| / 2)
    ensures |xs| == |order|
  {
    seq(|order|, j requires 0 <= j < |order| => assert order[j] < |pairs| / 2; pairs[2 * order[j] + 1])
  }

  predicate KeyValuePairs(pairs: seq<Tree>) {
    |pairs| % 2 == 0 && forall i | 0 <= i < |pairs| / 2 :: pairs[2 * i].Key?
  }

  predicate Meaningful(xs: seq<Tree>, c: Command) {
    match c
    case Scalar(x) => IsScalar(x) && (x.Int? ==> -TWO63 <= x.i < TWO63) && (x.UInt? ==> x.u < TWO64)
    case AddKey(k) => NulFree(k)
    case AddString(s) => true
    case CloseVector(start) => start <= |xs|
    case CloseMap(start, order) =>
      && start <= |xs| && KeyValuePairs(xs[start..])
      && IsOrder(order, |xs[start..]| / 2) && SortedKeys(KeysOf(xs[start..], order))
    case SetMinimumWidth(w) => true
  }

  function Means(xs: seq<Tree>, c: Command): seq<Tree>
    requires Meaningful(xs, c)
  {
    match c
    case Scalar(x) => xs + [x]
    case AddKey(k) => xs + [Tree.Key(k)]
    case AddString(s) => xs + [Tree.Str(s)]
    case CloseVector(start) => xs[..start] + [Tree.Vec(xs[start..])]
    case CloseMap(start, order) => xs[..start] + [Tree.Map(KeysOf(xs[start..], order), ValuesOf(xs[start..], order))]
    case SetMinimumWidth(w) => xs
  }

  function Meaning(xs: seq<Tree>, cmds: seq<Command>): Option<seq<Tree>>
    decreases |cmds|
  {
    if cmds == [] then Some(xs)
    else if Meaningful(xs, cmds[0]) then Meaning(Means(xs, cmds[0]), cmds[1..])
    else None
  }

  // Every step keeps what the stack stands for.

  ghost predicate Inv(st: State, xs: seq<Tree>) {
    && AllHold(st.buf, st.stack, xs) && PoolOk(st.buf, st.keyPool)
    && (st.hasDuplicateKeys <==> !AllMapsDistinct(xs))
  }

  /** No map within x has a key twice. */
  predicate MapsDistinct(x: Tree) {
    match x
    case Vec(elems) => forall i | 0 <= i < |elems| :: MapsDistinct(elems[i])
    case Map(keys, vals) => Distinct(keys) && forall i | 0 <= i < |vals| :: MapsDistinct(vals[i])
    case _ => true
  }

  predicate AllMapsDistinct(xs: seq<Tree>) {
    forall i | 0 <= i < |xs| :: MapsDistinct(xs[i])
  }

  lemma DistinctConcat(xs: seq<Tree>, ys: seq<Tree>)
    ensures AllMapsDistinct(xs + ys) <==> AllMapsDistinct(xs) && AllMapsDistinct(ys)
  {
    hide MapsDistinct;
    var zs := xs + ys;
    assert forall i | 0 <= i < |xs| :: xs[i] == zs[i];
    assert forall i | 0 <= i < |ys| :: ys[i] == zs[|xs| + i];
  }

  lemma DistinctOne(x: Tree)
    ensures AllMapsDistinct([x]) <==> MapsDistinct(x)
  {
    hide MapsDistinct;
    assert [x][0] == x;
  }

  lemma DistinctSplit(xs: seq<Tree>, start: nat)
    requires start <= |xs|
    ensures AllMapsDistinct(xs) <==> AllMapsDistinct(xs[..start]) && AllMapsDistinct(xs[start..])
  {
    hide AllMapsDistinct;
    assert xs == xs[..start] + xs[start..];
    DistinctConcat(xs[..start], xs[start..]);
  }

  lemma ValuesDistinct(pairs: seq<Tree>, order: seq<nat>)
    requires KeyValuePairs(pairs) && IsOrder(order, |pairs| / 2)
    ensures AllMapsDistinct(ValuesOf(pairs, order)) <==> AllMapsDistinct(pairs)
  {
    if AllMapsDistinct(ValuesOf(pairs, order)) {
      forall i | 0 <= i < |pairs|
        ensures MapsDistinct(pairs[i])
      {
        if i % 2 == 1 {
          assert i / 2 in order;
          var j :| 0 <= j < |order| && order[j] == i / 2;
          assert MapsDistinct(ValuesOf(pairs, order)[j]);
        } else {
          assert pairs[2 * (i / 2)].Key?;
        }
      }
    }
  }

  lemma DistinctMap(xs: seq<Tree>, start: nat, order: seq<nat>)
    requires Meaningful(xs, CloseMap(start, order))
    ensures AllMapsDistinct(Means(xs, CloseMap(start, order)))
            <==> AllMapsDistinct(xs) && Distinct(KeysOf(xs[start..], order))
  {
    hide AllMapsDistinct, KeysOf, ValuesOf, IsOrder, SortedKeys, KeyValuePairs, Distinct;
    var x := Map(KeysOf(xs[start..], order), ValuesOf(xs[start..], order));
    DistinctSplit(xs, start);
    DistinctConcat(xs[..start], [x]);
    DistinctOne(x);
    ValuesDistinct(xs[start..], order);
    MapDistinct(x.keys, x.vals);
  }

  lemma MapDistinct(keys: seq<bytes>, vals: seq<Tree>)
    ensures MapsDistinct(Map(keys, vals)) <==> Distinct(keys) && AllMapsDistinct(vals)
  {}

  lemma DistinctVector(xs: seq<Tree>, start: nat)
    requires start <= |xs|
    ensures AllMapsDistinct(xs[..start] + [Vec(xs[start..])]) <==> AllMapsDistinct(xs)
  {
    hide AllMapsDistinct;
    var x := Vec(xs[start..]);
    DistinctSplit(xs, start);
    DistinctConcat(xs[..start], [x]);
    DistinctOne(x);
    VecDistinct(xs[start..]);
  }

  lemma VecDistinct(elems: seq<Tree>)
    ensures MapsDistinct(Vec(elems)) <==> AllMapsDistinct(elems)
  {}

  /** The sort meets two equal keys exactly when the keys of the map are not distinct. */
  lemma EqualAsMeant(buf: bytes, vals: seq<Value>, keys: seq<bytes>)
    requires AllHold(buf, vals, KeyTrees(keys))
    ensures EqualKeys(buf, vals) <==> !Distinct(keys)
  {
    hide StrCmp, CStringAt, Holds;
    forall j | 0 <= j < |keys|
      ensures CStringAt(buf, vals[j].u, keys[j])
    {
      KeyHolds(buf, vals[j], KeyTrees(keys)[j]);
    }
    EqualStrings(buf, vals, keys);
  }

  lemma EqualStrings(buf: bytes, vals: seq<Value>, keys: seq<bytes>)
    requires |vals| == |keys| && forall j | 0 <= j < |keys| :: CStringAt(buf, vals[j].u, keys[j])
    ensures EqualKeys(buf, vals) <==> !Distinct(keys)
  {
    hide StrCmp, CStringAt;
    forall j, k | 0 <= j < k < |keys|
      ensures StrCmp(buf, vals[j].u, buf, vals[k].u) == 0 <==> keys[j] == keys[k]
    {
      StrCmpOrder(buf, vals[j].u, keys[j], buf, vals[k].u, keys[k]);
    }
  }

  lemma PickedHold(st: State, xs: seq<Tree>, start: nat, order: seq<nat>)
    requires AllHold(st.buf, st.stack, xs) && start <= |xs| && KeyValuePairs(xs[start..])
    requires IsOrder(order, |xs[start..]| / 2)
    ensures |st.stack| == |xs|
    ensures var pairs := st.stack[start..];
            && AllHold(st.buf, Picked(pairs, order, 0), KeyTrees(KeysOf(xs[start..], order)))
            && AllHold(st.buf, Picked(pairs, order, 1), ValuesOf(xs[start..], order))
  {
    hide Holds, SortedKeys;
    var pairs, ts := st.stack[start..], xs[start..];
    var keys := KeysOf(ts, order);
    forall j | 0 <= j < |order|
      ensures Holds(st.buf, Picked(pairs, order, 0)[j], KeyTrees(keys)[j])
      ensures Holds(st.buf, Picked(pairs, order, 1)[j], ValuesOf(ts, order)[j])
    {
      var i := order[j];
      assert i < |ts| / 2;
      assert Holds(st.buf, st.stack[start + 2 * i], xs[start + 2 * i]);
      assert Holds(st.buf, st.stack[start + 2 * i + 1], xs[start + 2 * i + 1]);
      assert ts[2 * i].Key?;
    }
  }

  /** The possible results of the sort in the buffer are exactly the orders that sort the keys. */
  lemma SortsAsMeant(buf: bytes, pairs: seq<Value>, order: seq<nat>, keys: seq<bytes>)
    requires |pairs| % 2 == 0 && IsOrder(order, |pairs| / 2)
    requires AllHold(buf, Picked(pairs, order, 0), KeyTrees(keys))
    ensures Sorts(buf, pairs, order) <==> SortedKeys(keys)
  {
    hide IsOrder, StrCmp, CStringAt, Picked, Holds, StringLessThan;
    var vals := Picked(pairs, order, 0);
    forall j | 0 <= j < |keys|
      ensures vals[j].t == FBT_KEY && CStringAt(buf, vals[j].u, keys[j])
    {
      KeyHolds(buf, vals[j], KeyTrees(keys)[j]);
    }
    forall j, k | 0 <= j < k < |keys|
      ensures StrCmp(buf, vals[j].u, buf, vals[k].u) <= 0 <==> !StringLessThan(keys[k], keys[j])
    {
      StrCmpOrder(buf, vals[j].u, keys[j], buf, vals[k].u, keys[k]);
    }
  }

  /** However the sort comes out, the map closed with its order is one that is meant: its keys are sorted. */
  lemma AnySortIsMeant(st: State, xs: seq<Tree>, start: nat, order: seq<nat>)
    requires Inv(st, xs) && start <= |xs| && KeyValuePairs(xs[start..])
    requires |st.stack| == |xs| && Sorts(st.buf, st.stack[start..], order)
    ensures Meaningful(xs, CloseMap(start, order))
  {
    hide Holds, PoolOk, StrCmp, KeyTrees, Picked, AllMapsDistinct;
    PickedHold(st, xs, start, order);
    SortsAsMeant(st.buf, st.stack[start..], order, KeysOf(xs[start..], order));
  }

  lemma KeyHolds(buf: bytes, v: Value, x: Tree)
    requires Holds(buf, v, x) && x.Key?
    ensures v.t == FBT_KEY && CStringAt(buf, v.u, x.k)
  {}

  lemma EndVectorKeeps(st: State, xs: seq<Tree>, start: nat, r: State)
    requires Inv(st, xs) && start <= |st.stack| && Small(st.buf, |st.stack|)
    requires r == EndVector(st, start)
    ensures Inv(r, xs[..start] + [Vec(xs[start..])]) && st.buf <= r.buf
  {
    hide Holds, CreateVector, PoolOk;
    var (m, v) := CreateVector(st, st.stack[start..], 1, false, None);
    CreateVectorHolds(st, st.stack[start..], xs[start..], m, v);
    DistinctVector(xs, start);
    Replaced(st, xs, start, v, Vec(xs[start..]), r);
  }

  /** The elements from start on are replaced by one new value, after bytes were appended. */
  lemma Replaced(st: State, xs: seq<Tree>, start: nat, v: Value, x: Tree, r: State)
    requires Inv(st, xs) && start <= |st.stack| && st.buf <= r.buf
    requires r.stack == st.stack[..start] + [v] && r.keyPool == st.keyPool && Holds(r.buf, v, x)
    requires r.hasDuplicateKeys <==> !AllMapsDistinct(xs[..start] + [x])
    ensures Inv(r, xs[..start] + [x])
  {
    hide Holds, PoolOk, AllMapsDistinct;
    var post := r.buf[|st.buf|..];
    assert r.buf == st.buf + post;
    AllHoldKept(st.buf, post, st.stack, xs);
    PoolKept(st.buf, post, st.keyPool);
  }

  /** The sort can come out as the trees say, and with that order the map is what is written. */
  lemma EndMapKeeps(st: State, xs: seq<Tree>, start: nat, order: seq<nat>)
    requires Inv(st, xs) && Meaningful(xs, CloseMap(start, order)) && Small(st.buf, |st.stack|)
    ensures Able(st, CloseMap(start, order))
    ensures var r := EndMap(st, start, order);
            st.buf <= r.buf && (|r.buf| < TWO63 ==> Inv(r, Means(xs, CloseMap(start, order))))
  {
    hide Holds, Sorts, PoolOk, KeyTrees, CreateVector, Picked, IsOrder, KeysOf, ValuesOf, SortedKeys;
    hide AllMapsDistinct, EqualKeys, Distinct;
    var pairs, ts := st.stack[start..], xs[start..];
    var keys, vals := KeysOf(ts, order), ValuesOf(ts, order);
    PickedHold(st, xs, start, order);
    SortsAsMeant(st.buf, pairs, order, keys);
    OrderLength(order, |pairs| / 2);
    var ks, vs := Picked(pairs, order, 0), Picked(pairs, order, 1);
    var (m, kv) := CreateVector(st, ks, 2, true, None);
    CreateKeysHolds(st, ks, keys, m, kv);
    var st' := st.(buf := m);
    var (m', v) := CreateVector(st', vs, 2, false, Some(kv));
    CreateVectorGrows(st', vs, 2, false, Some(kv), m');
    if |m'| < TWO63 {
      assert m == st.buf + m[|st.buf|..];
      AllHoldKept(st.buf, m[|st.buf|..], vs, vals);
      CreateMapHolds(st', vs, kv, keys, vals, m', v);
      DistinctMap(xs, start, order);
      EqualAsMeant(st.buf, ks, keys);
      Replaced(st, xs, start, v, Map(keys, vals), EndMap(st, start, order));
    }
  }

  lemma CreateVectorGrows(st: State, vals: seq<Value>, step: nat, typed: bool, keys: Option<Value>, m: bytes)
    requires m == CreateVector(st, vals, step, typed, keys).0
    ensures st.buf <= m
  {
    hide PaddingBytes, ElemBytes, TypeBytes, VectorHeader, VectorWidth;
  }

  lemma Pushed(st: State, xs: seq<Tree>, v: Value, x: Tree, r: State)
    requires Inv(st, xs) && st.buf <= r.buf && PoolOk(r.buf, r.keyPool)
    requires r.stack == st.stack + [v] && Holds(r.buf, v, x)
    requires r.hasDuplicateKeys == st.hasDuplicateKeys && MapsDistinct(x)
    ensures Inv(r, xs + [x])
  {
    hide Holds, PoolOk, MapsDistinct;
    DistinctConcat(xs, [x]);
    DistinctOne(x);
    var post := r.buf[|st.buf|..];
    assert r.buf == st.buf + post;
    AllHoldKept(st.buf, post, st.stack, xs);
  }

  lemma StepKeeps(st: State, xs: seq<Tree>, c: Command)
    requires Inv(st, xs) && Meaningful(xs, c) && Small(st.buf, |st.stack|)
    ensures Able(st, c)
    ensures |Execute(st, c).buf| < TWO63 ==> Inv(Execute(st, c), Means(xs, c))
  {
    hide PoolOk, EndVector, EndMap, PushKey, PushString, Sorts, Holds, KeysOf, ValuesOf, AllHold;
    match c
    case Scalar(x) => ScalarKeeps(st, xs, x);
    case AddKey(k) =>
      var r := PushKey(st, k);
      PushKeyHolds(st, k, r);
      Pushed(st, xs, r.stack[|st.stack|], Tree.Key(k), r);
    case AddString(s) =>
      var r := PushString(st, s);
      if |r.buf| < TWO63 {
        StringKeeps(st, xs, s, r);
      }
    case CloseVector(start) =>
      SameLength(st, xs);
      EndVectorKeeps(st, xs, start, EndVector(st, start));
    case CloseMap(start, order) =>
      EndMapKeeps(st, xs, start, order);
    case SetMinimumWidth(w) =>
  }

  lemma SameLength(st: State, xs: seq<Tree>)
    requires Inv(st, xs)
    ensures |st.stack| == |xs|
  {}

  lemma StringKeeps(st: State, xs: seq<Tree>, s: bytes, r: State)
    requires Inv(st, xs) && r == PushString(st, s) && |r.buf| < TWO63
    ensures Inv(r, xs + [Tree.Str(s)])
  {
    hide PoolOk, Holds, AllHold, Encode, PaddingBytes;
    PushStringHolds(st, s, r);
    assert r.buf == st.buf + r.buf[|st.buf|..];
    PoolKept(st.buf, r.buf[|st.buf|..], st.keyPool);
    Pushed(st, xs, r.stack[|st.stack|], Tree.Str(s), r);
  }

  lemma ScalarKeeps(st: State, xs: seq<Tree>, x: Tree)
    requires Inv(st, xs) && Meaningful(xs, Scalar(x))
    ensures Inv(Execute(st, Scalar(x)), xs + [x])
  {
    hide PoolOk, AllHold, WidthI, WidthU;
    var r := Execute(st, Scalar(x));
    Pushed(st, xs, r.stack[|st.stack|], x, r);
  }

  /** Over every run whose commands are meaningful no assertion of the builder fails, and each value on
    * its stack stands for the tree it should, whatever widths were chosen and whichever keys shared. */
  lemma {:induction false} RunHolds(st: State, xs: seq<Tree>, cmds: seq<Command>)
    requires Inv(st, xs) && Small(st.buf, |st.stack|) && Meaning(xs, cmds).Some?
    ensures Run(st, cmds) != AssertionFailed
    ensures Run(st, cmds).Done? ==> Inv(Run(st, cmds).st, Meaning(xs, cmds).value)
    decreases |cmds|
  {
    hide Inv, Meaningful, Means, Able, Execute;
    if cmds != [] {
      var c := cmds[0];
      StepKeeps(st, xs, c);
      if Small(Execute(st, c).buf, |Execute(st, c).stack|) {
        RunHolds(Execute(st, c), Means(xs, c), cmds[1..]);
      }
    }
  }

  /** Buffer and pool only grow. */
  predicate Grows(st: State, r: State) {
    st.buf <= r.buf && st.keyPool <= r.keyPool && st.shareKeys == r.shareKeys
  }

  lemma StepGrows(st: State, xs: seq<Tree>, c: Command)
    requires Inv(st, xs) && Meaningful(xs, c) && Small(st.buf, |st.stack|)
    ensures Able(st, c) && Grows(st, Execute(st, c))
  {
    hide PoolOk, EndVector, EndMap, PushKey, Sorts, Holds, KeysOf, ValuesOf, AllHold, CreateVector, Encode,
         PaddingBytes, AllMapsDistinct, Pooled, PooledAt, WidthI, WidthU, KeyValuePairs, SortedKeys, IsOrder;
    StepKeeps(st, xs, c);
    match c
    case AddKey(k) => PushKeyExact(st, k, PushKey(st, k));
    case CloseVector(start) =>
      SameLength(st, xs);
      EndVectorKeeps(st, xs, start, EndVector(st, start));
      ClosedVector(st, start);
    case CloseMap(start, order) =>
      EndMapKeeps(st, xs, start, order);
      ClosedMap(st, start, order);
    case _ =>
  }

  lemma ClosedVector(st: State, start: nat)
    requires start <= |st.stack|
    ensures EndVector(st, start).keyPool == st.keyPool && EndVector(st, start).shareKeys == st.shareKeys
  {
    hide CreateVector;
  }

  lemma ClosedMap(st: State, start: nat, order: seq<nat>)
    requires start <= |st.stack| && Sorts(st.buf, st.stack[start..], order)
    ensures EndMap(st, start, order).keyPool == st.keyPool && EndMap(st, start, order).shareKeys == st.shareKeys
  {
    hide CreateVector, Sorts, EqualKeys, Picked;
    SortsPairs(st.buf, st.stack[start..], order);
  }

  lemma SortsPairs(buf: bytes, pairs: seq<Value>, order: seq<nat>)
    requires Sorts(buf, pairs, order)
    ensures |pairs| % 2 == 0 && IsOrder(order, |pairs| / 2)
  {}

  lemma {:induction false} RunGrows(st: State, xs: seq<Tree>, cmds: seq<Command>)
    requires Inv(st, xs) && Small(st.buf, |st.stack|) && Meaning(xs, cmds).Some?
    ensures Run(st, cmds).Done? ==> Grows(st, Run(st, cmds).st)
    decreases |cmds|
  {
    hide Inv, Meaningful, Means, Able, Execute;
    if cmds != [] {
      var c := cmds[0];
      StepGrows(st, xs, c);
      StepKeeps(st, xs, c);
      if Small(Execute(st, c).buf, |Execute(st, c).stack|) {
        RunGrows(Execute(st, c), Means(xs, c), cmds[1..]);
      }
    }
  }

  /** With shared keys, a key that was given once has the same offset when it is given again, whatever was
    * built in between. */
  lemma KeyAgain(st: State, xs: seq<Tree>, k: bytes, cmds: seq<Command>)
    requires Inv(st, xs) && st.shareKeys && NulFree(k) && Small(st.buf, |st.stack|)
    requires var r := PushKey(st, k);
             Small(r.buf, |r.stack|) && Meaning(xs + [Tree.Key(k)], cmds).Some? && Run(r, cmds).Done?
    ensures var r, later := PushKey(st, k), Run(PushKey(st, k), cmds).st;
            && |r.stack| == |st.stack| + 1
            && PushKey(later, k) == later.(stack := later.stack + [r.stack[|st.stack|]])
  {
    hide Inv, PushKey, Run, Meaning, PoolOk, CStringAt;
    var r := PushKey(st, k);
    var later := Run(r, cmds).st;
    StepKeeps(st, xs, AddKey(k));
    RunHolds(r, xs + [Tree.Key(k)], cmds);
    RunGrows(r, xs + [Tree.Key(k)], cmds);
    InvPool(st, xs);
    InvPool(later, Meaning(xs + [Tree.Key(k)], cmds).value);
    PushedIsPooled(st, k, r);
    var u := r.stack[|st.stack|].u;
    PooledGrows(r.buf, r.keyPool, later.buf, later.keyPool, k, u);
    PushKeyExact(later, k, PushKey(later, k));
    OnePooled(later.buf, later.keyPool, k, u, PushKey(later, k).stack[|later.stack|].u);
  }

  lemma PushedIsPooled(st: State, k: bytes, r: State)
    requires PoolOk(st.buf, st.keyPool) && st.shareKeys && NulFree(k) && r == PushKey(st, k)
    ensures |r.stack| == |st.stack| + 1 && r.shareKeys
    ensures var v := r.stack[|st.stack|]; v == Value(v.u, FBT_KEY, 0) && PooledAt(r.buf, r.keyPool, k, v.u)
  {
    hide PushKey, PoolOk, CStringAt, Pooled;
    PushKeyExact(st, k, r);
    NewKey(st.buf, k);
  }

  lemma InvPool(st: State, xs: seq<Tree>)
    requires Inv(st, xs)
    ensures PoolOk(st.buf, st.keyPool)
  {}
}
