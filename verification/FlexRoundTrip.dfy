/** FlexBuffers: Finish and GetRoot, the round trip of every tree, and lookup in maps. */
module FlexRoundTrip {
  import opened Bytes
  import opened Padding
  import opened StringOrder
  import opened Sorting
  import opened FlexReading
  import opened FlexBuilder
  import opened FlexWidths
  import opened FlexWriting
  import opened FlexVectors
  import opened FlexRuns
  import opened FlexSizes

  /** GetRoot, reading backwards from the end, finds what Finish wrote last. */
  lemma FinishReads(st: State, x: Tree, m: bytes)
    requires |st.stack| == 1 && Holds(st.buf, st.stack[0], x) && Small(st.buf, 1)
    requires m == Finish(st)
    ensures |m| >= 2 && Reads(m, GetRoot(m), x)
  {
    hide Holds, PaddingBytes, ElemWidth, AnyBytes, TypeByte, Fits, Reads;
    var v := st.stack[0];
    var n := |st.buf|;
    var w := ElemWidth(v, n, 0);
    var a := Align(st.buf, w);
    assert |a| == OffsetLoc(n, 0, w);
    HoldsInline(st.buf, v, x);
    ElementFits(v, n, 0, 0, w);
    var tail := AnyBytes(|a|, v, ByteWidth(w));
    assert m == a + tail + [TypeByte(v, 0)] + [ByteWidth(w)];
    assert m[|a|..|a| + ByteWidth(w)] == tail;
    assert m == st.buf + m[n..];
    HoldsKept(st.buf, m[n..], v, x);
    ValueReads(m, |a|, v, w, x);
    UnpackType(|a|, ByteWidth(w), v, 0);
    RootWidth(v, n, w);
  }

  /** The root's stored width does not depend on the width it was written with. */
  lemma RootWidth(v: Value, n: nat, w: BitWidth)
    requires w == ElemWidth(v, n, 0)
    ensures StoredWidth(v, w) == StoredWidth(v, 0)
  {
    hide TryWidths;
  }

  // A reference reads as one tree only.

  lemma KeysUnique(m: bytes, data: int, w: nat, j: seq<bytes>, k: seq<bytes>)
    requires KeysAt(m, data, w, j) && KeysAt(m, data, w, k)
    ensures j == k
  {
    hide CStringAt;
    forall i | 0 <= i < |j|
      ensures j[i] == k[i]
    {
      assert KeyAt(m, data + i * w, w, j[i]) && KeyAt(m, data + i * w, w, k[i]);
      KeyUnique(m, data + i * w, w, j[i], k[i]);
    }
  }

  lemma KeyUnique(m: bytes, p: int, w: nat, j: bytes, k: bytes)
    requires KeyAt(m, p, w, j) && KeyAt(m, p, w, k)
    ensures j == k
  {
    CStringUnique(m, Indirect(m, p, w), j, k);
  }

  lemma SizeUnique(m: bytes, data: int, w: nat, n: nat, n': nat)
    requires SizeIs(m, data, w, n) && SizeIs(m, data, w, n')
    ensures n == n'
  {}

  lemma StringUnique(m: bytes, data: int, w: nat, s: bytes, s': bytes)
    requires StringAt(m, data, w, s) && StringAt(m, data, w, s')
    ensures s == s'
  {
    SizeUnique(m, data, w, |s|, |s'|);
  }

  lemma {:induction false} ReadsUnique(m: bytes, r: Reference, x: Tree, y: Tree)
    requires Reads(m, r, x) && Reads(m, r, y)
    ensures x == y
    decreases x, 1
  {
    hide Located;
    if !IsScalar(x) {
      LocatedInside(m, Indirect(m, r.pos, r.parentWidth), r.byteWidth, r.t, x);
      assert !IsScalar(y);
      LocatedUnique(m, Indirect(m, r.pos, r.parentWidth), r.byteWidth, r.t, x, y);
    } else if !IsScalar(y) {
      LocatedInside(m, Indirect(m, r.pos, r.parentWidth), r.byteWidth, r.t, y);
    }
  }

  lemma {:induction false} LocatedUnique(m: bytes, data: int, w: nat, t: nat, x: Tree, y: Tree)
    requires Located(m, data, w, t, x) && Located(m, data, w, t, y)
    ensures x == y
    decreases x, 0
  {
    hide ElementReads, CStringAt, KeysAt, StringAt, SizeIs;
    LocatedInside(m, data, w, t, x);
    match x
    case Key(k) => CStringUnique(m, data, k, y.k);
    case Str(s) => StringUnique(m, data, w, s, y.s);
    case Vec(elems) =>
      SizeUnique(m, data, w, |elems|, |y.elems|);
      forall i | 0 <= i < |elems|
        ensures elems[i] == y.elems[i]
      {
        ElementUnique(m, data, w, |elems|, i, elems[i], y.elems[i]);
      }
    case Map(keys, vals) =>
      SizeUnique(m, data, w, |vals|, |y.vals|);
      KeysUnique(m, Indirect(m, data - 3 * w, w), ReadUInt64(m, data - 2 * w, w), keys, y.keys);
      forall i | 0 <= i < |vals|
        ensures vals[i] == y.vals[i]
      {
        ElementUnique(m, data, w, |vals|, i, vals[i], y.vals[i]);
      }
  }

  lemma {:induction false} ElementUnique(m: bytes, data: int, w: nat, n: nat, i: nat, x: Tree, y: Tree)
    requires ElementReads(m, data, w, n, i, x) && ElementReads(m, data, w, n, i, y)
    ensures x == y
    decreases x, 2
  {
    hide Reads;
    ReadsUnique(m, Unpack(data + i * w, w, m[data + n * w + i]), x, y);
  }

  // Every run.

  lemma EmptyInv()
    ensures Inv(EMPTY, [])
  {}

  /** Any run that leaves one value on the stack: once finished, the root reads as the tree it means
    * and as no other. A run whose cost is below 2^56 is sure to come to its end. */
  lemma RunRoundTrip(cmds: seq<Command>, x: Tree)
    requires Meaning([], cmds) == Option.Some([x])
    ensures Run(EMPTY, cmds) != AssertionFailed
    ensures Cost(cmds) < SPACE ==> Run(EMPTY, cmds).Done?
    ensures Run(EMPTY, cmds).Done? ==>
              var st := Run(EMPTY, cmds).st;
              && |st.stack| == 1 && (st.hasDuplicateKeys <==> !MapsDistinct(x))
              && var m := Finish(st);
                 |m| >= 2 && Reads(m, GetRoot(m), x) && forall y | Reads(m, GetRoot(m), y) :: y == x
  {
    hide Reads, Finish, Holds, Meaning, GetRoot, Cost;
    EmptyInv();
    RunHolds(EMPTY, [], cmds);
    if Cost(cmds) < SPACE {
      RunDone(EMPTY, cmds);
    }
    if Run(EMPTY, cmds).Done? {
      var st := Run(EMPTY, cmds).st;
      RunSmall(EMPTY, cmds);
      assert Holds(st.buf, st.stack[0], [x][0]);
      DistinctOne(x);
      var m := Finish(st);
      FinishReads(st, x, m);
      forall y | Reads(m, GetRoot(m), y)
        ensures y == x
      {
        ReadsUnique(m, GetRoot(m), x, y);
      }
    }
  }

  lemma {:induction false} RunSmall(st: State, cmds: seq<Command>)
    requires Small(st.buf, |st.stack|)
    ensures Run(st, cmds).Done? ==> Small(Run(st, cmds).st.buf, |Run(st, cmds).st.stack|)
    decreases |cmds|
  {
    hide Able, Execute;
    if cmds != [] && Able(st, cmds[0]) {
      var st' := Execute(st, cmds[0]);
      if Small(st'.buf, |st'.stack|) {
        RunSmall(st', cmds[1..]);
      }
    }
  }

  // Every tree.

  /** The trees that can be built: numbers of 64 bits, NUL-free keys, and maps sorted by key. */
  predicate WellFormed(x: Tree) {
    match x
    case Int(i) => -TWO63 <= i < TWO63
    case UInt(u) => u < TWO64
    case Key(k) => NulFree(k)
    case Vec(elems) => forall i | 0 <= i < |elems| :: WellFormed(elems[i])
    case Map(keys, vals) =>
      && |keys| == |vals| && SortedKeys(keys)
      && (forall i | 0 <= i < |keys| :: NulFree(keys[i]))
      && (forall i | 0 <= i < |vals| :: WellFormed(vals[i]))
    case _ => true
  }

  /** The calls that push x on top of base values. */
  function Pushes(x: Tree, base: nat): seq<Command>
    decreases x
  {
    match x
    case Key(k) => [AddKey(k)]
    case Str(s) => [AddString(s)]
    case Vec(elems) => PushAll(elems, base) + [CloseVector(base)]
    case Map(keys, vals) =>
      if |keys| != |vals| then []
      else PushPairs(keys, vals, base) + [CloseMap(base, Identity(|keys|))]
    case _ => [Scalar(x)]
  }

  function PushAll(xs: seq<Tree>, base: nat): seq<Command>
    decreases xs
  {
    if xs == [] then [] else Pushes(xs[0], base) + PushAll(xs[1..], base + 1)
  }

  function PushPairs(keys: seq<bytes>, vals: seq<Tree>, base: nat): seq<Command>
    requires |keys| == |vals|
    decreases vals
  {
    if vals == [] then []
    else [AddKey(keys[0])] + Pushes(vals[0], base + 1) + PushPairs(keys[1..], vals[1..], base + 2)
  }

  /** Keys and values in turn. */
  function KeyOrValue(keys: seq<bytes>, vals: seq<Tree>, i: nat): Tree
    requires i < 2 * |keys| == 2 * |vals|
  {
    if i % 2 == 0 then Tree.Key(keys[i / 2]) else vals[i / 2]
  }

  function Interleave(keys: seq<bytes>, vals: seq<Tree>): (s: seq<Tree>)
    requires |keys| == |vals|
    ensures |s| == 2 * |keys|
  {
    seq(2 * |keys|, i requires 0 <= i < 2 * |keys| => KeyOrValue(keys, vals, i))
  }

  lemma KeyOrValueNext(keys: seq<bytes>, vals: seq<Tree>, i: nat)
    requires |keys| == |vals| && 2 <= i < 2 * |keys|
    ensures KeyOrValue(keys, vals, i) == KeyOrValue(keys[1..], vals[1..], i - 2)
  {
    assert (i - 2) / 2 == i / 2 - 1;
  }

  lemma InterleaveCons(keys: seq<bytes>, vals: seq<Tree>)
    requires |keys| == |vals| > 0
    ensures Interleave(keys, vals) == [Tree.Key(keys[0]), vals[0]] + Interleave(keys[1..], vals[1..])
  {
    var s, rest := Interleave(keys, vals), Interleave(keys[1..], vals[1..]);
    assert s[0] == Tree.Key(keys[0]) && s[1] == vals[0];
    hide KeyOrValue;
    forall i | 2 <= i < |s|
      ensures s[i] == rest[i - 2]
    {
      KeyOrValueNext(keys, vals, i);
    }
  }

  lemma {:induction false} MeaningConcat(xs: seq<Tree>, a: seq<Command>, b: seq<Command>)
    ensures Meaning(xs, a + b) == if Meaning(xs, a).Some? then Meaning(Meaning(xs, a).value, b) else None
    decreases |a|
  {
    hide Meaningful, Means;
    if a == [] {
      assert a + b == b;
    } else {
      assert (a + b)[1..] == a[1..] + b;
      if Meaningful(xs, a[0]) {
        MeaningConcat(Means(xs, a[0]), a[1..], b);
      }
    }
  }

  lemma MeaningThen(xs: seq<Tree>, a: seq<Command>, ys: seq<Tree>, b: seq<Command>)
    requires Meaning(xs, a) == Option.Some(ys)
    ensures Meaning(xs, a + b) == Meaning(ys, b)
  {
    MeaningConcat(xs, a, b);
  }

  lemma MeaningOne(xs: seq<Tree>, c: Command)
    requires Meaningful(xs, c)
    ensures Meaning(xs, [c]) == Option.Some(Means(xs, c))
  {
    hide Meaningful, Means;
    assert [c][1..] == [];
  }

  lemma {:induction false} PushesMeaning(xs: seq<Tree>, x: Tree)
    requires WellFormed(x)
    ensures Meaning(xs, Pushes(x, |xs|)) == Option.Some(xs + [x])
    decreases x
  {
    hide Meaning, PushAll, PushPairs, Identity, Meaningful;
    match x
    case Vec(elems) => VecMeaning(xs, elems);
    case Map(keys, vals) => MapMeaning(xs, keys, vals);
    case _ => LeafMeaning(xs, x);
  }

  lemma LeafMeaning(xs: seq<Tree>, x: Tree)
    requires WellFormed(x) && !x.Vec? && !x.Map?
    ensures Meaning(xs, Pushes(x, |xs|)) == Option.Some(xs + [x])
  {
    MeaningOne(xs, Pushes(x, |xs|)[0]);
    assert Pushes(x, |xs|) == [Pushes(x, |xs|)[0]];
  }

  lemma {:induction false} VecMeaning(xs: seq<Tree>, elems: seq<Tree>)
    requires forall i | 0 <= i < |elems| :: WellFormed(elems[i])
    ensures Meaning(xs, PushAll(elems, |xs|) + [CloseVector(|xs|)]) == Option.Some(xs + [Vec(elems)])
    decreases elems, 1
  {
    hide Meaning, WellFormed;
    PushAllMeaning(xs, elems);
    var ys := xs + elems;
    var c := CloseVector(|xs|);
    MeaningThen(xs, PushAll(elems, |xs|), ys, [c]);
    MeaningOne(ys, c);
    assert ys[..|xs|] == xs && ys[|xs|..] == elems;
  }

  lemma {:induction false} PushAllMeaning(xs: seq<Tree>, elems: seq<Tree>)
    requires forall i | 0 <= i < |elems| :: WellFormed(elems[i])
    ensures Meaning(xs, PushAll(elems, |xs|)) == Option.Some(xs + elems)
    decreases elems, 0
  {
    hide WellFormed, Pushes;
    if elems == [] {
      assert xs + elems == xs;
    } else {
      PushesMeaning(xs, elems[0]);
      MeaningThen(xs, Pushes(elems[0], |xs|), xs + [elems[0]], PushAll(elems[1..], |xs| + 1));
      PushAllMeaning(xs + [elems[0]], elems[1..]);
      assert xs + [elems[0]] + elems[1..] == xs + elems;
    }
  }

  lemma {:induction false} MapMeaning(xs: seq<Tree>, keys: seq<bytes>, vals: seq<Tree>)
    requires WellFormed(Map(keys, vals))
    ensures Meaning(xs, PushPairs(keys, vals, |xs|) + [CloseMap(|xs|, Identity(|keys|))])
            == Option.Some(xs + [Map(keys, vals)])
    decreases vals, 1
  {
    hide Meaning, PushPairs, IsOrder, SortedKeys;
    PushPairsMeaning(xs, keys, vals);
    var pairs, order := Interleave(keys, vals), Identity(|keys|);
    var ys := xs + pairs;
    var c := CloseMap(|xs|, order);
    MeaningThen(xs, PushPairs(keys, vals, |xs|), ys, [c]);
    assert ys[..|xs|] == xs && ys[|xs|..] == pairs;
    PickIdentity(keys, vals);
    MeaningOne(ys, c);
  }

  lemma InterleaveAt(keys: seq<bytes>, vals: seq<Tree>, i: nat)
    requires |keys| == |vals| && i < |keys|
    ensures Interleave(keys, vals)[2 * i] == Tree.Key(keys[i])
    ensures Interleave(keys, vals)[2 * i + 1] == vals[i]
  {
    assert (2 * i) / 2 == i && (2 * i + 1) / 2 == i;
  }

  lemma PickIdentity(keys: seq<bytes>, vals: seq<Tree>)
    requires |keys| == |vals|
    ensures KeyValuePairs(Interleave(keys, vals))
    ensures KeysOf(Interleave(keys, vals), Identity(|keys|)) == keys
    ensures ValuesOf(Interleave(keys, vals), Identity(|keys|)) == vals
  {
    hide IsOrder, Interleave;
    var s := Interleave(keys, vals);
    forall i | 0 <= i < |keys|
      ensures s[2 * i] == Tree.Key(keys[i]) && s[2 * i + 1] == vals[i]
    {
      InterleaveAt(keys, vals, i);
    }
  }

  lemma {:induction false} PushPairsMeaning(xs: seq<Tree>, keys: seq<bytes>, vals: seq<Tree>)
    requires |keys| == |vals|
    requires forall i | 0 <= i < |keys| :: NulFree(keys[i])
    requires forall i | 0 <= i < |vals| :: WellFormed(vals[i])
    ensures Meaning(xs, PushPairs(keys, vals, |xs|)) == Option.Some(xs + Interleave(keys, vals))
    decreases vals, 0
  {
    hide WellFormed, Pushes, Meaning, NulFree, Interleave;
    if vals == [] {
      NoCommands(xs);
      InterleaveNone(xs, keys, vals);
    } else {
      var ks, vs := keys[1..], vals[1..];
      var k, ys := AddKey(keys[0]), xs + [Tree.Key(keys[0])];
      var zs := ys + [vals[0]];
      var p, rest := Pushes(vals[0], |ys|), PushPairs(ks, vs, |zs|);
      assert [k] + p + rest == [k] + (p + rest);
      MeaningOne(xs, k);
      MeaningThen(xs, [k], ys, p + rest);
      PushesMeaning(ys, vals[0]);
      MeaningThen(ys, p, zs, rest);
      PushPairsMeaning(zs, ks, vs);
      InterleaveCons(keys, vals);
      assert zs + Interleave(ks, vs) == xs + Interleave(keys, vals);
    }
  }

  lemma InterleaveNone(xs: seq<Tree>, keys: seq<bytes>, vals: seq<Tree>)
    requires |keys| == |vals| == 0
    ensures xs + Interleave(keys, vals) == xs
  {}

  lemma NoCommands(xs: seq<Tree>)
    ensures Meaning(xs, []) == Option.Some(xs)
  {}

  /** The size of a tree: the bytes of its strings and keys, and a constant for each of its nodes. */
  function TreeSize(x: Tree): nat
    decreases x
  {
    match x
    case Key(k) => |k| + 64
    case Str(s) => |s| + 64
    case Vec(elems) => TreeSizes(elems) + 64
    case Map(keys, vals) => PairSizes(keys, vals) + 64
    case _ => 64
  }

  function TreeSizes(xs: seq<Tree>): nat
    decreases xs
  {
    if xs == [] then 0 else TreeSize(xs[0]) + TreeSizes(xs[1..])
  }

  function PairSizes(keys: seq<bytes>, vals: seq<Tree>): nat
    decreases vals
  {
    if vals == [] || keys == [] then 0 else |keys[0]| + 64 + TreeSize(vals[0]) + PairSizes(keys[1..], vals[1..])
  }

  lemma CostOne(c: Command)
    ensures Cost([c]) == Payload(c) + 64
  {
    assert [c][1..] == [];
  }

  /** Pushing a tree costs its size. */
  lemma {:induction false} PushesCost(x: Tree, base: nat)
    requires WellFormed(x)
    ensures Cost(Pushes(x, base)) == TreeSize(x)
    decreases x
  {
    hide Cost, PushAll, PushPairs, TreeSizes, PairSizes, Identity;
    match x
    case Vec(elems) =>
      PushAllCost(elems, base);
      CostConcat(PushAll(elems, base), [CloseVector(base)]);
      CostOne(CloseVector(base));
    case Map(keys, vals) =>
      PushPairsCost(keys, vals, base);
      CostConcat(PushPairs(keys, vals, base), [CloseMap(base, Identity(|keys|))]);
      CostOne(CloseMap(base, Identity(|keys|)));
    case _ =>
      CostOne(Pushes(x, base)[0]);
  }

  lemma {:induction false} PushAllCost(xs: seq<Tree>, base: nat)
    requires forall i | 0 <= i < |xs| :: WellFormed(xs[i])
    ensures Cost(PushAll(xs, base)) == TreeSizes(xs)
    decreases xs
  {
    hide WellFormed, Pushes, TreeSize, Payload;
    if xs != [] {
      PushesCost(xs[0], base);
      PushAllCost(xs[1..], base + 1);
      CostConcat(Pushes(xs[0], base), PushAll(xs[1..], base + 1));
    }
  }

  lemma {:induction false} PushPairsCost(keys: seq<bytes>, vals: seq<Tree>, base: nat)
    requires |keys| == |vals| && forall i | 0 <= i < |vals| :: WellFormed(vals[i])
    ensures Cost(PushPairs(keys, vals, base)) == PairSizes(keys, vals)
    decreases vals
  {
    hide WellFormed, Pushes, TreeSize;
    if vals != [] {
      var k, p, rest := [AddKey(keys[0])], Pushes(vals[0], base + 1), PushPairs(keys[1..], vals[1..], base + 2);
      PushesCost(vals[0], base + 1);
      PushPairsCost(keys[1..], vals[1..], base + 2);
      CostOne(AddKey(keys[0]));
      CostConcat(k, p);
      CostConcat(k + p, rest);
    }
  }

  /** Every tree of null, bool, 64-bit numbers, keys, strings, nested vectors and sorted maps, pushed
    * and finished, is what the root reads as, and nothing else is. A tree whose size is below 2^56 is
    * sure to fit the address space. */
  lemma TreeRoundTrip(x: Tree)
    requires WellFormed(x)
    ensures var r := Run(EMPTY, Pushes(x, 0));
            && r != AssertionFailed && (TreeSize(x) < SPACE ==> r.Done?)
            && (r.Done? ==>
                  && |r.st.stack| == 1
                  && var m := Finish(r.st);
                     |m| >= 2 && Reads(m, GetRoot(m), x) && forall y | Reads(m, GetRoot(m), y) :: y == x)
  {
    hide Reads, Finish, Meaning, GetRoot, Run, Pushes, Cost, TreeSize;
    PushesMeaning([], x);
    PushesCost(x, 0);
    assert [] + [x] == [x];
    RunRoundTrip(Pushes(x, 0), x);
  }

  // Maps

  /** The finite map with these keys and values. */
  ghost function Entries(keys: seq<bytes>, vals: seq<Tree>): map<bytes, Tree>
    requires |keys| == |vals| && Distinct(keys)
  {
    map i | 0 <= i < |keys| :: keys[i] := vals[i]
  }

  /** What a map's reference gives access to. */
  lemma MapParts(m: bytes, r: Reference, keys: seq<bytes>, vals: seq<Tree>)
    requires Reads(m, r, Map(keys, vals))
    ensures InBounds(m, r.pos, r.parentWidth)
    ensures var data, w := Indirect(m, r.pos, r.parentWidth), r.byteWidth;
            && MapKeysAt(m, data, w, keys) && SizeIs(m, data, w, |vals|) && |keys| == |vals|
            && forall i | 0 <= i < |vals| :: ElementReads(m, data, w, |vals|, i, vals[i])
  {
    hide ElementReads, MapKeysAt;
  }

  /** One comparison of the search. */
  function CompareKey(m: bytes, p: int, w: nat, key: bytes): int
    requires InBounds(m, p, w) && 0 <= Indirect(m, p, w)
  {
    StrCmp(key + [0], 0, m, Indirect(m, p, w))
  }

  lemma CompareKeyOrder(m: bytes, p: int, w: nat, key: bytes, k: bytes)
    requires KeyAt(m, p, w, k) && NulFree(key)
    ensures InBounds(m, p, w) && 0 <= Indirect(m, p, w)
    ensures CompareKey(m, p, w, key) < 0 <==> StringLessThan(key, k)
    ensures CompareKey(m, p, w, key) > 0 <==> StringLessThan(k, key)
    ensures CompareKey(m, p, w, key) == 0 <==> key == k
  {
    StrCmpOrder(key + [0], 0, key, m, Indirect(m, p, w), k);
  }

  /** std::bsearch over a vector of keys, with strcmp. */
  method FindIndex(m: bytes, data: int, w: nat, key: bytes, ghost keys: seq<bytes>) returns (r: Option<nat>)
    requires KeysAt(m, data, w, keys) && SortedKeys(keys) && NulFree(key)
    ensures r.Some? ==> r.value < |keys| && keys[r.value] == key
    ensures r.None? ==> key !in keys
  {
    hide CStringAt, StrCmp, NulFree, StringLessThan, SortedKeys, Indirect, KeyAt, CompareKey;
    var lo, hi := 0, Size(m, data, w);
    while lo < hi
      invariant 0 <= lo <= hi <= |keys|
      invariant forall i | 0 <= i < lo :: StringLessThan(keys[i], key)
      invariant forall i | hi <= i < |keys| :: StringLessThan(key, keys[i])
    {
      var mid := (lo + hi) / 2;
      var p := data + mid * w;
      assert KeyAt(m, p, w, keys[mid]);
      CompareKeyOrder(m, p, w, key, keys[mid]);
      var cmp := CompareKey(m, p, w, key);
      if cmp < 0 {
        AboveAll(keys, key, mid);
        hi := mid;
      } else if cmp > 0 {
        BelowAll(keys, key, mid);
        lo := mid + 1;
      } else {
        return Some(mid);
      }
    }
    NotAmong(keys, key, lo);
    return None;
  }

  lemma NullReads(m: bytes)
    requires m != []
    ensures Reads(m, NullReference(), Null)
  {}

  /** Vector::operator[]: the element, or null past the end. */
  lemma VectorGets(m: bytes, r: Reference, xs: seq<Tree>, i: nat)
    requires Reads(m, r, Vec(xs))
    ensures InBounds(m, r.pos, r.parentWidth) && IsByteWidth(r.byteWidth)
    ensures var data := Indirect(m, r.pos, r.parentWidth);
            && InBounds(m, data - r.byteWidth, r.byteWidth) && Size(m, data, r.byteWidth) == |xs|
            && (i < |xs| ==> InBounds(m, data + |xs| * r.byteWidth + i, 1))
            && Reads(m, VectorGet(m, data, r.byteWidth, i), if i < |xs| then xs[i] else Null)
  {
    hide Reads;
    VectorParts(m, r, xs);
    var data := Indirect(m, r.pos, r.parentWidth);
    if i < |xs| {
      assert ElementReads(m, data, r.byteWidth, |xs|, i, xs[i]);
    } else {
      NullReads(m);
    }
  }

  lemma VectorParts(m: bytes, r: Reference, xs: seq<Tree>)
    requires Reads(m, r, Vec(xs))
    ensures m != [] && InBounds(m, r.pos, r.parentWidth) && IsByteWidth(r.byteWidth)
    ensures var data := Indirect(m, r.pos, r.parentWidth);
            && SizeIs(m, data, r.byteWidth, |xs|)
            && forall i | 0 <= i < |xs| :: ElementReads(m, data, r.byteWidth, |xs|, i, xs[i])
  {
    hide ElementReads;
  }

  /** Map::operator[]: the value at the place where the key was found, or the null reference. */
  method MapGet(m: bytes, r: Reference, key: bytes, ghost keys: seq<bytes>,
                ghost vals: seq<Tree>) returns (v: Reference)
    requires |keys| == |vals| && Reads(m, r, Map(keys, vals)) && SortedKeys(keys) && NulFree(key)
    ensures key !in keys ==> Reads(m, v, Null)
    ensures key in keys ==> exists i | 0 <= i < |keys| :: keys[i] == key && Reads(m, v, vals[i])
    ensures Distinct(keys) && key in keys ==> Reads(m, v, Entries(keys, vals)[key])
  {
    hide Reads, KeysAt, SortedKeys, NulFree;
    MapParts(m, r, keys, vals);
    var data, w := Indirect(m, r.pos, r.parentWidth), r.byteWidth;
    var keysData, keysWidth := Indirect(m, data - 3 * w, w), ReadUInt64(m, data - 2 * w, w);
    var found := FindIndex(m, keysData, keysWidth, key, keys);
    match found
    case None =>
      v := NullReference();
      NullReads(m);
    case Some(i) =>
      assert ElementReads(m, data, w, |vals|, i, vals[i]);
      v := VectorGet(m, data, w, i);
  }

  /** The order is what the pairs are permuted by: key and value move together. */
  lemma Reordered(pairs: seq<Tree>, order: seq<nat>)
    requires KeyValuePairs(pairs) && IsOrder(order, |pairs| / 2)
    ensures var id := Identity(|pairs| / 2);
            forall j | 0 <= j < |order| ::
              && order[j] < |id|
              && KeysOf(pairs, order)[j] == KeysOf(pairs, id)[order[j]]
              && ValuesOf(pairs, order)[j] == ValuesOf(pairs, id)[order[j]]
  {}

  lemma StillDistinct(ks: seq<bytes>, ks': seq<bytes>, order: seq<nat>)
    requires |ks'| == |ks| && IsOrder(order, |ks|)
    requires forall j | 0 <= j < |order| :: ks'[j] == ks[order[j]]
    ensures Distinct(ks') <==> Distinct(ks)
  {
    if Distinct(ks) {
      forall j, k | 0 <= j < k < |ks'|
        ensures ks'[j] != ks'[k]
      {
        assert order[j] != order[k];
      }
    }
    if Distinct(ks') {
      forall a, b | 0 <= a < b < |ks|
        ensures ks[a] != ks[b]
      {
        assert a in order && b in order;
        var j :| 0 <= j < |order| && order[j] == a;
        var k :| 0 <= k < |order| && order[k] == b;
      }
    }
  }

  lemma EntryOf(ks: seq<bytes>, vs: seq<Tree>, i: nat)
    requires |ks| == |vs| && Distinct(ks) && i < |ks|
    ensures ks[i] in Entries(ks, vs) && Entries(ks, vs)[ks[i]] == vs[i]
  {}

  lemma EntryKept(ks: seq<bytes>, vs: seq<Tree>, ks': seq<bytes>, vs': seq<Tree>, order: seq<nat>, k: bytes)
    requires |ks| == |vs| == |ks'| == |vs'| && IsOrder(order, |ks|) && Distinct(ks) && Distinct(ks')
    requires forall j | 0 <= j < |order| :: ks'[j] == ks[order[j]] && vs'[j] == vs[order[j]]
    ensures k in Entries(ks, vs) <==> k in Entries(ks', vs')
    ensures k in Entries(ks, vs) ==> Entries(ks, vs)[k] == Entries(ks', vs')[k]
  {
    hide Distinct;
    if k in Entries(ks', vs') {
      var j :| 0 <= j < |ks'| && ks'[j] == k;
      EntryOf(ks, vs, order[j]);
    }
    if k in Entries(ks, vs) {
      var i :| 0 <= i < |ks| && ks[i] == k;
      assert i in order;
      var j :| 0 <= j < |order| && order[j] == i;
      EntryOf(ks, vs, i);
      EntryOf(ks', vs', j);
    }
  }

  /** A rearrangement of distinct keys, with their values, makes the same finite map. */
  lemma SameEntries(ks: seq<bytes>, vs: seq<Tree>, ks': seq<bytes>, vs': seq<Tree>, order: seq<nat>)
    requires |ks| == |vs| == |ks'| == |vs'| && IsOrder(order, |ks|) && Distinct(ks) && Distinct(ks')
    requires forall j | 0 <= j < |order| :: ks'[j] == ks[order[j]] && vs'[j] == vs[order[j]]
    ensures Entries(ks', vs') == Entries(ks, vs)
  {
    hide Distinct, Entries, IsOrder;
    forall k
      ensures k in Entries(ks, vs) <==> k in Entries(ks', vs')
      ensures k in Entries(ks, vs) ==> Entries(ks, vs)[k] == Entries(ks', vs')[k]
    {
      EntryKept(ks, vs, ks', vs', order, k);
    }
  }

  /** Sorting the pairs does not change the finite map they make. */
  lemma EntriesReordered(pairs: seq<Tree>, order: seq<nat>)
    requires KeyValuePairs(pairs) && IsOrder(order, |pairs| / 2)
    ensures var id := Identity(|pairs| / 2);
            && (Distinct(KeysOf(pairs, order)) <==> Distinct(KeysOf(pairs, id)))
            && (Distinct(KeysOf(pairs, id)) ==>
                  Entries(KeysOf(pairs, order), ValuesOf(pairs, order))
                  == Entries(KeysOf(pairs, id), ValuesOf(pairs, id)))
  {
    hide KeysOf, ValuesOf, Entries, Distinct;
    var id := Identity(|pairs| / 2);
    Reordered(pairs, order);
    StillDistinct(KeysOf(pairs, id), KeysOf(pairs, order), order);
    if Distinct(KeysOf(pairs, id)) {
      SameEntries(KeysOf(pairs, id), ValuesOf(pairs, id), KeysOf(pairs, order), ValuesOf(pairs, order), order);
    }
  }

  /** A map as the root: whatever order the pairs were pushed in, what MapGet searches after Finish is
    * sorted. HasDuplicateKeys tells when a key, here or in a map within, was pushed twice; otherwise the
    * map is the finite map of the pairs as they were pushed. */
  lemma MapAgrees(cmds: seq<Command>, pairs: seq<Tree>, order: seq<nat>)
    requires Meaning([], cmds) == Option.Some(pairs)
    requires KeyValuePairs(pairs) && Meaningful(pairs, CloseMap(0, order))
    ensures var r := Run(EMPTY, cmds + [CloseMap(0, order)]);
            && r != AssertionFailed && (Cost(cmds) + 64 < SPACE ==> r.Done?)
            && (r.Done? ==>
                  && |r.st.stack| == 1
                  && var m := Finish(r.st);
                     var keys, vals, id := KeysOf(pairs, order), ValuesOf(pairs, order), Identity(|pairs| / 2);
                     && |m| >= 2 && Reads(m, GetRoot(m), Map(keys, vals)) && SortedKeys(keys)
                     && (r.st.hasDuplicateKeys <==> !Distinct(KeysOf(pairs, id)) || !AllMapsDistinct(pairs))
                     && (Distinct(KeysOf(pairs, id)) ==>
                           Distinct(keys) && Entries(keys, vals) == Entries(KeysOf(pairs, id), ValuesOf(pairs, id))))
  {
    hide Meaning, Run, Cost, Reads, Finish, GetRoot, KeyValuePairs, KeysOf, ValuesOf, IsOrder, Distinct, Entries;
    hide SortedKeys, MapsDistinct, AllMapsDistinct;
    var c := CloseMap(0, order);
    assert pairs[0..] == pairs && pairs[..0] == [];
    MeaningThen([], cmds, pairs, [c]);
    MeaningOne(pairs, c);
    EntriesReordered(pairs, order);
    var x := Map(KeysOf(pairs, order), ValuesOf(pairs, order));
    assert Means(pairs, c) == [x];
    MapDistinct(x.keys, x.vals);
    ValuesDistinct(pairs, order);
    CostConcat(cmds, [c]);
    CostOne(c);
    RunRoundTrip(cmds + [c], x);
  }
}
