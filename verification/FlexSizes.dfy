/** FlexBuffers: how large the buffer and the stack of a run can become, from its commands alone. */
module FlexSizes {
  import opened Bytes
  import opened Padding
  import opened StringOrder
  import opened Sorting
  import opened FlexReading
  import opened FlexBuilder
  import opened FlexVectors
  import opened FlexRuns

  /** The most that a run may take up to be sure to stay in the address space. */
  const SPACE: nat := 0x100_0000_0000_0000

  /** The bytes a command brings. */
  function Payload(c: Command): nat {
    match c
    case AddKey(k) => |k|
    case AddString(s) => |s|
    case _ => 0
  }

  function Cost(cmds: seq<Command>): nat {
    if cmds == [] then 0 else Payload(cmds[0]) + 64 + Cost(cmds[1..])
  }

  lemma {:induction false} CostConcat(a: seq<Command>, b: seq<Command>)
    ensures Cost(a + b) == Cost(a) + Cost(b)
    decreases |a|
  {
    hide Payload;
    if a == [] {
      assert a + b == b;
    } else {
      assert (a + b)[1..] == a[1..] + b;
      CostConcat(a[1..], b);
    }
  }

  /** What is in use: the buffer, and what the values on the stack will take when they are written. */
  function InUse(st: State): nat {
    |st.buf| + 17 * |st.stack|
  }

  /** A vector takes at most nine bytes for each element, besides padding and header. */
  lemma VectorGrowth(st: State, vals: seq<Value>, step: nat, typed: bool, keys: Option<Value>)
    ensures |CreateVector(st, vals, step, typed, keys).0| <= |st.buf| + 7 + 8 * PrefixElems(keys) + 9 * |vals|
    ensures typed ==> |CreateVector(st, vals, step, typed, keys).0| <= |st.buf| + 7 + 8 * PrefixElems(keys) + 8 * |vals|
  {
    hide VectorWidth, AnyBytes, ElemBytes, TypeBytes, PaddingBytes, Encode;
    var b := ByteWidth(VectorWidth(st, vals, step, keys));
    assert b * |vals| <= 8 * |vals|;
  }

  lemma PickedLength(pairs: seq<Value>, order: seq<nat>)
    requires |pairs| % 2 == 0 && IsOrder(order, |pairs| / 2)
    ensures |Picked(pairs, order, 0)| == |Picked(pairs, order, 1)| == |pairs| / 2
  {}

  /** Values that are closed into a vector or map pay for what it takes. */
  lemma StepCost(st: State, c: Command)
    requires Able(st, c)
    ensures InUse(Execute(st, c)) <= InUse(st) + Payload(c) + 64
  {
    hide CreateVector, PaddingBytes, Encode, FindKey, Sorts, Picked, IsOrder;
    match c
    case CloseVector(start) => VectorGrowth(st, st.stack[start..], 1, false, None);
    case CloseMap(start, order) => MapCost(st, start, order);
    case _ =>
  }

  lemma MapCost(st: State, start: nat, order: seq<nat>)
    requires start <= |st.stack| && Sorts(st.buf, st.stack[start..], order)
    ensures InUse(EndMap(st, start, order)) <= InUse(st) + 64
  {
    var pairs := st.stack[start..];
    assert |pairs| % 2 == 0 && IsOrder(order, |pairs| / 2);
    hide CreateVector, Sorts, Picked, IsOrder;
    PickedLength(pairs, order);
    var (m, kv) := CreateVector(st, Picked(pairs, order, 0), 2, true, None);
    VectorGrowth(st, Picked(pairs, order, 0), 2, true, None);
    VectorGrowth(st.(buf := m), Picked(pairs, order, 1), 2, false, Some(kv));
  }

  /** A run that breaks no assertion and is small enough runs to its end. */
  lemma {:induction false} RunDone(st: State, cmds: seq<Command>)
    requires Run(st, cmds) != AssertionFailed && InUse(st) + Cost(cmds) < SPACE
    ensures Run(st, cmds).Done?
    decreases |cmds|
  {
    hide Able, Execute, Payload;
    if cmds != [] {
      StepCost(st, cmds[0]);
      RunDone(Execute(st, cmds[0]), cmds[1..]);
    }
  }
}
