/** Read access to a buffer: Table, Vector, String and root accessors of flatbuffers.h.
  * A pointer into the buffer is its distance from the start of the buffer. Each accessor
  * requires exactly that the bytes it touches lie in the buffer. */
module Tables {
  import opened Bytes

  /** FieldIndexToOffset: two fixed entries come before the fields of a vtable. */
  function FieldIndexToOffset(i: nat): nat {
    (i + 2) * 2
  }

  function GetVTable(m: bytes, table: int): int
    requires InBounds(m, table, 4)
  {
    table - ToSigned(ReadScalar(m, table, 4), 4)
  }

  /** The vtable's size entry and the entry asked for can be read. */
  predicate FieldReadable(m: bytes, table: int, field: nat) {
    && InBounds(m, table, 4)
    && var vtable := GetVTable(m, table);
    && InBounds(m, vtable, 2)
    && (field < ReadScalar(m, vtable, 2) ==> InBounds(m, vtable + field, 2))
  }

  /** 0 when the field is absent. */
  function GetOptionalFieldOffset(m: bytes, table: int, field: nat): nat
    requires FieldReadable(m, table, field)
  {
    var vtable := GetVTable(m, table);
    var vtsize := ReadScalar(m, vtable, 2);
    if field < vtsize then ReadScalar(m, vtable + field, 2) else 0
  }

  function GetField(m: bytes, table: int, field: nat, w: nat, defaultval: nat): nat
    requires FieldReadable(m, table, field)
    requires var o := GetOptionalFieldOffset(m, table, field); o != 0 ==> InBounds(m, table + o, w)
  {
    var o := GetOptionalFieldOffset(m, table, field);
    if o != 0 then ReadScalar(m, table + o, w) else defaultval
  }

  /** The object a relative offset stored at p leads to. */
  function Follow(m: bytes, p: int): int
    requires InBounds(m, p, 4)
  {
    p + ReadScalar(m, p, 4)
  }

  function GetPointer(m: bytes, table: int, field: nat): Option<int>
    requires FieldReadable(m, table, field)
    requires var o := GetOptionalFieldOffset(m, table, field); o != 0 ==> InBounds(m, table + o, 4)
  {
    var o := GetOptionalFieldOffset(m, table, field);
    if o != 0 then Some(Follow(m, table + o)) else None
  }

  function VectorSize(m: bytes, vec: int): nat
    requires InBounds(m, vec, 4)
  {
    ReadScalar(m, vec, 4)
  }

  /** Vector<Offset<T>>::Get. */
  function VectorGet(m: bytes, vec: int, i: nat): int
    requires InBounds(m, vec, 4) && i < VectorSize(m, vec)
    requires InBounds(m, vec + 4 + 4 * i, 4)
  {
    Follow(m, vec + 4 + 4 * i)
  }

  /** String::str. */
  function StringContents(m: bytes, str: int): bytes
    requires InBounds(m, str, 4) && InBounds(m, str + 4, VectorSize(m, str))
  {
    m[str + 4..str + 4 + VectorSize(m, str)]
  }

  function GetRoot(m: bytes): int
    requires InBounds(m, 0, 4)
  {
    Follow(m, 0)
  }

  function GetSizePrefixedRoot(m: bytes): int
    requires InBounds(m, 4, 4)
  {
    Follow(m, 4)
  }
}
