/** vector_downward: one allocation that holds a message growing down from its end and a scratch
  * pad growing up from its start. The class is proved to behave as two independent sequences. */
module VectorDownwards {
  import opened Bytes
  import opened Padding
  import opened Tables

  /** memcpy into an array. */
  method CopyInto(dst: array<byte>, at: nat, s: bytes)
    requires at + |s| <= dst.Length
    modifies dst
    ensures dst[..] == old(dst[..at]) + s + old(dst[at + |s|..])
  {
    for i := 0 to |s|
      invariant dst[..at] == old(dst[..at]) && dst[at + |s|..] == old(dst[at + |s|..])
      invariant forall j | 0 <= j < i :: dst[at + j] == s[j]
    {
      dst[at + i] := s[i];
    }
    assert dst[at..at + |s|] == s;
    assert dst[..] == dst[..at] + dst[at..at + |s|] + dst[at + |s|..];
  }

  /** A copy to the end and then one to the start of the same memory do not disturb each other. */
  lemma TwoCopies(before: bytes, between: bytes, after: bytes, back: bytes, front: bytes)
    requires |front| + |back| <= |before|
    requires between == before[..|before| - |back|] + back + before[|before|..]
    requires after == between[..0] + front + between[|front|..]
    ensures |after| == |before| && after[..|front|] == front && after[|after| - |back|..] == back
  {
    assert |between| == |before| && between[|between| - |back|..] == back;
    assert after == front + between[|front|..];
    assert after[|after| - |back|..] == between[|between| - |back|..];
  }

  /** memcpy_downward: the used parts at the end and at the start move to the end and the start. */
  method MemcpyDownward(oldBuf: array<byte>, newBuf: array<byte>, inUseBack: nat, inUseFront: nat)
    requires oldBuf != newBuf && inUseBack <= oldBuf.Length && inUseFront <= oldBuf.Length
    requires inUseFront + inUseBack <= newBuf.Length
    modifies newBuf
    ensures newBuf[newBuf.Length - inUseBack..] == oldBuf[oldBuf.Length - inUseBack..]
    ensures newBuf[..inUseFront] == oldBuf[..inUseFront]
  {
    var back, front := oldBuf[oldBuf.Length - inUseBack..], oldBuf[..inUseFront];
    ghost var before := newBuf[..];
    CopyInto(newBuf, newBuf.Length - inUseBack, back);
    ghost var between := newBuf[..];
    CopyInto(newBuf, 0, front);
    TwoCopies(before, between, newBuf[..], back, front);
  }

  class VectorDownward {
    const initialSize: nat
    const bufferMinAlign: Alignment

    var buf: array<byte>  // empty until the first allocation
    var cur: nat          // the message is above
    var scratch: nat      // the scratch pad is below

    ghost predicate Valid()
      reads this, buf
    {
      scratch <= cur <= buf.Length
    }

    ghost function Message(): (s: bytes)
      requires Valid()
      reads this, buf
      ensures |s| == buf.Length - cur
    {
      buf[cur..]
    }

    ghost function Scratch(): (s: bytes)
      requires Valid()
      reads this, buf
      ensures |s| == scratch
    {
      buf[..scratch]
    }

    constructor (initialSize: nat, bufferMinAlign: Alignment)
      ensures Valid() && fresh(buf)
      ensures Message() == [] && Scratch() == []
    {
      this.initialSize := initialSize;
      this.bufferMinAlign := bufferMinAlign;
      buf := new byte[0];
      cur, scratch := 0, 0;
    }

    function Size(): (n: nat)
      requires Valid()
      reads this, buf
      ensures n == |Message()|
    {
      buf.Length - cur
    }

    function ScratchSize(): (n: nat)
      requires Valid()
      reads this, buf
      ensures n == |Scratch()|
    {
      scratch
    }

    /** data_at: the index of the byte at an offset from the end. What lies there is what the message
      * has there, so the offset keeps its meaning when the allocation is replaced. */
    function DataAt(offset: nat): (i: nat)
      requires Valid() && offset <= Size()
      reads this, buf
      ensures cur <= i <= buf.Length
      ensures buf[i..] == Message()[|Message()| - offset..]
    {
      buf.Length - offset
    }

    /** The least multiple of the buffer's minimal alignment that is large enough. */
    function RoundUp(n: nat): (r: nat)
      ensures n <= r < n + bufferMinAlign && Aligned(r, bufferMinAlign)
    {
      n + bufferMinAlign - 1 - LowBits(n + bufferMinAlign - 1, bufferMinAlign)
    }

    /** Grows the allocation; the message moves to the new end, the scratch pad stays at the start. */
    method Reallocate(len: nat)
      requires Valid()
      modifies this
      ensures Valid() && fresh(buf)
      ensures Message() == old(Message()) && Scratch() == old(Scratch())
      ensures len <= cur - scratch
      ensures var n := old(buf.Length); buf.Length == RoundUp(n + Max(len, if n != 0 then n / 2 else initialSize))
    {
      var oldSize, oldBuf := Size(), buf;
      var reserved := RoundUp(buf.Length + Max(len, if buf.Length != 0 then buf.Length / 2 else initialSize));
      var newBuf := new byte[reserved](_ => 0);
      MemcpyDownward(oldBuf, newBuf, oldSize, scratch);
      buf, cur := newBuf, reserved - oldSize;
    }

    /** Afterwards at least len bytes are free between the two regions, and neither has changed. */
    method EnsureSpace(len: nat)
      requires Valid() && Size() < MAX_BUFFER_SIZE
      modifies this
      ensures Valid() && (buf == old(buf) || fresh(buf))
      ensures Message() == old(Message()) && Scratch() == old(Scratch())
      ensures len <= cur - scratch
    {
      if len > cur - scratch {
        Reallocate(len);
      }
    }

    method Push(s: bytes)
      requires Valid() && Size() < MAX_BUFFER_SIZE
      modifies this, buf
      ensures Valid() && (buf == old(buf) || fresh(buf))
      ensures Message() == s + old(Message()) && Scratch() == old(Scratch())
    {
      EnsureSpace(|s|);
      cur := cur - |s|;
      CopyInto(buf, cur, s);
    }

    method Fill(zeroPadBytes: nat)
      requires Valid() && Size() < MAX_BUFFER_SIZE
      modifies this, buf
      ensures Valid() && (buf == old(buf) || fresh(buf))
      ensures Message() == Zeros(zeroPadBytes) + old(Message()) && Scratch() == old(Scratch())
    {
      EnsureSpace(zeroPadBytes);
      cur := cur - zeroPadBytes;
      var data, from := buf, cur;
      ghost var before := data[..];
      for i := 0 to zeroPadBytes
        modifies data
        invariant forall j | 0 <= j < data.Length :: data[j] == if from <= j < from + i then 0 else before[j]
      {
        data[from + i] := 0;
      }
      assert data[from..] == Zeros(zeroPadBytes) + before[from + zeroPadBytes..];
      assert data[..scratch] == before[..scratch];
    }

    method ScratchPush(s: bytes)
      requires Valid() && Size() < MAX_BUFFER_SIZE
      modifies this, buf
      ensures Valid() && (buf == old(buf) || fresh(buf))
      ensures Message() == old(Message()) && Scratch() == old(Scratch()) + s
    {
      EnsureSpace(|s|);
      CopyInto(buf, scratch, s);
      scratch := scratch + |s|;
    }

    method Pop(bytesToRemove: nat)
      requires Valid() && bytesToRemove <= Size()
      modifies this
      ensures Valid() && buf == old(buf)
      ensures Message() == old(Message())[bytesToRemove..] && Scratch() == old(Scratch())
    {
      cur := cur + bytesToRemove;
    }

    method ScratchPop(bytesToRemove: nat)
      requires Valid() && bytesToRemove <= ScratchSize()
      modifies this
      ensures Valid() && buf == old(buf)
      ensures Message() == old(Message()) && Scratch() == old(Scratch())[..|old(Scratch())| - bytesToRemove]
    {
      scratch := scratch - bytesToRemove;
    }

    method ClearScratch()
      requires Valid()
      modifies this
      ensures Valid() && buf == old(buf)
      ensures Message() == old(Message()) && Scratch() == []
    {
      scratch := 0;
    }

    /** A store through a pointer into the message, pos bytes from its front. */
    method Write(pos: nat, s: bytes)
      requires Valid() && pos + |s| <= Size()
      modifies buf
      ensures Valid()
      ensures Message() == old(Message())[..pos] + s + old(Message())[pos + |s|..] && Scratch() == old(Scratch())
    {
      CopyInto(buf, cur + pos, s);
    }

    /** Reads through pointers into the message and into the scratch pad. */
    function ReadMessage(pos: nat, w: nat): (v: nat)
      requires Valid() && pos + w <= Size()
      reads this, buf
      ensures v == ReadScalar(Message(), pos, w)
    {
      assert buf[cur + pos..cur + pos + w] == Message()[pos..pos + w];
      Decode(buf[cur + pos..cur + pos + w])
    }

    function ReadScratch(pos: nat, w: nat): (v: nat)
      requires Valid() && pos + w <= ScratchSize()
      reads this, buf
      ensures v == ReadScalar(Scratch(), pos, w)
    {
      assert buf[pos..pos + w] == Scratch()[pos..pos + w];
      Decode(buf[pos..pos + w])
    }

    function MessageBytes(pos: nat, n: nat): (s: bytes)
      requires Valid() && pos + n <= Size()
      reads this, buf
      ensures s == Message()[pos..pos + n]
    {
      buf[cur + pos..cur + pos + n]
    }
  }
}
