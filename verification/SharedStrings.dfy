/** Shared strings agree with plain ones, and equal contents share one offset. */
module SharedStrings {
  import opened Bytes
  import opened StringOrder
  import opened Padding
  import opened Tables
  import opened Objects
  import opened Builder
  import opened TableFields
  import opened Creation

  /** A string is found at the offset. */
  predicate IsString(m: bytes, off: nat) {
    && 4 <= off <= |m|
    && InBounds(m, |m| - off + 4, VectorSize(m, |m| - off))
    && HoldsString(m, |m| - off, StringContents(m, |m| - off))
  }

  function StringAt(m: bytes, off: nat): bytes
    requires IsString(m, off)
  {
    StringContents(m, |m| - off)
  }

  /** Every pool entry is a string, and no two have the same contents. */
  ghost predicate PoolOk(m: bytes, pool: seq<nat>) {
    && (forall off | off in pool :: IsString(m, off))
    && forall j, k | 0 <= j < k < |pool| :: StringAt(m, pool[j]) != StringAt(m, pool[k])
  }

  lemma StringAtHolds(m: bytes, off: nat, s: bytes)
    ensures HoldsAt(m, off, Str(s)) <==> IsString(m, off) && StringAt(m, off) == s
  {
    hide Aligned;
  }

  lemma StringAtKept(m: bytes, r: bytes, off: nat)
    requires IsString(m, off) && Suffix(m, r)
    ensures IsString(r, off) && StringAt(r, off) == StringAt(m, off)
  {
    hide IsString, StringAt, Suffix, Holds;
    var s := StringAt(m, off);
    StringAtHolds(m, off, s);
    HoldsAtKept(m, r, off, Str(s));
    StringAtHolds(r, off, s);
  }

  lemma PoolKept(m: bytes, r: bytes, pool: seq<nat>)
    requires PoolOk(m, pool) && Suffix(m, r)
    ensures PoolOk(r, pool)
  {
    hide IsString, StringAt;
    forall off | off in pool
      ensures IsString(r, off) && StringAt(r, off) == StringAt(m, off)
    {
      StringAtKept(m, r, off);
    }
  }

  /** The pool's order finds exactly the entry with these contents. */
  lemma {:induction false} FindStringFinds(m: bytes, pool: seq<nat>, s: bytes)
    requires forall off | off in pool :: IsString(m, off)
    ensures match FindString(m, pool, s)
            case Some(off) => off in pool && StringAt(m, off) == s
            case None => forall off | off in pool :: StringAt(m, off) != s
  {
    hide HoldsString, StringContents;
    if pool != [] {
      EquivalentIsEqual(StringAt(m, pool[0]), s);
      assert forall off | off in pool[1..] :: off in pool;
      FindStringFinds(m, pool[1..], s);
    }
  }

  lemma FindStringLater(m: bytes, c: bytes, pool: seq<nat>, s: bytes)
    requires PoolOk(m, pool) && Suffix(m, c)
    ensures match FindString(c, pool, s)
            case Some(off) => off in pool && StringAt(m, off) == s
            case None => !Pooled(m, pool, s)
  {
    hide IsString, StringAt, FindString, Suffix;
    PoolKept(m, c, pool);
    FindStringFinds(c, pool, s);
    forall off | off in pool
      ensures StringAt(c, off) == StringAt(m, off)
    {
      StringAtKept(m, c, off);
    }
  }

  lemma PoolAppend(m: bytes, pool: seq<nat>, off: nat)
    requires PoolOk(m, pool) && IsString(m, off)
    requires forall p | p in pool :: StringAt(m, p) != StringAt(m, off)
    ensures PoolOk(m, pool + [off])
  {
    hide IsString, StringAt;
  }

  ghost predicate Pooled(m: bytes, pool: seq<nat>, s: bytes)
    requires PoolOk(m, pool)
  {
    exists p :: p in pool && StringAt(m, p) == s
  }

  /** CreateSharedString returns a string with the requested contents; a hit leaves the message as it
    * was, a miss is recorded; the pool stays a pool of different strings. */
  lemma CreateSharedStringHolds(st: State, s: bytes, r: State, off: nat)
    requires PoolOk(st.msg, st.pool)
    requires (r, off) == CreateSharedString(st, s) && |CreateString(st, s).0.msg| < TWO31
    ensures HoldsAt(r.msg, off, Str(s)) && Suffix(st.msg, r.msg)
    ensures PoolOk(r.msg, r.pool) && off in r.pool
    ensures if Pooled(st.msg, st.pool, s)
            then r.msg == st.msg && r.pool == st.pool
            else r.msg == CreateString(st, s).0.msg && r.pool == st.pool + [off]
    ensures r == st.(msg := r.msg, minAlign := Max(4, st.minAlign), pool := r.pool)
  {
    hide CreateString, IsString, StringAt, HoldsAt, FindString, PoolOk, Pooled, Suffix;
    var (c, off') := CreateString(st, s);
    CreateStringHolds(st, s, c, off');
    FindStringLater(st.msg, c.msg, st.pool, s);
    assert c == st.(msg := c.msg, minAlign := c.minAlign) && c.pool == st.pool;
    if FindString(c.msg, st.pool, s).Some? {
      assert r == c.(msg := st.msg);
      PoolHit(st.msg, st.pool, off, s);
    } else {
      StringAtHolds(c.msg, off', s);
      PoolGrows(st.msg, c.msg, st.pool, off', s);
    }
  }

  lemma PoolHit(m: bytes, pool: seq<nat>, off: nat, s: bytes)
    requires PoolOk(m, pool) && off in pool && StringAt(m, off) == s
    ensures HoldsAt(m, off, Str(s)) && Suffix(m, m) && Pooled(m, pool, s)
  {
    hide IsString, StringAt, Holds;
    StringAtHolds(m, off, s);
  }

  lemma SuffixSelf(m: bytes)
    ensures Suffix(m, m)
  {}

  lemma PoolGrows(m: bytes, c: bytes, pool: seq<nat>, off: nat, s: bytes)
    requires PoolOk(m, pool) && Suffix(m, c) && IsString(c, off) && StringAt(c, off) == s
    requires !Pooled(m, pool, s)
    ensures PoolOk(c, pool + [off])
  {
    hide IsString, StringAt, Suffix;
    PoolKept(m, c, pool);
    forall p | p in pool
      ensures StringAt(c, p) == StringAt(m, p)
    {
      StringAtKept(m, c, p);
    }
    PoolAppend(c, pool, off);
  }

  /** Asking again, however much the message has grown since, gives the same offset. */
  lemma SharedAgain(st: State, s: bytes, later: State)
    requires PoolOk(st.msg, st.pool) && |CreateString(st, s).0.msg| < TWO31
    requires var r := CreateSharedString(st, s).0; Suffix(r.msg, later.msg) && r.pool <= later.pool
    requires PoolOk(later.msg, later.pool) && |CreateString(later, s).0.msg| < TWO31
    ensures CreateSharedString(later, s).1 == CreateSharedString(st, s).1
    ensures CreateSharedString(later, s).0.msg == later.msg
  {
    hide CreateString, IsString, StringAt, Holds, Suffix, CreateSharedString;
    var (r, off) := CreateSharedString(st, s);
    var (r', off') := CreateSharedString(later, s);
    CreateSharedStringHolds(st, s, r, off);
    CreateSharedStringHolds(later, s, r', off');
    StringAtHolds(r.msg, off, s);
    StringAtKept(r.msg, later.msg, off);
    assert off in later.pool;
    assert Pooled(later.msg, later.pool, s);
    StringAtHolds(later.msg, off', s);
    var j :| 0 <= j < |later.pool| && later.pool[j] == off;
    var k :| 0 <= k < |later.pool| && later.pool[k] == off';
  }
}
