/** The byte-string order of StringLessThan, and its agreement with strcmp. */
module StringOrder {
  import opened Bytes

  /** memcmp: the difference at the first of n places where a and b differ. */
  function MemCmp(a: bytes, b: bytes, n: nat): int
    requires n <= |a| && n <= |b|
  {
    if n == 0 then 0
    else if a[0] != b[0] then a[0] - b[0]
    else MemCmp(a[1..], b[1..], n - 1)
  }

  predicate StringLessThan(a: bytes, b: bytes) {
    var cmp := MemCmp(a, b, Min(|a|, |b|));
    if cmp == 0 then |a| < |b| else cmp < 0
  }

  /** Neither is less: what an ordered set takes for equal. */
  predicate Equivalent(a: bytes, b: bytes) {
    !StringLessThan(a, b) && !StringLessThan(b, a)
  }

  lemma LessCons(a: bytes, b: bytes)
    requires a != [] && b != []
    ensures StringLessThan(a, b) <==> a[0] < b[0] || (a[0] == b[0] && StringLessThan(a[1..], b[1..]))
  {}

  /** The order is strict and total: only equal strings are equivalent. */
  lemma {:induction false} EquivalentIsEqual(a: bytes, b: bytes)
    ensures Equivalent(a, b) <==> a == b
    ensures !(StringLessThan(a, b) && StringLessThan(b, a))
  {
    if a != [] && b != [] {
      LessCons(a, b);
      LessCons(b, a);
      EquivalentIsEqual(a[1..], b[1..]);
      if a[0] == b[0] && a[1..] == b[1..] {
        assert a == [a[0]] + a[1..] == b;
      }
    }
  }

  lemma {:induction false} LessTransitive(a: bytes, b: bytes, c: bytes)
    requires StringLessThan(a, b) && StringLessThan(b, c)
    ensures StringLessThan(a, c)
  {
    if a != [] && b != [] && c != [] {
      LessCons(a, b);
      LessCons(b, c);
      LessCons(a, c);
      if a[0] == b[0] == c[0] {
        LessTransitive(a[1..], b[1..], c[1..]);
      }
    }
  }

  // NUL-terminated strings in memory.

  predicate NulFree(s: bytes) {
    0 !in s
  }

  /** The NUL-terminated string k is at p. */
  predicate CStringAt(m: bytes, p: int, k: bytes) {
    NulFree(k) && InBounds(m, p, |k| + 1) && m[p..p + |k|] == k && m[p + |k|] == 0
  }

  /** What a C string pointer gives: the bytes up to the first NUL. All of them, exactly when there is none. */
  function CString(s: bytes): (r: bytes)
    ensures r <= s && NulFree(r) && (r == s <==> NulFree(s))
    ensures |r| < |s| ==> s[|r|] == 0
  {
    if s == [] || s[0] == 0 then [] else [s[0]] + CString(s[1..])
  }

  /** strlen, of a string that ends where its bytes do if it has no NUL before. */
  method StrLen(s: bytes) returns (n: nat)
    ensures n == |CString(s)| && s[..n] == CString(s)
  {
    n := 0;
    while n < |s| && s[n] != 0
      invariant n <= |s| && NulFree(s[..n])
    {
      assert s[..n + 1] == s[..n] + [s[n]];
      n := n + 1;
    }
    PrefixIsCString(s, n);
  }

  lemma {:induction false} PrefixIsCString(s: bytes, n: nat)
    requires n <= |s| && NulFree(s[..n]) && (n < |s| ==> s[n] == 0)
    ensures s[..n] == CString(s)
    decreases |s|
  {
    if n > 0 {
      var t := s[1..];
      assert s[..n][0] == s[0] && s[..n] == [s[0]] + t[..n - 1];
      PrefixIsCString(t, n - 1);
    }
  }

  /** strcmp of the strings at p and at q. Running off the end of the memory is undefined in C;
    * here it counts as equal. */
  function StrCmp(a: bytes, p: nat, b: bytes, q: nat): int
    decreases |a| - p
  {
    if p >= |a| || q >= |b| then 0
    else if a[p] != b[q] then a[p] - b[q]
    else if a[p] == 0 then 0
    else StrCmp(a, p + 1, b, q + 1)
  }

  lemma CStringTail(m: bytes, p: nat, k: bytes)
    requires CStringAt(m, p, k)
    ensures p < |m|
    ensures k == [] ==> m[p] == 0
    ensures k != [] ==> m[p] == k[0] != 0 && CStringAt(m, p + 1, k[1..])
  {
    if k != [] {
      var s := m[p..p + |k|];
      assert s[0] == m[p] && k[0] in k;
      assert m[p + 1..p + |k|] == s[1..];
    }
  }

  /** On NUL-terminated strings strcmp, which knows no lengths, gives the order that compares lengths. */
  lemma {:induction false} StrCmpOrder(a: bytes, p: nat, j: bytes, b: bytes, q: nat, k: bytes)
    requires CStringAt(a, p, j) && CStringAt(b, q, k)
    ensures StrCmp(a, p, b, q) < 0 <==> StringLessThan(j, k)
    ensures StrCmp(a, p, b, q) > 0 <==> StringLessThan(k, j)
    ensures StrCmp(a, p, b, q) == 0 <==> j == k
    decreases |j|
  {
    hide CStringAt;
    CStringTail(a, p, j);
    CStringTail(b, q, k);
    EquivalentIsEqual(j, k);
    if j != [] && k != [] {
      LessCons(j, k);
      LessCons(k, j);
      if a[p] == b[q] {
        StrCmpOrder(a, p + 1, j[1..], b, q + 1, k[1..]);
        assert j == [j[0]] + j[1..] && k == [k[0]] + k[1..];
      }
    }
  }

  /** Only one string starts at a position. */
  lemma CStringUnique(m: bytes, p: nat, j: bytes, k: bytes)
    requires CStringAt(m, p, j) && CStringAt(m, p, k)
    ensures j == k
  {
    StrCmpOrder(m, p, j, m, p, k);
    StrCmpOrder(m, p, j, m, p, j);
  }
}
