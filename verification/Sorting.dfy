/** A stand-in for the library's sort, specified by what a sort promises. */
module Sorting {
  ghost predicate Orders<T(!new)>(leq: (T, T) -> bool) {
    && (forall a, b :: leq(a, b) || leq(b, a))
    && (forall a, b, c :: leq(a, b) && leq(b, c) ==> leq(a, c))
  }

  predicate Sorted<T>(s: seq<T>, leq: (T, T) -> bool) {
    forall j, k :: 0 <= j < k < |s| ==> leq(s[j], s[k])
  }

  method Insert<T(!new)>(s: seq<T>, x: T, leq: (T, T) -> bool) returns (r: seq<T>)
    requires Orders(leq) && Sorted(s, leq)
    ensures Sorted(r, leq) && multiset(r) == multiset(s) + multiset{x}
  {
    var i := |s|;
    while i > 0 && !leq(s[i - 1], x)
      invariant 0 <= i <= |s|
      invariant forall k :: i <= k < |s| ==> leq(x, s[k])
    {
      i := i - 1;
    }
    r := s[..i] + [x] + s[i..];
    assert s == s[..i] + s[i..];
    InsertedSorted(s, i, x, leq);
  }

  lemma InsertedSorted<T(!new)>(s: seq<T>, i: nat, x: T, leq: (T, T) -> bool)
    requires Orders(leq) && Sorted(s, leq) && i <= |s|
    requires i > 0 ==> leq(s[i - 1], x)
    requires forall k :: i <= k < |s| ==> leq(x, s[k])
    ensures Sorted(s[..i] + [x] + s[i..], leq)
  {
    var r := s[..i] + [x] + s[i..];
    forall k | 0 <= k < i ensures leq(s[k], x) {
      if k < i - 1 { assert leq(s[k], s[i - 1]) && leq(s[i - 1], x); }
    }
    forall j, k | 0 <= j < k < |r| ensures leq(r[j], r[k]) {
      if j < i {
        assert r[j] == s[j];
        if k > i { assert r[k] == s[k - 1]; }
      } else if j > i {
        assert r[j] == s[j - 1] && r[k] == s[k - 1];
      }
    }
  }

  method Sort<T(!new)>(s: seq<T>, leq: (T, T) -> bool) returns (r: seq<T>)
    requires Orders(leq)
    ensures Sorted(r, leq) && multiset(r) == multiset(s)
  {
    r := [];
    for n := 0 to |s|
      invariant Sorted(r, leq) && multiset(r) == multiset(s[..n])
    {
      assert s[..n + 1] == s[..n] + [s[n]];
      r := Insert(r, s[n], leq);
    }
    assert s[..|s|] == s;
  }

  // ---------- Go's order on strings ----------

  predicate LexLeq(a: string, b: string) {
    a == "" || (b != "" && (a[0] < b[0] || (a[0] == b[0] && LexLeq(a[1..], b[1..]))))
  }

  lemma {:induction false} LexTotal(a: string, b: string)
    ensures LexLeq(a, b) || LexLeq(b, a)
  {
    if a != "" && b != "" && a[0] == b[0] { LexTotal(a[1..], b[1..]); }
  }

  lemma {:induction false} LexTransitive(a: string, b: string, c: string)
    requires LexLeq(a, b) && LexLeq(b, c)
    ensures LexLeq(a, c)
  {
    if a != "" && a[0] == b[0] == c[0] { LexTransitive(a[1..], b[1..], c[1..]); }
  }

  /** By a number, and by a string among equal numbers. */
  predicate PairLeq(p: (int, string), q: (int, string)) {
    p.0 < q.0 || (p.0 == q.0 && LexLeq(p.1, q.1))
  }

  lemma PairOrders()
    ensures Orders(PairLeq)
  {
    forall p, q ensures PairLeq(p, q) || PairLeq(q, p) { LexTotal(p.1, q.1); }
    forall p, q, r | PairLeq(p, q) && PairLeq(q, r) ensures PairLeq(p, r) {
      if p.0 == q.0 == r.0 { LexTransitive(p.1, q.1, r.1); }
    }
  }

  /** Strings stand as their first difference says, and a beginning before what goes on from it. */
  lemma {:induction false} LexLeqIff(a: string, b: string)
    ensures LexLeq(a, b) <==> a <= b || exists i :: Differ(a, b, i) && a[i] < b[i]
  {
    if a != "" && b != "" {
      if a[0] == b[0] {
        LexLeqIff(a[1..], b[1..]);
        if i :| Differ(a[1..], b[1..], i) && a[1..][i] < b[1..][i] { assert Differ(a, b, i + 1); }
        if i :| Differ(a, b, i) && a[i] < b[i] { assert Differ(a[1..], b[1..], i - 1); }
        if a[1..] <= b[1..] { assert a == [a[0]] + a[1..] && b == [b[0]] + b[1..]; }
      } else {
        assert Differ(a, b, 0);
      }
    }
  }

  /** The first place at which two strings differ. */
  predicate Differ(a: string, b: string, i: int) {
    0 <= i < |a| && i < |b| && a[i] != b[i] && forall k :: 0 <= k < i ==> a[k] == b[k]
  }
}
