/** Sequences without repetition. */
module Seqs {

  ghost predicate Distinct<T>(s: seq<T>)
  {
    forall i, j :: 0 <= i < j < |s| ==> s[i] != s[j]
  }

  lemma DistinctConcat<T>(a: seq<T>, b: seq<T>)
    requires Distinct(a) && Distinct(b) && forall x :: x in a ==> x !in b
    ensures Distinct(a + b)
  {
    forall i, j | 0 <= i < j < |a + b| ensures (a + b)[i] != (a + b)[j] {
      if i < |a| <= j {
        assert a[i] in a && b[j - |a|] in b;
      }
    }
  }

  /** s with every occurrence of x removed. */
  function Without(s: seq<nat>, x: nat): (r: seq<nat>)
    ensures forall y :: y in r <==> y in s && y != x
    ensures Distinct(s) ==> Distinct(r)
  {
    if s == [] then [] else
      var r := Without(s[1..], x);
      assert forall y :: y in s <==> y == s[0] || y in s[1..];
      assert Distinct(s) ==> s[0] !in s[1..] && Distinct(s[1..]);
      if s[0] == x then r else
        assert forall i :: 0 < i < |[s[0]] + r| ==> ([s[0]] + r)[i] == r[i - 1] && r[i - 1] in r;
        [s[0]] + r
  }

  lemma {:induction false} WithoutAbsent(s: seq<nat>, x: nat)
    requires x !in s
    ensures Without(s, x) == s
    decreases |s|
  {
    if s != [] {
      WithoutAbsent(s[1..], x);
    }
  }

  lemma {:induction false} WithoutOne(s: seq<nat>, k: nat)
    requires k < |s| && Distinct(s)
    ensures Without(s, s[k]) == s[..k] + s[k + 1..]
    decreases |s|
  {
    var t := s[1..];
    if k == 0 {
      assert s[0] !in t;
      WithoutAbsent(t, s[0]);
    } else {
      WithoutOne(t, k - 1);
      assert s[0] != s[k] && t[k - 1] == s[k];
      assert s[..k] + s[k + 1..] == [s[0]] + (t[..k - 1] + t[k..]);
    }
  }

  lemma {:induction false} Pigeonhole(s: seq<nat>, n: nat)
    requires Distinct(s) && forall i :: 0 <= i < |s| ==> s[i] < n
    ensures |s| <= n
    decreases n
  {
    if s != [] {
      assert s[0] < n;
      if k :| 0 <= k < |s| && s[k] == n - 1 {
        var t := s[..k] + s[k + 1..];
        assert forall i :: 0 <= i < |t| ==> t[i] == s[if i < k then i else i + 1];
        Pigeonhole(t, n - 1);
      } else {
        Pigeonhole(s, n - 1);
      }
    }
  }

  /** A sequence without repetition is no longer than one that has all its elements. */
  lemma {:induction false} FitsIn(p: seq<nat>, q: seq<nat>)
    requires Distinct(p) && forall x :: x in p ==> x in q
    ensures |p| <= |q|
    decreases |q|
  {
    if p != [] {
      assert p[0] in p;
      assert q == [q[0]] + q[1..];
      if k :| 0 <= k < |p| && p[k] == q[0] {
        var r := p[..k] + p[k + 1..];
        assert forall i :: 0 <= i < |r| ==> r[i] == p[if i < k then i else i + 1] && r[i] != p[k];
        assert forall x :: x in r ==> x in p && x != q[0];
        FitsIn(r, q[1..]);
      } else {
        FitsIn(p, q[1..]);
      }
    }
  }

  /** The k-th element moved to the front, the others in their order. */
  function Fronted<T>(s: seq<T>, k: nat): (r: seq<T>)
    requires k < |s|
    ensures |r| == |s|
  {
    [s[k]] + s[..k] + s[k + 1..]
  }

  lemma FrontedSame<T>(s: seq<T>, k: nat)
    requires k < |s| && Distinct(s)
    ensures Distinct(Fronted(s, k)) && forall x :: x in Fronted(s, k) <==> x in s
  {
  }
}
