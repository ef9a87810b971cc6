/**
 Enumeration of a finite set in a fixed order.

 Swift iterates a `Set` in an unspecified order. Wherever the editor's result
 depends on that order (which of several wires comes first, the order of
 notifications), the model enumerates the set in ascending order of a total
 order chosen by the caller: one admissible run of the source.
 */
module Enumeration {

  /** `leq` is a total order: total, antisymmetric and transitive. */
  ghost predicate TotalOrder<T(!new)>(leq: (T, T) -> bool) {
    && (forall a, b :: leq(a, b) || leq(b, a))
    && (forall a, b :: leq(a, b) && leq(b, a) ==> a == b)
    && (forall a, b, c :: leq(a, b) && leq(b, c) ==> leq(a, c))
  }

  /** `m` is a least element of `s`. */
  ghost predicate IsLeast<T>(m: T, s: set<T>, leq: (T, T) -> bool) {
    m in s && forall v :: v in s ==> leq(m, v)
  }

  /** Every non-empty finite set has a least element. */
  lemma {:induction false} LeastExists<T(!new)>(s: set<T>, leq: (T, T) -> bool)
    requires TotalOrder(leq)
    requires s != {}
    ensures exists m :: IsLeast(m, s, leq)
    decreases s
  {
    var x :| x in s;
    if s != {x} {
      LeastExists(s - {x}, leq);
      var m :| IsLeast(m, s - {x}, leq);
      if leq(x, m) {
        assert IsLeast(x, s, leq);
      } else {
        assert IsLeast(m, s, leq);
      }
    } else {
      assert IsLeast(x, s, leq);
    }
  }

  /** The elements of `s` in strictly ascending order of `leq`, each exactly once. */
  function Sorted<T(!new)>(s: set<T>, leq: (T, T) -> bool): (r: seq<T>)
    requires TotalOrder(leq)
    ensures |r| == |s|
    ensures forall k :: 0 <= k < |r| ==> r[k] in s
    ensures forall v :: v in s ==> v in r
    ensures forall j, k :: 0 <= j < k < |r| ==> leq(r[j], r[k]) && r[j] != r[k]
    decreases s
  {
    if s == {} then []
    else
      LeastExists(s, leq);
      var m :| m in s && forall v :: v in s ==> leq(m, v);
      [m] + Sorted(s - {m}, leq)
  }

  /** `a` is strictly ascending under `leq`. */
  ghost predicate Ascending<T>(a: seq<T>, leq: (T, T) -> bool) {
    forall j, k :: 0 <= j < k < |a| ==> leq(a[j], a[k]) && a[j] != a[k]
  }

  /** Under a total order, a set has exactly one strictly ascending enumeration. */
  lemma {:induction false} AscendingUnique<T(!new)>(a: seq<T>, b: seq<T>, leq: (T, T) -> bool)
    requires TotalOrder(leq)
    requires Ascending(a, leq) && Ascending(b, leq)
    requires forall x :: x in a <==> x in b
    ensures a == b
    decreases |a|
  {
    if a == [] {
      if b != [] {
        HeadIn(b);
        assert false;
      }
    } else {
      assert a[0] in b;
      var k :| 0 <= k < |b| && b[k] == a[0];
      assert b[0] in b && b[0] in a;
      var m :| 0 <= m < |a| && a[m] == b[0];
      HeadLeast(a, leq, m);
      HeadLeast(b, leq, k);
      assert a[0] == b[0];
      TailsAgree(a, b, leq);
      AscendingUnique(a[1..], b[1..], leq);
      assert a == [a[0]] + a[1..] && b == [b[0]] + b[1..];
    }
  }

  /** The head of an ascending sequence is its least element. */
  lemma HeadLeast<T(!new)>(a: seq<T>, leq: (T, T) -> bool, m: nat)
    requires TotalOrder(leq) && Ascending(a, leq)
    requires m < |a|
    ensures leq(a[0], a[m])
  {
  }

  /** Two ascending sequences with the same elements and the same head have tails with the same elements. */
  lemma TailsAgree<T(!new)>(a: seq<T>, b: seq<T>, leq: (T, T) -> bool)
    requires Ascending(a, leq) && Ascending(b, leq)
    requires forall x :: x in a <==> x in b
    requires |a| > 0 && |b| > 0 && a[0] == b[0]
    ensures Ascending(a[1..], leq) && Ascending(b[1..], leq)
    ensures forall x :: x in a[1..] <==> x in b[1..]
  {
    forall x
      ensures x in a[1..] ==> x in b[1..]
    {
      if x in a[1..] {
        var j :| 1 <= j < |a| && a[j] == x;
        assert x in b;
        var i :| 0 <= i < |b| && b[i] == x;
        assert b[1..][i - 1] == x;
      }
    }
    forall x
      ensures x in b[1..] ==> x in a[1..]
    {
      if x in b[1..] {
        var j :| 1 <= j < |b| && b[j] == x;
        assert x in a;
        var i :| 0 <= i < |a| && a[i] == x;
        assert a[1..][i - 1] == x;
      }
    }
  }

  /** The head of a non-empty sequence is one of its elements. */
  lemma HeadIn<T>(s: seq<T>)
    ensures |s| > 0 ==> s[0] in s
  {
  }

  /** Ascending order on indices. */
  function NatLeq(a: nat, b: nat): bool { a <= b }

  lemma NatLeqIsTotal()
    ensures TotalOrder(NatLeq)
  {
  }
}
