/** Facts about sequences without repetition, used for queues of task slots. */
module Seqs {

  ghost predicate NoDup<T>(q: seq<T>) {
    forall i, j :: 0 <= i < j < |q| ==> q[i] != q[j]
  }

  /** `q` with every occurrence of `x` taken out. */
  function Without<T(==, !new)>(q: seq<T>, x: T): (r: seq<T>)
    ensures forall y :: y in r <==> y in q && y != x
    ensures |r| <= |q|
  {
    if q == [] then []
    else if q[0] == x then Without(q[1..], x)
    else [q[0]] + Without(q[1..], x)
  }

  lemma {:induction false} WithoutAbsent<T(!new)>(q: seq<T>, x: T)
    requires x !in q
    ensures Without(q, x) == q
  {
    if q != [] {
      WithoutAbsent(q[1..], x);
      assert q == [q[0]] + q[1..];
    }
  }

  /** Taking out the element at index `k` of a duplicate-free queue closes the gap and keeps the order. */
  lemma {:induction false} WithoutAt<T(!new)>(q: seq<T>, k: nat)
    requires NoDup(q) && k < |q|
    ensures Without(q, q[k]) == q[..k] + q[k + 1..]
  {
    if k == 0 {
      assert q[0] !in q[1..];
      WithoutAbsent(q[1..], q[0]);
    } else {
      WithoutAt(q[1..], k - 1);
      assert q[1..][..k - 1] == q[1..k];
      assert q[1..][k..] == q[k + 1..];
      assert q[..k] == [q[0]] + q[1..k];
    }
  }

  lemma WithoutNoDup<T(!new)>(q: seq<T>, x: T)
    requires NoDup(q)
    ensures NoDup(Without(q, x))
  {
    if x in q {
      var k :| 0 <= k < |q| && q[k] == x;
      WithoutAt(q, k);
    } else {
      WithoutAbsent(q, x);
    }
  }

  lemma TailMembers<T(!new)>(q: seq<T>)
    requires NoDup(q) && q != []
    ensures NoDup(q[1..])
    ensures forall x :: x in q[1..] <==> x in q && x != q[0]
  {
    forall x
      ensures x in q[1..] <==> x in q && x != q[0]
    {
      assert q == [q[0]] + q[1..];
    }
  }

  lemma AppendNoDup<T>(q: seq<T>, x: T)
    requires NoDup(q) && x !in q
    ensures NoDup(q + [x])
  {
  }

  /** What `list_first` followed by `list_del` leaves. */
  function Rest<T(!new)>(q: seq<T>): (r: seq<T>)
    requires q != []
    ensures forall x :: x in r ==> x in q
    ensures r == q[1..]
  {
    q[1..]
  }

  // ---------------------------------------------------------------- counting

  function Elements(q: seq<nat>): set<nat> {
    set i | i in q
  }

  lemma {:induction false} NoDupCount(q: seq<nat>)
    requires NoDup(q)
    ensures |Elements(q)| == |q|
  {
    if q == [] {
      assert Elements(q) == {};
    } else {
      NoDupCount(q[1..]);
      TailMembers(q);
      assert Elements(q) == Elements(q[1..]) + {q[0]};
    }
  }

  lemma SubsetCount(a: set<nat>, b: set<nat>)
    requires a <= b
    ensures |a| <= |b|
  {
    assert b == a + (b - a);
  }

  /** The first `n` task slots. */
  function Slots(n: nat): (r: set<nat>)
    ensures forall i: nat :: i in r <==> i < n
    ensures |r| == n
  {
    if n == 0 then {} else Slots(n - 1) + {n - 1}
  }
}
