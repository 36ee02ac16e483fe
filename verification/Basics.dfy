/** Small vocabulary shared by every component: optional values and facts about
    sequences used as queues. */
module Basics {

  datatype Option<+T> = None | Some(value: T)

  datatype Result<+T, +E> = Ok(value: T) | Err(error: E)

  const U64_MAX: nat := 0xFFFF_FFFF_FFFF_FFFF
  const USIZE_MAX: nat := 0xFFFF_FFFF_FFFF_FFFF

  ghost predicate NoDup<T>(q: seq<T>) {
    forall i, j :: 0 <= i < j < |q| ==> q[i] != q[j]
  }

  function ToSet<T>(q: seq<T>): set<T> {
    set x | x in q
  }

  /** The queue without any entry equal to `k`, order kept (`VecDeque::retain`). */
  function Without<T(==, !new)>(q: seq<T>, k: T): (r: seq<T>)
    ensures forall x :: x in r <==> x in q && x != k
    ensures |r| <= |q|
  {
    if q == [] then []
    else if q[0] == k then Without(q[1..], k)
    else [q[0]] + Without(q[1..], k)
  }

  lemma {:induction false} WithoutAbsent<T(!new)>(q: seq<T>, k: T)
    requires k !in q
    ensures Without(q, k) == q
  {
    if q != [] {
      WithoutAbsent(q[1..], k);
    }
  }

  lemma {:induction false} WithoutNoDup<T(!new)>(q: seq<T>, k: T)
    requires NoDup(q)
    ensures NoDup(Without(q, k))
  {
    if q != [] {
      WithoutNoDup(q[1..], k);
      assert q[0] !in Without(q[1..], k);
    }
  }

  function Enqueue<T(==)>(q: seq<T>, k: T): seq<T> {
    if k in q then q else q + [k]
  }

  lemma NonEmptyHasMember<T>(q: seq<T>)
    ensures q != [] ==> exists x :: x in q
  {
    if q != [] {
      assert q[0] in q;
    }
  }

  lemma SubsetSize<T>(a: set<T>, b: set<T>)
    requires a <= b
    ensures |a| <= |b|
    ensures |a| == |b| ==> a == b
  {
    assert |b| == |a| + |b - a|;
    assert b == a + (b - a);
  }
}
