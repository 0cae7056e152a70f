/** Sums over the elements of a sequence. */
module Tally {

  function Sum<T>(q: seq<T>, f: T -> int): int {
    if q == [] then 0 else Sum(q[..|q| - 1], f) + f(q[|q| - 1])
  }

  function Without<T>(q: seq<T>, i: nat): seq<T>
    requires i < |q|
  {
    q[..i] + q[i + 1..]
  }

  lemma WithoutIsWithin<T>(q: seq<T>, i: nat)
    requires i < |q|
    ensures forall s :: s in Without(q, i) ==> s in q
  {
    forall s | s in Without(q, i)
      ensures s in q
    {
      var j :| 0 <= j < |q| - 1 && Without(q, i)[j] == s;
      assert s == q[if j < i then j else j + 1];
    }
  }

  lemma Append<T>(q: seq<T>, x: T, f: T -> int)
    ensures Sum(q + [x], f) == Sum(q, f) + f(x)
  {
    assert (q + [x])[..|q|] == q;
  }

  lemma {:induction false} Remove<T>(q: seq<T>, i: nat, f: T -> int)
    requires i < |q|
    ensures Sum(q, f) == Sum(Without(q, i), f) + f(q[i])
  {
    if i == |q| - 1 {
      assert Without(q, i) == q[..i];
    } else {
      Remove(q[..|q| - 1], i, f);
      assert Without(q, i)[..|q| - 2] == Without(q[..|q| - 1], i);
      assert Without(q, i)[|q| - 2] == q[|q| - 1];
    }
  }

  lemma RemoveFirst<T>(q: seq<T>, f: T -> int)
    requires q != []
    ensures Sum(q, f) == Sum(q[1..], f) + f(q[0])
  {
    Remove(q, 0, f);
    assert Without(q, 0) == q[1..];
  }

  lemma {:induction false} Update<T>(q: seq<T>, i: nat, x: T, f: T -> int)
    requires i < |q|
    ensures Sum(q[i := x], f) == Sum(q, f) - f(q[i]) + f(x)
  {
    if i < |q| - 1 {
      Update(q[..|q| - 1], i, x, f);
      assert q[i := x][..|q| - 1] == q[..|q| - 1][i := x];
    } else {
      assert q[i := x][..|q| - 1] == q[..|q| - 1];
    }
  }

  lemma {:induction false} NonNegative<T>(q: seq<T>, f: T -> int)
    requires forall x :: 0 <= f(x)
    ensures 0 <= Sum(q, f)
  {
    if q != [] {
      NonNegative(q[..|q| - 1], f);
    }
  }

  lemma {:induction false} Zero<T>(q: seq<T>, f: T -> int)
    requires forall i :: 0 <= i < |q| ==> f(q[i]) == 0
    ensures Sum(q, f) == 0
  {
    if q != [] {
      Zero(q[..|q| - 1], f);
    }
  }

  lemma Has<T>(q: seq<T>, i: nat, f: T -> int)
    requires i < |q| && forall x :: 0 <= f(x)
    ensures f(q[i]) <= Sum(q, f)
  {
    Remove(q, i, f);
    NonNegative(Without(q, i), f);
  }

  lemma HasTwo<T>(q: seq<T>, i: nat, j: nat, f: T -> int)
    requires i < |q| && j < |q| && i != j && forall x :: 0 <= f(x)
    ensures f(q[i]) + f(q[j]) <= Sum(q, f)
  {
    Remove(q, i, f);
    var k := if j < i then j else j - 1;
    assert Without(q, i)[k] == q[j];
    Has(Without(q, i), k, f);
  }
}
