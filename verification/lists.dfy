/** Order-preserving filtering (`Array.prototype.filter`, a `where` clause)
    and sums over lists, shared by the server- and client-side models. */
module Lists {
  import opened Strings

  /** The elements of `xs` satisfying `p`, in their original order. */
  function Keep<T>(xs: seq<T>, p: T -> bool): (r: seq<T>)
    ensures |r| <= |xs|
  {
    if xs == [] then []
    else (if p(xs[0]) then [xs[0]] else []) + Keep(xs[1..], p)
  }

  /** Filtering keeps every copy of a matching element and no copy of any
      other. */
  lemma {:induction false} KeepMultiset<T(!new)>(xs: seq<T>, p: T -> bool)
    ensures forall x :: multiset(Keep(xs, p))[x] == if p(x) then multiset(xs)[x] else 0
  {
    if xs != [] {
      KeepMultiset(xs[1..], p);
      assert xs == [xs[0]] + xs[1..];
    }
  }

  /** Filtering distributes over concatenation. */
  lemma {:induction false} KeepAppend<T>(xs: seq<T>, ys: seq<T>, p: T -> bool)
    ensures Keep(xs + ys, p) == Keep(xs, p) + Keep(ys, p)
  {
    if xs == [] {
      assert xs + ys == ys;
    } else {
      var head := if p(xs[0]) then [xs[0]] else [];
      KeepAppend(xs[1..], ys, p);
      assert (xs + ys)[0] == xs[0];
      assert (xs + ys)[1..] == xs[1..] + ys;
      assert Keep(xs + ys, p) == head + Keep(xs[1..] + ys, p);
      assert Keep(xs, p) == head + Keep(xs[1..], p);
      assert head + (Keep(xs[1..], p) + Keep(ys, p)) == (head + Keep(xs[1..], p)) + Keep(ys, p);
    }
  }

  /** The position of the first element at or after `from` satisfying `p`
      (a `where(...)->first()` lookup). */
  function FirstWhere<T>(xs: seq<T>, p: T -> bool, from: nat): (r: Option<nat>)
    ensures r.Some? ==> from <= r.value < |xs| && p(xs[r.value])
    ensures r.Some? ==> forall j :: from <= j < r.value ==> !p(xs[j])
    ensures r.None? ==> forall j :: from <= j < |xs| ==> !p(xs[j])
    decreases |xs| - from
  {
    if from >= |xs| then None
    else if p(xs[from]) then Some(from)
    else FirstWhere(xs, p, from + 1)
  }

  /** The first match is found at `k` when `k` matches and nothing
      between `from` and `k` does. */
  lemma {:induction false} FirstWhereIs<T>(xs: seq<T>, p: T -> bool, from: nat, k: nat)
    requires from <= k < |xs| && p(xs[k])
    requires forall j :: from <= j < k ==> !p(xs[j])
    ensures FirstWhere(xs, p, from) == Some(k)
    decreases k - from
  {
    if from < k {
      FirstWhereIs(xs, p, from + 1, k);
    }
  }

  /** `a` can be obtained from `b` by deleting elements. */
  predicate Subsequence<T(==)>(a: seq<T>, b: seq<T>)
    decreases |b|
  {
    if b == [] then a == []
    else (a != [] && a[0] == b[0] && Subsequence(a[1..], b[1..])) || Subsequence(a, b[1..])
  }

  /** Deleting elements twice is deleting elements once. */
  lemma {:induction false} SubsequenceTrans<T>(a: seq<T>, b: seq<T>, c: seq<T>)
    requires Subsequence(a, b) && Subsequence(b, c)
    ensures Subsequence(a, c)
    decreases |c|
  {
    if c != [] {
      if Subsequence(b, c[1..]) {
        SubsequenceTrans(a, b, c[1..]);
      } else if a != [] && a[0] == b[0] && Subsequence(a[1..], b[1..]) {
        SubsequenceTrans(a[1..], b[1..], c[1..]);
      } else {
        SubsequenceTrans(a, b[1..], c[1..]);
      }
    }
  }

  /** Filtering keeps the original relative order. */
  lemma {:induction false} KeepIsSubsequence<T(!new)>(xs: seq<T>, p: T -> bool)
    ensures Subsequence(Keep(xs, p), xs)
  {
    if xs != [] {
      KeepIsSubsequence(xs[1..], p);
      var rest := Keep(xs[1..], p);
      if p(xs[0]) {
        assert Keep(xs, p) == [xs[0]] + rest;
        assert ([xs[0]] + rest)[1..] == rest;
      } else {
        assert Keep(xs, p) == rest;
      }
    }
  }

  /** Filtering by a condition every element meets changes nothing. */
  lemma {:induction false} KeepAll<T(!new)>(xs: seq<T>, p: T -> bool)
    requires forall i :: 0 <= i < |xs| ==> p(xs[i])
    ensures Keep(xs, p) == xs
  {
    if xs != [] {
      KeepAll(xs[1..], p);
      assert [xs[0]] + xs[1..] == xs;
    }
  }

  /** Two filters applied in either order give the same list. */
  lemma {:induction false} KeepCommutes<T(!new)>(xs: seq<T>, p: T -> bool, q: T -> bool)
    ensures Keep(Keep(xs, p), q) == Keep(Keep(xs, q), p)
  {
    if xs != [] {
      KeepCommutes(xs[1..], p, q);
      var x := xs[0];
      var kp, kq := Keep(xs[1..], p), Keep(xs[1..], q);
      if p(x) {
        assert Keep(xs, p) == [x] + kp;
        assert ([x] + kp)[0] == x && ([x] + kp)[1..] == kp;
      } else {
        assert Keep(xs, p) == kp;
      }
      if q(x) {
        assert Keep(xs, q) == [x] + kq;
        assert ([x] + kq)[0] == x && ([x] + kq)[1..] == kq;
      } else {
        assert Keep(xs, q) == kq;
      }
      if p(x) && q(x) {
        var a := Keep(kp, q);
        assert Keep([x] + kp, q) == [x] + a;
        assert ([x] + a)[1..] == a;
        var b := Keep(kq, p);
        assert Keep([x] + kq, p) == [x] + b;
      }
    }
  }

  /** The sum of `f` over the list. */
  function Sum<T>(xs: seq<T>, f: T -> nat): nat {
    if xs == [] then 0 else f(xs[0]) + Sum(xs[1..], f)
  }

  lemma {:induction false} SumAppend<T>(xs: seq<T>, ys: seq<T>, f: T -> nat)
    ensures Sum(xs + ys, f) == Sum(xs, f) + Sum(ys, f)
  {
    if xs == [] {
      assert xs + ys == ys;
    } else {
      SumAppend(xs[1..], ys, f);
      assert (xs + ys)[0] == xs[0];
      assert (xs + ys)[1..] == xs[1..] + ys;
    }
  }

  /** Removing the element at `k` loses one copy of it. */
  lemma {:induction false} MultisetRemoveAt<T>(ys: seq<T>, k: nat)
    requires k < |ys|
    ensures multiset(ys[..k] + ys[k + 1..]) == multiset(ys) - multiset{ys[k]}
  {
    assert ys == ys[..k] + [ys[k]] + ys[k + 1..];
  }

  /** Removing the element at `k` loses its value from the sum. */
  lemma {:induction false} SumRemoveAt<T>(ys: seq<T>, k: nat, f: T -> nat)
    requires k < |ys|
    ensures Sum(ys, f) == f(ys[k]) + Sum(ys[..k] + ys[k + 1..], f)
  {
    var x := ys[k];
    var tail := ys[k + 1..];
    assert ys == ys[..k] + ([x] + tail);
    SumAppend(ys[..k], [x] + tail, f);
    SumAppend(ys[..k], tail, f);
    assert ([x] + tail)[0] == x && ([x] + tail)[1..] == tail;
  }

  /** A sum does not depend on the order of the list. */
  lemma {:induction false} SumPermutation<T>(xs: seq<T>, ys: seq<T>, f: T -> nat)
    requires multiset(xs) == multiset(ys)
    ensures Sum(xs, f) == Sum(ys, f)
    decreases |xs|
  {
    if xs != [] {
      var x := xs[0];
      assert xs == [x] + xs[1..];
      assert multiset(xs[1..]) == multiset(xs) - multiset{x};
      assert x in multiset(ys);
      var k :| 0 <= k < |ys| && ys[k] == x;
      MultisetRemoveAt(ys, k);
      SumRemoveAt(ys, k, f);
      SumPermutation(xs[1..], ys[..k] + ys[k + 1..], f);
    }
  }
}
