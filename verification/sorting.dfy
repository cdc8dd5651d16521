/** Newest-first ordering, as the `orderBy(..., 'desc')` clauses of the
    database queries produce it. Records are compared by a two-part key,
    major part first. */
module Sorting {

  datatype Key = Key(major: int, minor: int)

  /** Lexicographic order on keys. */
  predicate KeyLe(a: Key, b: Key) {
    a.major < b.major || (a.major == b.major && a.minor <= b.minor)
  }

  /** `s` is ordered by `key`, largest first. */
  predicate Descending<T>(s: seq<T>, key: T -> Key) {
    forall i, j :: 0 <= i < j < |s| ==> KeyLe(key(s[j]), key(s[i]))
  }

  /** `s` is ordered by `key`, smallest first. */
  predicate Ascending<T>(s: seq<T>, key: T -> Key) {
    forall i, j :: 0 <= i < j < |s| ==> KeyLe(key(s[i]), key(s[j]))
  }

  function Reverse<T>(s: seq<T>): (r: seq<T>)
    ensures |r| == |s|
    ensures forall i :: 0 <= i < |s| ==> r[i] == s[|s| - 1 - i]
  {
    if s == [] then [] else Reverse(s[1..]) + [s[0]]
  }

  lemma ReverseDescending<T>(s: seq<T>, key: T -> Key)
    requires Descending(s, key)
    ensures Ascending(Reverse(s), key)
  {
  }

  lemma {:induction false} ReverseMultiset<T>(s: seq<T>)
    ensures multiset(Reverse(s)) == multiset(s)
  {
    if s != [] {
      ReverseMultiset(s[1..]);
      assert s == [s[0]] + s[1..];
    }
  }

  /** Inserts `x` into a newest-first list, keeping it newest-first. */
  function Insert<T>(x: T, s: seq<T>, key: T -> Key): (r: seq<T>)
    requires Descending(s, key)
    ensures Descending(r, key)
    ensures multiset(r) == multiset(s) + multiset{x}
    ensures |r| == |s| + 1
  {
    if s == [] then [x]
    else if KeyLe(key(s[0]), key(x)) then [x] + s
    else
      var tail := Insert(x, s[1..], key);
      assert forall k :: 0 <= k < |tail| ==> KeyLe(key(tail[k]), key(s[0])) by {
        forall k | 0 <= k < |tail| ensures KeyLe(key(tail[k]), key(s[0])) {
          assert tail[k] in multiset(tail);
          if tail[k] != x {
            assert tail[k] in multiset(s[1..]);
            var m :| 0 <= m < |s[1..]| && s[1..][m] == tail[k];
            assert s[m + 1] == tail[k];
          }
        }
      }
      assert s == [s[0]] + s[1..];
      [s[0]] + tail
  }

  /** Newest-first sort: a permutation of `s` ordered by `key`, largest first. */
  function SortDesc<T>(s: seq<T>, key: T -> Key): (r: seq<T>)
    ensures Descending(r, key)
    ensures multiset(r) == multiset(s)
    ensures |r| == |s|
  {
    if s == [] then []
    else
      assert s == [s[0]] + s[1..];
      Insert(s[0], SortDesc(s[1..], key), key)
  }

  lemma MultisetPrefixSuffix<T>(s: seq<T>, k: nat)
    requires k <= |s|
    ensures multiset(s[..k]) <= multiset(s)
    ensures multiset(s) - multiset(s[..k]) == multiset(s[k..])
  {
    assert s == s[..k] + s[k..];
  }

  /** In a newest-first list, whatever lies from `k` on is no newer than
      anything before `k`. */
  lemma SuffixNoNewer<T>(s: seq<T>, key: T -> Key, k: nat, m: T, i: nat)
    requires Descending(s, key)
    requires i < k <= |s| && m in multiset(s[k..])
    ensures KeyLe(key(m), key(s[i]))
  {
    var j :| 0 <= j < |s[k..]| && s[k..][j] == m;
    assert s[k + j] == m;
  }

  /** Keeping the first `k` of a newest-first list and reversing them keeps
      part of the list, and everything dropped is no newer than anything
      kept. */
  lemma {:induction false} NewestPrefix<T>(s: seq<T>, key: T -> Key, k: nat)
    requires Descending(s, key)
    requires k <= |s|
    ensures var w := Reverse(s[..k]);
      && multiset(w) <= multiset(s)
      && forall m, i :: m in multiset(s) - multiset(w) && 0 <= i < |w| ==> KeyLe(key(m), key(w[i]))
  {
    var p := s[..k];
    var w := Reverse(p);
    assert multiset(w) == multiset(p) by {
      ReverseMultiset(p);
    }
    assert multiset(p) <= multiset(s) && multiset(s) - multiset(p) == multiset(s[k..]) by {
      MultisetPrefixSuffix(s, k);
    }
    forall m, i | m in multiset(s) - multiset(w) && 0 <= i < |w|
      ensures KeyLe(key(m), key(w[i]))
    {
      assert m in multiset(s[k..]);
      assert w[i] == p[k - 1 - i] == s[k - 1 - i];
      SuffixNoNewer(s, key, k, m, k - 1 - i);
    }
  }
}
