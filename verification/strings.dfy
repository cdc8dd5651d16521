/** Sequence and string helpers shared by the server-side and client-side
    models. Strings are `seq<char>`; where the source works on bytes, each
    char stands for one byte. */
module Strings {

  /** An optional value: PHP's `null` or JavaScript's `undefined`/`null`. */
  datatype Option<T> = None | Some(value: T)

  predicate StartsWith(s: string, p: string) {
    |p| <= |s| && s[..|p|] == p
  }

  predicate EndsWith(s: string, p: string) {
    |p| <= |s| && s[|s| - |p|..] == p
  }

  /** `p` occurs in `s` starting at index `i`. */
  predicate OccursAt(s: string, p: string, i: nat) {
    i + |p| <= |s| && s[i..i + |p|] == p
  }

  /** Substring containment (JavaScript `includes`); the empty string is
      contained in every string. */
  predicate Contains(s: string, p: string) {
    exists i: nat | i <= |s| :: OccursAt(s, p, i)
  }

  /** Index of the first occurrence of `p` in `s` at or after `from`
      (JavaScript `indexOf(p, from)`, with `None` for -1). */
  function IndexOf(s: string, p: string, from: nat): (r: Option<nat>)
    ensures r.Some? ==> from <= r.value && OccursAt(s, p, r.value)
    ensures r.Some? ==> forall j: nat :: from <= j < r.value ==> !OccursAt(s, p, j)
    ensures r.None? ==> forall j: nat :: from <= j ==> !OccursAt(s, p, j)
    decreases |s| - from
  {
    if from + |p| > |s| then None
    else if OccursAt(s, p, from) then Some(from)
    else IndexOf(s, p, from + 1)
  }

  /** `IndexOf` finds exactly the first occurrence at or after `from`. */
  lemma IndexOfFirst(s: string, p: string, from: nat, k: nat)
    requires from <= k && OccursAt(s, p, k)
    requires forall j: nat :: from <= j < k ==> !OccursAt(s, p, j)
    ensures IndexOf(s, p, from) == Some(k)
  {
  }

  lemma IndexOfAbsent(s: string, p: string, from: nat)
    requires forall j: nat :: from <= j ==> !OccursAt(s, p, j)
    ensures IndexOf(s, p, from) == None
  {
  }

  /** A pattern whose first character does not recur in it cannot occur at
      `j` when that character stands at a later position `m` inside the
      would-be match. */
  lemma NoOccurrenceAcross(s: string, p: string, j: nat, m: nat)
    requires j < m < j + |p| && m < |s| && s[m] == p[0]
    requires forall k :: 0 < k < |p| ==> p[k] != p[0]
    ensures !OccursAt(s, p, j)
  {
    if j + |p| <= |s| {
      assert s[j..j + |p|][m - j] == s[m];
      assert p[m - j] != p[0];
    }
  }

  /** No occurrence lies wholly inside a stretch of `s` that is a copy of a
      string not containing the pattern. */
  lemma NoOccurrenceWithin(s: string, x: string, p: string, off: nat, j: nat)
    requires off + |x| <= |s| && s[off..off + |x|] == x && !Contains(x, p)
    requires off <= j && j + |p| <= off + |x|
    ensures !OccursAt(s, p, j)
  {
    var w, v := s[j..j + |p|], x[j - off..j - off + |p|];
    forall i | 0 <= i < |p| ensures w[i] == v[i] {
      assert s[off..off + |x|][j - off + i] == s[j + i];
    }
    assert w == v;
    assert OccursAt(s, p, j) == OccursAt(x, p, j - off);
  }

  /** In-order concatenation of a list of strings. */
  function Concat(xs: seq<string>): string {
    if xs == [] then "" else xs[0] + Concat(xs[1..])
  }

  lemma {:induction false} ConcatAppend(xs: seq<string>, ys: seq<string>)
    ensures Concat(xs + ys) == Concat(xs) + Concat(ys)
  {
    if xs != [] {
      assert (xs + ys)[0] == xs[0];
      assert (xs + ys)[1..] == xs[1..] + ys;
      ConcatAppend(xs[1..], ys);
    } else {
      assert xs + ys == ys;
    }
  }

  lemma ConcatSingle(a: string)
    ensures Concat([a]) == a
  {
    assert [a][1..] == [];
  }

  lemma ConcatPair(a: string, b: string)
    ensures Concat([a, b]) == a + b
  {
    assert [a, b][1..] == [b];
    ConcatSingle(b);
  }

  /** Number of occurrences of `c` in `s`. */
  function CountChar(s: string, c: char): nat {
    if s == [] then 0 else (if s[0] == c then 1 else 0) + CountChar(s[1..], c)
  }

  lemma {:induction false} CountCharAppend(a: string, b: string, c: char)
    ensures CountChar(a + b, c) == CountChar(a, c) + CountChar(b, c)
  {
    if a != [] {
      assert (a + b)[0] == a[0];
      assert (a + b)[1..] == a[1..] + b;
      CountCharAppend(a[1..], b, c);
    } else {
      assert a + b == b;
    }
  }

  lemma {:induction false} CountCharAbsent(s: string, c: char)
    requires c !in s
    ensures CountChar(s, c) == 0
  {
    if s != [] {
      CountCharAbsent(s[1..], c);
    }
  }

  /** Splits `s` at every occurrence of `c` (PHP `explode` and JavaScript
      `split` with a one-character separator): the pieces never contain `c`,
      and there is one more piece than there are separators. */
  function Split(s: string, c: char): (r: seq<string>)
    ensures |r| == CountChar(s, c) + 1
    ensures forall i :: 0 <= i < |r| ==> c !in r[i]
  {
    if s == [] then [""]
    else
      var rest := Split(s[1..], c);
      if s[0] == c then [""] + rest
      else [[s[0]] + rest[0]] + rest[1..]
  }

  /** Joins pieces with a separator (PHP `implode`, JavaScript `join`). */
  function Join(xs: seq<string>, sep: string): string {
    if |xs| == 0 then ""
    else if |xs| == 1 then xs[0]
    else xs[0] + sep + Join(xs[1..], sep)
  }

  lemma JoinCons(x: string, xs: seq<string>, sep: string)
    requires |xs| >= 1
    ensures Join([x] + xs, sep) == x + sep + Join(xs, sep)
  {
    assert ([x] + xs)[1..] == xs;
  }

  /** Joining the pieces of a split with the same separator gives back the
      original string. */
  lemma {:induction false} JoinSplit(s: string, c: char)
    ensures Join(Split(s, c), [c]) == s
  {
    if s != [] {
      var rest := Split(s[1..], c);
      JoinSplit(s[1..], c);
      assert s == [s[0]] + s[1..];
      if s[0] == c {
        assert Split(s, c) == [""] + rest;
        JoinCons("", rest, [c]);
      } else if |rest| == 1 {
        assert Split(s, c) == [[s[0]] + rest[0]];
      } else {
        var head := [s[0]] + rest[0];
        assert Split(s, c) == [head] + rest[1..];
        assert Join(rest, [c]) == rest[0] + [c] + Join(rest[1..], [c]) by {
          assert rest == [rest[0]] + rest[1..];
          JoinCons(rest[0], rest[1..], [c]);
        }
        JoinCons(head, rest[1..], [c]);
      }
    }
  }

  lemma {:induction false} SplitNoSeparator(x: string, c: char)
    requires c !in x
    ensures Split(x, c) == [x]
  {
    if x != [] {
      SplitNoSeparator(x[1..], c);
      assert [x[0]] + x[1..] == x;
    }
  }

  lemma {:induction false} SplitAtSeparator(x: string, t: string, c: char)
    requires c !in x
    ensures Split(x + [c] + t, c) == [x] + Split(t, c)
  {
    if x == [] {
      assert x + [c] + t == [c] + t;
      assert ([c] + t)[1..] == t;
    } else {
      SplitAtSeparator(x[1..], t, c);
      assert (x + [c] + t)[1..] == x[1..] + [c] + t;
      assert [x[0]] + x[1..] == x;
    }
  }

  /** One step of `Split`, for a string given by its first character. */
  lemma SplitCons(a: char, w: string, c: char)
    ensures Split([a] + w, c) == if a == c then [""] + Split(w, c)
      else [[a] + Split(w, c)[0]] + Split(w, c)[1..]
  {
    assert ([a] + w)[0] == a && ([a] + w)[1..] == w;
  }

  /** Splitting a concatenation: the complete pieces of `x`, then the split
      of `x`'s last, unterminated piece continued by `y`. */
  lemma {:induction false} SplitAppend(x: string, y: string, c: char)
    ensures var sx := Split(x, c);
      Split(x + y, c) == sx[..|sx| - 1] + Split(sx[|sx| - 1] + y, c)
  {
    if x == [] {
      assert x + y == y;
    } else {
      var a, x' := x[0], x[1..];
      assert x == [a] + x';
      assert x + y == [a] + (x' + y);
      SplitAppend(x', y, c);
      SplitCons(a, x', c);
      SplitCons(a, x' + y, c);
      var s' := Split(x', c);
      var t := Split(s'[|s'| - 1] + y, c);
      var r := Split(x' + y, c);
      if a == c {
        PrependPiece("", s', t, r);
      } else if |s'| == 1 {
        SplitCons(a, s'[0] + y, c);
        assert [a] + s'[0] + y == [a] + (s'[0] + y);
      } else {
        ExtendFirstPiece([a], s', t, r);
      }
    }
  }

  lemma PrependPiece(p: string, s: seq<string>, t: seq<string>, r: seq<string>)
    requires |s| >= 1 && r == s[..|s| - 1] + t
    ensures var q := [p] + s; [p] + r == q[..|q| - 1] + t
  {
    var q := [p] + s;
    assert q[..|q| - 1] == [p] + s[..|s| - 1];
  }

  lemma ExtendFirstPiece(p: string, s: seq<string>, t: seq<string>, r: seq<string>)
    requires |s| >= 2 && r == s[..|s| - 1] + t
    ensures var q := [p + s[0]] + s[1..];
      [p + r[0]] + r[1..] == q[..|q| - 1] + t && q[|q| - 1] == s[|s| - 1]
  {
    var q := [p + s[0]] + s[1..];
    assert r[0] == s[0];
    assert r[1..] == s[1..|s| - 1] + t;
    assert q[..|q| - 1] == [p + s[0]] + s[1..|s| - 1];
  }

  /** Splitting a join recovers the pieces when no piece contains the
      separator character. */
  lemma {:induction false} SplitJoin(xs: seq<string>, c: char)
    requires |xs| >= 1
    requires forall i :: 0 <= i < |xs| ==> c !in xs[i]
    ensures Split(Join(xs, [c]), c) == xs
  {
    if |xs| == 1 {
      SplitNoSeparator(xs[0], c);
    } else {
      SplitJoin(xs[1..], c);
      assert xs[0] + [c] + Join(xs[1..], [c]) == Join(xs, [c]);
      SplitAtSeparator(xs[0], Join(xs[1..], [c]), c);
      assert [xs[0]] + xs[1..] == xs;
    }
  }

  /** Joining the first `k` pieces gives a prefix of joining all of them. */
  lemma {:induction false} JoinPrefix(xs: seq<string>, k: nat, sep: string)
    requires k <= |xs|
    ensures StartsWith(Join(xs, sep), Join(xs[..k], sep))
  {
    if k == 0 {
    } else if k == 1 {
      assert xs[..1] == [xs[0]];
    } else {
      JoinPrefix(xs[1..], k - 1, sep);
      assert xs[..k][1..] == xs[1..][..k - 1];
    }
  }

  /** A join of pieces free of `c`, with separator `c`, contains exactly one
      `c` fewer than there are pieces. */
  lemma {:induction false} CountJoin(xs: seq<string>, c: char)
    requires |xs| >= 1
    requires forall i :: 0 <= i < |xs| ==> c !in xs[i]
    ensures CountChar(Join(xs, [c]), c) == |xs| - 1
  {
    CountCharAbsent(xs[0], c);
    if |xs| > 1 {
      CountJoin(xs[1..], c);
      CountCharAppend(xs[0] + [c], Join(xs[1..], [c]), c);
      CountCharAppend(xs[0], [c], c);
    }
  }

  /** Removes leading characters satisfying `ws`. */
  function TrimStart(s: string, ws: char -> bool): (r: string)
    ensures EndsWith(s, r)
    ensures r == [] || !ws(r[0])
    ensures forall i :: 0 <= i < |s| - |r| ==> ws(s[i])
  {
    if s == [] || !ws(s[0]) then s else TrimStart(s[1..], ws)
  }

  /** Removes trailing characters satisfying `ws`. */
  function TrimEnd(s: string, ws: char -> bool): (r: string)
    ensures StartsWith(s, r)
    ensures r == [] || !ws(r[|r| - 1])
    ensures forall i :: |r| <= i < |s| ==> ws(s[i])
  {
    if s == [] || !ws(s[|s| - 1]) then s else TrimEnd(s[..|s| - 1], ws)
  }

  /** Removes leading and trailing characters satisfying `ws`. */
  function Trim(s: string, ws: char -> bool): string {
    TrimEnd(TrimStart(s, ws), ws)
  }

  /** A string trims to the empty string exactly when all its characters
      are trimmed characters. */
  lemma TrimEmptyIff(s: string, ws: char -> bool)
    ensures Trim(s, ws) == "" <==> forall i :: 0 <= i < |s| ==> ws(s[i])
  {
    var t := TrimStart(s, ws);
    if Trim(s, ws) == "" {
      forall i | 0 <= i < |s| ensures ws(s[i]) {
        if i >= |s| - |t| {
          assert s[i] == t[i - (|s| - |t|)];
        }
      }
    }
  }

  function DigitChar(d: nat): char
    requires d < 10
  {
    ('0' as int + d) as char
  }

  /** Decimal rendering of a natural number (PHP's string conversion of an
      integer id or timestamp). */
  function NatToString(n: nat): (r: string)
    ensures |r| >= 1
    ensures forall i :: 0 <= i < |r| ==> '0' <= r[i] <= '9'
  {
    if n < 10 then [DigitChar(n)] else NatToString(n / 10) + [DigitChar(n % 10)]
  }

  /** Value of a string of decimal digits. */
  function DigitsValue(s: string): nat
    requires forall i :: 0 <= i < |s| ==> '0' <= s[i] <= '9'
  {
    if s == [] then 0 else DigitsValue(s[..|s| - 1]) * 10 + (s[|s| - 1] as int - '0' as int)
  }

  /** The decimal rendering reads back as the same number, so distinct
      numbers render differently. */
  lemma {:induction false} NatToStringRoundTrip(n: nat)
    ensures DigitsValue(NatToString(n)) == n
  {
    if n >= 10 {
      NatToStringRoundTrip(n / 10);
      var r := NatToString(n);
      assert r[..|r| - 1] == NatToString(n / 10);
    }
  }
}
