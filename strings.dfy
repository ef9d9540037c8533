// Operations on strings that the rules and the generator rely on: prefix,
// suffix and substring tests (`str::starts_with`, `ends_with`, `contains`),
// the lexicographic order of `String`'s `Ord`, and a stable sort by a string
// key standing for `sort_by(|a, b| a.name.cmp(&b.name))`.

module Strings {

  predicate IsPrefix(p: string, s: string)
  {
    |p| <= |s| && s[..|p|] == p
  }

  predicate IsSuffix(p: string, s: string)
  {
    |p| <= |s| && s[|s| - |p|..] == p
  }

  /** `s` contains `p` at some position. */
  predicate Contains(s: string, p: string)
    decreases |s|
  {
    IsPrefix(p, s) || (|s| > 0 && Contains(s[1..], p))
  }

  /** An occurrence of `p` at position `i` of `s`. */
  predicate OccursAt(s: string, p: string, i: nat)
  {
    i + |p| <= |s| && s[i..i + |p|] == p
  }

  lemma {:induction false} ContainsIffOccurs(s: string, p: string)
    ensures Contains(s, p) <==> exists i: nat :: OccursAt(s, p, i)
    decreases |s|
  {
    if IsPrefix(p, s) {
      assert OccursAt(s, p, 0);
    } else if |s| > 0 {
      ContainsIffOccurs(s[1..], p);
      if Contains(s[1..], p) {
        var i: nat :| OccursAt(s[1..], p, i);
        assert s[i + 1..i + 1 + |p|] == s[1..][i..i + |p|];
        assert OccursAt(s, p, i + 1);
      }
      if exists i: nat :: OccursAt(s, p, i) {
        var i: nat :| OccursAt(s, p, i);
        assert i != 0;
        assert s[1..][i - 1..i - 1 + |p|] == s[i..i + |p|];
        assert OccursAt(s[1..], p, i - 1);
      }
    }
  }

  /** Lexicographic order on strings, a prefix coming first. */
  predicate LessOrEqual(a: string, b: string)
  {
    |a| == 0 || (|b| > 0 && (a[0] < b[0] || (a[0] == b[0] && LessOrEqual(a[1..], b[1..]))))
  }

  lemma {:induction false} LessOrEqualTotal(a: string, b: string)
    ensures LessOrEqual(a, b) || LessOrEqual(b, a)
  {
    if |a| > 0 && |b| > 0 && a[0] == b[0] {
      LessOrEqualTotal(a[1..], b[1..]);
    }
  }

  lemma {:induction false} LessOrEqualTransitive(a: string, b: string, c: string)
    requires LessOrEqual(a, b) && LessOrEqual(b, c)
    ensures LessOrEqual(a, c)
  {
    if |a| > 0 && a[0] == b[0] && b[0] == c[0] {
      LessOrEqualTransitive(a[1..], b[1..], c[1..]);
    }
  }

  lemma {:induction false} LessOrEqualAntisymmetric(a: string, b: string)
    requires LessOrEqual(a, b) && LessOrEqual(b, a)
    ensures a == b
  {
    if |a| > 0 {
      LessOrEqualAntisymmetric(a[1..], b[1..]);
      assert a == [a[0]] + a[1..] && b == [b[0]] + b[1..];
    }
  }

  // ------------------------------------------------------------ sorting

  predicate SortedBy<T>(xs: seq<T>, key: T -> string)
  {
    forall i, j :: 0 <= i < j < |xs| ==> LessOrEqual(key(xs[i]), key(xs[j]))
  }

  /** Places `x` after every element whose key does not exceed its own. */
  function InsertBy<T>(xs: seq<T>, x: T, key: T -> string): (r: seq<T>)
    ensures |r| == |xs| + 1
  {
    if |xs| == 0 then [x]
    else if LessOrEqual(key(xs[0]), key(x)) then [xs[0]] + InsertBy(xs[1..], x, key)
    else [x] + xs
  }

  /** A stable sort: insertion of each element, in order, into the sorted prefix. */
  function SortBy<T>(xs: seq<T>, key: T -> string): (r: seq<T>)
    ensures |r| == |xs|
  {
    if |xs| == 0 then [] else InsertBy(SortBy(xs[..|xs| - 1], key), xs[|xs| - 1], key)
  }

  lemma {:induction false} InsertByMultiset<T>(xs: seq<T>, x: T, key: T -> string)
    ensures multiset(InsertBy(xs, x, key)) == multiset(xs) + multiset{x}
  {
    if |xs| > 0 && LessOrEqual(key(xs[0]), key(x)) {
      InsertByMultiset(xs[1..], x, key);
      assert xs == [xs[0]] + xs[1..];
    }
  }

  lemma {:induction false} InsertBySorted<T>(xs: seq<T>, x: T, key: T -> string)
    requires SortedBy(xs, key)
    ensures SortedBy(InsertBy(xs, x, key), key)
  {
    if |xs| == 0 {
    } else if LessOrEqual(key(xs[0]), key(x)) {
      var rest := InsertBy(xs[1..], x, key);
      InsertBySorted(xs[1..], x, key);
      InsertByMultiset(xs[1..], x, key);
      var r := [xs[0]] + rest;
      forall i, j | 0 <= i < j < |r|
        ensures LessOrEqual(key(r[i]), key(r[j]))
      {
        if i == 0 {
          assert r[j] in multiset(rest);
          assert r[j] in multiset(xs[1..]) + multiset{x};
          if r[j] == x {
          } else {
            assert r[j] in xs[1..];
            var k :| 0 <= k < |xs[1..]| && xs[1..][k] == r[j];
            assert xs[k + 1] == r[j];
          }
        }
      }
    } else {
      LessOrEqualTotal(key(xs[0]), key(x));
      var r := [x] + xs;
      forall i, j | 0 <= i < j < |r|
        ensures LessOrEqual(key(r[i]), key(r[j]))
      {
        if i == 0 && j > 1 {
          LessOrEqualTransitive(key(x), key(xs[0]), key(xs[j - 1]));
        }
      }
    }
  }

  /** Sorting yields a sorted permutation. */
  lemma {:induction false} SortBySortedPermutation<T>(xs: seq<T>, key: T -> string)
    ensures SortedBy(SortBy(xs, key), key)
    ensures multiset(SortBy(xs, key)) == multiset(xs)
  {
    if |xs| > 0 {
      var init := xs[..|xs| - 1];
      SortBySortedPermutation(init, key);
      InsertBySorted(SortBy(init, key), xs[|xs| - 1], key);
      InsertByMultiset(SortBy(init, key), xs[|xs| - 1], key);
      assert xs == init + [xs[|xs| - 1]];
    }
  }

  // ------------------------------------------------- distinct sequences

  predicate Distinct<T(==)>(xs: seq<T>)
  {
    forall i, j :: 0 <= i < j < |xs| ==> xs[i] != xs[j]
  }

  // ------------------------------------------------------------ sequences

  lemma SplitAt<T>(r: seq<T>, n: nat)
    requires n <= |r|
    ensures r == r[..n] + r[n..]
  {
  }

  lemma AppendAssoc<T>(a: seq<T>, b: seq<T>, c: seq<T>)
    ensures a + b + c == a + (b + c)
  {
  }
}
