/** Sequence helpers shared by the table bookkeeping: the cyclic successor of
    `utils.rs`, the optional comparison `compare`, rotation (deck cut, player
    reordering), order-preserving filtering and the subsequence relation. */
module Utils {
  import opened Wrappers

  /** `get_next_index`: the index after `current`, wrapping to 0. The source
      computes `len() - 1` on an unsigned length, so an empty vector would
      underflow; callers always pass a non-empty one. */
  function GetNextIndex<T>(v: seq<T>, current: nat): (r: nat)
    requires |v| >= 1
    ensures r < |v|
    ensures current < |v| ==> r == (current + 1) % |v|
    ensures current >= |v| - 1 ==> r == 0
  {
    if current < |v| - 1 then current + 1 else 0
  }

  /** `k` successive applications of `GetNextIndex`. */
  function IterateNext<T>(v: seq<T>, current: nat, k: nat): nat
    requires |v| >= 1
  {
    if k == 0 then current else GetNextIndex(v, IterateNext(v, current, k - 1))
  }

  /** Walking `k` steps from an in-range index lands on `(current + k) % |v|`. */
  lemma {:induction false} IterateNextIsModular<T>(v: seq<T>, current: nat, k: nat)
    requires |v| >= 1 && current < |v|
    ensures IterateNext(v, current, k) == (current + k) % |v|
  {
    if k > 0 {
      IterateNextIsModular(v, current, k - 1);
      ModSuccessor(current + k - 1, |v|);
    }
  }

  lemma ModSuccessor(a: nat, n: nat)
    requires n >= 1
    ensures a % n < n - 1 ==> (a + 1) % n == a % n + 1
    ensures a % n == n - 1 ==> (a + 1) % n == 0
  {
    var q := a / n;
    assert a == q * n + a % n;
    if a % n < n - 1 {
      assert a + 1 == q * n + (a % n + 1);
      DivModUnique(a + 1, n, q, a % n + 1);
    } else {
      assert a + 1 == (q + 1) * n + 0;
      DivModUnique(a + 1, n, q + 1, 0);
    }
  }

  lemma DivModUnique(a: nat, n: nat, q: int, r: int)
    requires n >= 1 && 0 <= r < n && a == q * n + r
    ensures a % n == r
    ensures a / n == q
  {
    var q' := a / n;
    var r' := a % n;
    assert a == q' * n + r';
    assert (q - q') * n == q * n - q' * n;
    if q > q' {
      MulAtLeast(q - q', n);
    } else if q < q' {
      MulAtLeast(q' - q, n);
    }
  }

  lemma MulAtLeast(k: int, n: int)
    requires k >= 1 && n >= 1
    ensures k * n >= n
  {
  }

  /** Going round the whole table brings the index back where it started. */
  lemma FullCycleReturns<T>(v: seq<T>, current: nat)
    requires |v| >= 1 && current < |v|
    ensures IterateNext(v, current, |v|) == current
  {
    IterateNextIsModular(v, current, |v|);
    DivModUnique(current + |v|, |v|, 1, current);
  }

  /** `compare`: a missing right-hand side always compares true. */
  function Compare<T>(a: T, b: Option<T>, comparator: (T, T) -> bool): (r: bool)
    ensures b.None? ==> r
    ensures b.Some? ==> (r <==> comparator(a, b.value))
  {
    match b
    case Some(b) => comparator(a, b)
    case None => true
  }

  /** `s[k..] ++ s[..k]`: the rotation behind the deck cut and the player
      reordering. */
  function Rotate<T>(s: seq<T>, k: nat): (r: seq<T>)
    requires k <= |s|
    ensures |r| == |s|
    ensures multiset(r) == multiset(s)
    ensures forall i :: 0 <= i < |s| ==> r[i] == s[(i + k) % |s|]
  {
    var r := s[k..] + s[..k];
    assert s == s[..k] + s[k..];
    forall i | 0 <= i < |s|
      ensures r[i] == s[(i + k) % |s|]
    {
      if i < |s| - k {
        DivModUnique(i + k, |s|, 0, i + k);
      } else {
        DivModUnique(i + k, |s|, 1, i + k - |s|);
      }
    }
    r
  }

  /** The elements of `s` satisfying `p`, in their original order. */
  function Filter<T>(s: seq<T>, p: T -> bool): (r: seq<T>)
    ensures |r| <= |s|
    ensures forall i :: 0 <= i < |r| ==> r[i] in s && p(r[i])
    ensures forall i :: 0 <= i < |s| && p(s[i]) ==> s[i] in r
  {
    if |s| == 0 then []
    else if p(s[0]) then [s[0]] + Filter(s[1..], p)
    else Filter(s[1..], p)
  }

  lemma {:induction false} FilterConcat<T>(a: seq<T>, b: seq<T>, p: T -> bool)
    ensures Filter(a + b, p) == Filter(a, p) + Filter(b, p)
  {
    if |a| > 0 {
      assert (a + b)[1..] == a[1..] + b;
      FilterConcat(a[1..], b, p);
    } else {
      assert a + b == b;
    }
  }

  /** Filtering keeps the surviving elements in their original order. */
  lemma {:induction false} FilterSubsequence<T>(s: seq<T>, p: T -> bool)
    ensures SubsequenceOf(Filter(s, p), s)
  {
    if |s| > 0 {
      FilterSubsequence(s[1..], p);
      if p(s[0]) {
        assert Filter(s, p)[1..] == Filter(s[1..], p);
      }
    }
  }

  /** Filtering keeps every occurrence of a kept element and nothing else. */
  lemma {:induction false} FilterMultiplicity<T>(s: seq<T>, p: T -> bool, x: T)
    ensures multiset(Filter(s, p))[x] == if p(x) then multiset(s)[x] else 0
  {
    if |s| > 0 {
      FilterMultiplicity(s[1..], p, x);
      assert s == [s[0]] + s[1..];
    }
  }

  /** Filtering keeps everything when every element qualifies. */
  lemma {:induction false} FilterAll<T>(s: seq<T>, p: T -> bool)
    requires forall i :: 0 <= i < |s| ==> p(s[i])
    ensures Filter(s, p) == s
  {
    if |s| > 0 {
      FilterAll(s[1..], p);
      assert s == [s[0]] + s[1..];
    }
  }

  /** Filtering keeps nothing when no element qualifies. */
  lemma {:induction false} FilterNone<T>(s: seq<T>, p: T -> bool)
    requires forall i :: 0 <= i < |s| ==> !p(s[i])
    ensures Filter(s, p) == []
  {
    if |s| > 0 {
      FilterNone(s[1..], p);
    }
  }

  /** Two tests that agree everywhere filter alike. */
  lemma {:induction false} FilterCongruent<T>(s: seq<T>, p: T -> bool, q: T -> bool)
    requires forall x :: p(x) == q(x)
    ensures Filter(s, p) == Filter(s, q)
  {
    if |s| > 0 {
      FilterCongruent(s[1..], p, q);
    }
  }

  /** The negation of a test. */
  function Not<T>(p: T -> bool): T -> bool {
    x => !p(x)
  }

  /** Every element is kept either by a test or by its negation. */
  lemma {:induction false} FilterComplement<T>(s: seq<T>, p: T -> bool)
    ensures |Filter(s, p)| + |Filter(s, Not(p))| == |s|
  {
    if |s| > 0 {
      FilterComplement(s[1..], p);
    }
  }

  /** Rearranging a sequence rearranges its filtered part, so the number of
      kept elements does not change. */
  lemma FilterPermutation<T>(a: seq<T>, b: seq<T>, p: T -> bool)
    requires multiset(a) == multiset(b)
    ensures multiset(Filter(a, p)) == multiset(Filter(b, p))
    ensures |Filter(a, p)| == |Filter(b, p)|
  {
    forall x
      ensures multiset(Filter(a, p))[x] == multiset(Filter(b, p))[x]
    {
      FilterMultiplicity(a, p, x);
      FilterMultiplicity(b, p, x);
    }
    assert multiset(Filter(a, p)) == multiset(Filter(b, p));
    assert |Filter(a, p)| == |multiset(Filter(a, p))| == |multiset(Filter(b, p))| == |Filter(b, p)|;
  }

  /** No element occurs twice. */
  predicate Distinct<T(==)>(s: seq<T>) {
    forall i, j :: 0 <= i < j < |s| ==> s[i] != s[j]
  }

  /** Distinctness is a property of the multiset: every element occurs at
      most once. */
  lemma {:induction false} DistinctMultiset<T>(s: seq<T>)
    ensures Distinct(s) <==> forall x :: multiset(s)[x] <= 1
  {
    if |s| > 0 {
      DistinctMultiset(s[1..]);
      assert s == [s[0]] + s[1..];
      assert multiset(s) == multiset{s[0]} + multiset(s[1..]);
      if Distinct(s) {
        assert Distinct(s[1..]) by {
          forall i, j | 0 <= i < j < |s[1..]|
            ensures s[1..][i] != s[1..][j]
          {
            assert s[1..][i] == s[i + 1] && s[1..][j] == s[j + 1];
          }
        }
        assert s[0] !in multiset(s[1..]) by {
          forall k | 0 <= k < |s[1..]|
            ensures s[1..][k] != s[0]
          {
            assert s[1..][k] == s[k + 1];
          }
        }
      }
      if forall x :: multiset(s)[x] <= 1 {
        assert multiset(s[1..])[s[0]] == 0 by {
          assert multiset(s)[s[0]] == 1 + multiset(s[1..])[s[0]];
        }
        assert Distinct(s[1..]) by {
          forall x
            ensures multiset(s[1..])[x] <= 1
          {
            assert multiset(s[1..])[x] <= multiset(s)[x];
          }
        }
        forall i, j | 0 <= i < j < |s|
          ensures s[i] != s[j]
        {
          if i == 0 {
            assert s[j] in multiset(s[1..]) by {
              assert s[j] == s[1..][j - 1];
            }
          } else {
            assert s[1..][i - 1] == s[i] && s[1..][j - 1] == s[j];
          }
        }
      }
    }
  }

  /** Two distinct sequences with no element in common concatenate to a
      distinct sequence. */
  lemma DistinctConcat<T>(a: seq<T>, b: seq<T>)
    requires Distinct(a) && Distinct(b)
    requires forall i, j :: 0 <= i < |a| && 0 <= j < |b| ==> a[i] != b[j]
    ensures Distinct(a + b)
  {
    var c := a + b;
    forall i, j | 0 <= i < j < |c|
      ensures c[i] != c[j]
    {
      if j < |a| {
        assert c[i] == a[i] && c[j] == a[j];
      } else if i >= |a| {
        assert c[i] == b[i - |a|] && c[j] == b[j - |a|];
      } else {
        assert c[i] == a[i] && c[j] == b[j - |a|];
      }
    }
  }

  /** `xs` can be obtained from `ys` by deleting elements. */
  predicate SubsequenceOf<T(==)>(xs: seq<T>, ys: seq<T>)
    decreases |ys|
  {
    |xs| == 0
    || (|ys| > 0
        && ((xs[0] == ys[0] && SubsequenceOf(xs[1..], ys[1..])) || SubsequenceOf(xs, ys[1..])))
  }

  lemma {:induction false} SubsequenceReflexive<T>(s: seq<T>)
    ensures SubsequenceOf(s, s)
  {
    if |s| > 0 {
      SubsequenceReflexive(s[1..]);
    }
  }

  lemma {:induction false} SubsequenceExtendLeft<T>(x: seq<T>, b: seq<T>, y: seq<T>)
    requires SubsequenceOf(x, y)
    ensures SubsequenceOf(x, b + y)
    decreases |b|
  {
    if |b| > 0 {
      SubsequenceExtendLeft(x, b[1..], y);
      assert (b + y)[1..] == b[1..] + y;
    } else {
      assert b + y == y;
    }
  }

  /** Subsequences concatenate. */
  lemma {:induction false} SubsequenceAppend<T>(a: seq<T>, b: seq<T>, x: seq<T>, y: seq<T>)
    requires SubsequenceOf(a, b) && SubsequenceOf(x, y)
    ensures SubsequenceOf(a + x, b + y)
    decreases |b|
  {
    if |a| == 0 {
      assert a + x == x;
      SubsequenceExtendLeft(x, b, y);
    } else {
      assert (a + x)[1..] == a[1..] + x;
      assert (b + y)[1..] == b[1..] + y;
      if a[0] == b[0] && SubsequenceOf(a[1..], b[1..]) {
        SubsequenceAppend(a[1..], b[1..], x, y);
      } else {
        SubsequenceAppend(a, b[1..], x, y);
      }
    }
  }

  /** A subsequence stays one when more elements follow. */
  lemma SubsequenceExtendRight<T>(x: seq<T>, y: seq<T>, z: seq<T>)
    requires SubsequenceOf(x, y)
    ensures SubsequenceOf(x, y + z)
  {
    SubsequenceAppend(x, y, [], z);
    assert x + [] == x;
  }
}
