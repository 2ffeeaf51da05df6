/** Boolean-mask selection and column sums over sequences of rows. */
module Seqs {

  /** `s[mask]` with `mask = s.apply(p)`: the rows that satisfy `p`, in their
      original order. */
  function Keep<T>(s: seq<T>, p: T -> bool): (r: seq<T>)
    ensures |r| <= |s|
    ensures forall i :: 0 <= i < |r| ==> p(r[i])
  {
    if s == [] then [] else (if p(s[0]) then [s[0]] else []) + Keep(s[1..], p)
  }

  /** `a` is `b` with some elements removed and the rest in order. */
  ghost predicate IsSubsequence<T>(a: seq<T>, b: seq<T>)
    decreases |b|
  {
    if a == [] then true
    else if b == [] then false
    else (a[0] == b[0] && IsSubsequence(a[1..], b[1..])) || IsSubsequence(a, b[1..])
  }

  /** `Keep` keeps exactly the elements that satisfy the mask. */
  lemma {:induction false} KeepMembership<T>(s: seq<T>, p: T -> bool, x: T)
    ensures x in Keep(s, p) <==> x in s && p(x)
  {
    if s != [] {
      KeepMembership(s[1..], p, x);
      assert s == [s[0]] + s[1..];
    }
  }

  /** `Keep` keeps every copy of a selected element and no copy of the
      others. */
  lemma {:induction false} KeepMultiplicity<T>(s: seq<T>, p: T -> bool, x: T)
    ensures multiset(Keep(s, p))[x] == if p(x) then multiset(s)[x] else 0
  {
    if s != [] {
      KeepMultiplicity(s[1..], p, x);
      assert s == [s[0]] + s[1..];
      assert multiset(s) == multiset([s[0]]) + multiset(s[1..]);
      var head := if p(s[0]) then [s[0]] else [];
      assert Keep(s, p) == head + Keep(s[1..], p);
      assert multiset(Keep(s, p)) == multiset(head) + multiset(Keep(s[1..], p));
    }
  }

  /** `Keep` preserves order: its result is a subsequence of its input. */
  lemma {:induction false} KeepIsSubsequence<T>(s: seq<T>, p: T -> bool)
    ensures IsSubsequence(Keep(s, p), s)
  {
    if s != [] {
      KeepIsSubsequence(s[1..], p);
      var k := Keep(s, p);
      if p(s[0]) {
        assert k[0] == s[0] && k[1..] == Keep(s[1..], p);
        assert IsSubsequence(k[1..], s[1..]);
      } else {
        assert k == Keep(s[1..], p);
        assert k == [] || IsSubsequence(k, s[1..]);
      }
    }
  }

  /** Applying the same mask twice selects nothing more. */
  lemma {:induction false} KeepIdempotent<T>(s: seq<T>, p: T -> bool)
    ensures Keep(Keep(s, p), p) == Keep(s, p)
  {
    if s != [] {
      KeepIdempotent(s[1..], p);
      var k := Keep(s, p);
      if p(s[0]) {
        assert k != [] && k[0] == s[0] && k[1..] == Keep(s[1..], p);
      } else {
        assert k == Keep(s[1..], p);
      }
    }
  }

  /** Masks that agree on every row select the same rows. */
  lemma {:induction false} KeepExtensional<T>(s: seq<T>, p: T -> bool, q: T -> bool)
    requires forall x :: p(x) == q(x)
    ensures Keep(s, p) == Keep(s, q)
  {
    if s != [] {
      KeepExtensional(s[1..], p, q);
    }
  }

  lemma {:induction false} KeepAppend<T>(a: seq<T>, b: seq<T>, p: T -> bool)
    ensures Keep(a + b, p) == Keep(a, p) + Keep(b, p)
  {
    if a == [] {
      assert a + b == b;
    } else {
      var head := if p(a[0]) then [a[0]] else [];
      calc {
        Keep(a + b, p);
        == { assert (a + b)[0] == a[0]; assert (a + b)[1..] == a[1..] + b; }
        head + Keep(a[1..] + b, p);
        == { KeepAppend(a[1..], b, p); }
        head + (Keep(a[1..], p) + Keep(b, p));
        ==
        (head + Keep(a[1..], p)) + Keep(b, p);
      }
    }
  }

  /** `s[col].sum()` for the column read by `f`. */
  function Total<T>(s: seq<T>, f: T -> real): real
  {
    if s == [] then 0.0 else f(s[0]) + Total(s[1..], f)
  }

  lemma {:induction false} TotalAppend<T>(a: seq<T>, b: seq<T>, f: T -> real)
    ensures Total(a + b, f) == Total(a, f) + Total(b, f)
  {
    if a == [] {
      assert a + b == b;
    } else {
      TotalAppend(a[1..], b, f);
      assert (a + b)[1..] == a[1..] + b;
    }
  }

  /** A column of non-negative values sums to a non-negative total that
      bounds each of its values. */
  lemma {:induction false} TotalBoundsElements<T>(s: seq<T>, f: T -> real, i: int)
    requires forall j :: 0 <= j < |s| ==> f(s[j]) >= 0.0
    requires 0 <= i < |s|
    ensures 0.0 <= f(s[i]) <= Total(s, f)
  {
    TotalNonNegative(s[1..], f);
    if i > 0 {
      TotalBoundsElements(s[1..], f, i - 1);
    }
  }

  lemma {:induction false} TotalNonNegative<T>(s: seq<T>, f: T -> real)
    requires forall j :: 0 <= j < |s| ==> f(s[j]) >= 0.0
    ensures Total(s, f) >= 0.0
  {
    if s != [] {
      TotalNonNegative(s[1..], f);
    }
  }

  /** `x` added `n` times, that is `n * x`, kept apart from the product so
      that bounds on sums stay linear. */
  function Repeat(n: nat, x: real): real {
    if n == 0 then 0.0 else Repeat(n - 1, x) + x
  }

  lemma {:induction false} RepeatIsProduct(n: nat, x: real)
    ensures Repeat(n, x) == n as real * x
  {
    if n > 0 {
      RepeatIsProduct(n - 1, x);
    }
  }

  /** A sum is at most the number of terms times the largest term. */
  lemma {:induction false} TotalAtMostMaxTimesCount<T>(s: seq<T>, f: T -> real, m: real)
    requires forall j :: 0 <= j < |s| ==> f(s[j]) <= m
    ensures Total(s, f) <= Repeat(|s|, m)
  {
    if s != [] {
      TotalAtMostMaxTimesCount(s[1..], f, m);
    }
  }
}
