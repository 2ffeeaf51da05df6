/** `DataFrame.groupby(key)` over an integer key: the sorted distinct keys,
    the rows of each group in their original order, and the fact that the
    groups partition the rows, so per-group sums add up to the column sum. */
module Grouping {
  import opened Seqs

  predicate Increasing(ks: seq<int>) {
    forall i, j :: 0 <= i < j < |ks| ==> ks[i] < ks[j]
  }

  function Insert(ks: seq<int>, k: int): (r: seq<int>)
    requires Increasing(ks)
    ensures Increasing(r)
    ensures forall x :: x in r <==> x in ks || x == k
  {
    if ks == [] then [k]
    else if k < ks[0] then [k] + ks
    else if k == ks[0] then ks
    else
      var rest := Insert(ks[1..], k);
      assert forall x :: x in rest ==> ks[0] < x;
      ConsIncreasing(ks[0], rest);
      [ks[0]] + rest
  }

  lemma ConsIncreasing(k: int, rest: seq<int>)
    requires Increasing(rest)
    requires forall x :: x in rest ==> k < x
    ensures Increasing([k] + rest)
  {
    var r := [k] + rest;
    forall i, j | 0 <= i < j < |r| ensures r[i] < r[j] {
      assert r[j] == rest[j - 1] && rest[j - 1] in rest;
      if i > 0 {
        assert r[i] == rest[i - 1];
      }
    }
  }

  /** The group labels, ascending, as `groupby` (with its default `sort=True`)
      lists them: every row's key once. */
  function Keys<T>(s: seq<T>, key: T -> int): (ks: seq<int>)
    ensures Increasing(ks)
    ensures forall i :: 0 <= i < |s| ==> key(s[i]) in ks
    ensures forall k :: k in ks ==> exists i :: 0 <= i < |s| && key(s[i]) == k
  {
    if s == [] then []
    else
      var rest := Keys(s[1..], key);
      assert forall k :: k in rest ==> exists i :: 1 <= i < |s| && key(s[i]) == k by {
        forall k | k in rest ensures exists i :: 1 <= i < |s| && key(s[i]) == k {
          var j :| 0 <= j < |s[1..]| && key(s[1..][j]) == k;
          assert key(s[j + 1]) == k;
        }
      }
      Insert(rest, key(s[0]))
  }

  /** The rows of group `k`, in their original order. */
  function Group<T>(s: seq<T>, key: T -> int, k: int): (g: seq<T>)
    ensures forall i :: 0 <= i < |g| ==> key(g[i]) == k
  {
    Keep(s, x => key(x) == k)
  }

  lemma GroupCons<T>(s: seq<T>, key: T -> int, k: int)
    requires s != []
    ensures Group(s, key, k) == (if key(s[0]) == k then [s[0]] else []) + Group(s[1..], key, k)
  {
  }

  /** A row is in group `k` exactly when it is a row of `s` with key `k`. */
  lemma GroupMembership<T>(s: seq<T>, key: T -> int, k: int, x: T)
    ensures x in Group(s, key, k) <==> x in s && key(x) == k
  {
    KeepMembership(s, x => key(x) == k, x);
  }

  /** Every listed key has at least one row. */
  lemma GroupNonEmpty<T>(s: seq<T>, key: T -> int, k: int)
    requires k in Keys(s, key)
    ensures |Group(s, key, k)| > 0
  {
    var i :| 0 <= i < |s| && key(s[i]) == k;
    GroupMembership(s, key, k, s[i]);
  }

  /** Sum of column `f` over the groups `ks`. */
  function SumOver<T>(s: seq<T>, key: T -> int, ks: seq<int>, f: T -> real): real
  {
    if ks == [] then 0.0 else Total(Group(s, key, ks[0]), f) + SumOver(s, key, ks[1..], f)
  }

  /** Number of rows in the groups `ks`. */
  function CountOver<T>(s: seq<T>, key: T -> int, ks: seq<int>): nat
  {
    if ks == [] then 0 else |Group(s, key, ks[0])| + CountOver(s, key, ks[1..])
  }

  lemma {:induction false} SumOverCons<T>(s: seq<T>, key: T -> int, ks: seq<int>, f: T -> real)
    requires s != [] && Increasing(ks)
    ensures SumOver(s, key, ks, f)
            == SumOver(s[1..], key, ks, f) + (if key(s[0]) in ks then f(s[0]) else 0.0)
  {
    if ks != [] {
      GroupCons(s, key, ks[0]);
      SumOverCons(s, key, ks[1..], f);
      var g := Group(s, key, ks[0]);
      if key(s[0]) == ks[0] {
        assert g[1..] == Group(s[1..], key, ks[0]);
        assert key(s[0]) !in ks[1..];
      } else {
        assert g == Group(s[1..], key, ks[0]);
        assert key(s[0]) in ks <==> key(s[0]) in ks[1..];
      }
    }
  }

  lemma {:induction false} CountOverCons<T>(s: seq<T>, key: T -> int, ks: seq<int>)
    requires s != [] && Increasing(ks)
    ensures CountOver(s, key, ks) == CountOver(s[1..], key, ks) + (if key(s[0]) in ks then 1 else 0)
  {
    if ks != [] {
      GroupCons(s, key, ks[0]);
      CountOverCons(s, key, ks[1..]);
      if key(s[0]) == ks[0] {
        assert key(s[0]) !in ks[1..];
      } else {
        assert key(s[0]) in ks <==> key(s[0]) in ks[1..];
      }
    }
  }

  lemma {:induction false} EmptyGroups<T>(s: seq<T>, key: T -> int, ks: seq<int>, f: T -> real)
    requires s == []
    ensures SumOver(s, key, ks, f) == 0.0 && CountOver(s, key, ks) == 0
  {
    if ks != [] {
      EmptyGroups(s, key, ks[1..], f);
    }
  }

  /** Groups whose keys cover every row partition the rows: their sums add
      up to the column total and their sizes to the row count. */
  lemma {:induction false} GroupsPartition<T>(s: seq<T>, key: T -> int, ks: seq<int>, f: T -> real)
    requires Increasing(ks)
    requires forall i :: 0 <= i < |s| ==> key(s[i]) in ks
    ensures SumOver(s, key, ks, f) == Total(s, f)
    ensures CountOver(s, key, ks) == |s|
  {
    if s == [] {
      EmptyGroups(s, key, ks, f);
    } else {
      SumOverCons(s, key, ks, f);
      CountOverCons(s, key, ks);
      GroupsPartition(s[1..], key, ks, f);
    }
  }

  /** In particular the groups `groupby` forms partition the rows. */
  lemma KeysPartition<T>(s: seq<T>, key: T -> int, f: T -> real)
    ensures SumOver(s, key, Keys(s, key), f) == Total(s, f)
    ensures CountOver(s, key, Keys(s, key)) == |s|
  {
    GroupsPartition(s, key, Keys(s, key), f);
  }
}
