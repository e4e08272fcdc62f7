/** Sequence building blocks shared by the stores and pages: the stable
    `Array.prototype.filter`, de-duplication through a `Set`, and the stable
    `Array.prototype.sort` with a numeric key comparator. */
module Seqs {

  /** `sub` is obtained from `s` by deleting elements, keeping the order of
      the rest. */
  ghost predicate IsSubseq<T>(sub: seq<T>, s: seq<T>)
    decreases |s|
  {
    if |sub| == 0 then true
    else if |s| == 0 then false
    else (sub[0] == s[0] && IsSubseq(sub[1..], s[1..])) || IsSubseq(sub, s[1..])
  }

  lemma {:induction false} IsSubseqRefl<T>(s: seq<T>)
    ensures IsSubseq(s, s)
    decreases |s|
  {
    if |s| > 0 {
      IsSubseqRefl(s[1..]);
    }
  }

  lemma {:induction false} IsSubseqTrans<T>(a: seq<T>, b: seq<T>, c: seq<T>)
    requires IsSubseq(a, b) && IsSubseq(b, c)
    ensures IsSubseq(a, c)
    decreases |c|
  {
    if |a| == 0 {
    } else if |c| == 0 {
    } else if b[0] == c[0] && IsSubseq(b[1..], c[1..]) {
      if a[0] == b[0] && IsSubseq(a[1..], b[1..]) {
        IsSubseqTrans(a[1..], b[1..], c[1..]);
      } else {
        IsSubseqTrans(a, b[1..], c[1..]);
      }
    } else {
      IsSubseqTrans(a, b, c[1..]);
    }
  }

  /** A subsequence as long as the sequence is the sequence itself. */
  lemma {:induction false} SubseqOfSameLength<T>(a: seq<T>, b: seq<T>)
    requires IsSubseq(a, b) && |a| == |b|
    ensures a == b
    decreases |b|
  {
    if |a| > 0 {
      if a[0] == b[0] && IsSubseq(a[1..], b[1..]) {
        SubseqOfSameLength(a[1..], b[1..]);
      } else {
        SubseqShorter(a, b[1..]);
        assert false;
      }
    }
  }

  lemma {:induction false} SubseqShorter<T>(a: seq<T>, b: seq<T>)
    requires IsSubseq(a, b)
    ensures |a| <= |b|
    decreases |b|
  {
    if |a| > 0 {
      if a[0] == b[0] && IsSubseq(a[1..], b[1..]) {
        SubseqShorter(a[1..], b[1..]);
      } else {
        SubseqShorter(a, b[1..]);
      }
    }
  }

  /** The elements of `s` that satisfy `keep`, in their original order
      (JavaScript's `Array.prototype.filter`). */
  function Filter<T(!new)>(s: seq<T>, keep: T -> bool): (r: seq<T>)
    ensures |r| <= |s|
    ensures IsSubseq(r, s)
    ensures forall x :: multiset(r)[x] == if keep(x) then multiset(s)[x] else 0
    decreases |s|
  {
    if |s| == 0 then []
    else
      assert s == [s[0]] + s[1..];
      if keep(s[0]) then [s[0]] + Filter(s[1..], keep)
      else Filter(s[1..], keep)
  }

  lemma FilterMembership<T(!new)>(s: seq<T>, keep: T -> bool, x: T)
    ensures x in Filter(s, keep) <==> x in s && keep(x)
  {
    assert x in Filter(s, keep) <==> x in multiset(Filter(s, keep));
    assert x in s <==> x in multiset(s);
  }

  /** A filter whose predicate holds of every element keeps the sequence. */
  lemma {:induction false} FilterKeepsAll<T(!new)>(s: seq<T>, keep: T -> bool)
    requires forall i :: 0 <= i < |s| ==> keep(s[i])
    ensures Filter(s, keep) == s
    decreases |s|
  {
    if |s| > 0 {
      FilterKeepsAll(s[1..], keep);
    }
  }

  /** Successive narrowing by `p` then `q` equals one filter by their
      conjunction `both`. */
  lemma {:induction false} FilterFuse<T(!new)>(s: seq<T>, p: T -> bool, q: T -> bool, both: T -> bool)
    requires forall x :: both(x) == (p(x) && q(x))
    ensures Filter(Filter(s, p), q) == Filter(s, both)
    decreases |s|
  {
    if |s| > 0 {
      FilterFuse(s[1..], p, q, both);
    }
  }

  function Always<T>(): T -> bool
  {
    (x: T) => true
  }

  function Both<T>(p: T -> bool, q: T -> bool): T -> bool
  {
    (x: T) => p(x) && q(x)
  }

  /** The predicate of an optional step: `keep` when the step is active,
      everything otherwise. */
  function When<T>(active: bool, keep: T -> bool): T -> bool
  {
    (x: T) => !active || keep(x)
  }

  /** Filters by pointwise-equal predicates agree. */
  lemma FilterExt<T(!new)>(s: seq<T>, k: T -> bool, k': T -> bool)
    requires forall x :: k(x) == k'(x)
    ensures Filter(s, k) == Filter(s, k')
  {
    FilterKeepsAll(s, Always());
    FilterFuse(s, Always(), k, k');
  }

  /** An optional step after a filter by `k` is one filter by `k` and the
      step's predicate. */
  lemma StageFuse<T(!new)>(s: seq<T>, k: T -> bool, active: bool, keep: T -> bool)
    ensures (if active then Filter(Filter(s, k), keep) else Filter(s, k)) == Filter(s, Both(k, When(active, keep)))
  {
    if active {
      FilterFuse(s, k, keep, Both(k, When(active, keep)));
    } else {
      FilterExt(s, k, Both(k, When(active, keep)));
    }
  }

  lemma {:induction false} FilterAppend<T(!new)>(a: seq<T>, b: seq<T>, keep: T -> bool)
    ensures Filter(a + b, keep) == Filter(a, keep) + Filter(b, keep)
    decreases |a|
  {
    if |a| == 0 {
      assert a + b == b;
    } else {
      assert (a + b)[1..] == a[1..] + b;
      FilterAppend(a[1..], b, keep);
    }
  }

  /** `s` holds no element twice. */
  predicate NoDuplicates<T(==)>(s: seq<T>)
  {
    forall i, j :: 0 <= i < j < |s| ==> s[i] != s[j]
  }

  /** The first occurrence of each element of `s` that is not in `seen`, in
      order of first occurrence. */
  function DistinctFrom<T(!new,==)>(s: seq<T>, seen: set<T>): (r: seq<T>)
    ensures forall x :: x in r <==> x in s && x !in seen
    ensures NoDuplicates(r)
    ensures IsSubseq(r, s)
    decreases |s|
  {
    if |s| == 0 then []
    else if s[0] in seen then DistinctFrom(s[1..], seen)
    else [s[0]] + DistinctFrom(s[1..], seen + {s[0]})
  }

  /** The elements of `r` come in order of their first occurrence in `s`:
      wherever a later element of `r` occurs in `s`, every earlier element
      of `r` has already occurred. */
  ghost predicate FirstAppearanceOrder<T>(r: seq<T>, s: seq<T>)
  {
    forall i, j, k :: 0 <= i < j < |r| && 0 <= k < |s| && s[k] == r[j] ==> r[i] in s[..k]
  }

  lemma {:induction false} DistinctFromOrder<T(!new)>(s: seq<T>, seen: set<T>)
    ensures FirstAppearanceOrder(DistinctFrom(s, seen), s)
    decreases |s|
  {
    if |s| > 0 {
      var r := DistinctFrom(s, seen);
      if s[0] in seen {
        DistinctFromOrder(s[1..], seen);
        assert r == DistinctFrom(s[1..], seen);
        OrderSkipHead(s, r);
      } else {
        var r' := DistinctFrom(s[1..], seen + {s[0]});
        DistinctFromOrder(s[1..], seen + {s[0]});
        assert r == [s[0]] + r';
        OrderTakeHead(s, r');
      }
    }
  }

  /** A head that the order does not list changes nothing. */
  lemma OrderSkipHead<T>(s: seq<T>, r: seq<T>)
    requires |s| > 0 && s[0] !in r
    requires FirstAppearanceOrder(r, s[1..])
    ensures FirstAppearanceOrder(r, s)
  {
    forall i, j, k | 0 <= i < j < |r| && 0 <= k < |s| && s[k] == r[j]
      ensures r[i] in s[..k]
    {
      assert r[j] in r;
      OrderFromTail(s, r, i, j, k);
    }
  }

  /** A head listed first, and nowhere else, goes in front of the tail's
      order. */
  lemma OrderTakeHead<T>(s: seq<T>, r: seq<T>)
    requires |s| > 0 && s[0] !in r
    requires FirstAppearanceOrder(r, s[1..])
    ensures FirstAppearanceOrder([s[0]] + r, s)
  {
    var q := [s[0]] + r;
    forall i, j, k | 0 <= i < j < |q| && 0 <= k < |s| && s[k] == q[j]
      ensures q[i] in s[..k]
    {
      assert q[j] == r[j - 1] && r[j - 1] in r;
      if i == 0 {
        assert s[..k][0] == s[0];
      } else {
        assert q[i] == r[i - 1];
        OrderFromTail(s, r, i - 1, j - 1, k);
      }
    }
  }

  /** One instance of the order in the tail of `s`, read back in `s`. */
  lemma OrderFromTail<T>(s: seq<T>, r: seq<T>, i: int, j: int, k: int)
    requires 0 <= i < j < |r| && 0 < k < |s| && s[k] == r[j]
    requires FirstAppearanceOrder(r, s[1..])
    ensures r[i] in s[..k]
  {
    var t := s[1..];
    assert t[k - 1] == r[j];
    assert r[i] in t[..k - 1];
    var m :| 0 <= m < k - 1 && t[..k - 1][m] == r[i];
    assert s[..k][m + 1] == r[i];
  }

  /** `Array.from(new Set(s))`: every element of `s` once, first occurrence
      first. */
  function Distinct<T(!new,==)>(s: seq<T>): (r: seq<T>)
    ensures forall x :: x in r <==> x in s
    ensures NoDuplicates(r)
    ensures IsSubseq(r, s)
    ensures FirstAppearanceOrder(r, s)
  {
    DistinctFromOrder(s, {});
    DistinctFrom(s, {})
  }

  /** Keys never decrease along `s`. */
  ghost predicate SortedBy<T>(s: seq<T>, key: T -> real)
  {
    forall i, j :: 0 <= i < j < |s| ==> key(s[i]) <= key(s[j])
  }

  /** Where `x` goes in the sorted `t`: after every element whose key is not
      greater than its own, so that earlier equal keys stay in front. */
  function InsertPos<T>(t: seq<T>, x: T, key: T -> real): (k: nat)
    requires SortedBy(t, key)
    ensures k <= |t|
    ensures forall i :: 0 <= i < k ==> key(t[i]) <= key(x)
    ensures forall i :: k <= i < |t| ==> key(x) < key(t[i])
    decreases |t|
  {
    if |t| == 0 || key(x) < key(t[0]) then 0
    else 1 + InsertPos(t[1..], x, key)
  }

  function InsertBy<T>(t: seq<T>, x: T, key: T -> real): (r: seq<T>)
    requires SortedBy(t, key)
    ensures SortedBy(r, key)
    ensures multiset(r) == multiset(t) + multiset{x}
  {
    var k := InsertPos(t, x, key);
    var r := t[..k] + [x] + t[k..];
    InsertedSorted(t, x, key, k, r);
    assert t == t[..k] + t[k..];
    assert multiset(r) == multiset(t[..k]) + multiset{x} + multiset(t[k..]);
    r
  }

  /** Splicing `x` in at its `InsertPos` keeps the order. */
  lemma InsertedSorted<T>(t: seq<T>, x: T, key: T -> real, k: nat, r: seq<T>)
    requires SortedBy(t, key) && k == InsertPos(t, x, key)
    requires r == t[..k] + [x] + t[k..]
    ensures SortedBy(r, key)
  {
    assert |r| == |t| + 1;
    assert forall i :: 0 <= i < k ==> r[i] == t[i];
    assert r[k] == x;
    assert forall i :: k < i < |r| ==> r[i] == t[i - 1];
    forall i, j | 0 <= i < j < |r|
      ensures key(r[i]) <= key(r[j])
    {
      if j < k {
      } else if j == k {
      } else if i < k {
      } else if i == k {
      } else {
        assert key(t[i - 1]) <= key(t[j - 1]);
      }
    }
  }

  /** JavaScript's stable `sort((a, b) => key(a) - key(b))`: insertion sort
      taking the elements of `s` from left to right. */
  function SortBy<T>(s: seq<T>, key: T -> real): (r: seq<T>)
    ensures SortedBy(r, key)
    ensures multiset(r) == multiset(s)
    ensures |r| == |s|
    decreases |s|
  {
    if |s| == 0 then []
    else
      assert s == s[..|s| - 1] + [s[|s| - 1]];
      InsertBy(SortBy(s[..|s| - 1], key), s[|s| - 1], key)
  }

  /** A prefix of a sorted sequence holds its smallest keys: an element
      occurring in `t` more often than in `t[..k]` has a key no smaller than
      any key in the prefix. */
  lemma SortedPrefixSmallest<T>(t: seq<T>, k: nat, key: T -> real, x: T)
    requires SortedBy(t, key) && k <= |t|
    requires multiset(t[..k])[x] < multiset(t)[x]
    ensures forall i :: 0 <= i < k ==> key(t[i]) <= key(x)
  {
    assert t == t[..k] + t[k..];
    assert multiset(t) == multiset(t[..k]) + multiset(t[k..]);
    assert x in multiset(t[k..]);
    var m :| 0 <= m < |t[k..]| && t[k..][m] == x;
    assert t[k + m] == x;
  }

}
