/** Ordered name-value pairs, and the comprehensions over them: which pairs a filter
    keeps, and in what order. */
module Pairs {

  type Pair = (string, string)

  function Filter<T>(s: seq<T>, keep: T -> bool): seq<T> {
    if s == [] then [] else (if keep(s[0]) then [s[0]] else []) + Filter(s[1..], keep)
  }

  lemma {:induction false} FilterConcat<T>(s: seq<T>, t: seq<T>, keep: T -> bool)
    ensures Filter(s + t, keep) == Filter(s, keep) + Filter(t, keep)
  {
    if s == [] {
      assert s + t == t;
    } else {
      var x, rest := s[0], s[1..];
      FilterConcat(rest, t, keep);
      assert s + t == [x] + (rest + t);
      FilterFirst(x, rest + t, keep);
      Regroup(if keep(x) then [x] else [], Filter(rest, keep), Filter(t, keep));
    }
  }

  lemma Regroup<T>(a: seq<T>, b: seq<T>, c: seq<T>)
    ensures a + (b + c) == a + b + c
  {
  }

  lemma FilterFirst<T>(x: T, rest: seq<T>, keep: T -> bool)
    ensures Filter([x] + rest, keep) == (if keep(x) then [x] else []) + Filter(rest, keep)
  {
    assert ([x] + rest)[1..] == rest;
  }

  lemma FilterLast<T>(rest: seq<T>, x: T, keep: T -> bool)
    ensures Filter(rest + [x], keep) == if keep(x) then Filter(rest, keep) + [x] else Filter(rest, keep)
  {
    assert Filter(rest, keep) + [] == Filter(rest, keep);
    FilterConcat(rest, [x], keep);
    FilterFirst(x, [], keep);
    assert [x] + [] == [x];
  }

  /** The indices a filter keeps. */
  function Kept<T>(s: seq<T>, keep: T -> bool): seq<nat> {
    if s == [] then []
    else Kept(s[..|s| - 1], keep) + (if keep(s[|s| - 1]) then [|s| - 1] else [])
  }

  ghost predicate Picks<T(!new)>(s: seq<T>, keep: T -> bool, at: seq<nat>, r: seq<T>) {
    && |r| == |at|
    && (forall k :: 0 <= k < |at| ==> at[k] < |s| && keep(s[at[k]]) && r[k] == s[at[k]])
    && (forall j, k :: 0 <= j < k < |at| ==> at[j] < at[k])
    && (forall i: nat :: i < |s| && keep(s[i]) ==> exists k :: 0 <= k < |at| && at[k] == i)
  }

  lemma PicksLast<T(!new)>(s: seq<T>, x: T, keep: T -> bool, at: seq<nat>, r: seq<T>)
    requires Picks(s, keep, at, r)
    ensures Picks(s + [x], keep, if keep(x) then at + [|s|] else at, if keep(x) then r + [x] else r)
  {
    var all, at', r' := s + [x], if keep(x) then at + [|s|] else at, if keep(x) then r + [x] else r;
    assert forall k :: 0 <= k < |at| ==> at'[k] == at[k] && r'[k] == r[k] && all[at[k]] == s[at[k]];
    forall i: nat | i < |all| && keep(all[i])
      ensures exists k :: 0 <= k < |at'| && at'[k] == i
    {
      if i < |s| {
        var k :| 0 <= k < |at| && at[k] == i;
        assert at'[k] == i;
      } else {
        assert at'[|at|] == i;
      }
    }
  }

  /** A filter keeps exactly the elements its predicate holds for, in their order. */
  lemma {:induction false} FilterKeepsOrder<T(!new)>(s: seq<T>, keep: T -> bool)
    ensures Picks(s, keep, Kept(s, keep), Filter(s, keep))
  {
    if s != [] {
      var init, x := s[..|s| - 1], s[|s| - 1];
      FilterKeepsOrder(init, keep);
      assert s == init + [x];
      FilterLast(init, x, keep);
      KeptLast(init, x, keep);
      PicksLast(init, x, keep, Kept(init, keep), Filter(init, keep));
    }
  }

  lemma KeptLast<T>(init: seq<T>, x: T, keep: T -> bool)
    ensures Kept(init + [x], keep) == if keep(x) then Kept(init, keep) + [|init|] else Kept(init, keep)
  {
    assert (init + [x])[..|init|] == init;
    assert Kept(init, keep) + [] == Kept(init, keep);
  }

  lemma {:induction false} FilterMember<T>(s: seq<T>, keep: T -> bool, x: T)
    ensures x in Filter(s, keep) <==> x in s && keep(x)
  {
    if s != [] {
      FilterMember(s[1..], keep, x);
      assert s == [s[0]] + s[1..];
    }
  }

  /** Two filters that agree on the list keep the same. */
  lemma {:induction false} FilterAgrees<T>(s: seq<T>, p: T -> bool, q: T -> bool)
    requires forall x :: x in s ==> p(x) == q(x)
    ensures Filter(s, p) == Filter(s, q)
  {
    if s != [] {
      assert s[0] in s;
      FilterAgrees(s[1..], p, q);
    }
  }

  /** A wider filter in front of a narrower one changes nothing. */
  lemma {:induction false} FilterThrough<T>(s: seq<T>, wide: T -> bool, narrow: T -> bool)
    requires forall x :: x in s && narrow(x) ==> wide(x)
    ensures Filter(Filter(s, wide), narrow) == Filter(s, narrow)
  {
    if s != [] {
      assert s[0] in s;
      FilterThrough(s[1..], wide, narrow);
      assert [] + Filter(s[1..], wide) == Filter(s[1..], wide);
      assert [] + Filter(s[1..], narrow) == Filter(s[1..], narrow);
      FilterFirst(s[0], Filter(s[1..], wide), narrow);
    }
  }

  lemma {:induction false} FilterAll<T>(s: seq<T>, p: T -> bool)
    requires forall x :: x in s ==> p(x)
    ensures Filter(s, p) == s
  {
    if s != [] {
      assert s[0] in s;
      FilterAll(s[1..], p);
    }
  }

  lemma {:induction false} FilterNone<T>(s: seq<T>, p: T -> bool)
    requires forall x :: x in s ==> !p(x)
    ensures Filter(s, p) == []
  {
    if s != [] {
      assert s[0] in s;
      FilterNone(s[1..], p);
    }
  }

  /** What a filter keeps and what its opposite keeps are together the list. */
  lemma {:induction false} FilterSplits<T>(s: seq<T>, p: T -> bool)
    ensures multiset(s) == multiset(Filter(s, p)) + multiset(Filter(s, x => !p(x)))
  {
    if s != [] {
      FilterSplits(s[1..], p);
      assert s == [s[0]] + s[1..];
    }
  }

  /** A filter changes how often an element occurs only by dropping it. */
  lemma {:induction false} FilterCount<T>(s: seq<T>, p: T -> bool, x: T)
    ensures multiset(Filter(s, p))[x] == if p(x) then multiset(s)[x] else 0
  {
    if s != [] {
      FilterCount(s[1..], p, x);
      assert s == [s[0]] + s[1..];
    }
  }

  /** The pieces of a list that begins with `a` and goes on with `b`. */
  lemma Pieces<T>(a: seq<T>, b: seq<T>, r: seq<T>)
    requires a + b <= r
    ensures r == a + b + r[|a| + |b|..]
    ensures r[..|a|] == a && r[|a|..|a| + |b|] == b
    ensures forall i :: 0 <= i < |a| ==> r[i] in a
    ensures forall i :: |a| + |b| <= i < |r| ==> r[i] in r[|a| + |b|..]
  {
    assert forall i :: 0 <= i < |a| ==> r[i] == (a + b)[i] == a[i];
    assert forall i :: |a| <= i < |a| + |b| ==> r[i] == (a + b)[i] == b[i - |a|];
    forall i | |a| + |b| <= i < |r|
      ensures r[i] in r[|a| + |b|..]
    {
      assert r[i] == r[|a| + |b|..][i - |a| - |b|];
    }
  }
}
