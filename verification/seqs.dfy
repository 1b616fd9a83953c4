/** Generic facts about sequences used by the id parser and the reorder
    planner: duplicate-freedom, filtering, first-occurrence deduplication and
    the uniqueness of a sequence ordered strictly by a key. */
module Seqs {

  /** No element occurs twice. */
  predicate NoDup<T(==,!new)>(s: seq<T>) {
    forall i, j :: 0 <= i < j < |s| ==> s[i] != s[j]
  }

  /** The two sequences hold the same elements (ignoring multiplicity). */
  ghost predicate SameElements<T(!new)>(a: seq<T>, b: seq<T>) {
    forall x :: x in a <==> x in b
  }

  /** Index of the first occurrence of `x` in `s`. */
  function FirstIndex<T(==,!new)>(s: seq<T>, x: T): (k: nat)
    requires x in s
    ensures k < |s| && s[k] == x
    ensures x !in s[..k]
  {
    if s[0] == x then 0 else 1 + FirstIndex(s[1..], x)
  }

  /** Elements of `r` appear in the order in which they first occur in `xs`. */
  ghost predicate FirstSeenOrder<T(!new)>(xs: seq<T>, r: seq<T>) {
    forall i, j :: 0 <= i < j < |r| ==>
      r[i] in xs && r[j] in xs && FirstIndex(xs, r[i]) < FirstIndex(xs, r[j])
  }

  /** Keys strictly increase along the sequence. */
  ghost predicate StrictlyIncreasingBy<T(!new)>(s: seq<T>, key: T -> int) {
    forall i, j :: 0 <= i < j < |s| ==> key(s[i]) < key(s[j])
  }

  /** The elements of `s` that satisfy `p`, in their original order. */
  function Filter<T(!new)>(s: seq<T>, p: T -> bool): (r: seq<T>)
    ensures |r| <= |s|
    ensures forall x :: x in r <==> x in s && p(x)
    ensures forall i :: 0 <= i < |r| ==> p(r[i])
  {
    if s == [] then [] else (if p(s[0]) then [s[0]] else []) + Filter(s[1..], p)
  }

  /** Two blocks commute in front of a third when one of them is empty. */
  lemma SwapPastEmpty<T>(h: seq<T>, m: seq<T>, t: seq<T>)
    requires h == [] || m == []
    ensures h + (m + t) == m + (h + t)
  {
    if h == [] {
      assert h + (m + t) == m + t;
      assert h + t == t;
    } else {
      assert m + (h + t) == h + t;
      assert m + t == t;
    }
  }

  lemma HeadsEqual<T>(x: T, xs: seq<T>, y: T, ys: seq<T>)
    requires [x] + xs == [y] + ys
    ensures x == y && xs == ys
  {
    assert x == ([x] + xs)[0];
    assert xs == ([x] + xs)[1..];
  }

  lemma {:induction false} FilterConcat<T(!new)>(a: seq<T>, b: seq<T>, p: T -> bool)
    ensures Filter(a + b, p) == Filter(a, p) + Filter(b, p)
  {
    if a == [] {
      assert a + b == b;
    } else {
      assert (a + b)[1..] == a[1..] + b;
      FilterConcat(a[1..], b, p);
    }
  }

  /** Splitting a sequence by a predicate and its negation loses and
      duplicates nothing. */
  lemma {:induction false} FilterSplitsMultiset<T(!new)>(s: seq<T>, p: T -> bool, q: T -> bool)
    requires forall i :: 0 <= i < |s| ==> q(s[i]) == !p(s[i])
    ensures multiset(Filter(s, p)) + multiset(Filter(s, q)) == multiset(s)
  {
    if s != [] {
      var t := s[1..];
      assert forall i :: 0 <= i < |t| ==> q(t[i]) == !p(t[i]) by {
        forall i | 0 <= i < |t| ensures q(t[i]) == !p(t[i]) {
          assert t[i] == s[i + 1];
        }
      }
      FilterSplitsMultiset(t, p, q);
      FilterSplitStep(s, p, q);
      MultisetCons(s);
    }
  }

  lemma MultisetCons<T>(s: seq<T>)
    requires s != []
    ensures multiset(s) == multiset{s[0]} + multiset(s[1..])
  {
    assert s == [s[0]] + s[1..];
  }

  /** The head goes to exactly one side of the split. */
  lemma FilterSplitStep<T(!new)>(s: seq<T>, p: T -> bool, q: T -> bool)
    requires s != [] && q(s[0]) == !p(s[0])
    ensures multiset(Filter(s, p)) + multiset(Filter(s, q))
      == multiset{s[0]} + (multiset(Filter(s[1..], p)) + multiset(Filter(s[1..], q)))
  {
    var fp, fq := Filter(s[1..], p), Filter(s[1..], q);
    var h := multiset{s[0]};
    if p(s[0]) {
      assert multiset(Filter(s, p)) == h + multiset(fp) by {
        assert Filter(s, p) == [s[0]] + fp;
      }
      assert Filter(s, q) == fq by {
        assert Filter(s, q) == [] + fq;
      }
    } else {
      assert multiset(Filter(s, q)) == h + multiset(fq) by {
        assert Filter(s, q) == [s[0]] + fq;
      }
      assert Filter(s, p) == fp by {
        assert Filter(s, p) == [] + fp;
      }
    }
  }

  /** Past the head of a duplicate-free sequence, first indices shift by one. */
  lemma FirstIndexTail<T(!new)>(s: seq<T>, x: T)
    requires |s| > 0 && NoDup(s) && x in s[1..]
    ensures x != s[0] && FirstIndex(s, x) == 1 + FirstIndex(s[1..], x)
  {
    var k :| 0 <= k < |s[1..]| && s[1..][k] == x;
    assert s[k + 1] == x;
  }

  /** An order that holds in the tail of a duplicate-free sequence holds in
      the whole, also with the head put in front. */
  lemma FirstSeenOrderCons<T(!new)>(s: seq<T>, r: seq<T>)
    requires |s| > 0 && NoDup(s)
    requires forall k :: 0 <= k < |r| ==> r[k] in s[1..]
    requires FirstSeenOrder(s[1..], r)
    ensures FirstSeenOrder(s, r) && FirstSeenOrder(s, [s[0]] + r)
  {
    forall i, j | 0 <= i < j < |r|
      ensures r[i] in s && r[j] in s && FirstIndex(s, r[i]) < FirstIndex(s, r[j])
    {
      FirstIndexTail(s, r[i]);
      FirstIndexTail(s, r[j]);
    }
    var hr := [s[0]] + r;
    forall i, j | 0 <= i < j < |hr|
      ensures hr[i] in s && hr[j] in s && FirstIndex(s, hr[i]) < FirstIndex(s, hr[j])
    {
      assert hr[j] == r[j - 1];
      FirstIndexTail(s, r[j - 1]);
      if i > 0 {
        assert hr[i] == r[i - 1];
        FirstIndexTail(s, r[i - 1]);
      }
    }
  }

  /** Filtering a duplicate-free sequence keeps its order. */
  lemma {:induction false} FilterFirstSeenOrder<T(!new)>(s: seq<T>, p: T -> bool)
    requires NoDup(s)
    ensures FirstSeenOrder(s, Filter(s, p))
  {
    if s != [] {
      var rest := Filter(s[1..], p);
      assert NoDup(s[1..]) by {
        forall i, j | 0 <= i < j < |s[1..]| ensures s[1..][i] != s[1..][j] {
          assert s[1..][i] == s[i + 1] && s[1..][j] == s[j + 1];
        }
      }
      FilterFirstSeenOrder(s[1..], p);
      assert forall k :: 0 <= k < |rest| ==> rest[k] in s[1..];
      FirstSeenOrderCons(s, rest);
    }
  }

  /** Filtering a duplicate-free sequence yields a duplicate-free sequence. */
  lemma {:induction false} FilterNoDup<T(!new)>(s: seq<T>, p: T -> bool)
    requires NoDup(s)
    ensures NoDup(Filter(s, p))
  {
    if s != [] {
      assert NoDup(s[1..]) by {
        forall i, j | 0 <= i < j < |s[1..]| ensures s[1..][i] != s[1..][j] {
          assert s[1..][i] == s[i + 1] && s[1..][j] == s[j + 1];
        }
      }
      FilterNoDup(s[1..], p);
      var t := Filter(s[1..], p);
      assert s[0] !in s[1..];
      assert s[0] !in t;
    }
  }

  /** A filter that every element passes changes nothing. */
  lemma {:induction false} FilterAll<T(!new)>(s: seq<T>, p: T -> bool)
    requires forall i :: 0 <= i < |s| ==> p(s[i])
    ensures Filter(s, p) == s
  {
    if s != [] {
      FilterAll(s[1..], p);
    }
  }

  /** A filter that no element passes leaves nothing. */
  lemma {:induction false} FilterNone<T(!new)>(s: seq<T>, p: T -> bool)
    requires forall i :: 0 <= i < |s| ==> !p(s[i])
    ensures Filter(s, p) == []
  {
    if s != [] {
      FilterNone(s[1..], p);
    }
  }

  /** Filtering twice is filtering once by the conjunction. */
  lemma {:induction false} FilterFilter<T(!new)>(s: seq<T>, p: T -> bool, q: T -> bool, pq: T -> bool)
    requires forall i :: 0 <= i < |s| ==> pq(s[i]) == (p(s[i]) && q(s[i]))
    ensures Filter(Filter(s, p), q) == Filter(s, pq)
  {
    if s != [] {
      FilterFilter(s[1..], p, q, pq);
      if p(s[0]) {
        assert Filter(s, p) == [s[0]] + Filter(s[1..], p);
        assert Filter(s, p)[1..] == Filter(s[1..], p);
      } else {
        assert Filter(s, p) == Filter(s[1..], p);
      }
    }
  }

  /** Two filters that agree on every element of `s` give the same result. */
  lemma {:induction false} FilterCongruent<T(!new)>(s: seq<T>, p: T -> bool, q: T -> bool)
    requires forall i :: 0 <= i < |s| ==> p(s[i]) == q(s[i])
    ensures Filter(s, p) == Filter(s, q)
  {
    if s != [] {
      FilterCongruent(s[1..], p, q);
    }
  }

  /** In a duplicate-free sequence every element occurs exactly once. */
  lemma {:induction false} NoDupCount<T(!new)>(s: seq<T>, x: T)
    requires NoDup(s)
    ensures multiset(s)[x] == if x in s then 1 else 0
  {
    if s != [] {
      assert s == [s[0]] + s[1..];
      assert NoDup(s[1..]) by {
        forall i, j | 0 <= i < j < |s[1..]| ensures s[1..][i] != s[1..][j] {
          assert s[1..][i] == s[i + 1] && s[1..][j] == s[j + 1];
        }
      }
      NoDupCount(s[1..], x);
      assert s[0] !in s[1..];
    }
  }

  /** Duplicate-free sequences with the same elements are permutations of each other. */
  lemma NoDupSameElementsPermutation<T(!new)>(a: seq<T>, b: seq<T>)
    requires NoDup(a) && NoDup(b) && SameElements(a, b)
    ensures multiset(a) == multiset(b)
  {
    forall x ensures multiset(a)[x] == multiset(b)[x] {
      NoDupCount(a, x);
      NoDupCount(b, x);
    }
  }

  /** Stated as a lemma so that the solver meets the index only through a
      call: written inline in a branch where `b` must be empty, it draws a
      contradictory-assumption warning. */
  lemma HeadMember<T>(b: seq<T>)
    ensures |b| > 0 ==> b[0] in b
  {
  }

  /** Two indices holding the same value make it occur at least twice. */
  lemma TwiceInMultiset<T>(t: seq<T>, i: nat, j: nat)
    requires i < j < |t| && t[i] == t[j]
    ensures multiset(t)[t[i]] >= 2
  {
    assert t == t[..j] + [t[j]] + t[j + 1..];
    assert t[i] in t[..j];
  }

  /** Two sequences whose keys strictly increase and that hold the same
      elements are equal: the key order fixes the arrangement. */
  lemma {:induction false} StrictlyIncreasingUnique<T(!new)>(a: seq<T>, b: seq<T>, key: T -> int)
    requires StrictlyIncreasingBy(a, key) && StrictlyIncreasingBy(b, key)
    requires SameElements(a, b)
    ensures a == b
  {
    if a == [] {
      HeadMember(b);
    } else {
      SameHeads(a, b, key);
      SameTails(a, b, key);
      StrictlyIncreasingUnique(a[1..], b[1..], key);
      assert a == [a[0]] + a[1..] && b == [b[0]] + b[1..];
    }
  }

  /** The element of smallest key comes first in both. */
  lemma SameHeads<T(!new)>(a: seq<T>, b: seq<T>, key: T -> int)
    requires StrictlyIncreasingBy(a, key) && StrictlyIncreasingBy(b, key)
    requires SameElements(a, b) && a != []
    ensures b != [] && a[0] == b[0]
  {
    assert a[0] in a;
    var k :| 0 <= k < |b| && b[k] == a[0];
    assert b[0] in b;
    var m :| 0 <= m < |a| && a[m] == b[0];
    assert key(b[0]) <= key(b[k]) == key(a[0]);
    assert m == 0;
  }

  /** With the same head, the tails hold the same elements. */
  lemma SameTails<T(!new)>(a: seq<T>, b: seq<T>, key: T -> int)
    requires StrictlyIncreasingBy(a, key) && StrictlyIncreasingBy(b, key)
    requires SameElements(a, b) && a != [] && b != [] && a[0] == b[0]
    ensures StrictlyIncreasingBy(a[1..], key) && StrictlyIncreasingBy(b[1..], key)
    ensures SameElements(a[1..], b[1..])
  {
    forall x ensures x in a[1..] ==> x in b[1..] {
      if x in a[1..] {
        var i :| 1 <= i < |a| && a[i] == x;
        assert key(a[0]) < key(a[i]);
        assert x in b;
        var j :| 0 <= j < |b| && b[j] == x;
        assert j != 0;
        assert b[1..][j - 1] == x;
      }
    }
    forall x ensures x in b[1..] ==> x in a[1..] {
      if x in b[1..] {
        var j :| 1 <= j < |b| && b[j] == x;
        assert key(b[0]) < key(b[j]);
        assert x in a;
        var i :| 0 <= i < |a| && a[i] == x;
        assert i != 0;
        assert a[1..][i - 1] == x;
      }
    }
  }

  /** The first index of an element is unchanged by appending to the sequence. */
  lemma {:induction false} FirstIndexAppend<T(!new)>(xs: seq<T>, y: T, x: T)
    requires x in xs
    ensures x in xs + [y] && FirstIndex(xs + [y], x) == FirstIndex(xs, x)
  {
    if xs[0] != x {
      assert (xs + [y])[1..] == xs[1..] + [y];
      FirstIndexAppend(xs[1..], y, x);
    }
  }

  /** An element absent from `xs` first occurs right after it in `xs + [y]`. */
  lemma {:induction false} FirstIndexOfNew<T(!new)>(xs: seq<T>, y: T)
    requires y !in xs
    ensures FirstIndex(xs + [y], y) == |xs|
  {
    if xs != [] {
      assert (xs + [y])[1..] == xs[1..] + [y];
      FirstIndexOfNew(xs[1..], y);
    }
  }

  /** First-occurrence deduplication: a later repeat of an element is
      dropped, the first occurrence keeps its place. */
  function Dedup<T(==,!new)>(xs: seq<T>): (r: seq<T>)
    ensures NoDup(r)
    ensures SameElements(r, xs)
    ensures FirstSeenOrder(xs, r)
    decreases |xs|
  {
    if xs == [] then []
    else
      var init := xs[..|xs| - 1];
      var y := xs[|xs| - 1];
      var d := Dedup(init);
      assert xs == init + [y];
      FirstSeenOrderExtends(init, y, d);
      if y in d then d else d + [y]
  }

  /** Helper for `Dedup`: appending `y` to the source keeps the order of an
      earlier result, and a new `y` goes last. */
  lemma FirstSeenOrderExtends<T(!new)>(init: seq<T>, y: T, d: seq<T>)
    requires SameElements(d, init) && FirstSeenOrder(init, d)
    ensures FirstSeenOrder(init + [y], d)
    ensures y !in d ==> FirstSeenOrder(init + [y], d + [y])
  {
    forall x | x in init ensures FirstIndex(init + [y], x) == FirstIndex(init, x) {
      FirstIndexAppend(init, y, x);
    }
    if y !in d {
      FirstIndexOfNew(init, y);
    }
  }

  /** `Dedup` is the only duplicate-free rearrangement of the elements of
      `xs` that lists them in first-occurrence order. */
  lemma DedupCharacterization<T(!new)>(xs: seq<T>, r: seq<T>)
    ensures r == Dedup(xs) <==> NoDup(r) && SameElements(r, xs) && FirstSeenOrder(xs, r)
  {
    if NoDup(r) && SameElements(r, xs) && FirstSeenOrder(xs, r) {
      var key := x => if x in xs then FirstIndex(xs, x) else -1;
      var d := Dedup(xs);
      assert StrictlyIncreasingBy(r, key);
      assert StrictlyIncreasingBy(d, key);
      StrictlyIncreasingUnique(r, d, key);
    }
  }

  /** A duplicate-free sequence is its own deduplication. */
  lemma DedupOfNoDup<T(!new)>(xs: seq<T>)
    requires NoDup(xs)
    ensures Dedup(xs) == xs
  {
    forall i | 0 <= i < |xs| ensures FirstIndex(xs, xs[i]) == i {
      var k := FirstIndex(xs, xs[i]);
      assert xs[k] == xs[i];
    }
    DedupCharacterization(xs, xs);
  }

  /** Deduplicating twice is deduplicating once. */
  lemma DedupIdempotent<T(!new)>(xs: seq<T>)
    ensures Dedup(Dedup(xs)) == Dedup(xs)
  {
    DedupOfNoDup(Dedup(xs));
  }
}
