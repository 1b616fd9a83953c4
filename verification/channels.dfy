/** Channels of a category and their order by position: the
    `sorted(category.channels, key=lambda c: c.position)` step. */
module Channels {
  import opened Seqs

  /** A guild channel as far as ordering is concerned. */
  datatype Channel = Channel(id: int, position: int)

  function Ids(chs: seq<Channel>): (r: seq<int>)
    ensures |r| == |chs|
    ensures forall i :: 0 <= i < |chs| ==> r[i] == chs[i].id
  {
    seq(|chs|, i requires 0 <= i < |chs| => chs[i].id)
  }

  lemma IdsMembers(chs: seq<Channel>, x: int)
    ensures x in Ids(chs) <==> exists c :: c in chs && c.id == x
  {
    if x in Ids(chs) {
      var i :| 0 <= i < |chs| && Ids(chs)[i] == x;
      assert chs[i] in chs;
    }
  }

  /** No two channels share an id (distinct guild channels have distinct ids). */
  predicate UniqueIds(chs: seq<Channel>) {
    forall i, j :: 0 <= i < j < |chs| ==> chs[i].id != chs[j].id
  }

  ghost predicate SortedByPosition(chs: seq<Channel>) {
    forall i, j :: 0 <= i < j < |chs| ==> chs[i].position <= chs[j].position
  }

  /** The channels at one position, in their order in `chs`. */
  function AtPosition(chs: seq<Channel>, p: int): seq<Channel> {
    Filter(chs, (c: Channel) => c.position == p)
  }

  /** Insert `c` before the first channel whose position is not smaller,
      so that `c` stays ahead of the channels it tied with. */
  function Insert(c: Channel, s: seq<Channel>): (r: seq<Channel>)
    requires SortedByPosition(s)
    ensures SortedByPosition(r)
    ensures multiset(r) == multiset(s) + multiset{c}
    ensures |r| == |s| + 1
    ensures r[0] == c || (s != [] && r[0] == s[0])
  {
    if s == [] || c.position <= s[0].position then
      ConsSorted(c, s);
      [c] + s
    else
      var rest := Insert(c, s[1..]);
      assert multiset(s) == multiset{s[0]} + multiset(s[1..]) by {
        assert s == [s[0]] + s[1..];
      }
      ConsSorted(s[0], rest);
      [s[0]] + rest
  }

  /** A channel no later than the head of a sorted sequence can lead it. */
  lemma ConsSorted(h: Channel, t: seq<Channel>)
    requires SortedByPosition(t)
    requires t == [] || h.position <= t[0].position
    ensures SortedByPosition([h] + t)
  {
    forall i, j | 0 <= i < j < |[h] + t| ensures ([h] + t)[i].position <= ([h] + t)[j].position {
      if i > 0 {
        assert ([h] + t)[i] == t[i - 1];
      }
      assert ([h] + t)[j] == t[j - 1];
    }
  }

  /** Python's `sorted(..., key=position)`: a stable sort by position. */
  function ByPosition(s: seq<Channel>): (r: seq<Channel>)
    ensures SortedByPosition(r)
    ensures multiset(r) == multiset(s)
    ensures |r| == |s|
  {
    if s == [] then []
    else
      assert s == [s[0]] + s[1..];
      Insert(s[0], ByPosition(s[1..]))
  }

  /** Sorting keeps exactly the channels it was given. */
  lemma ByPositionMembers(s: seq<Channel>)
    ensures forall x :: x in ByPosition(s) <==> x in s
  {
    forall x ensures x in ByPosition(s) <==> x in s {
      assert x in ByPosition(s) <==> x in multiset(ByPosition(s));
      assert x in s <==> x in multiset(s);
    }
  }

  lemma AtPositionConcat(a: seq<Channel>, b: seq<Channel>, p: int)
    ensures AtPosition(a + b, p) == AtPosition(a, p) + AtPosition(b, p)
  {
    FilterConcat(a, b, (c: Channel) => c.position == p);
  }

  /** The channels at `p` of `[h] + t`: `h` when it is at `p`, then those of `t`. */
  lemma ConsAtPosition(h: Channel, t: seq<Channel>, p: int)
    ensures AtPosition([h] + t, p) == (if h.position == p then [h] else []) + AtPosition(t, p)
  {
    AtPositionConcat([h], t, p);
    assert [h][1..] == [];
  }

  lemma {:induction false} InsertAtPosition(c: Channel, s: seq<Channel>, p: int)
    requires SortedByPosition(s)
    ensures AtPosition(Insert(c, s), p) == (if c.position == p then [c] else []) + AtPosition(s, p)
  {
    if s == [] || c.position <= s[0].position {
      assert Insert(c, s) == [c] + s;
      ConsAtPosition(c, s, p);
    } else {
      assert Insert(c, s) == [s[0]] + Insert(c, s[1..]);
      InsertAtPosition(c, s[1..], p);
      ConsAtPosition(s[0], Insert(c, s[1..]), p);
      ConsAtPosition(s[0], s[1..], p);
      assert s == [s[0]] + s[1..];
      SwapPastEmpty(if s[0].position == p then [s[0]] else [],
                    if c.position == p then [c] else [],
                    AtPosition(s[1..], p));
    }
  }

  /** Sorting is stable: the channels sharing a position keep their
      relative order. */
  lemma {:induction false} ByPositionStable(s: seq<Channel>, p: int)
    ensures AtPosition(ByPosition(s), p) == AtPosition(s, p)
  {
    if s != [] {
      ByPositionStable(s[1..], p);
      InsertAtPosition(s[0], ByPosition(s[1..]), p);
    }
  }

  /** Two position-sorted sequences with the same channels at every
      position are equal. */
  lemma {:induction false} SortedStableUnique(r: seq<Channel>, q: seq<Channel>)
    requires SortedByPosition(r) && SortedByPosition(q)
    requires forall p :: AtPosition(r, p) == AtPosition(q, p)
    ensures r == q
    decreases |r|
  {
    if r != [] {
      SortedHeadsAgree(r, q);
      SortedTailsAgree(r, q);
      SortedStableUnique(r[1..], q[1..]);
      assert r == [r[0]] + r[1..] && q == [q[0]] + q[1..];
    } else {
      HeadAtItsPosition(q);
    }
  }

  /** A non-empty list has a channel at its first channel's position. */
  lemma HeadAtItsPosition(q: seq<Channel>)
    ensures q != [] ==> q[0] in AtPosition(q, q[0].position)
  {
  }

  /** The first channel of a sorted list is the first one at the lowest position. */
  lemma SortedHeadsAgree(r: seq<Channel>, q: seq<Channel>)
    requires SortedByPosition(r) && SortedByPosition(q) && r != []
    requires forall p :: AtPosition(r, p) == AtPosition(q, p)
    ensures q != [] && r[0] == q[0]
  {
    var m := r[0].position;
    assert r[0] in AtPosition(q, m);
    assert q[0] in AtPosition(r, q[0].position);
    assert q[0].position == m;
    assert r == [r[0]] + r[1..] && q == [q[0]] + q[1..];
    ConsAtPosition(r[0], r[1..], m);
    ConsAtPosition(q[0], q[1..], m);
    HeadsEqual(r[0], AtPosition(r[1..], m), q[0], AtPosition(q[1..], m));
  }

  /** Past a common first channel, the rest agree position by position. */
  lemma SortedTailsAgree(r: seq<Channel>, q: seq<Channel>)
    requires SortedByPosition(r) && SortedByPosition(q) && r != [] && q != [] && r[0] == q[0]
    requires forall p :: AtPosition(r, p) == AtPosition(q, p)
    ensures SortedByPosition(r[1..]) && SortedByPosition(q[1..])
    ensures forall p :: AtPosition(r[1..], p) == AtPosition(q[1..], p)
  {
    var m := r[0].position;
    assert r == [r[0]] + r[1..] && q == [q[0]] + q[1..];
    forall p ensures AtPosition(r[1..], p) == AtPosition(q[1..], p) {
      ConsAtPosition(r[0], r[1..], p);
      ConsAtPosition(q[0], q[1..], p);
      if p == m {
        HeadsEqual(r[0], AtPosition(r[1..], m), q[0], AtPosition(q[1..], m));
      } else {
        assert [] + AtPosition(r[1..], p) == AtPosition(r[1..], p);
        assert [] + AtPosition(q[1..], p) == AtPosition(q[1..], p);
      }
    }
  }

  /** `ByPosition` is exactly the stable sort: the only position-sorted
      arrangement that keeps, at every position, the input's order. */
  lemma ByPositionCharacterization(s: seq<Channel>, r: seq<Channel>)
    ensures r == ByPosition(s) <==> SortedByPosition(r) && forall p :: AtPosition(r, p) == AtPosition(s, p)
  {
    forall p ensures AtPosition(ByPosition(s), p) == AtPosition(s, p) {
      ByPositionStable(s, p);
    }
    if SortedByPosition(r) && forall p :: AtPosition(r, p) == AtPosition(s, p) {
      SortedStableUnique(r, ByPosition(s));
    }
  }

  lemma UniqueIdsNoDup(s: seq<Channel>)
    requires UniqueIds(s)
    ensures NoDup(s)
  {
  }

  /** Distinct ids survive any rearrangement of the channels. */
  lemma UniqueIdsPermutation(s: seq<Channel>, t: seq<Channel>)
    requires multiset(s) == multiset(t)
    requires UniqueIds(s)
    ensures UniqueIds(t)
  {
    forall i, j | 0 <= i < j < |t| ensures t[i].id != t[j].id {
      UniqueIdsNoDup(s);
      NoDupCount(s, t[i]);
      if t[i] == t[j] {
        TwiceInMultiset(t, i, j);
      }
      assert t[i] != t[j];
      assert t[i] in multiset(s) && t[j] in multiset(s);
      var a :| 0 <= a < |s| && s[a] == t[i];
      var b :| 0 <= b < |s| && s[b] == t[j];
      assert a != b;
    }
  }

  /** Sorting neither creates nor merges channels, so distinct ids stay distinct. */
  lemma ByPositionUniqueIds(s: seq<Channel>)
    requires UniqueIds(s)
    ensures UniqueIds(ByPosition(s))
  {
    UniqueIdsPermutation(s, ByPosition(s));
  }

  /** Within a category with distinct ids, a channel is determined by its id. */
  lemma SameIdSameChannel(s: seq<Channel>, a: Channel, b: Channel)
    requires UniqueIds(s) && a in s && b in s && a.id == b.id
    ensures a == b
  {
  }

  /** The channels of a sorted category carry the same ids as before sorting. */
  lemma IdsOfByPosition(s: seq<Channel>)
    ensures forall x :: x in Ids(ByPosition(s)) <==> x in Ids(s)
  {
    ByPositionMembers(s);
    forall x ensures x in Ids(ByPosition(s)) <==> x in Ids(s) {
      IdsMembers(s, x);
      IdsMembers(ByPosition(s), x);
    }
  }
}
