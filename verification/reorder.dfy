/** The pure part of `reorder_category_by_ids`: which channels move, the
    order they end up in, and the position payload sent to the guild. */
module Reorder {
  import opened Seqs
  import opened Channels

  /** One `{"id": ..., "position": ...}` entry of the bulk position edit. */
  datatype PositionUpdate = PositionUpdate(id: int, position: int)

  /** What the planner decides before any request is made. */
  datatype Plan =
    | NoneInCategory                          // no requested id belongs to the category
    | AlreadyInOrder                          // the category is already in the requested order
    | Edit(payload: seq<PositionUpdate>)      // send this payload

  /** How the guild answered the bulk position edit. */
  datatype ApiResult = ApiOk | ApiForbidden | ApiHttpError(reason: string)

  /** The message the function returns to the command handler. */
  datatype Reply =
    | NotFoundReply
    | AlreadyInOrderReply
    | UpdatedReply
    | ForbiddenReply
    | FailedReply(reason: string)

  /** `id2ch[id]` for `id2ch = {c.id: c for c in current}`: a later channel
      with the same id overwrites an earlier one, so the last one is found. */
  function ChannelById(current: seq<Channel>, id: int): (c: Channel)
    requires id in Ids(current)
    ensures c in current && c.id == id
    ensures exists k :: 0 <= k < |current| && current[k] == c &&
                        forall j :: k < j < |current| ==> current[j].id != id
    decreases |current|
  {
    var n := |current| - 1;
    if current[n].id == id then current[n]
    else
      assert id in Ids(current[..n]) by {
        var i :| 0 <= i < |current| && Ids(current)[i] == id;
        assert Ids(current[..n])[i] == id;
      }
      ChannelById(current[..n], id)
  }

  /** `valid`: the requested ids that belong to the category, in request order. */
  function ValidIds(current: seq<Channel>, ordered: seq<int>): seq<int> {
    Filter(ordered, (x: int) => x in Ids(current))
  }

  /** `specified`: the channels of the valid ids, in request order. */
  function Specified(current: seq<Channel>, valid: seq<int>): (r: seq<Channel>)
    requires forall k :: 0 <= k < |valid| ==> valid[k] in Ids(current)
    ensures |r| == |valid|
    ensures forall i :: 0 <= i < |r| ==> r[i] in current && r[i].id == valid[i]
  {
    seq(|valid|, i requires 0 <= i < |valid| => ChannelById(current, valid[i]))
  }

  /** `remaining`: the other channels, in their current order. */
  function Remaining(current: seq<Channel>, valid: seq<int>): seq<Channel> {
    Filter(current, (c: Channel) => c.id !in valid)
  }

  /** `final_order`: the requested block at the front (or back), the rest
      of the category after (or before) it. */
  function FinalOrder(channels: seq<Channel>, ordered: seq<int>, placeFront: bool): seq<Channel> {
    Arrange(ByPosition(channels), ordered, placeFront)
  }

  /** The rearrangement of an already position-sorted category. */
  function Arrange(current: seq<Channel>, ordered: seq<int>, placeFront: bool): seq<Channel> {
    var valid := ValidIds(current, ordered);
    var specified := Specified(current, valid);
    var remaining := Remaining(current, valid);
    if placeFront then specified + remaining else remaining + specified
  }

  /** `b` is the smallest position among `chs`. */
  ghost predicate IsMinPosition(chs: seq<Channel>, b: int) {
    && (exists k :: 0 <= k < |chs| && chs[k].position == b)
    && (forall k :: 0 <= k < |chs| ==> b <= chs[k].position)
  }

  /** `min(ch.position for ch in current)`. */
  function MinPosition(chs: seq<Channel>): (b: int)
    requires |chs| > 0
    ensures IsMinPosition(chs, b)
  {
    if |chs| == 1 then chs[0].position
    else
      var m := MinPosition(chs[1..]);
      assert forall k :: 1 <= k < |chs| ==> chs[k] == chs[1..][k - 1];
      if chs[0].position <= m then chs[0].position else m
  }

  /** Contiguous positions from `base`, one per channel of `order`. */
  function Payload(order: seq<Channel>, base: int): (r: seq<PositionUpdate>)
    ensures |r| == |order|
    ensures forall i :: 0 <= i < |r| ==> r[i].id == order[i].id && r[i].position == base + i
  {
    seq(|order|, i requires 0 <= i < |order| => PositionUpdate(order[i].id, base + i))
  }

  function PayloadIds(payload: seq<PositionUpdate>): (r: seq<int>)
    ensures |r| == |payload|
    ensures forall i :: 0 <= i < |payload| ==> r[i] == payload[i].id
  {
    seq(|payload|, i requires 0 <= i < |payload| => payload[i].id)
  }

  /** A requested id belongs to the sorted category exactly when it belongs to the category. */
  lemma ValidIdsOfChannels(channels: seq<Channel>, ordered: seq<int>)
    ensures ValidIds(ByPosition(channels), ordered) == Filter(ordered, (x: int) => x in Ids(channels))
    ensures forall x :: x in ValidIds(ByPosition(channels), ordered) <==> x in ordered && x in Ids(channels)
  {
    IdsOfByPosition(channels);
    FilterCongruent(ordered, (x: int) => x in Ids(ByPosition(channels)), (x: int) => x in Ids(channels));
  }

  /** Everything `reorder_category_by_ids` decides before calling the guild:
      give up when no requested id is in the category, do nothing when the
      order would not change, and otherwise renumber the whole category
      contiguously from its smallest position in the new order. */
  function PlanReorder(channels: seq<Channel>, ordered: seq<int>, placeFront: bool): (r: Plan)
    ensures r.NoneInCategory? <==> forall k :: 0 <= k < |ordered| ==> ordered[k] !in Ids(channels)
    ensures r.AlreadyInOrder? <==>
      && !(forall k :: 0 <= k < |ordered| ==> ordered[k] !in Ids(channels))
      && Ids(FinalOrder(channels, ordered, placeFront)) == Ids(ByPosition(channels))
    ensures r.Edit? ==>
      && Ids(FinalOrder(channels, ordered, placeFront)) != Ids(ByPosition(channels))
      && PayloadIds(r.payload) == Ids(FinalOrder(channels, ordered, placeFront))
      && |r.payload| > 0
      && IsMinPosition(channels, r.payload[0].position)
      && forall i :: 0 <= i < |r.payload| ==> r.payload[i].position == r.payload[0].position + i
  {
    var current := ByPosition(channels);
    var valid := ValidIds(current, ordered);
    NoValidIds(channels, ordered);
    if valid == [] then NoneInCategory
    else
      var final := Arrange(current, ordered, placeFront);
      if Ids(current) == Ids(final) then AlreadyInOrder
      else
        var base := MinPosition(current);
        MinPositionOfPermutation(channels, current, base);
        Edit(Payload(final, base))
  }

  /** `valid` is empty exactly when no requested id is a channel of the category. */
  lemma NoValidIds(channels: seq<Channel>, ordered: seq<int>)
    ensures ValidIds(ByPosition(channels), ordered) == [] <==>
      forall k :: 0 <= k < |ordered| ==> ordered[k] !in Ids(channels)
  {
    var valid := ValidIds(ByPosition(channels), ordered);
    ValidIdsOfChannels(channels, ordered);
    if valid != [] {
      assert valid[0] in valid;
    }
  }

  /** The smallest position does not depend on the order of the channels. */
  lemma MinPositionOfPermutation(channels: seq<Channel>, current: seq<Channel>, b: int)
    requires multiset(current) == multiset(channels)
    requires IsMinPosition(current, b)
    ensures IsMinPosition(channels, b)
  {
    var k :| 0 <= k < |current| && current[k].position == b;
    assert current[k] in multiset(channels);
    forall j | 0 <= j < |channels| ensures b <= channels[j].position {
      assert channels[j] in multiset(current);
    }
  }

  /** `reorder_category_by_ids`, with the guild's answer to the bulk edit
      as a parameter: the edit is only attempted, and its answer only
      matters, when the planner produced a payload. */
  function ReorderCategory(channels: seq<Channel>, ordered: seq<int>, placeFront: bool, api: ApiResult): (reply: Reply)
    ensures reply.NotFoundReply? <==> forall k :: 0 <= k < |ordered| ==> ordered[k] !in Ids(channels)
    ensures reply.AlreadyInOrderReply? <==> PlanReorder(channels, ordered, placeFront).AlreadyInOrder?
    ensures reply.UpdatedReply? <==> PlanReorder(channels, ordered, placeFront).Edit? && api.ApiOk?
    ensures reply.ForbiddenReply? <==> PlanReorder(channels, ordered, placeFront).Edit? && api.ApiForbidden?
    ensures reply.FailedReply? <==> PlanReorder(channels, ordered, placeFront).Edit? && api.ApiHttpError?
    ensures reply.FailedReply? ==> reply.reason == api.reason
  {
    match PlanReorder(channels, ordered, placeFront)
    case NoneInCategory => NotFoundReply
    case AlreadyInOrder => AlreadyInOrderReply
    case Edit(_) =>
      match api
      case ApiOk => UpdatedReply
      case ApiForbidden => ForbiddenReply
      case ApiHttpError(reason) => FailedReply(reason)
  }

  /** Among channels with distinct ids, the dictionary lookup finds the channel itself. */
  lemma ChannelByIdFinds(current: seq<Channel>, c: Channel)
    requires UniqueIds(current) && c in current
    ensures c.id in Ids(current) && ChannelById(current, c.id) == c
  {
    var k :| 0 <= k < |current| && current[k] == c;
    assert Ids(current)[k] == c.id;
    SameIdSameChannel(current, c, ChannelById(current, c.id));
  }

  /** With a duplicate-free request and distinct channel ids, the new order
      is a rearrangement of the category: no channel is lost or repeated. */
  lemma FinalOrderPermutation(channels: seq<Channel>, ordered: seq<int>, placeFront: bool)
    requires NoDup(ordered)
    requires UniqueIds(channels)
    ensures multiset(FinalOrder(channels, ordered, placeFront)) == multiset(channels)
  {
    ByPositionUniqueIds(channels);
    ArrangePermutation(ByPosition(channels), ordered, placeFront);
  }

  lemma ArrangePermutation(current: seq<Channel>, ordered: seq<int>, placeFront: bool)
    requires NoDup(ordered)
    requires UniqueIds(current)
    ensures multiset(Arrange(current, ordered, placeFront)) == multiset(current)
  {
    var valid := ValidIds(current, ordered);
    var specified := Specified(current, valid);
    var remaining := Remaining(current, valid);
    assert multiset(specified) + multiset(remaining) == multiset(current) by {
      FilterNoDup(ordered, (x: int) => x in Ids(current));
      SpecifiedPermutation(current, valid);
      FilterSplitsMultiset(current, (c: Channel) => c.id in valid, (c: Channel) => c.id !in valid);
    }
    if placeFront {
      assert multiset(specified + remaining) == multiset(specified) + multiset(remaining);
    } else {
      assert multiset(remaining + specified) == multiset(specified) + multiset(remaining);
    }
  }

  /** The looked-up channels are exactly the category's channels whose id is valid. */
  lemma SpecifiedPermutation(current: seq<Channel>, valid: seq<int>)
    requires UniqueIds(current) && NoDup(valid)
    requires forall k :: 0 <= k < |valid| ==> valid[k] in Ids(current)
    ensures multiset(Specified(current, valid)) == multiset(Filter(current, (c: Channel) => c.id in valid))
  {
    var specified := Specified(current, valid);
    var chosen := Filter(current, (c: Channel) => c.id in valid);
    UniqueIdsNoDup(current);
    assert NoDup(specified) by {
      forall i, j | 0 <= i < j < |specified| ensures specified[i] != specified[j] {
        assert specified[i].id == valid[i] && specified[j].id == valid[j];
      }
    }
    FilterNoDup(current, (c: Channel) => c.id in valid);
    assert SameElements(specified, chosen) by {
      forall x ensures x in specified <==> x in chosen {
        if x in chosen {
          var i :| 0 <= i < |valid| && valid[i] == x.id;
          ChannelByIdFinds(current, x);
          assert specified[i] == x;
        }
      }
    }
    NoDupSameElementsPermutation(specified, chosen);
  }

  /** The channels that were not requested keep their relative order from
      the position-sorted category. */
  lemma UnrequestedKeepOrder(channels: seq<Channel>, ordered: seq<int>, placeFront: bool)
    ensures Filter(FinalOrder(channels, ordered, placeFront), (c: Channel) => c.id !in ordered)
         == Filter(ByPosition(channels), (c: Channel) => c.id !in ordered)
  {
    ArrangeUnrequested(ByPosition(channels), ordered, placeFront);
  }

  lemma ArrangeUnrequested(current: seq<Channel>, ordered: seq<int>, placeFront: bool)
    ensures Filter(Arrange(current, ordered, placeFront), (c: Channel) => c.id !in ordered)
         == Filter(current, (c: Channel) => c.id !in ordered)
  {
    var valid := ValidIds(current, ordered);
    var specified := Specified(current, valid);
    var remaining := Remaining(current, valid);
    var notRequested := (c: Channel) => c.id !in ordered;
    FilterNone(specified, notRequested);
    forall i | 0 <= i < |current| ensures notRequested(current[i]) == (current[i].id !in valid && notRequested(current[i])) {
      assert Ids(current)[i] == current[i].id;
    }
    FilterFilter(current, (c: Channel) => c.id !in valid, notRequested, notRequested);
    FilterConcat(specified, remaining, notRequested);
    FilterConcat(remaining, specified, notRequested);
    assert Filter(remaining, notRequested) + [] == Filter(remaining, notRequested);
  }

  /** The requested channels that belong to the category appear in exactly
      the order in which they were requested. */
  lemma RequestedFollowOrder(channels: seq<Channel>, ordered: seq<int>, placeFront: bool)
    ensures Ids(Filter(FinalOrder(channels, ordered, placeFront), (c: Channel) => c.id in ordered))
         == Filter(ordered, (x: int) => x in Ids(channels))
  {
    var current := ByPosition(channels);
    var valid := ValidIds(current, ordered);
    var specified := Specified(current, valid);
    var remaining := Remaining(current, valid);
    var requested := (c: Channel) => c.id in ordered;
    assert Filter(specified, requested) == specified by {
      FilterAll(specified, requested);
    }
    assert Filter(remaining, requested) == [] by {
      forall i | 0 <= i < |remaining| ensures !requested(remaining[i]) {
        assert remaining[i] in current;
        IdsMembers(current, remaining[i].id);
      }
      FilterNone(remaining, requested);
    }
    assert Ids(specified) == Filter(ordered, (x: int) => x in Ids(channels)) by {
      ValidIdsOfChannels(channels, ordered);
    }
    if placeFront {
      FilterConcat(specified, remaining, requested);
      assert specified + [] == specified;
    } else {
      FilterConcat(remaining, specified, requested);
      assert [] + specified == specified;
    }
  }

  /** With `place_front` the requested channels form a prefix of the new
      order, otherwise a suffix; the unrequested channels fill the rest in
      their position order. */
  lemma RequestedBlockPlacement(channels: seq<Channel>, ordered: seq<int>, placeFront: bool)
    ensures var final := FinalOrder(channels, ordered, placeFront);
            var requested := Filter(ordered, (x: int) => x in Ids(channels));
            var others := Filter(ByPosition(channels), (c: Channel) => c.id !in ordered);
            && |requested| <= |final|
            && (placeFront ==> Ids(final[..|requested|]) == requested && final[|requested|..] == others)
            && (!placeFront ==>
                  final[..|final| - |requested|] == others && Ids(final[|final| - |requested|..]) == requested)
  {
    var current := ByPosition(channels);
    var valid := ValidIds(current, ordered);
    var specified := Specified(current, valid);
    var remaining := Remaining(current, valid);
    var final := FinalOrder(channels, ordered, placeFront);
    ValidIdsOfChannels(channels, ordered);
    var notInValid := (c: Channel) => c.id !in valid;
    var notRequested := (c: Channel) => c.id !in ordered;
    forall i | 0 <= i < |current| ensures notInValid(current[i]) == notRequested(current[i]) {
      assert Ids(current)[i] == current[i].id;
    }
    FilterCongruent(current, notInValid, notRequested);
    if placeFront {
      assert final[..|valid|] == specified && final[|valid|..] == remaining;
    } else {
      assert final[..|final| - |valid|] == remaining && final[|final| - |valid|..] == specified;
    }
  }

  /** Applying the payload: each channel named in it takes the position
      given there (the first entry for its id), the others keep theirs. */
  function NewPosition(payload: seq<PositionUpdate>, c: Channel): int {
    if payload == [] then c.position
    else if payload[0].id == c.id then payload[0].position
    else NewPosition(payload[1..], c)
  }

  function ApplyPayload(channels: seq<Channel>, payload: seq<PositionUpdate>): (r: seq<Channel>)
    ensures |r| == |channels|
    ensures forall i :: 0 <= i < |r| ==> r[i] == Channel(channels[i].id, NewPosition(payload, channels[i]))
  {
    seq(|channels|, i requires 0 <= i < |channels| => Channel(channels[i].id, NewPosition(payload, channels[i])))
  }

  lemma {:induction false} NewPositionAt(payload: seq<PositionUpdate>, i: nat, c: Channel)
    requires NoDup(PayloadIds(payload))
    requires i < |payload| && payload[i].id == c.id
    ensures NewPosition(payload, c) == payload[i].position
  {
    if i > 0 {
      assert PayloadIds(payload)[0] != PayloadIds(payload)[i];
      assert NoDup(PayloadIds(payload[1..])) by {
        forall a, b | 0 <= a < b < |payload| - 1
          ensures PayloadIds(payload[1..])[a] != PayloadIds(payload[1..])[b]
        {
          assert PayloadIds(payload)[a + 1] != PayloadIds(payload)[b + 1];
        }
      }
      NewPositionAt(payload[1..], i - 1, c);
    }
  }

  /** The category's channels renumbered `base`, `base + 1`, ... in the given order. */
  function Renumbered(order: seq<Channel>, base: int): (r: seq<Channel>)
    ensures |r| == |order|
    ensures forall i :: 0 <= i < |r| ==> r[i] == Channel(order[i].id, base + i)
  {
    seq(|order|, i requires 0 <= i < |order| => Channel(order[i].id, base + i))
  }

  /** Applying a payload built from a rearrangement `order` of the channels
      gives every channel the position of its place in `order`. */
  lemma AppliedIsRenumbered(channels: seq<Channel>, order: seq<Channel>, base: int)
    requires multiset(order) == multiset(channels)
    requires UniqueIds(order)
    ensures SameElements(ApplyPayload(channels, Payload(order, base)), Renumbered(order, base))
  {
    var payload := Payload(order, base);
    var applied := ApplyPayload(channels, payload);
    var target := Renumbered(order, base);
    assert NoDup(PayloadIds(payload)) by {
      forall a, b | 0 <= a < b < |payload| ensures PayloadIds(payload)[a] != PayloadIds(payload)[b] {
        assert PayloadIds(payload)[a] == order[a].id && PayloadIds(payload)[b] == order[b].id;
      }
    }
    forall x ensures x in applied <==> x in target {
      if x in applied {
        var k :| 0 <= k < |applied| && applied[k] == x;
        assert channels[k] in multiset(order);
        var i :| 0 <= i < |order| && order[i] == channels[k];
        NewPositionAt(payload, i, channels[k]);
        assert target[i] == x;
      }
      if x in target {
        var i :| 0 <= i < |target| && target[i] == x;
        assert order[i] in multiset(channels);
        var k :| 0 <= k < |channels| && channels[k] == order[i];
        NewPositionAt(payload, i, channels[k]);
        assert applied[k] == x;
      }
    }
  }

  /** In a renumbered category a position names at most one channel. */
  lemma RenumberedPositionsDistinct(order: seq<Channel>, base: int, x: Channel, y: Channel)
    requires x in Renumbered(order, base) && y in Renumbered(order, base)
    ensures x.position == y.position ==> x == y
  {
    var target := Renumbered(order, base);
    var i :| 0 <= i < |target| && target[i] == x;
    var j :| 0 <= j < |target| && target[j] == y;
  }

  /** Sorting the renumbered channels by their new positions lists them in `order`. */
  lemma SortedAppliedIsRenumbered(channels: seq<Channel>, order: seq<Channel>, base: int)
    requires multiset(order) == multiset(channels)
    requires UniqueIds(channels) && UniqueIds(order)
    ensures ByPosition(ApplyPayload(channels, Payload(order, base))) == Renumbered(order, base)
  {
    var applied := ApplyPayload(channels, Payload(order, base));
    var target := Renumbered(order, base);
    var sorted := ByPosition(applied);
    var key := (c: Channel) => c.position;
    assert SameElements(sorted, target) by {
      AppliedIsRenumbered(channels, order, base);
      ByPositionMembers(applied);
    }
    assert UniqueIds(sorted) by {
      assert UniqueIds(applied) by {
        forall a, b | 0 <= a < b < |applied| ensures applied[a].id != applied[b].id {
          assert applied[a].id == channels[a].id && applied[b].id == channels[b].id;
        }
      }
      ByPositionUniqueIds(applied);
    }
    assert StrictlyIncreasingBy(target, key);
    assert StrictlyIncreasingBy(sorted, key) by {
      forall a, b | 0 <= a < b < |sorted| ensures key(sorted[a]) < key(sorted[b]) {
        assert sorted[a] in target && sorted[b] in target;
        RenumberedPositionsDistinct(order, base, sorted[a], sorted[b]);
        assert sorted[a].id != sorted[b].id;
      }
    }
    StrictlyIncreasingUnique(sorted, target, key);
  }

  /** The planned payload numbers the new order contiguously from its first position. */
  lemma PlannedPayload(channels: seq<Channel>, ordered: seq<int>, placeFront: bool)
    requires PlanReorder(channels, ordered, placeFront).Edit?
    ensures var payload := PlanReorder(channels, ordered, placeFront).payload;
            payload == Payload(FinalOrder(channels, ordered, placeFront), payload[0].position)
  {
    var payload := PlanReorder(channels, ordered, placeFront).payload;
    var final := FinalOrder(channels, ordered, placeFront);
    assert |payload| == |PayloadIds(payload)| == |Ids(final)| == |final|;
    forall i | 0 <= i < |payload| ensures payload[i] == Payload(final, payload[0].position)[i] {
      assert PayloadIds(payload)[i] == payload[i].id == Ids(final)[i];
    }
  }

  /** Once the guild applies the payload, listing the category by position
      gives exactly the planned order. */
  lemma PayloadRealizesOrder(channels: seq<Channel>, ordered: seq<int>, placeFront: bool)
    requires NoDup(ordered)
    requires UniqueIds(channels)
    requires PlanReorder(channels, ordered, placeFront).Edit?
    ensures Ids(ByPosition(ApplyPayload(channels, PlanReorder(channels, ordered, placeFront).payload)))
         == Ids(FinalOrder(channels, ordered, placeFront))
  {
    var final := FinalOrder(channels, ordered, placeFront);
    var payload := PlanReorder(channels, ordered, placeFront).payload;
    var base := payload[0].position;
    assert payload == Payload(final, base) by {
      PlannedPayload(channels, ordered, placeFront);
    }
    assert multiset(final) == multiset(channels) && UniqueIds(final) by {
      FinalOrderPermutation(channels, ordered, placeFront);
      UniqueIdsPermutation(channels, final);
    }
    SortedAppliedIsRenumbered(channels, final, base);
    assert Ids(Renumbered(final, base)) == Ids(final);
  }
}
