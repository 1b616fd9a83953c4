/** How `/reorder_channels` feeds the reorder: the parsed ids, minus those
    it found outside the target category, in parse order. */
module Command {
  import opened Seqs
  import opened Channels
  import opened Reorder
  import ParseIds

  /** `[cid for cid in id_list if cid not in bad_ids]` with
      `id_list = parse_ids(ids)`; `outside` stands for `bad_ids`, which the
      handler computes from live guild lookups. When `parse_ids` raises, the
      handler stops there and no reorder happens. */
  function CommandIds(text: string, outside: set<int>): (r: ParseIds.ParseOutcome)
    ensures r.DigitLimitExceeded? <==> ParseIds.ParseIds(text).DigitLimitExceeded?
    ensures r.Parsed? ==> NoDup(r.ids)
    ensures r.Parsed? ==> forall x :: x in r.ids <==> x in ParseIds.IdList(text) && x !in outside
    ensures r.Parsed? ==> FirstSeenOrder(ParseIds.IdList(text), r.ids)
  {
    match ParseIds.ParseIds(text)
    case DigitLimitExceeded => ParseIds.DigitLimitExceeded
    case Parsed(parsed) =>
      FilterNoDup(parsed, (x: nat) => x !in outside);
      FilterFirstSeenOrder(parsed, (x: nat) => x !in outside);
      ParseIds.Parsed(Filter(parsed, (x: nat) => x !in outside))
  }

  /** The command never hands the reorder a repeated id, so the new order it
      computes is always a rearrangement of the category's channels. */
  lemma CommandReorderIsPermutation(text: string, outside: set<int>, channels: seq<Channel>, placeFront: bool)
    requires UniqueIds(channels)
    ensures CommandIds(text, outside).Parsed? ==>
      multiset(FinalOrder(channels, CommandIds(text, outside).ids, placeFront)) == multiset(channels)
  {
    var r := CommandIds(text, outside);
    if r.Parsed? {
      FinalOrderPermutation(channels, r.ids, placeFront);
    }
  }
}
