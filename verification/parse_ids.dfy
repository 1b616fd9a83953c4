/** `parse_ids`: turn a comma/whitespace separated list of channel ids into
    a duplicate-free list of integers, first occurrence wins. */
module ParseIds {
  import opened Seqs
  import opened Tokens

  /** ASCII decimal digit (the model of `str.isdigit` on one character). */
  predicate IsDigit(c: char) {
    '0' <= c <= '9'
  }

  predicate AllDigits(t: string) {
    forall k :: 0 <= k < |t| ==> IsDigit(t[k])
  }

  /** A token `part.isdigit()` accepts: non-empty and digits only. */
  predicate IsDigitToken(t: string) {
    |t| > 0 && AllDigits(t)
  }

  /** `int(part)` for a string of decimal digits. */
  function DecimalValue(t: string): nat
    requires AllDigits(t)
    decreases |t|
  {
    if t == [] then 0
    else DecimalValue(t[..|t| - 1]) * 10 + (t[|t| - 1] as int - '0' as int)
  }

  function DigitChar(d: nat): (c: char)
    requires d < 10
    ensures IsDigit(c) && c as int - '0' as int == d
  {
    ('0' as int + d) as char
  }

  /** `str(n)`: the canonical decimal spelling of `n`, without leading zeros. */
  function Decimal(n: nat): (r: string)
    ensures IsDigitToken(r)
    ensures DecimalValue(r) == n
    ensures r[0] == '0' ==> n == 0 && |r| == 1
  {
    if n < 10 then [DigitChar(n)]
    else
      var r := Decimal(n / 10) + [DigitChar(n % 10)];
      assert r[..|r| - 1] == Decimal(n / 10);
      r
  }

  /** A digit string is at least its leading digit's value. */
  lemma {:induction false} DecimalValueAtLeastLead(t: string)
    requires IsDigitToken(t)
    ensures DecimalValue(t) >= t[0] as int - '0' as int
    decreases |t|
  {
    if |t| > 1 {
      DecimalValueAtLeastLead(t[..|t| - 1]);
    }
  }

  /** Reading a canonical digit string and printing the value gives the
      string back: `str(int(t)) == t` when `t` has no leading zero. */
  lemma {:induction false} DecimalOfValue(t: string)
    requires IsDigitToken(t)
    requires t[0] == '0' ==> |t| == 1
    ensures Decimal(DecimalValue(t)) == t
    decreases |t|
  {
    if |t| > 1 {
      var init := t[..|t| - 1];
      var d := t[|t| - 1] as int - '0' as int;
      DecimalValueAtLeastLead(init);
      DecimalOfValue(init);
      var v := DecimalValue(t);
      assert v == DecimalValue(init) * 10 + d;
      assert v / 10 == DecimalValue(init) && v % 10 == d;
      assert t == init + [t[|t| - 1]];
    }
  }

  /** The ids read from the tokens, in token order, duplicates kept:
      the `items` list of `parse_ids`. */
  function DigitIds(tokens: seq<string>): (r: seq<nat>)
    decreases |tokens|
  {
    if tokens == [] then []
    else
      var last := tokens[|tokens| - 1];
      DigitIds(tokens[..|tokens| - 1]) + (if IsDigitToken(last) then [DecimalValue(last)] else [])
  }

  /** An id is read exactly when some all-digit token spells it. */
  lemma {:induction false} DigitIdsMembers(tokens: seq<string>, x: nat)
    ensures x in DigitIds(tokens) <==> exists t :: t in tokens && IsDigitToken(t) && DecimalValue(t) == x
    decreases |tokens|
  {
    if tokens != [] {
      var init := tokens[..|tokens| - 1];
      DigitIdsMembers(init, x);
      assert tokens == init + [tokens[|tokens| - 1]];
      assert forall t :: t in tokens <==> t in init || t == tokens[|tokens| - 1];
    }
  }

  lemma {:induction false} DigitIdsConcat(a: seq<string>, b: seq<string>)
    ensures DigitIds(a + b) == DigitIds(a) + DigitIds(b)
    decreases |b|
  {
    if b == [] {
      assert a + b == a;
    } else {
      var init := b[..|b| - 1];
      assert (a + b)[..|a + b| - 1] == a + init;
      DigitIdsConcat(a, init);
    }
  }

  /** CPython's default cap on the number of digits `int()` converts from a
      decimal string (`sys.int_info.default_max_str_digits`); a longer
      string makes `int()` raise `ValueError`. */
  const MaxStrDigits := 4300

  /** An all-digit token that `int(part)` refuses. */
  predicate OverLimit(t: string) {
    IsDigitToken(t) && |t| > MaxStrDigits
  }

  predicate WithinLimit(parts: seq<string>) {
    forall k :: 0 <= k < |parts| ==> !OverLimit(parts[k])
  }

  /** What `parse_ids` does: return the ids, or raise `ValueError` from
      `int(part)` because some all-digit token is too long. */
  datatype ParseOutcome = Parsed(ids: seq<nat>) | DigitLimitExceeded

  /** The tokens `parse_ids` loops over: `s.replace(",", " ").split()`. */
  function Parts(s: string): seq<string> {
    Split(ReplaceCommas(s))
  }

  /** The ids read from `s` before deduplication. */
  function Items(s: string): seq<nat> {
    DigitIds(Parts(s))
  }

  /** The first loop of `parse_ids` on `parts`: the ids in token order, or
      the error when `int(part)` raises on some token. */
  function ReadIds(parts: seq<string>): ParseOutcome {
    if WithinLimit(parts) then Parsed(DigitIds(parts)) else DigitLimitExceeded
  }

  /** The list `parse_ids(s)` returns when no token is over the limit:
      duplicate-free, holding the values of the all-digit tokens, in the
      order in which they first occur. */
  function IdList(s: string): (r: seq<nat>)
    ensures NoDup(r)
    ensures forall x: nat :: x in r <==>
      exists t :: t in Parts(s) && IsDigitToken(t) && DecimalValue(t) == x
    ensures FirstSeenOrder(Items(s), r)
  {
    var items := Items(s);
    forall x: nat ensures x in Dedup(items) <==>
      exists t :: t in Parts(s) && IsDigitToken(t) && DecimalValue(t) == x
    {
      DigitIdsMembers(Parts(s), x);
    }
    Dedup(items)
  }

  /** `parse_ids(s)`: commas act as whitespace, the all-digit tokens are read
      as integers, and repeats are dropped with the first occurrence kept;
      `int()` raises when a token has more than `MaxStrDigits` digits. */
  function ParseIds(s: string): (r: ParseOutcome)
    ensures r.DigitLimitExceeded? <==> exists t :: t in Parts(s) && IsDigitToken(t) && |t| > MaxStrDigits
    ensures r.Parsed? ==> r.ids == IdList(s) && NoDup(r.ids)
  {
    match ReadIds(Parts(s))
    case DigitLimitExceeded => DigitLimitExceeded
    case Parsed(items) => Parsed(Dedup(items))
  }

  /** Text no longer than the limit never reaches it: `parse_ids` returns. */
  lemma ParseIdsShortText(s: string)
    requires |s| <= MaxStrDigits
    ensures ParseIds(s) == Parsed(IdList(s))
  {
    SplitTokenLength(ReplaceCommas(s));
  }

  /** 4301 ones, a valid command argument, make `parse_ids` raise. */
  lemma ParseIdsLongToken()
    ensures ParseIds(seq(MaxStrDigits + 1, _ => '1')).DigitLimitExceeded?
  {
    var t := seq(MaxStrDigits + 1, _ => '1');
    PartsOfToken(t);
    assert t in Parts(t);
  }

  /** The first loop of `parse_ids`: read every all-digit token, in order,
      stopping with the error at the first one `int` refuses. */
  method CollectIds(parts: seq<string>) returns (r: ParseOutcome)
    ensures r.DigitLimitExceeded? <==> !WithinLimit(parts)
    ensures r.Parsed? ==> r.ids == DigitIds(parts)
  {
    var items: seq<nat> := [];
    var i := 0;
    while i < |parts|
      invariant 0 <= i <= |parts|
      invariant items == DigitIds(parts[..i])
      invariant WithinLimit(parts[..i])
    {
      var part := parts[i];
      assert parts[..i + 1] == parts[..i] + [part];
      if IsDigitToken(part) {
        if |part| > MaxStrDigits {
          return DigitLimitExceeded;
        }
        items := items + [DecimalValue(part)];
      }
      i := i + 1;
    }
    assert parts[..i] == parts;
    r := Parsed(items);
  }

  /** The second loop of `parse_ids`: keep an id only the first time it is
      seen, remembering the ids kept so far in a set. */
  method DropRepeats(items: seq<nat>) returns (out: seq<nat>)
    ensures out == Dedup(items)
  {
    var seen: set<nat> := {};
    out := [];
    var j := 0;
    while j < |items|
      invariant 0 <= j <= |items|
      invariant out == Dedup(items[..j])
      invariant forall x :: x in seen <==> x in out
    {
      var x := items[j];
      assert items[..j + 1][..j] == items[..j];
      if x !in seen {
        out := out + [x];
        seen := seen + {x};
      }
      j := j + 1;
    }
    assert items[..j] == items;
  }

  /** `parse_ids` as written: tokenize, collect the digit tokens (or raise),
      drop repeats. */
  method ParseIdsLoop(s: string) returns (out: ParseOutcome)
    ensures out == ParseIds(s)
    ensures out.Parsed? ==> NoDup(out.ids)
  {
    var parts := Tokenize(ReplaceCommas(s));
    var collected := CollectIds(parts);
    match collected
    case DigitLimitExceeded =>
      out := DigitLimitExceeded;
    case Parsed(items) =>
      var ids := DropRepeats(items);
      out := Parsed(ids);
  }

  /** Replacing a separator (a comma or any whitespace character) by any
      other separator never changes what `parse_ids` does. */
  lemma SeparatorsInterchangeable(s: string, k: nat, c: char)
    requires k < |s|
    requires s[k] == ',' || IsSpace(s[k])
    requires c == ',' || IsSpace(c)
    ensures ParseIds(s[k := c]) == ParseIds(s)
  {
    SplitSpaceAgnostic(ReplaceCommas(s[k := c]), ReplaceCommas(s));
  }

  /** A separator splits the tokens on either side of it. */
  lemma PartsAtSeparator(x: string, c: char, y: string)
    requires c == ',' || IsSpace(c)
    ensures Parts(x + [c] + y) == Parts(x) + Parts(y)
  {
    var rc := if c == ',' then ' ' else c;
    ReplaceCommasConcat(x + [c], y);
    ReplaceCommasConcat(x, [c]);
    assert ReplaceCommas([c]) == [rc];
    assert ReplaceCommas(x + [c] + y) == ReplaceCommas(x) + [rc] + ReplaceCommas(y);
    SplitAtSpace(ReplaceCommas(x), rc, ReplaceCommas(y));
  }

  /** A separator splits the ids read on either side of it. */
  lemma ItemsAtSeparator(x: string, c: char, y: string)
    requires c == ',' || IsSpace(c)
    ensures Items(x + [c] + y) == Items(x) + Items(y)
  {
    PartsAtSeparator(x, c, y);
    DigitIdsConcat(Parts(x), Parts(y));
  }

  /** Text without separators is a single token, or none when empty. */
  lemma PartsOfToken(t: string)
    requires NoSpace(t) && ',' !in t
    ensures Parts(t) == Chunk(t)
  {
    assert ReplaceCommas(t) == t;
    SplitNoSpace(t);
  }

  /** A single token is read as its own value, or not at all. */
  lemma ItemsOfToken(t: string)
    requires NoSpace(t) && ',' !in t
    ensures Items(t) == if IsDigitToken(t) then [DecimalValue(t)] else []
  {
    PartsOfToken(t);
    if t != [] {
      assert [t][..0] == [];
      assert DigitIds([t]) == DigitIds([]) + (if IsDigitToken(t) then [DecimalValue(t)] else []);
    }
  }

  lemma WithinLimitConcat(a: seq<string>, b: seq<string>)
    ensures WithinLimit(a + b) <==> WithinLimit(a) && WithinLimit(b)
  {
    if WithinLimit(a) && WithinLimit(b) {
      forall k | 0 <= k < |a + b|
        ensures !OverLimit((a + b)[k])
      {
        if k >= |a| {
          assert (a + b)[k] == b[k - |a|];
        }
      }
    }
    if WithinLimit(a + b) {
      assert forall k :: 0 <= k < |a| ==> (a + b)[k] == a[k];
      assert forall k :: 0 <= k < |b| ==> (a + b)[|a| + k] == b[k];
    }
  }

  /** A token that is not all digits is skipped by the first loop. */
  lemma ReadIdsSkip(x: seq<string>, t: string, y: seq<string>)
    requires !IsDigitToken(t)
    ensures ReadIds(x + Chunk(t) + y) == ReadIds(x + y)
  {
    assert WithinLimit(Chunk(t)) && DigitIds(Chunk(t)) == [] by {
      if t != [] {
        assert [t][..0] == [];
      }
    }
    WithinLimitConcat(x + Chunk(t), y);
    WithinLimitConcat(x, Chunk(t));
    WithinLimitConcat(x, y);
    DigitIdsConcat(x + Chunk(t), y);
    DigitIdsConcat(x, Chunk(t));
    DigitIdsConcat(x, y);
    assert DigitIds(x) + [] == DigitIds(x);
  }

  /** A token containing a character other than an ASCII digit contributes
      nothing: `parse_ids` does the same with and without it. */
  lemma NonDigitTokenIgnored(a: string, t: string, b: string)
    requires NoSpace(t) && ',' !in t
    requires !IsDigitToken(t)
    ensures ParseIds(a + " " + t + " " + b) == ParseIds(a + " " + b)
  {
    var x, y := Parts(a), Parts(b);
    assert Parts(a + " " + t + " " + b) == x + Chunk(t) + y by {
      var rest := t + [' '] + b;
      assert a + " " + t + " " + b == a + [' '] + rest;
      PartsAtSeparator(a, ' ', rest);
      PartsAtSeparator(t, ' ', b);
      PartsOfToken(t);
    }
    assert Parts(a + " " + b) == x + y by {
      assert a + " " + b == a + [' '] + b;
      PartsAtSeparator(a, ' ', b);
    }
    ReadIdsSkip(x, t, y);
  }

  /** The decimal spellings of `ids`, joined by commas: the form the
      command's argument takes, e.g. "111,222,333". */
  function JoinIds(ids: seq<nat>): string
    decreases |ids|
  {
    if ids == [] then ""
    else if |ids| == 1 then Decimal(ids[0])
    else Decimal(ids[0]) + "," + JoinIds(ids[1..])
  }

  /** `str(n)` succeeds: CPython's limit applies to printing as well. */
  predicate Printable(ids: seq<nat>) {
    forall k :: 0 <= k < |ids| ==> |Decimal(ids[k])| <= MaxStrDigits
  }

  lemma DecimalIsToken(n: nat)
    ensures NoSpace(Decimal(n)) && ',' !in Decimal(n)
  {
    var d := Decimal(n);
    assert forall k :: 0 <= k < |d| ==> IsDigit(d[k]);
  }

  lemma ItemsOfDecimal(n: nat)
    ensures Items(Decimal(n)) == [n]
  {
    DecimalIsToken(n);
    ItemsOfToken(Decimal(n));
  }

  lemma {:induction false} ItemsOfJoinIds(ids: seq<nat>)
    ensures Items(JoinIds(ids)) == ids
    decreases |ids|
  {
    if |ids| == 1 {
      ItemsOfDecimal(ids[0]);
    } else if |ids| > 1 {
      ItemsOfDecimal(ids[0]);
      ItemsAtSeparator(Decimal(ids[0]), ',', JoinIds(ids[1..]));
      ItemsOfJoinIds(ids[1..]);
      assert ids == [ids[0]] + ids[1..];
    }
  }

  /** Every token of printed ids is one id's decimal spelling. */
  lemma {:induction false} PartsOfJoinIdsWithinLimit(ids: seq<nat>)
    requires Printable(ids)
    ensures WithinLimit(Parts(JoinIds(ids)))
    decreases |ids|
  {
    if ids != [] {
      var d := Decimal(ids[0]);
      DecimalIsToken(ids[0]);
      PartsOfToken(d);
      assert WithinLimit(Parts(d)) by {
        assert Parts(d) == [d];
      }
      if |ids| > 1 {
        assert Printable(ids[1..]) by {
          assert forall k :: 0 <= k < |ids| - 1 ==> ids[1..][k] == ids[k + 1];
        }
        PartsOfJoinIdsWithinLimit(ids[1..]);
        PartsAtSeparator(d, ',', JoinIds(ids[1..]));
        WithinLimitConcat(Parts(d), Parts(JoinIds(ids[1..])));
      }
    }
  }

  /** Printing ids joined by commas and parsing the text back yields the ids
      with repeats removed, first occurrence kept. */
  lemma ParseJoinIds(ids: seq<nat>)
    requires Printable(ids)
    ensures ParseIds(JoinIds(ids)) == Parsed(Dedup(ids))
  {
    ItemsOfJoinIds(ids);
    PartsOfJoinIdsWithinLimit(ids);
  }

  /** A duplicate-free id list survives printing and parsing unchanged. */
  lemma ParseJoinIdsRoundTrip(ids: seq<nat>)
    requires NoDup(ids) && Printable(ids)
    ensures ParseIds(JoinIds(ids)) == Parsed(ids)
  {
    ParseJoinIds(ids);
    DedupOfNoDup(ids);
  }
}
