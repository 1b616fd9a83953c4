/** Whitespace tokenisation as performed by Python's argument-less
    `str.split()` after `str.replace(",", " ")`. */
module Tokens {

  /** The characters Python's `str.split()` treats as whitespace: the ASCII
      controls tab through carriage return, the information separators
      U+001C..U+001F, space, and the Unicode spaces and line separators. */
  predicate IsSpace(c: char) {
    || c == ' '
    || ('\t' <= c <= '\r')
    || ('\U{1c}' <= c <= '\U{1f}')
    || c == '\U{85}'
    || c == '\U{a0}'
    || c == '\U{1680}'
    || ('\U{2000}' <= c <= '\U{200a}')
    || c == '\U{2028}'
    || c == '\U{2029}'
    || c == '\U{202f}'
    || c == '\U{205f}'
    || c == '\U{3000}'
  }

  predicate NoSpace(t: string) {
    forall k :: 0 <= k < |t| ==> !IsSpace(t[k])
  }

  /** `s.replace(",", " ")`: every comma becomes a space, nothing else changes. */
  function ReplaceCommas(s: string): (r: string)
    ensures |r| == |s|
    ensures forall k :: 0 <= k < |s| ==> (s[k] == ',' ==> r[k] == ' ') && (s[k] != ',' ==> r[k] == s[k])
  {
    seq(|s|, k requires 0 <= k < |s| => if s[k] == ',' then ' ' else s[k])
  }

  lemma ReplaceCommasConcat(a: string, b: string)
    ensures ReplaceCommas(a + b) == ReplaceCommas(a) + ReplaceCommas(b)
  {
  }

  /** Index of the first whitespace character, or `|s|` when there is none. */
  function FirstSpace(s: string): (i: nat)
    ensures i <= |s|
    ensures i < |s| ==> IsSpace(s[i])
  {
    if s == [] then 0
    else if IsSpace(s[0]) then 0
    else 1 + FirstSpace(s[1..])
  }

  /** No whitespace comes before the first space. */
  lemma {:induction false} FirstSpaceRun(s: string)
    ensures NoSpace(s[..FirstSpace(s)])
  {
    if s != [] && !IsSpace(s[0]) {
      FirstSpaceRun(s[1..]);
      assert s[..FirstSpace(s)] == [s[0]] + s[1..][..FirstSpace(s[1..])];
    }
  }

  /** A run of non-space characters as a token list: nothing when empty. */
  function Chunk(t: string): seq<string> {
    if t == [] then [] else [t]
  }

  /** Tokens of `s`: the maximal non-empty runs of non-space characters, in order. */
  function Split(s: string): seq<string>
    decreases |s|
  {
    var i := FirstSpace(s);
    if i == |s| then Chunk(s) else Chunk(s[..i]) + Split(s[i + 1..])
  }

  /** Every token is a non-empty run without whitespace. */
  lemma {:induction false} SplitTokens(s: string)
    ensures forall n :: 0 <= n < |Split(s)| ==> |Split(s)[n]| > 0 && NoSpace(Split(s)[n])
    decreases |s|
  {
    var i := FirstSpace(s);
    FirstSpaceRun(s);
    if i < |s| {
      SplitTokens(s[i + 1..]);
    }
  }

  /** No token is longer than the text it comes from. */
  lemma {:induction false} SplitTokenLength(s: string)
    ensures forall n :: 0 <= n < |Split(s)| ==> |Split(s)[n]| <= |s|
    decreases |s|
  {
    var i := FirstSpace(s);
    if i < |s| {
      SplitTokenLength(s[i + 1..]);
      SplitStep(s, i);
    }
  }

  /** A string without whitespace has no first space. */
  lemma {:induction false} FirstSpaceNoSpace(t: string)
    requires NoSpace(t)
    ensures FirstSpace(t) == |t|
  {
    if t != [] {
      FirstSpaceNoSpace(t[1..]);
    }
  }

  /** A string without whitespace is a single token (or none when empty). */
  lemma SplitNoSpace(t: string)
    requires NoSpace(t)
    ensures Split(t) == Chunk(t)
  {
    FirstSpaceNoSpace(t);
  }

  /** One step of `Split`: the run before the first space, then the rest. */
  lemma SplitStep(s: string, i: nat)
    requires i == FirstSpace(s) && i < |s|
    ensures Split(s) == Chunk(s[..i]) + Split(s[i + 1..])
  {
  }

  lemma AppendAssoc<T>(x: seq<T>, y: seq<T>, z: seq<T>)
    ensures x + (y + z) == (x + y) + z
  {
  }

  /** Every whitespace character is a token boundary: splitting around it
      splits each side independently. Together with `SplitNoSpace` this
      determines `Split` completely. */
  lemma {:induction false} SplitAtSpace(a: string, c: char, b: string)
    requires IsSpace(c)
    ensures Split(a + [c] + b) == Split(a) + Split(b)
    decreases |a|
  {
    var s := a + [c] + b;
    var i := FirstSpace(a);
    assert FirstSpace(s) == i by {
      assert s == a + ([c] + b);
      FirstSpaceOfPrefix(a, [c] + b);
    }
    assert s[..i] == a[..i];
    SplitStep(s, i);
    if i == |a| {
      assert s[i + 1..] == b;
      assert a[..i] == a;
    } else {
      var rest := a[i + 1..];
      assert s[i + 1..] == rest + [c] + b;
      SplitAtSpace(rest, c, b);
      SplitStep(a, i);
      AppendAssoc(Chunk(a[..i]), Split(rest), Split(b));
    }
  }

  /** The first space of `a + b` is the first space of `a` when `a` has one,
      and is at `|a|` when `a` has none and `b` starts with one. */
  lemma {:induction false} FirstSpaceOfPrefix(a: string, b: string)
    requires FirstSpace(a) < |a| || (|b| > 0 && IsSpace(b[0]))
    ensures FirstSpace(a + b) == FirstSpace(a)
  {
    if a != [] && !IsSpace(a[0]) {
      assert (a + b)[1..] == a[1..] + b;
      FirstSpaceOfPrefix(a[1..], b);
    }
  }

  /** Split only sees which characters are spaces: strings that agree
      everywhere except at positions where both hold some space character
      split into the same tokens. */
  lemma {:induction false} SplitSpaceAgnostic(a: string, b: string)
    requires |a| == |b|
    requires forall k :: 0 <= k < |a| ==> a[k] == b[k] || (IsSpace(a[k]) && IsSpace(b[k]))
    ensures Split(a) == Split(b)
    decreases |a|
  {
    var i := FirstSpace(a);
    FirstSpaceAgnostic(a, b);
    FirstSpaceRun(a);
    assert a[..i] == b[..i];
    if i == |a| {
      assert a[..i] == a && b[..i] == b;
    } else {
      SplitSpaceAgnostic(a[i + 1..], b[i + 1..]);
    }
  }

  lemma {:induction false} FirstSpaceAgnostic(a: string, b: string)
    requires |a| == |b|
    requires forall k :: 0 <= k < |a| ==> a[k] == b[k] || (IsSpace(a[k]) && IsSpace(b[k]))
    ensures FirstSpace(a) == FirstSpace(b)
  {
    if a != [] && !IsSpace(a[0]) {
      FirstSpaceAgnostic(a[1..], b[1..]);
    }
  }

  /** The tokens, concatenated, are exactly the non-space characters of `s`. */
  lemma {:induction false} SplitKeepsContent(s: string)
    ensures Concat(Split(s)) == RemoveSpaces(s)
    decreases |s|
  {
    var i := FirstSpace(s);
    FirstSpaceRun(s);
    if i == |s| {
      assert s[..i] == s;
      RemoveSpacesOfNoSpace(s);
      ConcatChunk(s);
    } else {
      var rest := s[i + 1..];
      SplitStep(s, i);
      SplitKeepsContent(rest);
      ConcatAppend(Chunk(s[..i]), Split(rest));
      ConcatChunk(s[..i]);
      RemoveSpacesAtSpace(s, i);
    }
  }

  lemma ConcatChunk(t: string)
    ensures Concat(Chunk(t)) == t
  {
    if t != [] {
      assert Chunk(t)[1..] == [];
    }
  }

  /** Removing spaces across the first space keeps the run before it. */
  lemma RemoveSpacesAtSpace(s: string, i: nat)
    requires i < |s| && IsSpace(s[i]) && NoSpace(s[..i])
    ensures RemoveSpaces(s) == s[..i] + RemoveSpaces(s[i + 1..])
  {
    var sr := [s[i]] + s[i + 1..];
    assert s == s[..i] + sr;
    RemoveSpacesConcat(s[..i], sr);
    RemoveSpacesOfNoSpace(s[..i]);
    assert sr[1..] == s[i + 1..];
  }

  function Concat(ts: seq<string>): string {
    if ts == [] then [] else ts[0] + Concat(ts[1..])
  }

  function RemoveSpaces(s: string): string {
    if s == [] then [] else (if IsSpace(s[0]) then [] else [s[0]]) + RemoveSpaces(s[1..])
  }

  lemma {:induction false} ConcatAppend(xs: seq<string>, ys: seq<string>)
    ensures Concat(xs + ys) == Concat(xs) + Concat(ys)
  {
    if xs == [] {
      assert xs + ys == ys;
    } else {
      assert (xs + ys)[1..] == xs[1..] + ys;
      ConcatAppend(xs[1..], ys);
    }
  }

  lemma {:induction false} RemoveSpacesConcat(a: string, b: string)
    ensures RemoveSpaces(a + b) == RemoveSpaces(a) + RemoveSpaces(b)
  {
    if a == [] {
      assert a + b == b;
    } else {
      assert (a + b)[1..] == a[1..] + b;
      RemoveSpacesConcat(a[1..], b);
    }
  }

  lemma {:induction false} RemoveSpacesOfNoSpace(t: string)
    requires NoSpace(t)
    ensures RemoveSpaces(t) == t
  {
    if t != [] {
      RemoveSpacesOfNoSpace(t[1..]);
    }
  }

  /** A pending token followed by a space is complete. */
  lemma SplitAfterToken(current: string, rest: string)
    requires NoSpace(current)
    requires |rest| > 0 && IsSpace(rest[0])
    ensures Split(current + rest) == Chunk(current) + Split(rest[1..])
  {
    assert current + rest == current + [rest[0]] + rest[1..];
    SplitAtSpace(current, rest[0], rest[1..]);
    SplitNoSpace(current);
  }

  /** The scan meets a space: the pending run becomes a token. */
  lemma ScanSpace(tokens: seq<string>, current: string, s: string, i: nat)
    requires i < |s| && IsSpace(s[i]) && NoSpace(current)
    requires tokens + Split(current + s[i..]) == Split(s)
    ensures (tokens + Chunk(current)) + Split(s[i + 1..]) == Split(s)
  {
    SplitAfterToken(current, s[i..]);
    assert s[i..][1..] == s[i + 1..];
  }

  /** The scan meets any other character: the pending run grows. */
  lemma ScanChar(tokens: seq<string>, current: string, s: string, i: nat)
    requires i < |s| && !IsSpace(s[i]) && NoSpace(current)
    requires tokens + Split(current + s[i..]) == Split(s)
    ensures NoSpace(current + [s[i]])
    ensures tokens + Split((current + [s[i]]) + s[i + 1..]) == Split(s)
  {
    assert current + s[i..] == (current + [s[i]]) + s[i + 1..];
  }

  /** Left-to-right scan building the tokens one character at a time. */
  method Tokenize(s: string) returns (tokens: seq<string>)
    ensures tokens == Split(s)
  {
    tokens := [];
    var current: string := [];
    var i := 0;
    assert current + s[i..] == s;
    while i < |s|
      invariant 0 <= i <= |s|
      invariant NoSpace(current)
      invariant tokens + Split(current + s[i..]) == Split(s)
    {
      if IsSpace(s[i]) {
        ScanSpace(tokens, current, s, i);
        tokens := tokens + Chunk(current);
        current := [];
        assert current + s[i + 1..] == s[i + 1..];
      } else {
        ScanChar(tokens, current, s, i);
        current := current + [s[i]];
      }
      i := i + 1;
    }
    assert current + s[i..] == current;
    SplitNoSpace(current);
    tokens := tokens + Chunk(current);
  }
}
