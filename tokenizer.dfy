/** The number extraction shared by all revisions: the global regular-expression
    scans `/\d{1,3}/g` and `/v(\d{1,3})/gi` over the latest chat message, the
    conversion of each match with `parseInt(_, 10)`, the 0..100 range filter of
    the later revisions, and the backwards search for the latest message that
    contains a digit (`text.match(/\d+/)`). */
module Tokenizer {
  import opened Common

  /** `\d` without the unicode flag: the ASCII digits. */
  predicate IsDigit(c: char)
  {
    '0' <= c <= '9'
  }

  /** The letter `v` under the case-insensitive flag. */
  predicate IsMarker(c: char)
  {
    c == 'v' || c == 'V'
  }

  /** `text.match(/\d+/)` succeeds. */
  predicate HasDigit(s: string)
  {
    exists i | 0 <= i < |s| :: IsDigit(s[i])
  }

  /** The digits of one match: `s[start .. start + len]`. */
  datatype Span = Span(start: nat, len: nat)

  /** Length of the greedy `\d{1,max}` at position i (0 when s[i] is no digit). */
  function RunLength(s: string, i: nat, max: nat): (k: nat)
    requires i <= |s|
    ensures k <= max && i + k <= |s|
    ensures forall j | i <= j < i + k :: IsDigit(s[j])
    ensures k < max && i + k < |s| ==> !IsDigit(s[i + k])
    decreases max
  {
    if max == 0 || i == |s| || !IsDigit(s[i]) then 0 else 1 + RunLength(s, i + 1, max - 1)
  }

  /** The successive matches of the global scan started at position i: with
      `marker` false those of `/\d{1,3}/g`, with `marker` true the captured
      digits of `/v(\d{1,3})/gi`. A failed attempt advances by one character,
      a match resumes right after its last digit. */
  function ScanFrom(s: string, i: nat, marker: bool): seq<Span>
    requires i <= |s|
    decreases |s| - i
  {
    if i == |s| then []
    else if !marker then
      var k := RunLength(s, i, 3);
      if k == 0 then ScanFrom(s, i + 1, marker) else [Span(i, k)] + ScanFrom(s, i + k, marker)
    else if IsMarker(s[i]) && RunLength(s, i + 1, 3) > 0 then
      var k := RunLength(s, i + 1, 3);
      [Span(i + 1, k)] + ScanFrom(s, i + 1 + k, marker)
    else
      ScanFrom(s, i + 1, marker)
  }

  function Matches(s: string, marker: bool): seq<Span>
  {
    ScanFrom(s, 0, marker)
  }

  /** `parseInt(ds, 10)` of a string of decimal digits. */
  function DigitsValue(ds: string): (n: nat)
    requires forall j | 0 <= j < |ds| :: IsDigit(ds[j])
    decreases |ds|
  {
    if |ds| == 0 then 0
    else
      assert IsDigit(ds[|ds| - 1]);
      10 * DigitsValue(ds[..|ds| - 1]) + (ds[|ds| - 1] as int - '0' as int)
  }

  predicate WithinText(s: string, sp: Span)
  {
    sp.start + sp.len <= |s|
  }

  /** A well-formed match: one to three digits inside the text, and greedy
      (three digits, or the next character is not a digit). */
  predicate IsDigitMatch(s: string, sp: Span)
  {
    && WithinText(s, sp)
    && 1 <= sp.len <= 3
    && (forall j | sp.start <= j < sp.start + sp.len :: IsDigit(s[j]))
    && (sp.len == 3 || sp.start + sp.len == |s| || !IsDigit(s[sp.start + sp.len]))
  }

  /** The digit string of a match, with the `v` already removed. */
  function SpanText(s: string, sp: Span): string
    requires WithinText(s, sp)
  {
    s[sp.start .. sp.start + sp.len]
  }

  /** The numbers the scan extracts, in text order: `match(...)` followed by
      `parseInt(_, 10)`. */
  function Tokens(s: string, marker: bool): (ts: seq<nat>)
  {
    var ms := Matches(s, marker);
    MatchesWellFormed(s, 0, marker);
    seq(|ms|, j requires 0 <= j < |ms| => DigitsValue(SpanText(s, ms[j])))
  }

  /** A match found by a scan resumed at position i: well formed, at or after
      i, and under the `v` variant preceded by a `v` or `V` (itself at or
      after i). */
  predicate MatchAfter(s: string, sp: Span, i: nat, marker: bool)
  {
    && IsDigitMatch(s, sp)
    && i + (if marker then 1 else 0) <= sp.start
    && (marker ==> IsMarker(s[sp.start - 1]))
  }

  /** Successive matches do not overlap (nor share a `v`). */
  predicate Ordered(ms: seq<Span>, marker: bool)
  {
    forall j | 0 <= j < |ms| - 1 :: ms[j].start + ms[j].len + (if marker then 1 else 0) <= ms[j + 1].start
  }

  predicate WellFormedScan(s: string, ms: seq<Span>, i: nat, marker: bool)
  {
    (forall j | 0 <= j < |ms| :: MatchAfter(s, ms[j], i, marker)) && Ordered(ms, marker)
  }

  /** Every match of the scan is well formed, starts at or after i, and the
      matches follow each other without overlapping; under the `v` variant
      each is preceded by a `v` or `V` that is not part of the previous one. */
  lemma MatchesWellFormed(s: string, i: nat, marker: bool)
    requires i <= |s|
    ensures WellFormedScan(s, ScanFrom(s, i, marker), i, marker)
  {
    if marker {
      MarkedScanWellFormed(s, i);
    } else {
      PlainScanWellFormed(s, i);
    }
  }

  lemma {:induction false} PlainScanWellFormed(s: string, i: nat)
    requires i <= |s|
    ensures WellFormedScan(s, ScanFrom(s, i, false), i, false)
    decreases |s| - i
  {
    if i < |s| {
      var ms := ScanFrom(s, i, false);
      var k := RunLength(s, i, 3);
      if k > 0 {
        var rest := ScanFrom(s, i + k, false);
        assert ms == [Span(i, k)] + rest;
        PlainScanWellFormed(s, i + k);
        assert MatchAfter(s, Span(i, k), i, false);
        ScanCons(s, ms, Span(i, k), rest, i, i + k, false);
      } else {
        var rest := ScanFrom(s, i + 1, false);
        assert ms == rest;
        PlainScanWellFormed(s, i + 1);
        ScanLater(s, rest, i, i + 1, false);
      }
    }
  }

  lemma {:induction false} MarkedScanWellFormed(s: string, i: nat)
    requires i <= |s|
    ensures WellFormedScan(s, ScanFrom(s, i, true), i, true)
    decreases |s| - i
  {
    if i < |s| {
      var ms := ScanFrom(s, i, true);
      if IsMarker(s[i]) && RunLength(s, i + 1, 3) > 0 {
        var k := RunLength(s, i + 1, 3);
        var rest := ScanFrom(s, i + 1 + k, true);
        assert ms == [Span(i + 1, k)] + rest;
        MarkedScanWellFormed(s, i + 1 + k);
        assert MatchAfter(s, Span(i + 1, k), i, true);
        ScanCons(s, ms, Span(i + 1, k), rest, i, i + 1 + k, true);
      } else {
        var rest := ScanFrom(s, i + 1, true);
        assert ms == rest;
        MarkedScanWellFormed(s, i + 1);
        ScanLater(s, rest, i, i + 1, true);
      }
    }
  }

  lemma ScanLater(s: string, ms: seq<Span>, i: nat, i': nat, marker: bool)
    requires i <= i' && WellFormedScan(s, ms, i', marker)
    ensures WellFormedScan(s, ms, i, marker)
  {
    forall j | 0 <= j < |ms| ensures MatchAfter(s, ms[j], i, marker) {
      assert MatchAfter(s, ms[j], i', marker);
    }
  }

  lemma ScanCons(s: string, ms: seq<Span>, sp: Span, rest: seq<Span>, i: nat, i': nat, marker: bool)
    requires ms == [sp] + rest
    requires MatchAfter(s, sp, i, marker) && WellFormedScan(s, rest, i', marker)
    requires sp.start + sp.len == i'
    ensures WellFormedScan(s, ms, i, marker)
  {
    forall j | 0 <= j < |ms| ensures MatchAfter(s, ms[j], i, marker) {
      if j > 0 {
        assert ms[j] == rest[j - 1];
        assert MatchAfter(s, rest[j - 1], i', marker);
      }
    }
    forall j | 0 <= j < |ms| - 1
      ensures ms[j].start + ms[j].len + (if marker then 1 else 0) <= ms[j + 1].start
    {
      assert ms[j + 1] == rest[j];
      assert MatchAfter(s, rest[j], i', marker);
      if j > 0 {
        assert ms[j] == rest[j - 1];
      }
    }
  }

  /** Each extracted number has one to three digits, so it is at most 999. */
  lemma TokensBounded(s: string, marker: bool)
    ensures forall j | 0 <= j < |Tokens(s, marker)| :: Tokens(s, marker)[j] <= 999
  {
    var ms := Matches(s, marker);
    MatchesWellFormed(s, 0, marker);
    forall j | 0 <= j < |ms|
      ensures Tokens(s, marker)[j] <= 999
    {
      DigitsValueBound(SpanText(s, ms[j]));
    }
  }

  lemma {:induction false} DigitsValueBound(ds: string)
    requires forall j | 0 <= j < |ds| :: IsDigit(ds[j])
    requires |ds| <= 3
    ensures DigitsValue(ds) <= 999
    ensures |ds| <= 2 ==> DigitsValue(ds) <= 99
    ensures |ds| <= 1 ==> DigitsValue(ds) <= 9
  {
    if |ds| > 0 {
      DigitsValueBound(ds[..|ds| - 1]);
    }
  }

  /** The digit characters of s from position i on, in order. */
  function DigitsFrom(s: string, i: nat): string
    requires i <= |s|
    decreases |s| - i
  {
    if i == |s| then [] else (if IsDigit(s[i]) then [s[i]] else []) + DigitsFrom(s, i + 1)
  }

  /** Concatenation of the digit strings of a list of matches. */
  function Joined(s: string, ms: seq<Span>): string
    requires forall j | 0 <= j < |ms| :: WithinText(s, ms[j])
  {
    if |ms| == 0 then [] else SpanText(s, ms[0]) + Joined(s, ms[1..])
  }

  lemma {:induction false} DigitsFromRun(s: string, i: nat, k: nat)
    requires i + k <= |s|
    requires forall j | i <= j < i + k :: IsDigit(s[j])
    ensures DigitsFrom(s, i) == s[i .. i + k] + DigitsFrom(s, i + k)
    decreases k
  {
    if k > 0 {
      DigitsFromRun(s, i + 1, k - 1);
      assert IsDigit(s[i]);
      assert DigitsFrom(s, i) == [s[i]] + DigitsFrom(s, i + 1);
      assert s[i .. i + k] == [s[i]] + s[i + 1 .. i + k];
      assert [s[i]] + (s[i + 1 .. i + k] + DigitsFrom(s, i + k)) == ([s[i]] + s[i + 1 .. i + k]) + DigitsFrom(s, i + k);
    }
  }

  /** Every match of a scan lies inside the text. */
  lemma ScanWithin(s: string, i: nat, marker: bool)
    requires i <= |s|
    ensures forall j | 0 <= j < |ScanFrom(s, i, marker)| :: WithinText(s, ScanFrom(s, i, marker)[j])
  {
    var ms := ScanFrom(s, i, marker);
    MatchesWellFormed(s, i, marker);
    forall j | 0 <= j < |ms| ensures WithinText(s, ms[j]) {
      assert MatchAfter(s, ms[j], i, marker);
    }
  }

  /** Without the `v` prefix the matches cut the text's digits into pieces and
      lose none: joined in order they give back every digit of the text. */
  lemma {:induction false} PlainMatchesCoverDigits(s: string, i: nat)
    requires i <= |s|
    ensures forall j | 0 <= j < |ScanFrom(s, i, false)| :: WithinText(s, ScanFrom(s, i, false)[j])
    ensures Joined(s, ScanFrom(s, i, false)) == DigitsFrom(s, i)
    decreases |s| - i
  {
    ScanWithin(s, i, false);
    if i < |s| {
      var ms := ScanFrom(s, i, false);
      var k := RunLength(s, i, 3);
      if k == 0 {
        assert ms == ScanFrom(s, i + 1, false);
        assert DigitsFrom(s, i) == DigitsFrom(s, i + 1);
        PlainMatchesCoverDigits(s, i + 1);
      } else {
        var rest := ScanFrom(s, i + k, false);
        assert ms == [Span(i, k)] + rest;
        PlainMatchesCoverDigits(s, i + k);
        DigitsFromRun(s, i, k);
        JoinedCons(s, ms, Span(i, k), rest);
      }
    }
  }

  lemma JoinedCons(s: string, ms: seq<Span>, sp: Span, rest: seq<Span>)
    requires ms == [sp] + rest
    requires WithinText(s, sp) && forall j | 0 <= j < |rest| :: WithinText(s, rest[j])
    ensures forall j | 0 <= j < |ms| :: WithinText(s, ms[j])
    ensures Joined(s, ms) == SpanText(s, sp) + Joined(s, rest)
  {
    forall j | 0 <= j < |ms| ensures WithinText(s, ms[j]) {
      if j > 0 {
        assert ms[j] == rest[j - 1];
      }
    }
    assert ms[1..] == rest;
  }

  /** Under the `v` variant, every `v`/`V` immediately followed by a digit, at
      or after position i, yields a match starting at that digit. */
  lemma {:induction false} MarkedDigitsMatched(s: string, i: nat, p: nat)
    requires i <= p && p + 1 < |s|
    requires IsMarker(s[p]) && IsDigit(s[p + 1])
    ensures exists j | 0 <= j < |ScanFrom(s, i, true)| :: ScanFrom(s, i, true)[j].start == p + 1
    decreases |s| - i
  {
    var ms := ScanFrom(s, i, true);
    if IsMarker(s[i]) && RunLength(s, i + 1, 3) > 0 {
      var k := RunLength(s, i + 1, 3);
      if i == p {
        assert ms[0].start == p + 1;
      } else {
        // the characters i+1 .. i+k are digits, so the marker at p lies beyond them
        assert !IsDigit(s[p]);
        assert p >= i + 1 + k;
        MarkedDigitsMatched(s, i + 1 + k, p);
        var j :| 0 <= j < |ScanFrom(s, i + 1 + k, true)| && ScanFrom(s, i + 1 + k, true)[j].start == p + 1;
        assert ms[j + 1] == ScanFrom(s, i + 1 + k, true)[j];
      }
    } else {
      assert i != p;
      MarkedDigitsMatched(s, i + 1, p);
    }
  }

  /** A text holds a digit exactly when the plain scan finds a number. */
  lemma HasDigitIffTokens(s: string)
    ensures HasDigit(s) <==> |Tokens(s, false)| > 0
  {
    PlainMatchesCoverDigits(s, 0);
    DigitsFromNonEmpty(s, 0);
    MatchesWellFormed(s, 0, false);
    var ms := Matches(s, false);
    if |ms| == 0 {
      assert Joined(s, ms) == [];
    } else {
      assert |SpanText(s, ms[0])| >= 1;
      assert Joined(s, ms) == SpanText(s, ms[0]) + Joined(s, ms[1..]);
    }
  }

  lemma {:induction false} DigitsFromNonEmpty(s: string, i: nat)
    requires i <= |s|
    ensures |DigitsFrom(s, i)| > 0 <==> exists j | i <= j < |s| :: IsDigit(s[j])
    decreases |s| - i
  {
    if i < |s| {
      DigitsFromNonEmpty(s, i + 1);
    }
  }

  /** `numberMatches.filter(n => 0 <= n <= 100)`. */
  function FilterRange(ts: seq<nat>): (r: seq<nat>)
  {
    if |ts| == 0 then []
    else (if ts[0] <= 100 then [ts[0]] else []) + FilterRange(ts[1..])
  }

  /** xs is obtained from ys by deleting elements (relative order kept). */
  predicate IsSubsequence(xs: seq<nat>, ys: seq<nat>)
    decreases |ys|
  {
    if |xs| == 0 then true
    else if |ys| == 0 then false
    else if xs[0] == ys[0] then IsSubsequence(xs[1..], ys[1..])
    else IsSubsequence(xs, ys[1..])
  }

  /** The filter keeps exactly the values in 0..100, in their original order. */
  lemma {:induction false} FilterRangeSpec(ts: seq<nat>)
    ensures forall j | 0 <= j < |FilterRange(ts)| :: FilterRange(ts)[j] <= 100
    ensures forall x :: x in FilterRange(ts) <==> x in ts && x <= 100
    ensures IsSubsequence(FilterRange(ts), ts)
    ensures (forall j | 0 <= j < |ts| :: ts[j] <= 100) ==> FilterRange(ts) == ts
  {
    if |ts| > 0 {
      FilterRangeSpec(ts[1..]);
      var r := FilterRange(ts);
      if ts[0] <= 100 {
        assert r == [ts[0]] + FilterRange(ts[1..]);
        assert r[1..] == FilterRange(ts[1..]);
      } else {
        assert r == FilterRange(ts[1..]);
        SubsequenceOfTail(r, ts);
      }
      forall x
        ensures x in r <==> x in ts && x <= 100
      {
        assert x in ts <==> x == ts[0] || x in ts[1..];
      }
    }
  }

  lemma {:induction false} SubsequenceOfTail(xs: seq<nat>, ys: seq<nat>)
    requires |ys| > 0 && IsSubsequence(xs, ys[1..])
    ensures IsSubsequence(xs, ys)
    decreases |xs| + |ys|
  {
    if |xs| > 0 && xs[0] == ys[0] {
      // xs[1..] is a subsequence of ys[1..] because xs is
      SubsequenceDropHead(xs, ys[1..]);
    }
  }

  lemma {:induction false} SubsequenceDropHead(xs: seq<nat>, ys: seq<nat>)
    requires |xs| > 0 && IsSubsequence(xs, ys)
    ensures IsSubsequence(xs[1..], ys)
    decreases |xs| + |ys|
  {
    if xs[0] == ys[0] {
      SubsequenceOfTail(xs[1..], ys);
    } else {
      SubsequenceDropHead(xs, ys[1..]);
      SubsequenceOfTail(xs[1..], ys);
    }
  }

  /** The message the backwards search settles on: the last one containing a
      digit, or none. */
  function LatestWithDigit(msgs: seq<string>): Option<string>
    decreases |msgs|
  {
    if |msgs| == 0 then None
    else if HasDigit(msgs[|msgs| - 1]) then Some(msgs[|msgs| - 1])
    else LatestWithDigit(msgs[..|msgs| - 1])
  }

  /** The search result is the message at the highest position that contains a
      digit; it is absent exactly when no message contains one. */
  lemma {:induction false} LatestWithDigitSpec(msgs: seq<string>)
    ensures LatestWithDigit(msgs).None? <==> forall k | 0 <= k < |msgs| :: !HasDigit(msgs[k])
    ensures LatestWithDigit(msgs).Some? ==>
      exists k | 0 <= k < |msgs| ::
        && msgs[k] == LatestWithDigit(msgs).value && HasDigit(msgs[k])
        && forall j | k < j < |msgs| :: !HasDigit(msgs[j])
    decreases |msgs|
  {
    if |msgs| > 0 && !HasDigit(msgs[|msgs| - 1]) {
      var front := msgs[..|msgs| - 1];
      LatestWithDigitSpec(front);
      if LatestWithDigit(front).Some? {
        var k :| 0 <= k < |front| && front[k] == LatestWithDigit(front).value && HasDigit(front[k])
          && forall j | k < j < |front| :: !HasDigit(front[j]);
        assert msgs[k] == front[k];
      }
      assert forall k | 0 <= k < |front| :: front[k] == msgs[k];
    }
  }

  /** The loop `for (i = msgs.length - 1; i >= 0; i--)` that stops at the first
      message, counting from the end, that contains a digit. */
  method FindLatestWithDigit(msgs: seq<string>) returns (r: Option<string>)
    ensures r == LatestWithDigit(msgs)
  {
    var i := |msgs|;
    r := None;
    assert msgs[..i] == msgs;
    while i > 0
      invariant 0 <= i <= |msgs|
      invariant LatestWithDigit(msgs) == LatestWithDigit(msgs[..i])
    {
      if HasDigit(msgs[i - 1]) {
        assert msgs[..i][i - 1] == msgs[i - 1];
        r := Some(msgs[i - 1]);
        return;
      }
      assert msgs[..i][..i - 1] == msgs[..i - 1];
      i := i - 1;
    }
    assert msgs[..0] == [];
  }

  /** The numbers a tick works with: the matches of the message, restricted
      to 0..100. */
  function ChatNumbers(text: string, vPrefix: bool): seq<nat>
  {
    FilterRange(Tokens(text, vPrefix))
  }

  /** Either scan finds a number only in a text that holds a digit, so a
      message without a digit yields no numbers under either variant. */
  lemma NumbersNeedDigit(s: string, vPrefix: bool)
    ensures |ChatNumbers(s, vPrefix)| > 0 ==> |Tokens(s, vPrefix)| > 0
    ensures |Tokens(s, vPrefix)| > 0 ==> HasDigit(s)
  {
    FilterRangeSpec(Tokens(s, vPrefix));
    if |ChatNumbers(s, vPrefix)| > 0 {
      assert ChatNumbers(s, vPrefix)[0] in Tokens(s, vPrefix);
    }
    MatchesWellFormed(s, 0, vPrefix);
    var ms := Matches(s, vPrefix);
    if |ms| > 0 {
      assert IsDigitMatch(s, ms[0]);
      assert IsDigit(s[ms[0].start]);
    }
  }
}
