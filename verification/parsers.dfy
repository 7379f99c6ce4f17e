/** The two console-output scrapers (Main.py lines 94-114). The pattern
    `\d+\.\d+\.\d+\.\d+` is modelled by a deterministic scanner: a digit class
    is disjoint from `.`, and a whitespace class from `:` and from digits, so
    the regex engine's backtracking can never shorten a run to good effect
    and every run it matches is the longest one available. */
module Parsers {
  import opened Wrappers

  predicate IsDigit(c: char) {
    '0' <= c <= '9'
  }

  /** The ASCII characters `\s` stands for in a `str` pattern: space, tab,
      line feed, vertical tab, form feed, carriage return and the four
      separators U+001C to U+001F. */
  predicate IsSpace(c: char) {
    || c == ' ' || c == '\t' || c == '\n' || c == '\r' || c == '\U{000B}' || c == '\U{000C}'
    || c == '\U{001C}' || c == '\U{001D}' || c == '\U{001E}' || c == '\U{001F}'
  }

  /** `s[i..j]` is a (possibly empty) run of digits. */
  predicate Digits(s: string, i: nat, j: nat) {
    i <= j <= |s| && forall k :: i <= k < j ==> IsDigit(s[k])
  }

  /** `s[i..j]` is a (possibly empty) run of whitespace. */
  predicate Spaces(s: string, i: nat, j: nat) {
    i <= j <= |s| && forall k :: i <= k < j ==> IsSpace(s[k])
  }

  /** `x` is four non-empty digit runs separated by single dots at `d1`,
      `d2` and `d3`: the text `\d+\.\d+\.\d+\.\d+` matches in full. */
  predicate QuadShape(x: string, d1: nat, d2: nat, d3: nat) {
    && 0 < d1 && d1 + 1 < d2 && d2 + 1 < d3 && d3 + 1 < |x|
    && x[d1] == '.' && x[d2] == '.' && x[d3] == '.'
    && Digits(x, 0, d1) && Digits(x, d1 + 1, d2)
    && Digits(x, d2 + 1, d3) && Digits(x, d3 + 1, |x|)
  }

  ghost predicate DottedQuad(x: string) {
    exists d1: nat, d2: nat, d3: nat :: QuadShape(x, d1, d2, d3)
  }

  /** Some substring of `s` is a dotted quad. */
  ghost predicate ContainsDottedQuad(s: string) {
    exists a, b :: 0 <= a <= b <= |s| && DottedQuad(s[a..b])
  }

  /** The end of the longest digit run that starts at `i`. */
  function DigitRunEnd(s: string, i: nat): (j: nat)
    requires i <= |s|
    ensures Digits(s, i, j)
    ensures j == |s| || !IsDigit(s[j])
    decreases |s| - i
  {
    if i < |s| && IsDigit(s[i]) then
      DigitRunEnd(s, i + 1)
    else i
  }

  /** The end of the longest whitespace run that starts at `i`. */
  function SpaceRunEnd(s: string, i: nat): (j: nat)
    requires i <= |s|
    ensures Spaces(s, i, j)
    ensures j == |s| || !IsSpace(s[j])
    decreases |s| - i
  {
    if i < |s| && IsSpace(s[i]) then
      SpaceRunEnd(s, i + 1)
    else i
  }

  /** A digit run reaches at least as far as any run of digits from the same
      start, and stops exactly where the digits stop. */
  lemma {:induction false} DigitRunEndAt(s: string, i: nat, j: nat)
    requires Digits(s, i, j)
    ensures DigitRunEnd(s, i) >= j
    ensures j == |s| || !IsDigit(s[j]) ==> DigitRunEnd(s, i) == j
    decreases j - i
  {
    if i < j {
      DigitRunEndAt(s, i + 1, j);
    }
  }

  /** Where `\.\d+` matched at `j` ends, taking the longest digit run. */
  function DotRunEnd(s: string, j: nat): (r: Option<nat>)
    requires j <= |s|
    ensures r.Some? ==> j + 1 < r.value <= |s| && s[j] == '.' && Digits(s, j + 1, r.value)
    ensures r.Some? ==> r.value == |s| || !IsDigit(s[r.value])
  {
    if j < |s| && s[j] == '.' && DigitRunEnd(s, j + 1) > j + 1 then Some(DigitRunEnd(s, j + 1))
    else None
  }

  /** Where a match of `\d+\.\d+\.\d+\.\d+` starting at `i` ends; every run
      is the longest one available. */
  function QuadEnd(s: string, i: nat): (r: Option<nat>)
    requires i <= |s|
    ensures r.Some? ==> i < r.value <= |s|
    ensures r.Some? ==> r.value == |s| || !IsDigit(s[r.value])
  {
    var j1 := DigitRunEnd(s, i);
    if j1 == i then None
    else match DotRunEnd(s, j1)
      case None => None
      case Some(j2) =>
        match DotRunEnd(s, j2)
        case None => None
        case Some(j3) => DotRunEnd(s, j3)
  }

  /** Whatever the scanner reports is a dotted quad. */
  lemma {:induction false} QuadEndSound(s: string, i: nat)
    requires i <= |s|
    ensures QuadEnd(s, i).Some? ==> DottedQuad(s[i..QuadEnd(s, i).value])
  {
    if QuadEnd(s, i).Some? {
      var e := QuadEnd(s, i).value;
      var j1 := DigitRunEnd(s, i);
      var j2 := DotRunEnd(s, j1).value;
      var j3 := DotRunEnd(s, j2).value;
      var x := s[i..e];
      assert forall k :: 0 <= k < |x| ==> x[k] == s[i + k];
      assert QuadShape(x, j1 - i, j2 - i, j3 - i);
    }
  }

  /** Every dotted quad in the text is found by the scanner started at its
      first character, which may only extend its last run with more digits. */
  lemma {:induction false} QuadEndComplete(s: string, a: nat, b: nat, d1: nat, d2: nat, d3: nat)
    requires a <= b <= |s| && QuadShape(s[a..b], d1, d2, d3)
    ensures QuadEnd(s, a).Some? && QuadEnd(s, a).value >= b
    ensures b == |s| || !IsDigit(s[b]) ==> QuadEnd(s, a) == Some(b)
  {
    QuadShapeAt(s, a, b, d1, d2, d3);
    DigitRunEndAt(s, a, a + d1);
    DotRunEndAt(s, a + d1, a + d2);
    DotRunEndAt(s, a + d2, a + d3);
    DotRunEndAt(s, a + d3, b);
  }

  /** The shape of the quad `s[a..b]`, read off in positions of `s`. */
  lemma QuadShapeAt(s: string, a: nat, b: nat, d1: nat, d2: nat, d3: nat)
    requires a <= b <= |s| && QuadShape(s[a..b], d1, d2, d3)
    ensures 0 < d1 && d1 + 1 < d2 && d2 + 1 < d3 && a + d3 + 1 < b
    ensures s[a + d1] == '.' && s[a + d2] == '.' && s[a + d3] == '.'
    ensures Digits(s, a, a + d1) && Digits(s, a + d1 + 1, a + d2)
    ensures Digits(s, a + d2 + 1, a + d3) && Digits(s, a + d3 + 1, b)
  {
    var x := s[a..b];
    assert forall k :: a <= k < b ==> s[k] == x[k - a];
  }

  /** A dot followed by a non-empty digit run ending at `e` is matched at
      least to `e`, and exactly to `e` when the digits stop there. */
  lemma {:induction false} DotRunEndAt(s: string, j: nat, e: nat)
    requires j < |s| && s[j] == '.' && j + 1 < e && Digits(s, j + 1, e)
    ensures DotRunEnd(s, j).Some? && DotRunEnd(s, j).value >= e
    ensures e == |s| || !IsDigit(s[e]) ==> DotRunEnd(s, j) == Some(e)
  {
    DigitRunEndAt(s, j + 1, e);
  }

  /** Span `p` of `s` is covered by one of `spans`. */
  ghost predicate Covered(spans: seq<(nat, nat)>, p: nat) {
    exists k :: 0 <= k < |spans| && spans[k].0 <= p < spans[k].1
  }

  /** `spans` are real matches starting at or after `i`. */
  predicate SpansMatch(s: string, i: nat, spans: seq<(nat, nat)>) {
    forall k :: 0 <= k < |spans| ==>
      i <= spans[k].0 < spans[k].1 <= |s| && QuadEnd(s, spans[k].0) == Some(spans[k].1)
  }

  /** `spans` run left to right without overlap. */
  predicate SpansOrdered(spans: seq<(nat, nat)>) {
    forall j, k :: 0 <= j < k < |spans| ==> spans[j].1 <= spans[k].0
  }

  /** No match starts at a position from `i` on that none of `spans` covers. */
  ghost predicate SpansComplete(s: string, i: nat, spans: seq<(nat, nat)>) {
    forall p :: i <= p < |s| && !Covered(spans, p) ==> QuadEnd(s, p).None?
  }

  /** `re.findall` scanning from position `i`: the spans of the matches. */
  function QuadSpans(s: string, i: nat): (r: seq<(nat, nat)>)
    requires i <= |s|
    ensures SpansMatch(s, i, r) && SpansOrdered(r) && SpansComplete(s, i, r)
    decreases |s| - i
  {
    if i == |s| then []
    else
      match QuadEnd(s, i)
      case Some(e) =>
        var rest := QuadSpans(s, e);
        ConsSpans(s, i, e, rest);
        [(i, e)] + rest
      case None =>
        var rest := QuadSpans(s, i + 1);
        SkipSpans(s, i, rest);
        rest
  }

  /** A match at `i` in front of the spans found from its end. */
  lemma ConsSpans(s: string, i: nat, e: nat, rest: seq<(nat, nat)>)
    requires i < e <= |s| && QuadEnd(s, i) == Some(e)
    requires SpansMatch(s, e, rest) && SpansOrdered(rest) && SpansComplete(s, e, rest)
    ensures SpansMatch(s, i, [(i, e)] + rest) && SpansOrdered([(i, e)] + rest)
    ensures SpansComplete(s, i, [(i, e)] + rest)
  {
    ConsMatch(s, i, e, rest);
    ConsOrdered(i, e, rest);
    ConsComplete(s, i, e, rest);
  }

  /** No match at `i`: the spans found from `i + 1` are those from `i`. */
  lemma SkipSpans(s: string, i: nat, rest: seq<(nat, nat)>)
    requires i < |s| && QuadEnd(s, i).None?
    requires SpansMatch(s, i + 1, rest) && SpansComplete(s, i + 1, rest)
    ensures SpansMatch(s, i, rest) && SpansComplete(s, i, rest)
  {
  }

  lemma ConsMatch(s: string, i: nat, e: nat, rest: seq<(nat, nat)>)
    requires i < e <= |s| && QuadEnd(s, i) == Some(e)
    requires SpansMatch(s, e, rest)
    ensures SpansMatch(s, i, [(i, e)] + rest)
  {
    var r := [(i, e)] + rest;
    assert r[0] == (i, e);
    assert forall k :: 1 <= k < |r| ==> r[k] == rest[k - 1];
  }

  lemma ConsOrdered(i: nat, e: nat, rest: seq<(nat, nat)>)
    requires forall k :: 0 <= k < |rest| ==> e <= rest[k].0
    requires SpansOrdered(rest)
    ensures SpansOrdered([(i, e)] + rest)
  {
    var r := [(i, e)] + rest;
    assert r[0] == (i, e);
    assert forall k :: 1 <= k < |r| ==> r[k] == rest[k - 1];
  }

  lemma ConsComplete(s: string, i: nat, e: nat, rest: seq<(nat, nat)>)
    requires i < e <= |s| && SpansComplete(s, e, rest)
    ensures SpansComplete(s, i, [(i, e)] + rest)
  {
    var r := [(i, e)] + rest;
    forall p | i <= p < |s| && !Covered(r, p)
      ensures QuadEnd(s, p).None?
    {
      CoveredCons((i, e), rest, p);
    }
  }

  lemma CoveredCons(head: (nat, nat), rest: seq<(nat, nat)>, p: nat)
    ensures Covered([head] + rest, p) <==> (head.0 <= p < head.1 || Covered(rest, p))
  {
    var r := [head] + rest;
    if Covered(rest, p) {
      var k :| 0 <= k < |rest| && rest[k].0 <= p < rest[k].1;
      assert r[k + 1] == rest[k];
    }
    if head.0 <= p < head.1 {
      assert r[0] == head;
    }
    if Covered(r, p) {
      var k :| 0 <= k < |r| && r[k].0 <= p < r[k].1;
      if k > 0 {
        assert rest[k - 1] == r[k];
      }
    }
  }

  /** `extract_ips_from_router`: every dotted quad `re.findall` reports, in order. */
  function ExtractRouterIps(s: string): (r: seq<string>)
    ensures forall k :: 0 <= k < |r| ==> DottedQuad(r[k])
    ensures |r| == |QuadSpans(s, 0)|
    ensures forall k :: 0 <= k < |r| ==> r[k] == s[QuadSpans(s, 0)[k].0..QuadSpans(s, 0)[k].1]
  {
    var spans := QuadSpans(s, 0);
    var r := seq(|spans|, k requires 0 <= k < |spans| => s[spans[k].0..spans[k].1]);
    forall k | 0 <= k < |r|
      ensures DottedQuad(r[k])
    {
      QuadEndSound(s, spans[k].0);
    }
    r
  }

  /** The router scrape finds nothing exactly when the text holds no dotted quad. */
  lemma {:induction false} RouterIpsEmptyIff(s: string)
    ensures ExtractRouterIps(s) == [] <==> !ContainsDottedQuad(s)
  {
    var spans := QuadSpans(s, 0);
    if ContainsDottedQuad(s) {
      var a, b :| 0 <= a <= b <= |s| && DottedQuad(s[a..b]);
      DottedQuadFound(s, a, b);
      assert Covered(spans, a);
    }
    if spans != [] {
      QuadEndSound(s, spans[0].0);
      assert DottedQuad(s[spans[0].0..spans[0].1]);
    }
  }

  /** The text `LABEL\s*:\s*` occupies `s[p..a]`, with its colon at `c`. */
  predicate LabelLayout(s: string, p: nat, tag: string, c: nat, a: nat) {
    && p + |tag| <= c < a <= |s|
    && s[p..p + |tag|] == tag && s[c] == ':'
    && Spaces(s, p + |tag|, c) && Spaces(s, c + 1, a)
  }

  /** `LABEL\s*:\s*\d+\.\d+\.\d+\.\d+` matches at `p`. */
  ghost predicate LabelledMatch(s: string, p: nat, tag: string) {
    exists c: nat, a: nat, b: nat :: LabelLayout(s, p, tag, c, a) && a <= b <= |s| && DottedQuad(s[a..b])
  }

  /** `LABEL\s*:\s*(quad)` matches at `p` with its colon at `c` and captures
      `s[a..b]`, the last digit run of the quad taken as far as it goes. */
  ghost predicate GreedyCapture(s: string, p: nat, tag: string, c: nat, a: nat, b: nat) {
    && LabelLayout(s, p, tag, c, a) && a <= b <= |s| && DottedQuad(s[a..b])
    && (b == |s| || !IsDigit(s[b]))
  }

  /** Where the captured dotted quad of `LABEL\s*:\s*(quad)` matched at `p`
      lies: after the label, the longest space runs around the colon and
      then the scanner's quad. */
  function LabelledQuadAt(s: string, p: nat, tag: string): (r: Option<(nat, nat)>)
    requires p <= |s|
    ensures r.Some? ==> p + |tag| <= |s| && LabelLayout(s, p, tag, SpaceRunEnd(s, p + |tag|), r.value.0)
    ensures r.Some? ==> QuadEnd(s, r.value.0) == Some(r.value.1)
  {
    if p + |tag| <= |s| && s[p..p + |tag|] == tag then
      var c := SpaceRunEnd(s, p + |tag|);
      if c < |s| && s[c] == ':' then
        var a := SpaceRunEnd(s, c + 1);
        match QuadEnd(s, a)
        case Some(b) => Some((a, b))
        case None => None
      else None
    else None
  }

  /** A whitespace run stops exactly where the whitespace stops. */
  lemma {:induction false} SpaceRunEndAt(s: string, i: nat, j: nat)
    requires j < |s| && Spaces(s, i, j) && !IsSpace(s[j])
    ensures SpaceRunEnd(s, i) == j
    decreases j - i
  {
    if i < j {
      SpaceRunEndAt(s, i + 1, j);
    }
  }

  /** What the scanner finds at `p` is a match whose capture is a dotted quad. */
  lemma {:induction false} LabelledQuadAtSound(s: string, p: nat, tag: string)
    requires p <= |s|
    ensures LabelledQuadAt(s, p, tag).Some? ==> LabelledMatch(s, p, tag)
    ensures LabelledQuadAt(s, p, tag).Some? ==>
      DottedQuad(s[LabelledQuadAt(s, p, tag).value.0..LabelledQuadAt(s, p, tag).value.1])
  {
    var r := LabelledQuadAt(s, p, tag);
    if r.Some? {
      QuadEndSound(s, r.value.0);
      assert LabelLayout(s, p, tag, SpaceRunEnd(s, p + |tag|), r.value.0);
    }
  }

  /** Wherever the pattern matches, the scanner finds it. */
  lemma {:induction false} LabelledQuadAtComplete(s: string, p: nat, tag: string, c: nat, a: nat, b: nat)
    requires p <= |s| && LabelLayout(s, p, tag, c, a) && a <= b <= |s| && DottedQuad(s[a..b])
    ensures LabelledQuadAt(s, p, tag).Some?
  {
    QuadStartsWithDigit(s, a, b);
    DottedQuadFound(s, a, b);
    LabelledQuadAtExact(s, p, tag, c, a, QuadEnd(s, a).value);
  }

  /** A dotted quad starts with a digit. */
  lemma {:induction false} QuadStartsWithDigit(s: string, a: nat, b: nat)
    requires a <= b <= |s| && DottedQuad(s[a..b])
    ensures a < |s| && IsDigit(s[a])
  {
    var d1: nat, d2: nat, d3: nat :| QuadShape(s[a..b], d1, d2, d3);
    assert s[a] == s[a..b][0];
  }

  /** The scanner started at the first character of a dotted quad finds a
      match reaching at least to its end. */
  lemma {:induction false} DottedQuadFound(s: string, a: nat, b: nat)
    requires a <= b <= |s| && DottedQuad(s[a..b])
    ensures QuadEnd(s, a).Some? && QuadEnd(s, a).value >= b
  {
    var d1: nat, d2: nat, d3: nat :| QuadShape(s[a..b], d1, d2, d3);
    QuadEndComplete(s, a, b, d1, d2, d3);
  }

  /** The scanner finds a labelled quad at `p` exactly when the pattern
      matches there. */
  lemma {:induction false} LabelledQuadAtIff(s: string, p: nat, tag: string)
    requires p <= |s|
    ensures LabelledQuadAt(s, p, tag).Some? <==> LabelledMatch(s, p, tag)
  {
    LabelledQuadAtSound(s, p, tag);
    if LabelledMatch(s, p, tag) {
      var c: nat, a: nat, b: nat :| LabelLayout(s, p, tag, c, a) && a <= b <= |s| && DottedQuad(s[a..b]);
      LabelledQuadAtComplete(s, p, tag, c, a, b);
    }
  }

  /** The first position, from `i` on, where `LABEL\s*:\s*(quad)` matches. */
  function FirstLabelled(s: string, i: nat, tag: string): (r: Option<nat>)
    requires i <= |s|
    ensures r.Some? ==> i <= r.value <= |s| && LabelledQuadAt(s, r.value, tag).Some?
    ensures r.Some? ==> forall q :: i <= q < r.value ==> LabelledQuadAt(s, q, tag).None?
    ensures r.None? ==> forall q :: i <= q <= |s| ==> LabelledQuadAt(s, q, tag).None?
    decreases |s| - i
  {
    if LabelledQuadAt(s, i, tag).Some? then Some(i)
    else if i == |s| then None
    else FirstLabelled(s, i + 1, tag)
  }

  /** The address captured by a match at `p`, if the pattern matches there:
      the quad right after `LABEL\s*:\s*`, taken as far as its digits go. */
  function Capture(s: string, p: nat, tag: string): (r: Option<string>)
    requires p <= |s|
    ensures r.Some? <==> LabelledMatch(s, p, tag)
    ensures r.Some? ==> DottedQuad(r.value)
    ensures r.Some? ==> exists c: nat, a: nat, b: nat :: GreedyCapture(s, p, tag, c, a, b) && r.value == s[a..b]
  {
    LabelledQuadAtIff(s, p, tag);
    LabelledQuadAtSound(s, p, tag);
    match LabelledQuadAt(s, p, tag)
    case None => None
    case Some(span) =>
      assert GreedyCapture(s, p, tag, SpaceRunEnd(s, p + |tag|), span.0, span.1);
      Some(s[span.0..span.1])
  }

  /** The capture is determined by the text: any layout of the pattern at `p`
      whose quad runs as far as its digits go is the one `Capture` returns. */
  lemma {:induction false} CaptureDetermined(s: string, p: nat, tag: string, c: nat, a: nat, b: nat)
    requires p <= |s| && GreedyCapture(s, p, tag, c, a, b)
    ensures Capture(s, p, tag) == Some(s[a..b])
  {
    QuadStartsWithDigit(s, a, b);
    var d1: nat, d2: nat, d3: nat :| QuadShape(s[a..b], d1, d2, d3);
    QuadEndComplete(s, a, b, d1, d2, d3);
    LabelledQuadAtExact(s, p, tag, c, a, b);
  }

  /** With the label, both space runs and the quad in place, the scanner
      reports exactly that quad. */
  lemma {:induction false} LabelledQuadAtExact(s: string, p: nat, tag: string, c: nat, a: nat, b: nat)
    requires p <= |s| && LabelLayout(s, p, tag, c, a)
    requires a < |s| && IsDigit(s[a]) && QuadEnd(s, a) == Some(b)
    ensures LabelledQuadAt(s, p, tag) == Some((a, b))
  {
    assert !IsSpace(s[c]);
    SpaceRunEndAt(s, p + |tag|, c);
    assert !IsSpace(s[a]);
    SpaceRunEndAt(s, c + 1, a);
    LabelledQuadAtSteps(s, p, tag, c, a, b);
  }

  lemma LabelledQuadAtSteps(s: string, p: nat, tag: string, c: nat, a: nat, b: nat)
    requires p + |tag| <= |s| && s[p..p + |tag|] == tag
    requires SpaceRunEnd(s, p + |tag|) == c && c < |s| && s[c] == ':'
    requires SpaceRunEnd(s, c + 1) == a && QuadEnd(s, a) == Some(b)
    ensures LabelledQuadAt(s, p, tag) == Some((a, b))
  {
  }

  /** `re.search(LABEL\s*:\s*(\d+\.\d+\.\d+\.\d+), s).group(1)`, or None. */
  function SearchLabelled(s: string, tag: string): (r: Option<string>)
    ensures r.Some? ==> DottedQuad(r.value)
  {
    match FirstLabelled(s, 0, tag)
    case None => None
    case Some(p) => Capture(s, p, tag)
  }

  /** The pattern matches at `p` and at no earlier position. */
  ghost predicate LeftmostMatch(s: string, tag: string, p: nat) {
    p <= |s| && LabelledMatch(s, p, tag) && forall q :: 0 <= q < p ==> !LabelledMatch(s, q, tag)
  }

  /** The search reports the leftmost match: nothing exactly when the pattern
      matches nowhere, otherwise the capture at the first position where it
      matches. */
  lemma {:induction false} SearchLabelledLeftmost(s: string, tag: string)
    ensures SearchLabelled(s, tag).None? <==> forall p :: 0 <= p <= |s| ==> !LabelledMatch(s, p, tag)
    ensures SearchLabelled(s, tag).Some? ==>
      exists p: nat :: LeftmostMatch(s, tag, p) && SearchLabelled(s, tag) == Capture(s, p, tag)
  {
    forall q | 0 <= q <= |s|
      ensures LabelledQuadAt(s, q, tag).Some? <==> LabelledMatch(s, q, tag)
    {
      LabelledQuadAtIff(s, q, tag);
    }
  }

  /** Where the pattern matches first, the search returns that capture. */
  lemma {:induction false} SearchAtLeftmost(s: string, tag: string, p: nat)
    requires p <= |s| && LabelledMatch(s, p, tag)
    requires forall q :: 0 <= q < p ==> !LabelledMatch(s, q, tag)
    ensures SearchLabelled(s, tag) == Capture(s, p, tag)
  {
    SearchLabelledLeftmost(s, tag);
    var p': nat :| LeftmostMatch(s, tag, p') && SearchLabelled(s, tag) == Capture(s, p', tag);
    assert !(p' < p) && !(p < p');
  }

  const IpLabel := "IP/MASK"
  const GatewayLabel := "GATEWAY"

  /** `extract_vpcs_ip_and_gateway`: the address after the first `IP/MASK :`
      and, separately, the one after the first `GATEWAY :`. */
  function ExtractVpcsIpAndGateway(s: string): (r: (Option<string>, Option<string>))
    ensures r.0.Some? ==> DottedQuad(r.0.value)
    ensures r.1.Some? ==> DottedQuad(r.1.value)
    ensures r.0.None? <==> forall p :: 0 <= p <= |s| ==> !LabelledMatch(s, p, IpLabel)
    ensures r.1.None? <==> forall p :: 0 <= p <= |s| ==> !LabelledMatch(s, p, GatewayLabel)
    ensures r.0.Some? ==> exists p: nat :: LeftmostMatch(s, IpLabel, p) && r.0 == Capture(s, p, IpLabel)
    ensures r.1.Some? ==> exists p: nat :: LeftmostMatch(s, GatewayLabel, p) && r.1 == Capture(s, p, GatewayLabel)
  {
    SearchLabelledLeftmost(s, IpLabel);
    SearchLabelledLeftmost(s, GatewayLabel);
    (SearchLabelled(s, IpLabel), SearchLabelled(s, GatewayLabel))
  }

  /** A listing without a single digit yields no address. */
  lemma {:induction false} RouterIpsNeedDigits(s: string)
    requires forall k :: 0 <= k < |s| ==> !IsDigit(s[k])
    ensures ExtractRouterIps(s) == []
  {
    RouterIpsEmptyIff(s);
    forall a, b | 0 <= a <= b <= |s|
      ensures !DottedQuad(s[a..b])
    {
      if a < b {
        assert s[a..b][0] == s[a];
      }
    }
  }

  /** The listing line of an interface without an address. */
  const NoAddressLine := "no ip address"

  lemma {:induction false} NoIpAddressLine()
    ensures ExtractRouterIps(NoAddressLine) == []
  {
    RouterIpsNeedDigits(NoAddressLine);
  }

  /** A label is matched literally: where its first character never occurs,
      the search finds nothing. */
  lemma {:induction false} LabelAbsent(s: string, tag: string)
    requires |tag| > 0 && forall k :: 0 <= k < |s| ==> s[k] != tag[0]
    ensures SearchLabelled(s, tag) == None
  {
    SearchLabelledLeftmost(s, tag);
    forall p | 0 <= p <= |s|
      ensures !LabelledMatch(s, p, tag)
    {
      if p + |tag| <= |s| {
        assert s[p..p + |tag|][0] == s[p];
      }
    }
  }

  /** Labels are case-sensitive: a lower-case `ip/mask` line gives no address. */
  lemma {:induction false} LowerCaseLabelIgnored()
    ensures ExtractVpcsIpAndGateway("ip/mask : 10.0.0.2/24").0 == None
  {
    LabelAbsent("ip/mask : 10.0.0.2/24", IpLabel);
  }

  /** The gateway is searched for on its own: it is found whenever a
      `GATEWAY` line matches, whether or not an `IP/MASK` line does. */
  lemma {:induction false} GatewayIndependentOfIp(s: string)
    ensures ExtractVpcsIpAndGateway(s).1.Some? <==> exists p :: 0 <= p <= |s| && LabelledMatch(s, p, GatewayLabel)
    ensures ExtractVpcsIpAndGateway(s).0.Some? <==> exists p :: 0 <= p <= |s| && LabelledMatch(s, p, IpLabel)
  {
    SearchLabelledLeftmost(s, GatewayLabel);
    SearchLabelledLeftmost(s, IpLabel);
  }

  /** A label cannot match before the first occurrence of its first character. */
  lemma {:induction false} NoMatchBefore(s: string, tag: string, p: nat)
    requires |tag| > 0 && p <= |s| && forall k :: 0 <= k < p ==> s[k] != tag[0]
    ensures forall q :: 0 <= q < p ==> !LabelledMatch(s, q, tag)
  {
    forall q | 0 <= q < p
      ensures !LabelledMatch(s, q, tag)
    {
      if q + |tag| <= |s| {
        assert s[q..q + |tag|][0] == s[q];
      }
    }
  }

  /** A VPCS `show ip` answer with both lines on one line of text:
      `IP/MASK: 10.0.0.5/24 GATEWAY: 10.0.0.1`. */
  const SampleIp := "10.0.0.5"
  const SampleGateway := "10.0.0.1"
  const VpcsSample := IpLabel + ": " + SampleIp + "/24 " + GatewayLabel + ": " + SampleGateway

  /** The address stops before `/24`, and the gateway is the quad after
      `GATEWAY:`. */
  lemma {:induction false} VpcsSampleExtract()
    ensures ExtractVpcsIpAndGateway(VpcsSample) == (Some(SampleIp), Some(SampleGateway))
  {
    var s := VpcsSample;
    SampleQuads();
    SamplePieces();
    SampleCaptures();
    CaptureDetermined(s, 0, IpLabel, 7, 9, 17);
    CaptureDetermined(s, 21, GatewayLabel, 28, 30, 38);
    SampleNoEarlyG();
    NoMatchBefore(s, GatewayLabel, 21);
    SearchAtLeftmost(s, IpLabel, 0);
    SearchAtLeftmost(s, GatewayLabel, 21);
  }

  lemma SampleQuads()
    ensures QuadShape(SampleIp, 2, 4, 6) && QuadShape(SampleGateway, 2, 4, 6)
  {
    var ip, gw := SampleIp, SampleGateway;
    assert ip[0] == '1' && ip[1] == '0' && ip[2] == '.' && ip[3] == '0' && ip[4] == '.' && ip[5] == '0' && ip[6] == '.' && ip[7] == '5';
    assert gw[0] == '1' && gw[1] == '0' && gw[2] == '.' && gw[3] == '0' && gw[4] == '.' && gw[5] == '0' && gw[6] == '.' && gw[7] == '1';
  }

  /** Where the labels, colons and addresses sit in the sample. */
  lemma SamplePieces()
    ensures |VpcsSample| == 38
    ensures VpcsSample[0..7] == IpLabel && VpcsSample[7] == ':' && VpcsSample[8] == ' '
    ensures VpcsSample[9..17] == SampleIp && VpcsSample[17] == '/'
    ensures VpcsSample[21..28] == GatewayLabel && VpcsSample[28] == ':' && VpcsSample[29] == ' '
    ensures VpcsSample[30..38] == SampleGateway
  {
  }

  lemma SampleCaptures()
    requires QuadShape(SampleIp, 2, 4, 6) && QuadShape(SampleGateway, 2, 4, 6)
    requires |VpcsSample| == 38
    requires VpcsSample[0..7] == IpLabel && VpcsSample[7] == ':' && VpcsSample[8] == ' '
    requires VpcsSample[9..17] == SampleIp && VpcsSample[17] == '/'
    requires VpcsSample[21..28] == GatewayLabel && VpcsSample[28] == ':' && VpcsSample[29] == ' '
    requires VpcsSample[30..38] == SampleGateway
    ensures GreedyCapture(VpcsSample, 0, IpLabel, 7, 9, 17)
    ensures GreedyCapture(VpcsSample, 21, GatewayLabel, 28, 30, 38)
  {
  }

  /** No `G` occurs in the sample before its `GATEWAY` label. */
  lemma SampleNoEarlyG()
    ensures forall k :: 0 <= k < 21 ==> VpcsSample[k] != GatewayLabel[0]
  {
    var u := IpLabel + ": " + SampleIp + "/24 ";
    assert VpcsSample == u + GatewayLabel + ": " + SampleGateway;
    assert forall k :: 0 <= k < |u| ==> u[k] != 'G';
  }

  /** Where no match starts, `findall` resumes at the next position. */
  lemma SpansStep(s: string, i: nat)
    requires i < |s| && QuadEnd(s, i).None?
    ensures QuadSpans(s, i) == QuadSpans(s, i + 1)
  {
  }

  /** A router listing line for one interface. */
  const SampleAddress := "192.168.1.1"
  const RouterSample := "Gi0/0  " + SampleAddress + "  YES"

  /** The interface name `Gi0/0` is not mistaken for an address, and the
      one address on the line is reported. */
  lemma {:induction false} RouterSampleExtract()
    ensures ExtractRouterIps(RouterSample) == [SampleAddress]
  {
    var s := RouterSample;
    RouterSamplePieces();
    for k := 0 to 7
      invariant QuadSpans(s, 0) == QuadSpans(s, k)
    {
      SpansStep(s, k);
    }
    QuadEndComplete(s, 7, 18, 3, 7, 9);
    assert QuadSpans(s, 7) == [(7, 18)] + QuadSpans(s, 18);
    for k := 18 to 23
      invariant QuadSpans(s, 18) == QuadSpans(s, k)
    {
      SpansStep(s, k);
    }
  }

  /** Where the interface name, the address and the trailing text sit. */
  lemma RouterSamplePieces()
    ensures |RouterSample| == 23
    ensures RouterSample[7..18] == SampleAddress && QuadShape(SampleAddress, 3, 7, 9)
    ensures RouterSample[18] == ' '
    ensures forall p :: 0 <= p < 7 ==> QuadEnd(RouterSample, p).None?
    ensures forall p :: 18 <= p < 23 ==> QuadEnd(RouterSample, p).None?
  {
    var x := SampleAddress;
    assert x[0] == '1' && x[1] == '9' && x[2] == '2' && x[3] == '.' && x[4] == '1' && x[5] == '6' && x[6] == '8';
    assert x[7] == '.' && x[8] == '1' && x[9] == '.' && x[10] == '1';
    var s := RouterSample;
    assert s[0] == 'G' && s[1] == 'i' && s[2] == '0' && s[3] == '/' && s[4] == '0' && s[5] == ' ' && s[6] == ' ';
    assert s[18] == ' ' && s[19] == ' ' && s[20] == 'Y' && s[21] == 'E' && s[22] == 'S';
  }
}
