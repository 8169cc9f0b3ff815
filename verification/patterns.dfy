/**
 * The anchored regular-expression match that `Kossel._parse_answer` performs
 * (`re.compile(regexp).match(s)`), for the shape of pattern the three replies
 * use: literal text, each literal followed by one capture group, and an
 * optional trailing literal. The groups are `(\d+)` and `(-?\d+\.\d+)`.
 *
 * Matching is anchored at the start of the string and open at the end. Every
 * literal that follows a group starts with a non-digit, so Python's
 * backtracking matcher and the greedy left-to-right scanner below agree; the
 * lemmas at the end of this module characterise the scanner exactly.
 */
module Patterns {
  import opened Results
  import opened Decimals

  datatype Group = IntegerGroup | DecimalGroup

  /** A literal `lead` followed by one capture group. */
  datatype Segment = Segment(lead: string, group: Group)

  datatype Pattern = Pattern(segments: seq<Segment>, trail: string)

  /** What one group captured: the digits of `(\d+)` or the decimal of `(-?\d+\.\d+)`. */
  datatype Capture = IntCapture(digits: Digits) | DecCapture(dec: Decimal)

  /* ----- The regular expression as text, for the error message ----- */

  function GroupSource(g: Group): string {
    match g
    case IntegerGroup => "(\\d+)"
    case DecimalGroup => "(-?\\d+\\.\\d+)"
  }

  function SegmentsSource(segs: seq<Segment>): string
    decreases |segs|
  {
    if |segs| == 0 then "" else segs[0].lead + GroupSource(segs[0].group) + SegmentsSource(segs[1..])
  }

  /** The pattern written as a Python regular expression (literals hold no metacharacters). */
  function Source(p: Pattern): string {
    SegmentsSource(p.segments) + p.trail
  }

  /* ----- What a match looks like: the reference side ----- */

  function CaptureText(c: Capture): string {
    match c
    case IntCapture(n) => n
    case DecCapture(d) => Text(d)
  }

  predicate Kind(c: Capture, g: Group) {
    c.IntCapture? <==> g == IntegerGroup
  }

  /** One capture per group, each of the group's kind. */
  predicate Fits(segs: seq<Segment>, caps: seq<Capture>) {
    |caps| == |segs| && forall i :: 0 <= i < |caps| ==> Kind(caps[i], segs[i].group)
  }

  function RenderSegments(segs: seq<Segment>, caps: seq<Capture>): string
    requires |caps| == |segs|
    decreases |segs|
  {
    if |segs| == 0 then "" else segs[0].lead + CaptureText(caps[0]) + RenderSegments(segs[1..], caps[1..])
  }

  /** Rendering from segment `k` on: its literal, its capture, then the segments after it. */
  lemma RenderStep(segs: seq<Segment>, caps: seq<Capture>, k: nat)
    requires k < |segs| == |caps|
    ensures RenderSegments(segs[k..], caps[k..])
            == segs[k].lead + CaptureText(caps[k]) + RenderSegments(segs[k + 1..], caps[k + 1..])
  {
    assert segs[k..][0] == segs[k] && caps[k..][0] == caps[k];
    assert segs[k..][1..] == segs[k + 1..] && caps[k..][1..] == caps[k + 1..];
  }

  /** The text a pattern matches when its groups capture `caps`. */
  function Render(p: Pattern, caps: seq<Capture>): string
    requires |caps| == |p.segments|
  {
    RenderSegments(p.segments, caps) + p.trail
  }

  /** Text that a greedy digit run would not absorb. */
  predicate Boundary(rest: string) {
    |rest| == 0 || !IsDigit(rest[0])
  }

  /** What may follow a match: a pattern that ends in a group stops only before a non-digit. */
  predicate Follows(p: Pattern, rest: string) {
    |p.segments| == 0 || |p.trail| > 0 || Boundary(rest)
  }

  predicate StartsWithNonDigit(s: string) {
    |s| > 0 && !IsDigit(s[0])
  }

  /** Every group but the first is preceded by a literal starting with a non-digit. */
  predicate DelimitedSegments(segs: seq<Segment>) {
    forall i :: 0 < i < |segs| ==> StartsWithNonDigit(segs[i].lead)
  }

  /** No group can run into the literal after it. */
  predicate Delimited(p: Pattern) {
    DelimitedSegments(p.segments) && (|p.trail| > 0 ==> !IsDigit(p.trail[0]))
  }

  /** `s` begins with a text of the pattern that captures `caps`, and `rest` is what follows it. */
  predicate Begins(p: Pattern, s: string, caps: seq<Capture>, rest: string) {
    Fits(p.segments, caps) && s == Render(p, caps) + rest
  }

  /** The one decomposition the matcher reports: the pattern's text followed by a non-absorbable rest. */
  predicate Decomposes(p: Pattern, s: string, caps: seq<Capture>, rest: string) {
    Begins(p, s, caps, rest) && Follows(p, rest)
  }

  /* ----- The scanner ----- */

  /** Length of the longest digit run at the front of `s` (greedy `\d*`). */
  function LeadingDigits(s: string): (n: nat)
    ensures n <= |s|
    ensures AllDigits(s[..n])
    ensures Boundary(s[n..])
    decreases |s|
  {
    if |s| > 0 && IsDigit(s[0]) then
      var m := LeadingDigits(s[1..]);
      assert s[..1 + m] == [s[0]] + s[1..][..m];
      assert s[1 + m..] == s[1..][m..];
      1 + m
    else 0
  }

  function MatchLiteral(lit: string, s: string): (r: Option<string>)
    ensures r.Some? <==> lit <= s
    ensures r.Some? ==> s == lit + r.value
  {
    if lit <= s then Some(s[|lit|..]) else None
  }

  /** A greedy `\d+`: the digit run at the front of `s` and what follows it. */
  function MatchDigits(s: string): (r: Option<(Digits, string)>)
    ensures r.Some? ==> s == r.value.0 + r.value.1 && Boundary(r.value.1)
    ensures r.None? <==> !StartsWithDigit(s)
  {
    var n := LeadingDigits(s);
    if n == 0 then None
    else
      assert s == s[..n] + s[n..];
      Some((s[..n], s[n..]))
  }

  predicate StartsWithDigit(s: string) {
    |s| > 0 && IsDigit(s[0])
  }

  /** A greedy `-?\d+\.\d+`: the minus sign is optional, the point and both digit runs are not. */
  function MatchDecimal(s: string): (r: Option<(Decimal, string)>)
    ensures r.Some? ==> s == Text(r.value.0) + r.value.1 && Boundary(r.value.1)
  {
    var negative := |s| > 0 && s[0] == '-';
    var t := if negative then s[1..] else s;
    assert s == (if negative then "-" else "") + t;
    match MatchDigits(t)
    case None => None
    case Some((whole, u)) =>
      if |u| == 0 || u[0] != '.' then None
      else
        assert u == "." + u[1..];
        match MatchDigits(u[1..])
        case None => None
        case Some((fraction, v)) =>
          var d := Decimal(negative, whole, fraction);
          TextThen(d, v);
          Some((d, v))
  }

  lemma TextThen(d: Decimal, v: string)
    ensures Text(d) + v == (if d.negative then "-" else "") + (d.whole + ("." + (d.fraction + v)))
  {
  }

  lemma Concat4(a: string, b: string, c: string, d: string)
    ensures a + b + c + d == a + (b + (c + d))
  {
  }

  lemma Concat3(a: string, b: string, c: string)
    ensures (a + b) + c == a + (b + c)
  {
  }

  /** One capture group, greedy. */
  function MatchGroup(g: Group, s: string): (r: Option<(Capture, string)>)
    ensures r.Some? ==> Kind(r.value.0, g) && s == CaptureText(r.value.0) + r.value.1 && Boundary(r.value.1)
  {
    match g
    case IntegerGroup =>
      (match MatchDigits(s)
       case None => None
       case Some((n, rest)) => Some((IntCapture(n), rest)))
    case DecimalGroup =>
      (match MatchDecimal(s)
       case None => None
       case Some((d, rest)) => Some((DecCapture(d), rest)))
  }

  function MatchSegments(segs: seq<Segment>, s: string): (r: Option<(seq<Capture>, string)>)
    ensures r.Some? ==> Fits(segs, r.value.0) && s == RenderSegments(segs, r.value.0) + r.value.1
    ensures r.Some? && |segs| > 0 ==> Boundary(r.value.1)
    decreases |segs|
  {
    if |segs| == 0 then Some(([], s))
    else
      match MatchLiteral(segs[0].lead, s)
      case None => None
      case Some(s1) =>
        match MatchGroup(segs[0].group, s1)
        case None => None
        case Some((c, s2)) =>
          match MatchSegments(segs[1..], s2)
          case None => None
          case Some((cs, s3)) =>
            var caps := [c] + cs;
            assert caps[1..] == cs;
            assert Fits(segs, caps) by {
              forall i | 0 < i < |caps| ensures Kind(caps[i], segs[i].group) {
                assert caps[i] == cs[i - 1] && segs[i] == segs[1..][i - 1];
              }
            }
            Concat4(segs[0].lead, CaptureText(c), RenderSegments(segs[1..], cs), s3);
            Some((caps, s3))
  }

  /** `re.match`: the pattern at the start of `s`, whatever follows it. */
  function MatchPattern(p: Pattern, s: string): (r: Option<(seq<Capture>, string)>)
    ensures r.Some? ==> Decomposes(p, s, r.value.0, r.value.1)
  {
    match MatchSegments(p.segments, s)
    case None => None
    case Some((caps, s1)) =>
      match MatchLiteral(p.trail, s1)
      case None => None
      case Some(s2) => Some((caps, s2))
  }

  /* ----- The scanner against the reference ----- */

  lemma {:induction false} LeadingDigitsOfDigits(a: string, b: string)
    requires AllDigits(a)
    ensures LeadingDigits(a + b) == |a| + LeadingDigits(b)
    decreases |a|
  {
    if |a| > 0 {
      assert (a + b)[1..] == a[1..] + b;
      LeadingDigitsOfDigits(a[1..], b);
    } else {
      assert a + b == b;
    }
  }

  lemma MatchDigitsText(n: Digits, rest: string)
    ensures MatchDigits(n + rest).Some?
    ensures Boundary(rest) ==> MatchDigits(n + rest) == Some((n, rest))
  {
    LeadingDigitsOfDigits(n, rest);
    if Boundary(rest) {
      assert LeadingDigits(rest) == 0;
      assert (n + rest)[..|n|] == n;
      assert (n + rest)[|n|..] == rest;
    }
  }

  lemma MatchDecimalText(d: Decimal, rest: string)
    ensures MatchDecimal(Text(d) + rest).Some?
    ensures Boundary(rest) ==> MatchDecimal(Text(d) + rest) == Some((d, rest))
  {
    var s := Text(d) + rest;
    var t := d.whole + ("." + (d.fraction + rest));
    TextThen(d, rest);
    assert d.negative <==> (|s| > 0 && s[0] == '-') by {
      if !d.negative {
        assert s[0] == d.whole[0];
      }
    }
    assert (if d.negative then s[1..] else s) == t;
    MatchDigitsText(d.whole, "." + (d.fraction + rest));
    var u := "." + (d.fraction + rest);
    assert MatchDigits(t) == Some((d.whole, u));
    assert u[1..] == d.fraction + rest;
    MatchDigitsText(d.fraction, rest);
  }

  /** `\d+` reports `(n, rest)` exactly when `s` is the digits `n` followed by a non-digit or nothing. */
  lemma MatchDigitsExactly(s: string, n: Digits, rest: string)
    ensures MatchDigits(s) == Some((n, rest)) <==> s == n + rest && Boundary(rest)
  {
    if s == n + rest && Boundary(rest) {
      MatchDigitsText(n, rest);
    }
  }

  /**
   * `-?\d+\.\d+` reports `(d, rest)` exactly when `s` is the text of `d`
   * followed by a non-digit or nothing: the grammar has one reading per text.
   */
  lemma MatchDecimalExactly(s: string, d: Decimal, rest: string)
    ensures MatchDecimal(s) == Some((d, rest)) <==> s == Text(d) + rest && Boundary(rest)
  {
    if s == Text(d) + rest && Boundary(rest) {
      MatchDecimalText(d, rest);
    }
  }

  /** The decimal group fails exactly when `s` does not begin with the text of a decimal. */
  lemma MatchDecimalFails(s: string)
    ensures MatchDecimal(s).None? <==> !exists d, rest :: s == Text(d) + rest
  {
    forall d, rest | s == Text(d) + rest ensures MatchDecimal(s).Some? {
      MatchDecimalText(d, rest);
    }
  }

  /** A group reads its own text back, absorbing any digits that follow it. */
  lemma MatchGroupText(g: Group, c: Capture, rest: string)
    requires Kind(c, g)
    ensures MatchGroup(g, CaptureText(c) + rest).Some?
    ensures Boundary(rest) ==> MatchGroup(g, CaptureText(c) + rest) == Some((c, rest))
  {
    match c
    case IntCapture(n) => MatchDigitsText(n, rest);
    case DecCapture(d) => MatchDecimalText(d, rest);
  }

  lemma DelimitedTail(segs: seq<Segment>)
    requires |segs| > 0 && DelimitedSegments(segs)
    ensures DelimitedSegments(segs[1..])
  {
    forall i | 0 < i < |segs| - 1 ensures StartsWithNonDigit(segs[1..][i].lead) {
      assert segs[1..][i] == segs[i + 1];
    }
  }

  lemma FitsTail(segs: seq<Segment>, caps: seq<Capture>)
    requires |segs| > 0 && Fits(segs, caps)
    ensures Kind(caps[0], segs[0].group) && Fits(segs[1..], caps[1..])
  {
    forall i | 0 <= i < |caps| - 1 ensures Kind(caps[1..][i], segs[1..][i].group) {
      assert caps[1..][i] == caps[i + 1] && segs[1..][i] == segs[i + 1];
    }
  }

  lemma {:induction false} MatchSegmentsRender(segs: seq<Segment>, caps: seq<Capture>, rest: string)
    requires Fits(segs, caps) && DelimitedSegments(segs)
    ensures MatchSegments(segs, RenderSegments(segs, caps) + rest).Some?
    ensures |segs| == 0 || Boundary(rest) ==> MatchSegments(segs, RenderSegments(segs, caps) + rest) == Some((caps, rest))
    decreases |segs|
  {
    if |segs| > 0 {
      var lead := segs[0].lead;
      var text := CaptureText(caps[0]);
      var tail := RenderSegments(segs[1..], caps[1..]);
      var s := RenderSegments(segs, caps) + rest;
      Concat4(lead, text, tail, rest);
      assert MatchLiteral(lead, s) == Some(text + (tail + rest));
      FitsTail(segs, caps);
      DelimitedTail(segs);
      if |segs| > 1 {
        assert StartsWithNonDigit(segs[1].lead);
        assert tail[0] == segs[1].lead[0];
        assert Boundary(tail + rest);
      } else {
        assert tail + rest == rest;
      }
      MatchGroupText(segs[0].group, caps[0], tail + rest);
      var step := MatchGroup(segs[0].group, text + (tail + rest)).value;
      assert s[|lead|..] == text + (tail + rest);
      MatchSegmentsCons(segs, s, step.0, step.1);
      if |segs| > 1 || Boundary(rest) {
        assert step == (caps[0], tail + rest);
        MatchSegmentsRender(segs[1..], caps[1..], rest);
        assert [caps[0]] + caps[1..] == caps;
      } else {
        assert MatchSegments(segs[1..], step.1) == Some(([], step.1));
      }
    } else {
      assert caps == [] && RenderSegments(segs, caps) + rest == rest;
    }
  }

  lemma MatchSegmentsCons(segs: seq<Segment>, s: string, c: Capture, s2: string)
    requires |segs| > 0 && segs[0].lead <= s
    requires MatchGroup(segs[0].group, s[|segs[0].lead|..]) == Some((c, s2))
    ensures MatchSegments(segs, s).Some? <==> MatchSegments(segs[1..], s2).Some?
    ensures MatchSegments(segs, s).Some? ==>
      MatchSegments(segs, s).value == ([c] + MatchSegments(segs[1..], s2).value.0, MatchSegments(segs[1..], s2).value.1)
  {
  }

  /** Completeness: the text of a pattern is matched, with exactly its captures when nothing can be absorbed. */
  lemma MatchPatternRender(p: Pattern, caps: seq<Capture>, rest: string)
    requires Delimited(p) && Fits(p.segments, caps)
    ensures MatchPattern(p, Render(p, caps) + rest).Some?
    ensures Follows(p, rest) ==> MatchPattern(p, Render(p, caps) + rest) == Some((caps, rest))
  {
    var s := Render(p, caps) + rest;
    assert s == RenderSegments(p.segments, caps) + (p.trail + rest);
    if |p.trail| > 0 {
      assert Boundary(p.trail + rest);
      MatchSegmentsRender(p.segments, caps, p.trail + rest);
    } else {
      assert p.trail + rest == rest;
      MatchSegmentsRender(p.segments, caps, rest);
    }
  }

  /** The match reports `(caps, rest)` exactly when `s` decomposes that way: the decomposition is unique. */
  lemma MatchPatternExactly(p: Pattern, s: string, caps: seq<Capture>, rest: string)
    requires Delimited(p)
    ensures MatchPattern(p, s) == Some((caps, rest)) <==> Decomposes(p, s, caps, rest)
  {
    if Decomposes(p, s, caps, rest) {
      MatchPatternRender(p, caps, rest);
    }
  }

  /** The match fails exactly when `s` does not begin with any text of the pattern. */
  lemma MatchPatternFails(p: Pattern, s: string)
    requires Delimited(p)
    ensures MatchPattern(p, s).None? <==> !exists caps, rest :: Begins(p, s, caps, rest)
  {
    forall caps, rest | Begins(p, s, caps, rest) ensures MatchPattern(p, s).Some? {
      MatchPatternRender(p, caps, rest);
    }
    if MatchPattern(p, s).Some? {
      var r := MatchPattern(p, s).value;
      assert Begins(p, s, r.0, r.1);
    }
  }

  lemma FollowsAppend(p: Pattern, rest: string, t: string)
    requires Follows(p, rest) && (|p.trail| > 0 || Boundary(t))
    ensures Follows(p, rest + t)
  {
    if |rest| > 0 {
      assert (rest + t)[0] == rest[0];
    } else {
      assert rest + t == t;
    }
  }

  /** Appending text to a matched string leaves the captures unchanged unless a final group can absorb it. */
  lemma MatchPatternExtend(p: Pattern, s: string, t: string, caps: seq<Capture>, rest: string)
    requires Delimited(p) && MatchPattern(p, s) == Some((caps, rest))
    requires |p.trail| > 0 || Boundary(t)
    ensures MatchPattern(p, s + t) == Some((caps, rest + t))
  {
    assert Decomposes(p, s, caps, rest);
    FollowsAppend(p, rest, t);
    Concat3(Render(p, caps), rest, t);
    MatchPatternRender(p, caps, rest + t);
  }
}
