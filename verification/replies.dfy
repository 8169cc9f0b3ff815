/**
 * The reply-decoding layer of the `Kossel` client: the three status lines the
 * printer sends back for G32, M665 and M666, the records they are read into,
 * and `UnexpectedAnswerError` for a line that does not match.
 *
 * Every parser goes through `ParseAnswer`, the model of `_parse_answer`. For
 * each reply the module gives the grammar twice: as the `Pattern` the parser
 * scans with, and as a plain string builder (`G32Reply`, ...) written the way
 * the printer phrases the line. The lemmas connect the parsers to the
 * builders in both directions.
 */
module Replies {
  import opened Results
  import opened Decimals
  import opened Patterns

  /** `UnexpectedAnswerError`: the offending reply and an explanation naming the pattern. */
  datatype UnexpectedAnswer = UnexpectedAnswer(expression: string, message: string)

  /** The result of `G32` (auto-calibration). */
  datatype Calibration = Calibration(factors: nat, points: nat, deviationBefore: real, deviationAfter: real, gap: real)

  /** The delta kinematics reported by `M665`; `x`, `y`, `z` are tower angle corrections in degrees. */
  datatype Kinematics = Kinematics(
    diagonal: real, deltaRadius: real, homedHeight: real, bedRadius: real, x: real, y: real, z: real)

  /** The endstop adjustments and tilt reported by `M666`. */
  datatype Endstops = Endstops(eaX: real, eaY: real, eaZ: real, tx: real, ty: real)

  const Degree: string := "\U{B0}"

  /* ----- The three patterns, as the scanner uses them and as the source writes them ----- */

  const G32Pattern: Pattern := Pattern([
    Segment("Calibrated ", IntegerGroup),
    Segment(" factors using ", IntegerGroup),
    Segment(" points, deviation before ", DecimalGroup),
    Segment(" after ", DecimalGroup)], "")

  const M665Pattern: Pattern := Pattern([
    Segment("Diagonal ", DecimalGroup),
    Segment(", delta radius ", DecimalGroup),
    Segment(", homed height ", DecimalGroup),
    Segment(", bed radius ", DecimalGroup),
    Segment(", X ", DecimalGroup),
    Segment(Degree + ", Y ", DecimalGroup),
    Segment(Degree + ", Z ", DecimalGroup)], Degree)

  const M666Pattern: Pattern := Pattern([
    Segment("Endstop adjustments X", DecimalGroup),
    Segment(" Y", DecimalGroup),
    Segment(" Z", DecimalGroup),
    Segment(", tilt X", DecimalGroup),
    Segment("% Y", DecimalGroup)], "%")

  /** No group of the three patterns can run into the literal after it. */
  lemma PatternsDelimited()
    ensures Delimited(G32Pattern) && Delimited(M665Pattern) && Delimited(M666Pattern)
  {
    assert (Degree + ", Y ")[0] == '\U{B0}' && (Degree + ", Z ")[0] == '\U{B0}';
  }

  /* ----- `_parse_answer` ----- */

  function MismatchMessage(s: string, regexp: string): string {
    "Could not match  : " + s + "\nwith the pattern : " + regexp
  }

  /** Match `p` at the start of `s`; on failure, the error carries `s` and the pattern's source. */
  function ParseAnswer(s: string, p: Pattern): (r: Result<seq<Capture>, UnexpectedAnswer>)
    ensures r.Success? ==> Fits(p.segments, r.value) && Render(p, r.value) <= s
    ensures r.Failure? ==> r.error.expression == s && r.error.message == MismatchMessage(s, Source(p))
  {
    match MatchPattern(p, s)
    case Some((caps, rest)) =>
      assert Decomposes(p, s, caps, rest);
      Success(caps)
    case None => Failure(UnexpectedAnswer(s, MismatchMessage(s, Source(p))))
  }

  /** With a delimited pattern, the answer is accepted exactly when `s` begins with a text of the pattern. */
  lemma ParseAnswerAccepts(s: string, p: Pattern)
    requires Delimited(p)
    ensures ParseAnswer(s, p).Success? <==> exists caps, rest :: Begins(p, s, caps, rest)
  {
    MatchPatternFails(p, s);
  }

  /* ----- `_parse_G32` ----- */

  function ParseG32(s: string): (r: Result<Calibration, UnexpectedAnswer>)
    ensures r.Success? ==> r.value.gap == r.value.deviationAfter - r.value.deviationBefore
    ensures r.Failure? ==> r.error == UnexpectedAnswer(s, MismatchMessage(s, Source(G32Pattern)))
  {
    match ParseAnswer(s, G32Pattern)
    case Failure(e) => Failure(e)
    case Success(caps) =>
      G32Shaped(caps);
      Success(CalibrationOf(caps))
  }

  /** Two digit runs followed by two decimals: the groups of the G32 pattern. */
  predicate G32Shape(caps: seq<Capture>) {
    |caps| == 4 && caps[0].IntCapture? && caps[1].IntCapture? && caps[2].DecCapture? && caps[3].DecCapture?
  }

  lemma G32Shaped(caps: seq<Capture>)
    requires Fits(G32Pattern.segments, caps)
    ensures G32Shape(caps)
  {
    assert Kind(caps[0], IntegerGroup) && Kind(caps[1], IntegerGroup);
    assert Kind(caps[2], DecimalGroup) && Kind(caps[3], DecimalGroup);
  }

  /** The record `_parse_G32` builds from the groups: `int` of the counts, `float` of the deviations. */
  function CalibrationOf(caps: seq<Capture>): Calibration
    requires G32Shape(caps)
  {
    var before := Value(caps[2].dec);
    var after := Value(caps[3].dec);
    Calibration(NumberValue(caps[0].digits), NumberValue(caps[1].digits), before, after, after - before)
  }

  /** The calibration line as the printer phrases it. */
  function G32Reply(factors: Digits, points: Digits, before: Decimal, after: Decimal): string {
    "Calibrated " + factors
    + (" factors using " + points
    + (" points, deviation before " + Text(before)
    + (" after " + Text(after))))
  }

  /** Text appended to a calibration line extends its last number. */
  lemma G32ReplyAppend(factors: Digits, points: Digits, before: Decimal, after: Decimal, t: string)
    ensures G32Reply(factors, points, before, after) + t
            == "Calibrated " + factors + (" factors using " + points + (" points, deviation before " + Text(before)
               + (" after " + (Text(after) + t))))
  {
  }

  lemma G32ReplyRendered(factors: Digits, points: Digits, before: Decimal, after: Decimal)
    ensures Fits(G32Pattern.segments, [IntCapture(factors), IntCapture(points), DecCapture(before), DecCapture(after)])
    ensures Render(G32Pattern, [IntCapture(factors), IntCapture(points), DecCapture(before), DecCapture(after)])
            == G32Reply(factors, points, before, after)
  {
    var segs := G32Pattern.segments;
    var caps := [IntCapture(factors), IntCapture(points), DecCapture(before), DecCapture(after)];
    assert RenderSegments(segs[4..], caps[4..]) == "";
    RenderStep(segs, caps, 3);
    assert RenderSegments(segs[3..], caps[3..]) == " after " + Text(after);
    RenderStep(segs, caps, 2);
    RenderStep(segs, caps, 1);
    RenderStep(segs, caps, 0);
    assert segs[0..] == segs && caps[0..] == caps;
  }

  /**
   * Round trip: a calibration line, followed by anything a digit run cannot
   * absorb, reads back as its four numbers, and gap is after minus before.
   */
  lemma G32RoundTrip(factors: Digits, points: Digits, before: Decimal, after: Decimal, rest: string)
    requires Boundary(rest)
    ensures ParseG32(G32Reply(factors, points, before, after) + rest)
            == Success(Calibration(NumberValue(factors), NumberValue(points), Value(before), Value(after),
                                   Value(after) - Value(before)))
  {
    var caps := [IntCapture(factors), IntCapture(points), DecCapture(before), DecCapture(after)];
    var s := G32Reply(factors, points, before, after) + rest;
    PatternsDelimited();
    G32ReplyRendered(factors, points, before, after);
    MatchPatternRender(G32Pattern, caps, rest);
    assert MatchPattern(G32Pattern, s) == Some((caps, rest));
    assert ParseAnswer(s, G32Pattern) == Success(caps);
    assert ParseG32(s) == Success(CalibrationOf(caps));
    CalibrationOfCaptures(factors, points, before, after);
  }

  lemma CalibrationOfCaptures(factors: Digits, points: Digits, before: Decimal, after: Decimal)
    ensures G32Shape([IntCapture(factors), IntCapture(points), DecCapture(before), DecCapture(after)])
    ensures CalibrationOf([IntCapture(factors), IntCapture(points), DecCapture(before), DecCapture(after)])
            == Calibration(NumberValue(factors), NumberValue(points), Value(before), Value(after),
                           Value(after) - Value(before))
  {
  }

  /** A G32 match, read back: the line it consumed and the groups by name. */
  lemma G32Line(s: string, caps: seq<Capture>, rest: string)
    returns (factors: Digits, points: Digits, before: Decimal, after: Decimal)
    requires Decomposes(G32Pattern, s, caps, rest)
    ensures caps == [IntCapture(factors), IntCapture(points), DecCapture(before), DecCapture(after)]
    ensures s == G32Reply(factors, points, before, after) + rest
  {
    G32Shaped(caps);
    factors, points, before, after := caps[0].digits, caps[1].digits, caps[2].dec, caps[3].dec;
    G32ReplyRendered(factors, points, before, after);
  }

  /** Every accepted reply is a calibration line followed by a non-digit (or nothing), read as in `G32RoundTrip`. */
  lemma G32Sound(s: string)
    requires ParseG32(s).Success?
    ensures exists factors: Digits, points: Digits, before: Decimal, after: Decimal ::
      && G32Reply(factors, points, before, after) <= s
      && Boundary(s[|G32Reply(factors, points, before, after)|..])
      && ParseG32(s).value == Calibration(NumberValue(factors), NumberValue(points), Value(before), Value(after),
                                          Value(after) - Value(before))
  {
    PatternsDelimited();
    var m := MatchPattern(G32Pattern, s).value;
    var caps, rest := m.0, m.1;
    assert Decomposes(G32Pattern, s, caps, rest);
    var factors, points, before, after := G32Line(s, caps, rest);
    G32RoundTrip(factors, points, before, after, rest);
    var line := G32Reply(factors, points, before, after);
    assert s[|line|..] == rest;
  }

  /** `s` begins with a calibration line. */
  ghost predicate StartsWithCalibration(s: string) {
    exists factors: Digits, points: Digits, before: Decimal, after: Decimal ::
      G32Reply(factors, points, before, after) <= s
  }

  /** `_parse_G32` fails exactly when the reply does not begin with a calibration line. */
  lemma G32Accepts(s: string)
    ensures ParseG32(s).Success? <==> StartsWithCalibration(s)
  {
    PatternsDelimited();
    forall factors: Digits, points: Digits, before: Decimal, after: Decimal | G32Reply(factors, points, before, after) <= s
      ensures ParseG32(s).Success?
    {
      var line := G32Reply(factors, points, before, after);
      G32ReplyRendered(factors, points, before, after);
      assert s == line + s[|line|..];
      MatchPatternRender(G32Pattern, [IntCapture(factors), IntCapture(points), DecCapture(before), DecCapture(after)],
                         s[|line|..]);
    }
    if ParseG32(s).Success? {
      G32Sound(s);
    }
  }

  /**
   * Matching is open at the end: text appended to an accepted reply is ignored
   * unless it starts with a digit, which the greedy last fraction run absorbs.
   */
  lemma G32Extend(s: string, t: string)
    requires ParseG32(s).Success? && Boundary(t)
    ensures ParseG32(s + t) == ParseG32(s)
  {
    PatternsDelimited();
    var m := MatchPattern(G32Pattern, s).value;
    MatchPatternExtend(G32Pattern, s, t, m.0, m.1);
  }

  /* ----- Patterns whose groups are all decimals (M665, M666) ----- */

  /** Every group of the pattern is `(-?\d+\.\d+)`. */
  predicate DecimalsOnly(p: Pattern) {
    forall i :: 0 <= i < |p.segments| ==> p.segments[i].group == DecimalGroup
  }

  lemma PatternsDecimal()
    ensures DecimalsOnly(M665Pattern) && |M665Pattern.segments| == 7
    ensures DecimalsOnly(M666Pattern) && |M666Pattern.segments| == 5
  {
  }

  /** The captures of a decimals-only pattern are all decimals. */
  lemma DecimalsShaped(p: Pattern, caps: seq<Capture>)
    requires DecimalsOnly(p) && Fits(p.segments, caps)
    ensures |caps| == |p.segments| && forall i :: 0 <= i < |caps| ==> caps[i].DecCapture?
  {
    assert forall i :: 0 <= i < |caps| ==> Kind(caps[i], p.segments[i].group);
  }

  /** The captures of decimals `ds`, in order. */
  function DecCaptures(ds: seq<Decimal>): (caps: seq<Capture>)
    ensures |caps| == |ds|
    ensures forall i :: 0 <= i < |ds| ==> caps[i] == DecCapture(ds[i])
  {
    if |ds| == 0 then [] else [DecCapture(ds[0])] + DecCaptures(ds[1..])
  }

  /** The decimals a decimals-only match captured. */
  function DecimalsOf(caps: seq<Capture>): (ds: seq<Decimal>)
    requires forall i :: 0 <= i < |caps| ==> caps[i].DecCapture?
    ensures DecCaptures(ds) == caps
  {
    if |caps| == 0 then [] else [caps[0].dec] + DecimalsOf(caps[1..])
  }

  /** A reply to a decimals-only pattern that ends in a literal parses whatever follows its text. */
  lemma DecimalsRoundTrip(p: Pattern, ds: seq<Decimal>, rest: string)
    requires Delimited(p) && DecimalsOnly(p) && |p.trail| > 0 && |ds| == |p.segments|
    ensures Fits(p.segments, DecCaptures(ds))
    ensures ParseAnswer(Render(p, DecCaptures(ds)) + rest, p) == Success(DecCaptures(ds))
  {
    MatchPatternRender(p, DecCaptures(ds), rest);
  }

  /** An accepted reply to a decimals-only pattern is the pattern's text for some decimals, then anything. */
  lemma DecimalsSound(p: Pattern, s: string) returns (ds: seq<Decimal>, rest: string)
    requires Delimited(p) && DecimalsOnly(p) && ParseAnswer(s, p).Success?
    ensures |ds| == |p.segments| && ParseAnswer(s, p) == Success(DecCaptures(ds))
    ensures s == Render(p, DecCaptures(ds)) + rest
  {
    var m := MatchPattern(p, s).value;
    assert Decomposes(p, s, m.0, m.1);
    DecimalsShaped(p, m.0);
    ds, rest := DecimalsOf(m.0), m.1;
  }

  /* ----- `_parse_M665` ----- */

  function ParseM665(s: string): (r: Result<Kinematics, UnexpectedAnswer>)
    ensures r.Failure? ==> r.error == UnexpectedAnswer(s, MismatchMessage(s, Source(M665Pattern)))
  {
    match ParseAnswer(s, M665Pattern)
    case Failure(e) => Failure(e)
    case Success(caps) =>
      PatternsDecimal();
      DecimalsShaped(M665Pattern, caps);
      Success(KinematicsOf(DecimalsOf(caps)))
  }

  /** The record `_parse_M665` builds: `float` of the seven groups, in the order the printer lists them. */
  function KinematicsOf(ds: seq<Decimal>): Kinematics
    requires |ds| == 7
  {
    Kinematics(Value(ds[0]), Value(ds[1]), Value(ds[2]), Value(ds[3]), Value(ds[4]), Value(ds[5]), Value(ds[6]))
  }

  /**
   * The kinematics line as the printer phrases it: diagonal, delta radius,
   * homed height, bed radius, then the X, Y, Z angles each with a degree sign.
   */
  function M665Reply(ds: seq<Decimal>): string
    requires |ds| == 7
  {
    "Diagonal " + Text(ds[0])
    + (", delta radius " + Text(ds[1])
    + (", homed height " + Text(ds[2])
    + (", bed radius " + Text(ds[3])
    + (", X " + Text(ds[4])
    + (Degree + ", Y " + Text(ds[5])
    + (Degree + ", Z " + Text(ds[6]))))))) + Degree
  }

  lemma M665ReplyRendered(ds: seq<Decimal>)
    requires |ds| == 7
    ensures Render(M665Pattern, DecCaptures(ds)) == M665Reply(ds)
  {
    var segs := M665Pattern.segments;
    var caps := DecCaptures(ds);
    assert RenderSegments(segs[7..], caps[7..]) == "";
    RenderStep(segs, caps, 6);
    assert RenderSegments(segs[6..], caps[6..]) == Degree + ", Z " + Text(ds[6]);
    RenderStep(segs, caps, 5);
    RenderStep(segs, caps, 4);
    RenderStep(segs, caps, 3);
    RenderStep(segs, caps, 2);
    RenderStep(segs, caps, 1);
    RenderStep(segs, caps, 0);
    assert segs[0..] == segs && caps[0..] == caps;
  }

  /** Round trip: a kinematics line followed by anything at all reads back as its seven numbers. */
  lemma M665RoundTrip(ds: seq<Decimal>, rest: string)
    requires |ds| == 7
    ensures ParseM665(M665Reply(ds) + rest)
            == Success(Kinematics(Value(ds[0]), Value(ds[1]), Value(ds[2]), Value(ds[3]), Value(ds[4]), Value(ds[5]),
                                  Value(ds[6])))
  {
    PatternsDelimited();
    M665ReplyRendered(ds);
    DecimalsRoundTrip(M665Pattern, ds, rest);
    assert DecimalsOf(DecCaptures(ds)) == ds;
  }

  /** Every accepted reply begins with a kinematics line. */
  lemma M665Sound(s: string)
    requires ParseM665(s).Success?
    ensures exists ds: seq<Decimal>, rest: string :: |ds| == 7 && s == M665Reply(ds) + rest
  {
    PatternsDelimited();
    var ds, rest := DecimalsSound(M665Pattern, s);
    M665ReplyRendered(ds);
  }

  /** `s` begins with a kinematics line. */
  ghost predicate StartsWithKinematics(s: string) {
    exists ds: seq<Decimal>, rest: string :: |ds| == 7 && s == M665Reply(ds) + rest
  }

  /** `_parse_M665` fails exactly when the reply does not begin with a kinematics line. */
  lemma M665Accepts(s: string)
    ensures ParseM665(s).Success? <==> StartsWithKinematics(s)
  {
    forall ds: seq<Decimal>, rest: string | |ds| == 7 && s == M665Reply(ds) + rest
      ensures ParseM665(s).Success?
    {
      M665RoundTrip(ds, rest);
    }
    if ParseM665(s).Success? {
      M665Sound(s);
    }
  }

  /** Matching is open at the end, and the pattern ends in a degree sign: any appended text is ignored. */
  lemma M665Extend(s: string, t: string)
    requires ParseM665(s).Success?
    ensures ParseM665(s + t) == ParseM665(s)
  {
    PatternsDelimited();
    var m := MatchPattern(M665Pattern, s).value;
    MatchPatternExtend(M665Pattern, s, t, m.0, m.1);
  }

  /* ----- `_parse_M666` ----- */

  function ParseM666(s: string): (r: Result<Endstops, UnexpectedAnswer>)
    ensures r.Failure? ==> r.error == UnexpectedAnswer(s, MismatchMessage(s, Source(M666Pattern)))
  {
    match ParseAnswer(s, M666Pattern)
    case Failure(e) => Failure(e)
    case Success(caps) =>
      PatternsDecimal();
      DecimalsShaped(M666Pattern, caps);
      Success(EndstopsOf(DecimalsOf(caps)))
  }

  /** The record `_parse_M666` builds: `float` of the three adjustments and the two tilt percentages. */
  function EndstopsOf(ds: seq<Decimal>): Endstops
    requires |ds| == 5
  {
    Endstops(Value(ds[0]), Value(ds[1]), Value(ds[2]), Value(ds[3]), Value(ds[4]))
  }

  /** The endstop line as the printer phrases it; the numbers follow their labels with no space. */
  function M666Reply(ds: seq<Decimal>): string
    requires |ds| == 5
  {
    "Endstop adjustments X" + Text(ds[0])
    + (" Y" + Text(ds[1])
    + (" Z" + Text(ds[2])
    + (", tilt X" + Text(ds[3])
    + ("% Y" + Text(ds[4]))))) + "%"
  }

  lemma M666ReplyRendered(ds: seq<Decimal>)
    requires |ds| == 5
    ensures Render(M666Pattern, DecCaptures(ds)) == M666Reply(ds)
  {
    var segs := M666Pattern.segments;
    var caps := DecCaptures(ds);
    assert RenderSegments(segs[5..], caps[5..]) == "";
    RenderStep(segs, caps, 4);
    assert RenderSegments(segs[4..], caps[4..]) == "% Y" + Text(ds[4]);
    RenderStep(segs, caps, 3);
    RenderStep(segs, caps, 2);
    RenderStep(segs, caps, 1);
    RenderStep(segs, caps, 0);
    assert segs[0..] == segs && caps[0..] == caps;
  }

  /** Round trip: an endstop line followed by anything at all reads back as its five numbers. */
  lemma M666RoundTrip(ds: seq<Decimal>, rest: string)
    requires |ds| == 5
    ensures ParseM666(M666Reply(ds) + rest)
            == Success(Endstops(Value(ds[0]), Value(ds[1]), Value(ds[2]), Value(ds[3]), Value(ds[4])))
  {
    PatternsDelimited();
    M666ReplyRendered(ds);
    DecimalsRoundTrip(M666Pattern, ds, rest);
    assert DecimalsOf(DecCaptures(ds)) == ds;
  }

  /** Every accepted reply begins with an endstop line. */
  lemma M666Sound(s: string)
    requires ParseM666(s).Success?
    ensures exists ds: seq<Decimal>, rest: string :: |ds| == 5 && s == M666Reply(ds) + rest
  {
    PatternsDelimited();
    var ds, rest := DecimalsSound(M666Pattern, s);
    M666ReplyRendered(ds);
  }

  /** `s` begins with an endstop line. */
  ghost predicate StartsWithEndstops(s: string) {
    exists ds: seq<Decimal>, rest: string :: |ds| == 5 && s == M666Reply(ds) + rest
  }

  /** `_parse_M666` fails exactly when the reply does not begin with an endstop line. */
  lemma M666Accepts(s: string)
    ensures ParseM666(s).Success? <==> StartsWithEndstops(s)
  {
    forall ds: seq<Decimal>, rest: string | |ds| == 5 && s == M666Reply(ds) + rest
      ensures ParseM666(s).Success?
    {
      M666RoundTrip(ds, rest);
    }
    if ParseM666(s).Success? {
      M666Sound(s);
    }
  }

  /** Matching is open at the end, and the pattern ends in `%`: any appended text is ignored. */
  lemma M666Extend(s: string, t: string)
    requires ParseM666(s).Success?
    ensures ParseM666(s + t) == ParseM666(s)
  {
    PatternsDelimited();
    var m := MatchPattern(M666Pattern, s).value;
    MatchPatternExtend(M666Pattern, s, t, m.0, m.1);
  }
}
