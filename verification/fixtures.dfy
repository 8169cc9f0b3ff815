/**
 * `KosselTestStatic`: a client whose printer always sends the same three
 * replies, and what the parsers read from them. Also the edges of the decimal
 * grammar and of end-open matching, shown on concrete text.
 */
module Fixtures {
  import opened Results
  import opened Decimals
  import opened Patterns
  import opened Replies
  import opened Sampling

  /**
   * The canned replies of `_fake_results`, keyed by command. Each text is
   * written in pieces, split where a number starts or ends, so that the proofs
   * below can take the numbers apart; the `...Verbatim` lemmas show each one
   * equals the single literal it stands for.
   */
  function StaticReply(c: Command): string {
    match c
    case G32 =>
      "Calibrated " + "6" + (" factors using " + "13" + (" points, deviation before " + "0.186"
      + (" after " + "0.157")))
    case M665 =>
      "Diagonal " + "215.000" + (", delta radius " + "104.760" + (", homed height " + "234.554"
      + (", bed radius " + "85.0" + (", X " + "0.643" + ("\U{B0}, Y " + "-0.069"
      + ("\U{B0}, Z " + "0.000")))))) + "\U{B0}"
    case M666 =>
      "Endstop adjustments X" + "0.54" + (" Y" + "-0.85" + (" Z" + "0.30" + (", tilt X" + "0.00"
      + ("% Y" + "0.00")))) + "%"
  }

  /** The static client: every iteration gets the canned reply to each command. */
  function StaticClient(): Client {
    TextClient((c: Command, i: nat) => StaticReply(c))
  }

  /* ----- The canned replies as single literals, joined a short piece at a time ----- */

  lemma G32Prefix1()
    ensures "Calibrated " + "6" + (" factors using " + "13") == "Calibrated 6 factors using 13"
  {
  }

  lemma G32Prefix2()
    ensures "Calibrated 6 factors using 13" + (" points, deviation before " + "0.186")
            == "Calibrated 6 factors using 13 points, deviation before 0.186"
  {
  }

  lemma G32Prefix3()
    ensures "Calibrated 6 factors using 13 points, deviation before 0.186" + (" after " + "0.157")
            == "Calibrated 6 factors using 13 points, deviation before 0.186 after 0.157"
  {
  }

  /** The G32 fixture is, character for character, the literal of `_fake_results`. */
  lemma StaticG32Verbatim()
    ensures StaticReply(G32) == "Calibrated 6 factors using 13 points, deviation before 0.186 after 0.157"
  {
    Concat4("Calibrated " + "6", " factors using " + "13", " points, deviation before " + "0.186", " after " + "0.157");
    G32Prefix1();
    G32Prefix2();
    G32Prefix3();
  }

  lemma Nest7(p1: string, p2: string, p3: string, p4: string, p5: string, p6: string, p7: string)
    ensures p1 + (p2 + (p3 + (p4 + (p5 + (p6 + p7))))) == p1 + p2 + p3 + p4 + p5 + p6 + p7
  {
  }

  lemma M665Prefix1()
    ensures "Diagonal " + "215.000" == "Diagonal 215.000"
  {
  }

  lemma M665Prefix2()
    ensures "Diagonal 215.000" + (", delta radius " + "104.760")
            == "Diagonal 215.000, delta radius 104.760"
  {
  }

  lemma M665Prefix3()
    ensures "Diagonal 215.000, delta radius 104.760" + (", homed height " + "234.554")
            == "Diagonal 215.000, delta radius 104.760, homed height 234.554"
  {
  }

  lemma M665Prefix4()
    ensures "Diagonal 215.000, delta radius 104.760, homed height 234.554" + (", bed radius " + "85.0")
            == "Diagonal 215.000, delta radius 104.760, homed height 234.554, bed radius 85.0"
  {
  }

  lemma M665Prefix5()
    ensures "Diagonal 215.000, delta radius 104.760, homed height 234.554, bed radius 85.0" + (", X " + "0.643")
            == "Diagonal 215.000, delta radius 104.760, homed height 234.554, bed radius 85.0, X 0.643"
  {
  }

  lemma M665Prefix6()
    ensures "Diagonal 215.000, delta radius 104.760, homed height 234.554, bed radius 85.0, X 0.643" + ("\U{B0}, Y " + "-0.069")
            == "Diagonal 215.000, delta radius 104.760, homed height 234.554, bed radius 85.0, X 0.643\U{B0}, Y -0.069"
  {
  }

  lemma M665Prefix7()
    ensures "Diagonal 215.000, delta radius 104.760, homed height 234.554, bed radius 85.0, X 0.643\U{B0}, Y -0.069" + ("\U{B0}, Z " + "0.000")
            == "Diagonal 215.000, delta radius 104.760, homed height 234.554, bed radius 85.0, X 0.643\U{B0}, Y -0.069\U{B0}, Z 0.000"
  {
  }

  lemma M665Prefix8()
    ensures "Diagonal 215.000, delta radius 104.760, homed height 234.554, bed radius 85.0, X 0.643\U{B0}, Y -0.069\U{B0}, Z 0.000" + "\U{B0}"
            == "Diagonal 215.000, delta radius 104.760, homed height 234.554, bed radius 85.0, X 0.643\U{B0}, Y -0.069\U{B0}, Z 0.000\U{B0}"
  {
  }

  /** The M665 fixture is, character for character, the literal of `_fake_results`. */
  lemma StaticM665Verbatim()
    ensures StaticReply(M665)
            == "Diagonal 215.000, delta radius 104.760, homed height 234.554, bed radius 85.0, X 0.643\U{B0}, Y -0.069\U{B0}, Z 0.000\U{B0}"
  {
    Nest7("Diagonal " + "215.000", ", delta radius " + "104.760", ", homed height " + "234.554", ", bed radius " + "85.0", ", X " + "0.643", "\U{B0}, Y " + "-0.069", "\U{B0}, Z " + "0.000");
    M665Prefix1();
    M665Prefix2();
    M665Prefix3();
    M665Prefix4();
    M665Prefix5();
    M665Prefix6();
    M665Prefix7();
    M665Prefix8();
  }

  /** The M666 fixture is, character for character, the literal of `_fake_results`. */
  lemma StaticM666Verbatim()
    ensures StaticReply(M666) == "Endstop adjustments X0.54 Y-0.85 Z0.30, tilt X0.00% Y0.00%"
  {
  }

  /* ----- Reading short digit runs, digit by digit ----- */

  lemma Number1(s: string)
    requires |s| == 1 && AllDigits(s)
    ensures NumberValue(s) == DigitValue(s[0])
  {
    assert s[..0] == "";
  }

  lemma Number2(s: string)
    requires |s| == 2 && AllDigits(s)
    ensures NumberValue(s) == 10 * DigitValue(s[0]) + DigitValue(s[1])
  {
    assert AllDigits(s[..1]);
    Number1(s[..1]);
  }

  lemma Number3(s: string)
    requires |s| == 3 && AllDigits(s)
    ensures NumberValue(s) == 100 * DigitValue(s[0]) + 10 * DigitValue(s[1]) + DigitValue(s[2])
  {
    assert AllDigits(s[..2]);
    Number2(s[..2]);
  }

  lemma Fraction1(s: string)
    requires |s| == 1 && AllDigits(s)
    ensures FractionValue(s) == DigitValue(s[0]) as real / 10.0
  {
    assert s[1..] == "";
  }

  lemma Fraction2(s: string)
    requires |s| == 2 && AllDigits(s)
    ensures FractionValue(s) == (10 * DigitValue(s[0]) + DigitValue(s[1])) as real / 100.0
  {
    assert AllDigits(s[1..]);
    Fraction1(s[1..]);
  }

  lemma Fraction3(s: string)
    requires |s| == 3 && AllDigits(s)
    ensures FractionValue(s) == (100 * DigitValue(s[0]) + 10 * DigitValue(s[1]) + DigitValue(s[2])) as real / 1000.0
  {
    assert AllDigits(s[1..]);
    Fraction2(s[1..]);
  }

  lemma Fraction4(s: string)
    requires |s| == 4 && AllDigits(s)
    ensures FractionValue(s)
            == (1000 * DigitValue(s[0]) + 100 * DigitValue(s[1]) + 10 * DigitValue(s[2]) + DigitValue(s[3])) as real
               / 10000.0
  {
    assert AllDigits(s[1..]);
    Fraction3(s[1..]);
  }

  /** The G32 fixture's deviations, as written, and the "after" one with a digit appended. */
  const Before186: Decimal := Decimal(false, "0", "186")
  const After157: Decimal := Decimal(false, "0", "157")
  const After1575: Decimal := Decimal(false, "0", "1575")

  lemma StaticG32Line()
    ensures StaticReply(G32) == G32Reply("6", "13", Before186, After157)
    ensures StaticReply(G32) + "5" == G32Reply("6", "13", Before186, After1575)
  {
    assert Text(Before186) == "0.186" && Text(After157) == "0.157" && Text(After1575) == Text(After157) + "5";
    G32ReplyAppend("6", "13", Before186, After157, "5");
    G32ReplyAppend("6", "13", Before186, After1575, "");
  }

  lemma StaticG32Values()
    ensures NumberValue("6") == 6 && NumberValue("13") == 13
    ensures Value(Before186) == 0.186 && Value(After157) == 0.157 && Value(After1575) == 0.1575
  {
    Number1("0");
    Number1("6");
    Number2("13");
    Fraction3("186");
    Fraction3("157");
    Fraction4("1575");
  }

  /**
   * The G32 fixture is a calibration line: 6 factors, 13 points, 0.186 before,
   * 0.157 after, so the gap is -0.029. Any text that does not start with a
   * digit may follow it.
   */
  lemma StaticG32(rest: string)
    requires Boundary(rest)
    ensures ParseG32(StaticReply(G32) + rest) == Success(Calibration(6, 13, 0.186, 0.157, -0.029))
  {
    StaticG32Line();
    StaticG32Values();
    G32RoundTrip("6", "13", Before186, After157, rest);
  }

  /** The seven numbers of the M665 fixture, as written. */
  function StaticKinematicsText(): (ds: seq<Decimal>)
    ensures |ds| == 7
  {
    [Decimal(false, "215", "000"), Decimal(false, "104", "760"), Decimal(false, "234", "554"),
     Decimal(false, "85", "0"), Decimal(false, "0", "643"), Decimal(true, "0", "069"), Decimal(false, "0", "000")]
  }

  lemma StaticM665Line()
    ensures StaticReply(M665) == M665Reply(StaticKinematicsText())
  {
    var ds := StaticKinematicsText();
    assert Text(ds[0]) == "215.000" && Text(ds[1]) == "104.760" && Text(ds[2]) == "234.554";
    assert Text(ds[3]) == "85.0" && Text(ds[4]) == "0.643" && Text(ds[5]) == "-0.069" && Text(ds[6]) == "0.000";
    assert Degree + ", Y " == "\U{B0}, Y " && Degree + ", Z " == "\U{B0}, Z " && Degree == "\U{B0}";
  }

  lemma StaticM665Lengths()
    ensures var ds := StaticKinematicsText();
      Value(ds[0]) == 215.0 && Value(ds[1]) == 104.76
  {
    var ds := StaticKinematicsText();
    assert Value(ds[0]) == 215.0 by {
      Number3("215");
      Fraction3("000");
    }
    assert Value(ds[1]) == 104.76 by {
      Number3("104");
      Fraction3("760");
    }
  }

  lemma StaticM665Radii()
    ensures var ds := StaticKinematicsText();
      Value(ds[2]) == 234.554 && Value(ds[3]) == 85.0
  {
    var ds := StaticKinematicsText();
    assert Value(ds[2]) == 234.554 by {
      Number3("234");
      Fraction3("554");
    }
    assert Value(ds[3]) == 85.0 by {
      Number2("85");
      Fraction1("0");
    }
  }

  lemma StaticM665Angles()
    ensures var ds := StaticKinematicsText();
      Value(ds[4]) == 0.643 && Value(ds[5]) == -0.069 && Value(ds[6]) == 0.0
  {
    var ds := StaticKinematicsText();
    Number1("0");
    assert Value(ds[4]) == 0.643 by {
      Fraction3("643");
    }
    assert Value(ds[5]) == -0.069 by {
      Fraction3("069");
    }
    assert Value(ds[6]) == 0.0 by {
      Fraction3("000");
    }
  }

  /**
   * Seven decimals from the M665 fixture, whatever follows it. `85.0` has a
   * single fraction digit and `-0.069` a sign; both fit the decimal group.
   */
  lemma StaticM665(rest: string)
    ensures ParseM665(StaticReply(M665) + rest)
            == Success(Kinematics(215.0, 104.76, 234.554, 85.0, 0.643, -0.069, 0.0))
  {
    StaticM665Line();
    StaticM665Lengths();
    StaticM665Radii();
    StaticM665Angles();
    M665RoundTrip(StaticKinematicsText(), rest);
  }

  /** The five numbers of the M666 fixture, as written. */
  function StaticEndstopsText(): (ds: seq<Decimal>)
    ensures |ds| == 5
  {
    [Decimal(false, "0", "54"), Decimal(true, "0", "85"), Decimal(false, "0", "30"), Decimal(false, "0", "00"),
     Decimal(false, "0", "00")]
  }

  lemma StaticM666Line()
    ensures StaticReply(M666) == M666Reply(StaticEndstopsText())
  {
    var ds := StaticEndstopsText();
    assert Text(ds[0]) == "0.54" && Text(ds[1]) == "-0.85" && Text(ds[2]) == "0.30";
    assert Text(ds[3]) == "0.00" && Text(ds[4]) == "0.00";
  }

  lemma StaticM666Values()
    ensures var ds := StaticEndstopsText();
      && Value(ds[0]) == 0.54 && Value(ds[1]) == -0.85 && Value(ds[2]) == 0.3 && Value(ds[3]) == 0.0
      && Value(ds[4]) == 0.0
  {
    Number1("0");
    Fraction2("54");
    Fraction2("85");
    Fraction2("30");
    Fraction2("00");
  }

  /** Five decimals from the M666 fixture, the labels glued to the numbers, whatever follows it. */
  lemma StaticM666(rest: string)
    ensures ParseM666(StaticReply(M666) + rest) == Success(Endstops(0.54, -0.85, 0.30, 0.0, 0.0))
  {
    StaticM666Line();
    StaticM666Values();
    M666RoundTrip(StaticEndstopsText(), rest);
  }

  /**
   * A digit right after the G32 fixture is not ignored: the greedy last
   * fraction run takes it, so the "after" deviation reads 0.1575, not 0.157.
   */
  lemma StaticG32Absorbs(rest: string)
    requires Boundary(rest)
    ensures ParseG32(StaticReply(G32) + "5" + rest) == Success(Calibration(6, 13, 0.186, 0.1575, -0.0285))
  {
    StaticG32Line();
    StaticG32Values();
    G32RoundTrip("6", "13", Before186, After1575, rest);
  }

  /** The decimal group needs digits before the point. */
  lemma DecimalNeedsWhole()
    ensures MatchDecimal(".5").None? && MatchDecimal("-.5").None?
  {
    assert LeadingDigits(".5") == 0;
    assert ("-.5")[1..] == ".5";
  }

  /** The decimal group needs a point. */
  lemma DecimalNeedsPoint()
    ensures MatchDecimal("5").None?
  {
    assert LeadingDigits("5") == 1 by {
      assert ("5")[1..] == "";
    }
    assert ("5")[..1] == "5" && ("5")[1..] == "";
  }

  /** The decimal group needs digits after the point. */
  lemma DecimalNeedsFraction()
    ensures MatchDecimal("5.").None?
  {
    assert LeadingDigits("5.") == 1 by {
      assert ("5.")[1..] == ".";
    }
    assert ("5.")[..1] == "5" && ("5.")[1..] == ".";
    assert (".")[1..] == "";
  }

  /** The only sign the decimal group allows is a minus; the digit group allows none. */
  lemma DecimalSigns()
    ensures MatchDecimal("+1.0").None?
    ensures MatchDecimal("-1.50x") == Some((Decimal(true, "1", "50"), "x"))
    ensures MatchDigits("-1").None?
  {
    assert LeadingDigits("+1.0") == 0;
    assert Text(Decimal(true, "1", "50")) + "x" == "-1.50x";
    MatchDecimalText(Decimal(true, "1", "50"), "x");
  }

  /** Every iteration, the static client's three parses succeed with the fixture records. */
  lemma StaticClientG32()
    ensures forall i: nat :: StaticClient().calibrate(i) == Success(Calibration(6, 13, 0.186, 0.157, -0.029))
  {
    StaticG32("");
    assert StaticReply(G32) + "" == StaticReply(G32);
  }

  lemma StaticClientM665()
    ensures forall i: nat :: StaticClient().kinematics(i)
                             == Success(Kinematics(215.0, 104.76, 234.554, 85.0, 0.643, -0.069, 0.0))
  {
    StaticM665("");
    assert StaticReply(M665) + "" == StaticReply(M665);
  }

  lemma StaticClientM666()
    ensures forall i: nat :: StaticClient().endstops(i) == Success(Endstops(0.54, -0.85, 0.30, 0.0, 0.0))
  {
    StaticM666("");
    assert StaticReply(M666) + "" == StaticReply(M666);
  }

  /**
   * Any number of iterations against the static client (the loop of `main`
   * runs `Iterations` of them) never fails, and every list grows by copies of
   * the fixture records.
   */
  lemma StaticRun(initial: History, n: nat)
    ensures RunFor(initial, n, StaticClient()).Finished?
    ensures GrownBy(initial, RunFor(initial, n, StaticClient()).history, n, n, n)
    ensures forall j :: |initial.calibrations| <= j < |initial.calibrations| + n ==>
              RunFor(initial, n, StaticClient()).history.calibrations[j]
              == Calibration(6, 13, 0.186, 0.157, -0.029)
    ensures forall j :: |initial.kinematics| <= j < |initial.kinematics| + n ==>
              RunFor(initial, n, StaticClient()).history.kinematics[j]
              == Kinematics(215.0, 104.76, 234.554, 85.0, 0.643, -0.069, 0.0)
    ensures forall j :: |initial.endstops| <= j < |initial.endstops| + n ==>
              RunFor(initial, n, StaticClient()).history.endstops[j]
              == Endstops(0.54, -0.85, 0.30, 0.0, 0.0)
  {
    StaticClientG32();
    StaticClientM665();
    StaticClientM666();
    SteadyClientRun(initial, n, StaticClient(), Calibration(6, 13, 0.186, 0.157, -0.029),
                    Kinematics(215.0, 104.76, 234.554, 85.0, 0.643, -0.069, 0.0), Endstops(0.54, -0.85, 0.30, 0.0, 0.0));
  }
}
