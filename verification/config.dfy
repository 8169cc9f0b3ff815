/**
 * The two configuration formatters of the `Kossel` client, `m665_config` and
 * `m666_config`: a decoded record written back as a G-code command. Python's
 * rendering of a float inside `str.format` is the parameter `show`.
 */
module Config {
  import opened Replies

  /** A rendering of numbers that never produces a space, as Python's rendering of a float never does. */
  ghost predicate SpaceFree(show: real -> string) {
    forall a :: ' ' !in show(a)
  }

  /** `m665_config`: radius, diagonal, bed radius, homed height and the X/Y angles; Z is not written. */
  function M665Config(k: Kinematics, show: real -> string): (c: string)
    ensures "M665 R" <= c
  {
    "M665 R" + show(k.deltaRadius)
    + (" L" + show(k.diagonal)
    + (" B" + show(k.bedRadius)
    + (" H" + show(k.homedHeight)
    + (" X" + show(k.x)
    + (" Y" + show(k.y))))))
  }

  /** `m666_config`: the three endstop adjustments; the tilt values are not written. */
  function M666Config(e: Endstops, show: real -> string): (c: string)
    ensures "M666 X" <= c
  {
    "M666 X" + show(e.eaX)
    + (" Y" + show(e.eaY)
    + (" Z" + show(e.eaZ)))
  }

  /**
   * Two words glued by text that starts with a space separate in one way only:
   * if neither word holds a space, the words and the glued-on texts agree.
   */
  lemma SplitAtSpace(a1: string, t1: string, a2: string, t2: string)
    requires ' ' !in a1 && ' ' !in a2
    requires |t1| > 0 && t1[0] == ' ' && |t2| > 0 && t2[0] == ' '
    requires a1 + t1 == a2 + t2
    ensures a1 == a2 && t1 == t2
  {
    var w := a1 + t1;
    assert w[|a1|] == ' ' && w[|a2|] == ' ';
    assert forall i :: 0 <= i < |a1| ==> w[i] == a1[i];
    assert forall i :: 0 <= i < |a2| ==> w[i] == a2[i];
    assert |a1| == |a2|;
    assert a1 == (a1 + t1)[..|a1|];
    assert a2 == (a2 + t2)[..|a2|];
    assert t1 == (a1 + t1)[|a1|..];
    assert t2 == (a2 + t2)[|a2|..];
  }

  /** `x + t1 == x + t2` lets the common prefix be dropped. */
  lemma DropPrefix(x: string, t1: string, t2: string)
    requires x + t1 == x + t2
    ensures t1 == t2
  {
    assert t1 == (x + t1)[|x|..];
    assert t2 == (x + t2)[|x|..];
  }

  /** After a common tag, a space-free field followed by a space-led remainder is read back uniquely. */
  lemma ReadField(tag: string, a1: string, t1: string, a2: string, t2: string)
    requires ' ' !in a1 && ' ' !in a2
    requires |t1| > 0 && t1[0] == ' ' && |t2| > 0 && t2[0] == ' '
    requires tag + a1 + t1 == tag + a2 + t2
    ensures a1 == a2 && t1 == t2
  {
    assert tag + a1 + t1 == tag + (a1 + t1);
    assert tag + a2 + t2 == tag + (a2 + t2);
    DropPrefix(tag, a1 + t1, a2 + t2);
    SplitAtSpace(a1, t1, a2, t2);
  }

  /** `m665_config` never reads `z`: changing it leaves the command as it was. */
  lemma M665ConfigIgnoresZ(k: Kinematics, w: real, show: real -> string)
    ensures M665Config(k.(z := w), show) == M665Config(k, show)
  {
  }

  /**
   * The M665 command reads back field by field: two records give the same
   * command exactly when their six written fields render alike.
   */
  lemma M665ConfigReadBack(k1: Kinematics, k2: Kinematics, show: real -> string)
    requires SpaceFree(show)
    ensures M665Config(k1, show) == M665Config(k2, show) <==>
              && show(k1.deltaRadius) == show(k2.deltaRadius)
              && show(k1.diagonal) == show(k2.diagonal)
              && show(k1.bedRadius) == show(k2.bedRadius)
              && show(k1.homedHeight) == show(k2.homedHeight)
              && show(k1.x) == show(k2.x)
              && show(k1.y) == show(k2.y)
  {
    if M665Config(k1, show) == M665Config(k2, show) {
      var y1, y2 := " Y" + show(k1.y), " Y" + show(k2.y);
      var x1, x2 := " X" + show(k1.x) + y1, " X" + show(k2.x) + y2;
      var h1, h2 := " H" + show(k1.homedHeight) + x1, " H" + show(k2.homedHeight) + x2;
      var b1, b2 := " B" + show(k1.bedRadius) + h1, " B" + show(k2.bedRadius) + h2;
      var l1, l2 := " L" + show(k1.diagonal) + b1, " L" + show(k2.diagonal) + b2;
      ReadField("M665 R", show(k1.deltaRadius), l1, show(k2.deltaRadius), l2);
      ReadField(" L", show(k1.diagonal), b1, show(k2.diagonal), b2);
      ReadField(" B", show(k1.bedRadius), h1, show(k2.bedRadius), h2);
      ReadField(" H", show(k1.homedHeight), x1, show(k2.homedHeight), x2);
      ReadField(" X", show(k1.x), y1, show(k2.x), y2);
      DropPrefix(" Y", show(k1.y), show(k2.y));
    }
  }

  /** `m666_config` never reads the tilt: changing `tx` or `ty` leaves the command as it was. */
  lemma M666ConfigIgnoresTilt(e: Endstops, tx: real, ty: real, show: real -> string)
    ensures M666Config(e.(tx := tx, ty := ty), show) == M666Config(e, show)
  {
  }

  /**
   * The M666 command reads back field by field: two records give the same
   * command exactly when their three adjustments render alike.
   */
  lemma M666ConfigReadBack(e1: Endstops, e2: Endstops, show: real -> string)
    requires SpaceFree(show)
    ensures M666Config(e1, show) == M666Config(e2, show) <==>
              && show(e1.eaX) == show(e2.eaX)
              && show(e1.eaY) == show(e2.eaY)
              && show(e1.eaZ) == show(e2.eaZ)
  {
    if M666Config(e1, show) == M666Config(e2, show) {
      var z1, z2 := " Z" + show(e1.eaZ), " Z" + show(e2.eaZ);
      var y1, y2 := " Y" + show(e1.eaY) + z1, " Y" + show(e2.eaY) + z2;
      ReadField("M666 X", show(e1.eaX), y1, show(e2.eaX), y2);
      ReadField(" Y", show(e1.eaY), z1, show(e2.eaY), z2);
      DropPrefix(" Z", show(e1.eaZ), show(e2.eaZ));
    }
  }

  /** A command split at every space, as `str.split(' ')` splits it: `n` spaces give `n + 1` words. */
  function Words(s: string): (ws: seq<string>)
    ensures |ws| == 1 + multiset(s)[' ']
    decreases |s|
  {
    if |s| == 0 then [""]
    else
      assert s == [s[0]] + s[1..];
      var ws := Words(s[1..]);
      if s[0] == ' ' then [""] + ws else [[s[0]] + ws[0]] + ws[1..]
  }

  /** A word without a space is read back as itself. */
  lemma {:induction false} WordsOne(a: string)
    requires ' ' !in a
    ensures Words(a) == [a]
    decreases |a|
  {
    if |a| > 0 {
      assert ' ' !in a[1..];
      WordsOne(a[1..]);
      assert [a[0]] + a[1..] == a;
    }
  }

  /** A space-free word followed by a space is the first word; the rest splits on its own. */
  lemma {:induction false} WordsJoin(a: string, b: string)
    requires ' ' !in a
    ensures Words(a + " " + b) == [a] + Words(b)
    decreases |a|
  {
    var s := a + " " + b;
    if |a| == 0 {
      assert s == " " + b;
      assert s[1..] == b;
    } else {
      assert ' ' !in a[1..];
      WordsJoin(a[1..], b);
      assert s[0] == a[0];
      assert s[1..] == a[1..] + " " + b;
      assert [a[0]] + a[1..] == a;
    }
  }

  /** A field behind its tag, after a head, regrouped the way the formatters glue their fields. */
  lemma Spaced(head: string, tag: string, spaced: string, v: string, t: string, u: string)
    requires spaced == head + tag && u == " " + t
    ensures head + (tag + v + " " + t) == spaced + v + u
  {
  }

  /** Space-free words joined by single spaces split back into the same words. */
  lemma {:induction false} WordsOfJoined(ws: seq<string>)
    requires |ws| > 0
    requires forall i :: 0 <= i < |ws| ==> ' ' !in ws[i]
    ensures Words(Joined(ws)) == ws
    decreases |ws|
  {
    if |ws| == 1 {
      WordsOne(ws[0]);
    } else {
      WordsOfJoined(ws[1..]);
      WordsJoin(ws[0], Joined(ws[1..]));
    }
  }

  /** Words joined by single spaces, the inverse of `Words` on space-free words. */
  function Joined(ws: seq<string>): (s: string)
    requires |ws| > 0
    ensures ws[0] <= s
    decreases |ws|
  {
    if |ws| == 1 then ws[0] else ws[0] + " " + Joined(ws[1..])
  }

  /** Joining a word tagged `tag` to the rest reads as `spaced`, the field, then the rest behind a space. */
  lemma JoinedStep(head: string, tag: string, spaced: string, v: string, ws: seq<string>, u: string)
    requires |ws| > 1 && ws[0] == tag + v
    requires spaced == head + tag && u == " " + Joined(ws[1..])
    ensures head + Joined(ws) == spaced + v + u
  {
    Spaced(head, tag, spaced, v, Joined(ws[1..]), u);
  }

  /** The M665 command is its seven words joined by single spaces. */
  lemma M665ConfigJoined(k: Kinematics, show: real -> string)
    ensures M665Config(k, show) ==
              Joined(["M665", "R" + show(k.deltaRadius), "L" + show(k.diagonal), "B" + show(k.bedRadius),
                      "H" + show(k.homedHeight), "X" + show(k.x), "Y" + show(k.y)])
  {
    var sr, sl, sb, sh, sx, sy := show(k.deltaRadius), show(k.diagonal), show(k.bedRadius),
                                  show(k.homedHeight), show(k.x), show(k.y);
    var ws := ["M665", "R" + sr, "L" + sl, "B" + sb, "H" + sh, "X" + sx, "Y" + sy];
    var u6 := " Y" + sy;
    var u5 := " X" + sx + u6;
    var u4 := " H" + sh + u5;
    var u3 := " B" + sb + u4;
    var u2 := " L" + sl + u3;
    assert " " + Joined(ws[6..]) == u6 by {
      assert Joined(ws[6..]) == ws[6];
    }
    assert " " + Joined(ws[5..]) == u5 by {
      assert ws[5..][1..] == ws[6..];
      JoinedStep(" ", "X", " X", sx, ws[5..], u6);
    }
    assert " " + Joined(ws[4..]) == u4 by {
      assert ws[4..][1..] == ws[5..];
      JoinedStep(" ", "H", " H", sh, ws[4..], u5);
    }
    assert " " + Joined(ws[3..]) == u3 by {
      assert ws[3..][1..] == ws[4..];
      JoinedStep(" ", "B", " B", sb, ws[3..], u4);
    }
    assert " " + Joined(ws[2..]) == u2 by {
      assert ws[2..][1..] == ws[3..];
      JoinedStep(" ", "L", " L", sl, ws[2..], u3);
    }
    assert "M665 " + Joined(ws[1..]) == "M665 R" + sr + u2 by {
      assert ws[1..][1..] == ws[2..];
      JoinedStep("M665 ", "R", "M665 R", sr, ws[1..], u2);
    }
    assert Joined(ws) == "M665 " + Joined(ws[1..]) by {
      assert ws[0] + " " == "M665 ";
    }
  }

  /** The M666 command is its four words joined by single spaces. */
  lemma M666ConfigJoined(e: Endstops, show: real -> string)
    ensures M666Config(e, show) == Joined(["M666", "X" + show(e.eaX), "Y" + show(e.eaY), "Z" + show(e.eaZ)])
  {
    var sx, sy, sz := show(e.eaX), show(e.eaY), show(e.eaZ);
    var ws := ["M666", "X" + sx, "Y" + sy, "Z" + sz];
    var u3 := " Z" + sz;
    var u2 := " Y" + sy + u3;
    assert " " + Joined(ws[3..]) == u3 by {
      assert Joined(ws[3..]) == ws[3];
    }
    assert " " + Joined(ws[2..]) == u2 by {
      assert ws[2..][1..] == ws[3..];
      JoinedStep(" ", "Y", " Y", sy, ws[2..], u3);
    }
    assert "M666 " + Joined(ws[1..]) == "M666 X" + sx + u2 by {
      assert ws[1..][1..] == ws[2..];
      JoinedStep("M666 ", "X", "M666 X", sx, ws[1..], u2);
    }
    assert Joined(ws) == "M666 " + Joined(ws[1..]) by {
      assert ws[0] + " " == "M666 ";
    }
  }

  /**
   * Each field of the M665 command sits in its own word behind its own letter:
   * `R` delta radius, `L` diagonal, `B` bed radius, `H` homed height, then `X` and `Y`.
   */
  lemma M665ConfigWords(k: Kinematics, show: real -> string)
    requires SpaceFree(show)
    ensures Words(M665Config(k, show)) ==
              ["M665", "R" + show(k.deltaRadius), "L" + show(k.diagonal), "B" + show(k.bedRadius),
               "H" + show(k.homedHeight), "X" + show(k.x), "Y" + show(k.y)]
  {
    var ws := ["M665", "R" + show(k.deltaRadius), "L" + show(k.diagonal), "B" + show(k.bedRadius),
               "H" + show(k.homedHeight), "X" + show(k.x), "Y" + show(k.y)];
    assert forall i :: 0 <= i < |ws| ==> ' ' !in ws[i] by {
      assert ' ' !in show(k.deltaRadius) && ' ' !in show(k.diagonal) && ' ' !in show(k.bedRadius);
      assert ' ' !in show(k.homedHeight) && ' ' !in show(k.x) && ' ' !in show(k.y);
    }
    WordsOfJoined(ws);
    M665ConfigJoined(k, show);
  }

  /** Each adjustment of the M666 command sits in its own word behind its own axis letter. */
  lemma M666ConfigWords(e: Endstops, show: real -> string)
    requires SpaceFree(show)
    ensures Words(M666Config(e, show)) == ["M666", "X" + show(e.eaX), "Y" + show(e.eaY), "Z" + show(e.eaZ)]
  {
    var ws := ["M666", "X" + show(e.eaX), "Y" + show(e.eaY), "Z" + show(e.eaZ)];
    assert forall i :: 0 <= i < |ws| ==> ' ' !in ws[i] by {
      assert ' ' !in show(e.eaX) && ' ' !in show(e.eaY) && ' ' !in show(e.eaZ);
    }
    WordsOfJoined(ws);
    M666ConfigJoined(e, show);
  }
}
