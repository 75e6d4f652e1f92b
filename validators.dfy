/**
 * The back end's two input validators (`backend/Domain/Validators.cs`): a name
 * check and a WKT check that accepts a text when it is not blank and one of the
 * three anchored, case-insensitive patterns matches it. The patterns are the
 * recognisers of `WktGrammar`; a missing (.NET `null`) text is `None`.
 */
module Validators {
  import opened Strings
  import opened Wrappers
  import opened WktGrammar
  import opened WktShape

  /** The longest name, in UTF-16 code units after trimming, that `ValidName` admits. */
  const MaxNameLength := 200

  /** `string.IsNullOrWhiteSpace`: missing, empty, or whitespace only. */
  predicate IsNullOrWhiteSpace(s: Option<string>) {
    s.None? || AllWhite(s.value)
  }

  predicate ValidName(name: Option<string>) {
    !IsNullOrWhiteSpace(name) && Utf16Length(Trim(name.value)) <= MaxNameLength
  }

  /** `Regex.IsMatch` for the pattern of `kind`. */
  predicate Matches(kind: Kind, s: string) {
    Parse(kind, s).Some?
  }

  predicate ValidWkt(wkt: Option<string>) {
    !IsNullOrWhiteSpace(wkt)
    && (Matches(PointKind, wkt.value) || Matches(LineKind, wkt.value) || Matches(PolygonKind, wkt.value))
  }

  // ---------------------------------------------------------------- names

  /**
   * A name is valid exactly when it is present and trims to a non-empty text of
   * at most 200 UTF-16 code units; a name of at most 100 characters always fits.
   */
  lemma ValidNameIff(name: Option<string>)
    ensures ValidName(name) <==> name.Some? && 1 <= |Trim(name.value)| && Utf16Length(Trim(name.value)) <= MaxNameLength
    ensures name.Some? && !AllWhite(name.value) && |Trim(name.value)| <= MaxNameLength / 2 ==> ValidName(name)
  {
    if name.Some? {
      TrimEmptyIffBlank(name.value);
      Utf16LengthBounds(Trim(name.value));
    }
  }

  /**
   * The length is counted in code units, not characters: 101 copies of
   * U+1F4CD are 101 characters but 202 code units, so the name is refused.
   */
  lemma AstralNameRejected()
    ensures var name := seq(101, _ => '\U{1F4CD}');
      |name| <= MaxNameLength && !ValidName(Some(name))
  {
    var name := seq(101, _ => '\U{1F4CD}');
    TrimSolid(name);
    Utf16LengthBounds(name);
  }

  // ---------------------------------------------------------------- WKT: the blank guard

  /** A text one of the patterns matches has a non-white character: its keyword. */
  lemma MatchNotBlank(kind: Kind, s: string)
    ensures Matches(kind, s) ==> !AllWhite(s)
  {
    hide Parse;
    if Matches(kind, s) {
      var w := Parse(kind, s).value;
      Accepted(kind, s);
      KeywordStart(kind, w.keyword, Body(w));
      assert s[|w.lead|] == (w.keyword + Body(w))[0];
    }
  }

  /**
   * A missing, empty or whitespace-only text is rejected, and the blank guard in front of
   * the patterns never changes the verdict: the patterns reject blank text on their own.
   */
  lemma ValidWktIff(wkt: Option<string>)
    ensures IsNullOrWhiteSpace(wkt) ==> !ValidWkt(wkt)
    ensures ValidWkt(wkt) <==>
      wkt.Some? && (Matches(PointKind, wkt.value) || Matches(LineKind, wkt.value) || Matches(PolygonKind, wkt.value))
  {
    hide Parse;
    if wkt.Some? {
      MatchNotBlank(PointKind, wkt.value);
      MatchNotBlank(LineKind, wkt.value);
      MatchNotBlank(PolygonKind, wkt.value);
    }
  }

  // ---------------------------------------------------------------- WKT: pairs and parentheses

  /**
   * A point holds one pair inside one pair of parentheses (no comma); a line string holds at
   * least two pairs (a comma) inside one pair; a polygon holds one ring of at least two pairs
   * inside exactly two pairs, so no inner ring.
   */
  lemma PairsAndParentheses(kind: Kind, s: string)
    requires Matches(kind, s)
    ensures Count(s, '(') == Depth(kind) && Count(s, ')') == Depth(kind)
    ensures kind == PointKind ==> Count(s, ',') == 0
    ensures kind != PointKind ==> Count(s, ',') >= 1
  {
    hide Parse;
    Accepted(kind, s);
  }

  /** The text of every well-formed tree passes the validator. */
  lemma WellFormedTextValid(w: Wkt)
    requires WktOk(w)
    ensures ValidWkt(Some(Text(w)))
  {
    hide Parse;
    ParseComplete(w);
    MatchNotBlank(w.kind, Text(w));
  }

  /** A polygon's ring need not be closed and may have as few as two pairs. */
  lemma OpenTwoPairPolygonAccepted()
    ensures ValidWkt(Some("POLYGON((0 0, 1 1))"))
  {
    var zero, one := Num(false, "0", None), Num(false, "1", None);
    var ring := Ring(Pair(zero, " ", zero), [Tail("", " ", Pair(one, " ", one))], "");
    var w := Wkt(PolygonKind, "", "POLYGON", "", "", "", ring, "", "");
    PolygonExampleOk(zero, one, ring, w);
    PolygonExampleText(zero, one, ring, w);
    WellFormedTextValid(w);
  }

  /** Keywords match in any letter case, and whitespace may surround every token. */
  lemma SpacedLowerCasePointAccepted()
    ensures ValidWkt(Some(" point ( -1.5\t2 ) \n"))
  {
    var p := Pair(Num(true, "1", Some("5")), "\t", Num(false, "2", None));
    var w := Wkt(PointKind, " ", "point", " ", " ", "", Ring(p, [], " "), "", " \n");
    PointExampleOk(p, w);
    PointExampleText(p, w);
    WellFormedTextValid(w);
  }

  /** A mixed-case line string with whitespace around its comma. */
  lemma MixedCaseLineAccepted()
    ensures ValidWkt(Some("LineString(0 0 ,\n1.25 -3)"))
  {
    var a := Pair(Num(false, "0", None), " ", Num(false, "0", None));
    var b := Pair(Num(false, "1", Some("25")), " ", Num(true, "3", None));
    var ring := Ring(a, [Tail(" ", "\n", b)], "");
    var w := Wkt(LineKind, "", "LineString", "", "", "", ring, "", "");
    LineExampleOk(a, b, ring, w);
    assert Text(w) == "LineString(0 0 ,\n1.25 -3)" by {
      assert TailsText(ring.more) == " ,\n" + PairText(b) by {
        assert TailsText(ring.more[1..]) == "";
      }
    }
    WellFormedTextValid(w);
  }

  lemma PointExampleOk(p: Pair, w: Wkt)
    requires p == Pair(Num(true, "1", Some("5")), "\t", Num(false, "2", None))
    requires w == Wkt(PointKind, " ", "point", " ", " ", "", Ring(p, [], " "), "", " \n")
    ensures WktOk(w)
  {
    assert PairOk(p);
    assert RingOk(w.ring);
    assert SpellsIgnoringCase("point", "POINT");
  }

  lemma PointExampleText(p: Pair, w: Wkt)
    requires p == Pair(Num(true, "1", Some("5")), "\t", Num(false, "2", None))
    requires w == Wkt(PointKind, " ", "point", " ", " ", "", Ring(p, [], " "), "", " \n")
    ensures Text(w) == " point ( -1.5\t2 ) \n"
  {
    assert PairText(p) == "-1.5\t2";
    assert RingText(w.ring) == "-1.5\t2 " by {
      assert TailsText([]) == "";
    }
    assert OpeningText(PointKind, " ", " ", "") == " ( ";
  }

  lemma PolygonExampleOk(zero: Num, one: Num, ring: Ring, w: Wkt)
    requires zero == Num(false, "0", None) && one == Num(false, "1", None)
    requires ring == Ring(Pair(zero, " ", zero), [Tail("", " ", Pair(one, " ", one))], "")
    requires w == Wkt(PolygonKind, "", "POLYGON", "", "", "", ring, "", "")
    ensures WktOk(w)
  {
    assert RingOk(ring) by {
      assert ring.more[0].pair == Pair(one, " ", one);
    }
    assert SpellsIgnoringCase("POLYGON", "POLYGON");
  }

  lemma PolygonExampleText(zero: Num, one: Num, ring: Ring, w: Wkt)
    requires zero == Num(false, "0", None) && one == Num(false, "1", None)
    requires ring == Ring(Pair(zero, " ", zero), [Tail("", " ", Pair(one, " ", one))], "")
    requires w == Wkt(PolygonKind, "", "POLYGON", "", "", "", ring, "", "")
    ensures Text(w) == "POLYGON((0 0, 1 1))"
  {
    assert TailsText(ring.more) == ", " + PairText(ring.more[0].pair) by {
      assert TailsText(ring.more[1..]) == "";
    }
  }

  lemma LineExampleOk(a: Pair, b: Pair, ring: Ring, w: Wkt)
    requires a == Pair(Num(false, "0", None), " ", Num(false, "0", None))
    requires b == Pair(Num(false, "1", Some("25")), " ", Num(true, "3", None))
    requires ring == Ring(a, [Tail(" ", "\n", b)], "")
    requires w == Wkt(LineKind, "", "LineString", "", "", "", ring, "", "")
    ensures WktOk(w)
  {
    assert PairOk(a) && PairOk(b);
    assert RingOk(ring) by {
      assert ring.more[0] == Tail(" ", "\n", b);
    }
    assert SpellsIgnoringCase("LineString", "LINESTRING");
  }

  /** A point with two pairs is rejected. */
  lemma TwoPairPointRejected()
    ensures !ValidWkt(Some("POINT(1 2, 3 4)"))
  {
    hide Parse;
    hide Count;
    var s := "POINT(1 2, 3 4)";
    assert !Matches(LineKind, s) && !Matches(PolygonKind, s) by {
      PointOnly(s);
    }
    assert Count(s, ',') >= 1 by {
      CountAtLeastOne(s, ',', 9);
    }
    if Matches(PointKind, s) {
      PairsAndParentheses(PointKind, s);
      assert false;
    }
  }

  /** A line string with a single pair is rejected. */
  lemma OnePairLineRejected()
    ensures !ValidWkt(Some("LINESTRING(1 2)"))
  {
    hide Parse;
    hide Count;
    var s := "LINESTRING(1 2)";
    assert !Matches(PointKind, s) && !Matches(PolygonKind, s) by {
      LineOnly(s);
    }
    assert Count(s, ',') == 0 by {
      assert forall i :: 0 <= i < |s| ==> s[i] != ',';
      CountZero(s, ',');
    }
    if Matches(LineKind, s) {
      PairsAndParentheses(LineKind, s);
      assert false;
    }
  }

  /** A polygon with an inner ring is rejected: it opens three parentheses. */
  lemma InnerRingRejected()
    ensures !ValidWkt(Some("POLYGON((0 0, 1 1), (2 2, 3 3))"))
  {
    hide Parse;
    hide Count;
    var s := "POLYGON((0 0, 1 1), (2 2, 3 3))";
    assert Count(s, '(') >= 3 by {
      CountThree(s, '(', 7, 8, 20);
    }
    forall k | Matches(k, s)
      ensures false
    {
      PairsAndParentheses(k, s);
    }
  }

  // ---------------------------------------------------------------- WKT: keywords and numbers

  /** After its leading whitespace an accepted text spells its keyword, and the rest is sound. */
  lemma KeywordAfterLead(kind: Kind, s: string)
    ensures Matches(kind, s) ==>
      var r, n := SpanWhite(s).1, |Keyword(kind)|;
      n <= |r| && SpellsIgnoringCase(r[..n], Keyword(kind)) && Sound(r[n..])
  {
    hide Parse;
    if Matches(kind, s) {
      var w := Parse(kind, s).value;
      Accepted(kind, s);
      var r := w.keyword + Body(w);
      KeywordStart(kind, w.keyword, Body(w));
      assert s == w.lead + r;
      SpanWhiteOf(w.lead, r);
      assert r[..|w.keyword|] == w.keyword;
      assert r[|w.keyword|..] == Body(w);
    }
  }

  /** A text with no leading whitespace starts with its keyword, and the rest is sound. */
  lemma KeywordAt(kind: Kind, s: string)
    requires s != [] && !IsWhite(s[0])
    ensures Matches(kind, s) ==>
      var n := |Keyword(kind)|; n <= |s| && SpellsIgnoringCase(s[..n], Keyword(kind)) && Sound(s[n..])
  {
    hide Parse;
    KeywordAfterLead(kind, s);
    SpanWhiteOf([], s);
    assert [] + s == s;
  }

  /** Only the point pattern can match a text that starts with `POINT`. */
  lemma PointOnly(s: string)
    requires |s| >= 5 && s[..5] == "POINT"
    ensures !Matches(LineKind, s) && !Matches(PolygonKind, s)
  {
    hide Parse;
    assert s[0] == 'P' && s[2] == 'I';
    KeywordAt(LineKind, s);
    KeywordAt(PolygonKind, s);
  }

  /** Only the line-string pattern can match a text that starts with `LINESTRING`. */
  lemma LineOnly(s: string)
    requires |s| >= 10 && s[..10] == "LINESTRING"
    ensures !Matches(PointKind, s) && !Matches(PolygonKind, s)
  {
    hide Parse;
    assert s[0] == 'L';
    KeywordAt(PointKind, s);
    KeywordAt(PolygonKind, s);
  }

  /**
   * A coordinate is `-?\d+(\.\d+)?`: a leading `+`, an exponent, a leading `.` and a
   * trailing `.` are all rejected.
   */
  lemma NumberFormsRejected()
    ensures !ValidWkt(Some("POINT(+5 1)"))
    ensures !ValidWkt(Some("POINT(1e3 1)"))
    ensures !ValidWkt(Some("POINT(.5 1)"))
    ensures !ValidWkt(Some("POINT(5. 1)"))
  {
    hide Parse;
    var s1, s2, s3, s4 := "POINT(+5 1)", "POINT(1e3 1)", "POINT(.5 1)", "POINT(5. 1)";
    PointOnly(s1);
    KeywordAt(PointKind, s1);
    assert !SoundAt(s1[5..], 1);
    PointOnly(s2);
    KeywordAt(PointKind, s2);
    assert !SoundAt(s2[5..], 2);
    PointOnly(s3);
    KeywordAt(PointKind, s3);
    assert !SoundAt(s3[5..], 1);
    PointOnly(s4);
    KeywordAt(PointKind, s4);
    assert !SoundAt(s4[5..], 2);
  }

  /** Any keyword but the three is rejected. */
  lemma OtherKeywordsRejected()
    ensures !ValidWkt(Some("MULTIPOINT(1 2)"))
    ensures !ValidWkt(Some("GEOMETRYCOLLECTION(POINT(1 2))"))
  {
    hide Parse;
    var s1, s2 := "MULTIPOINT(1 2)", "GEOMETRYCOLLECTION(POINT(1 2))";
    forall k
      ensures !Matches(k, s1) && !Matches(k, s2)
    {
      assert UpperChar(s1[0]) == 'M' && UpperChar(s2[0]) == 'G';
      KeywordAt(k, s1);
      KeywordAt(k, s2);
    }
  }

  /** Changing the letter case of the keyword never changes whether a text matches. */
  lemma KeywordCaseIgnored(kind: Kind, lead: string, kw1: string, kw2: string, rest: string)
    requires AllWhite(lead)
    requires SpellsIgnoringCase(kw1, Keyword(kind)) && SpellsIgnoringCase(kw2, Keyword(kind))
    ensures Matches(kind, lead + kw1 + rest) <==> Matches(kind, lead + kw2 + rest)
  {
    hide Parse;
    KeywordCaseStep(kind, lead, kw1, kw2, rest);
    KeywordCaseStep(kind, lead, kw2, kw1, rest);
  }

  lemma KeywordCaseStep(kind: Kind, lead: string, kw1: string, kw2: string, rest: string)
    requires AllWhite(lead)
    requires SpellsIgnoringCase(kw1, Keyword(kind)) && SpellsIgnoringCase(kw2, Keyword(kind))
    ensures Matches(kind, lead + kw1 + rest) ==> Matches(kind, lead + kw2 + rest)
  {
    hide Parse;
    var s := lead + kw1 + rest;
    if Matches(kind, s) {
      var w := Parse(kind, s).value;
      KeywordSplit(kind, lead, kw1, rest, w);
      KeywordSwap(w, kw2);
      ParseComplete(w.(keyword := kw2));
    }
  }

  /** A well-formed tree whose text is whitespace, a spelling of its keyword and a rest has that whitespace as lead and that rest as body. */
  lemma KeywordSplit(kind: Kind, lead: string, kw: string, rest: string, w: Wkt)
    requires AllWhite(lead) && SpellsIgnoringCase(kw, Keyword(kind))
    requires WktOk(w) && w.kind == kind && Text(w) == lead + kw + rest
    ensures w.lead == lead && Body(w) == rest
  {
    hide Text, Body, SpanWhite;
    var s := lead + kw + rest;
    assert s == w.lead + w.keyword + Body(w) by {
      TextParts(w);
    }
    assert w.lead == lead && kw + rest == w.keyword + Body(w) by {
      KeywordStart(kind, kw, rest);
      KeywordStart(kind, w.keyword, Body(w));
      assert s == lead + (kw + rest) == w.lead + (w.keyword + Body(w));
      SpanWhiteOf(lead, kw + rest);
      SpanWhiteOf(w.lead, w.keyword + Body(w));
    }
    assert rest == (kw + rest)[|kw|..];
  }

  /** Respelling the keyword of a well-formed tree keeps it well formed and changes only the keyword in its text. */
  lemma KeywordSwap(w: Wkt, kw: string)
    requires WktOk(w) && SpellsIgnoringCase(kw, Keyword(w.kind))
    ensures WktOk(w.(keyword := kw)) && Text(w.(keyword := kw)) == w.lead + kw + Body(w)
  {
    TextParts(w.(keyword := kw));
  }

  // ---------------------------------------------------------------- WKT: anchoring

  /** The first and third letters of an accepted text's keyword, which tell the three patterns apart. */
  lemma KeywordLetters(kind: Kind, s: string)
    ensures Matches(kind, s) ==>
      var r := SpanWhite(s).1;
      |r| >= 5 && UpperChar(r[0]) == Keyword(kind)[0] && UpperChar(r[2]) == Keyword(kind)[2]
  {
    hide Parse;
    KeywordAfterLead(kind, s);
    if Matches(kind, s) {
      var r, n := SpanWhite(s).1, |Keyword(kind)|;
      assert r[..n][0] == r[0] && r[..n][2] == r[2];
    }
  }

  /** A text starting with a letter pair unlike a keyword's first and third letters is not read by that keyword's pattern. */
  lemma KeywordLettersRuleOut(kind: Kind, s: string)
    requires |s| > 2 && !IsWhite(s[0])
    requires UpperChar(s[0]) != Keyword(kind)[0] || UpperChar(s[2]) != Keyword(kind)[2]
    ensures !Matches(kind, s)
  {
    hide Parse;
    KeywordLetters(kind, s);
    SpanWhiteOf([], s);
    assert [] + s == s;
  }

  /** Two patterns whose texts start alike are the same pattern. */
  lemma SameKind(k1: Kind, k2: Kind, s: string, t: string)
    requires Matches(k1, s) && Matches(k2, s + t)
    ensures k1 == k2
  {
    hide Parse;
    MatchNotBlank(k1, s);
    SpanWhiteAppend(s, t);
    KeywordLetters(k1, s);
    KeywordLetters(k2, s + t);
    hide SpanWhite, Matches;
    var r := SpanWhite(s).1;
    assert (r + t)[0] == r[0] && (r + t)[2] == r[2];
  }

  /**
   * Because the patterns are anchored, a valid text followed by anything that is not
   * whitespace only is invalid.
   */
  lemma TrailingTextRejected(s: string, t: string)
    requires ValidWkt(Some(s)) && !AllWhite(t)
    ensures !ValidWkt(Some(s + t))
  {
    hide Parse;
    var k1 :| k1 in {PointKind, LineKind, PolygonKind} && Matches(k1, s);
    forall k2 | Matches(k2, s + t)
      ensures false
    {
      SameKind(k1, k2, s, t);
      TrailingStep(k1, s, t);
    }
  }

  lemma TrailingStep(k: Kind, s: string, t: string)
    requires Matches(k, s) && !AllWhite(t)
    ensures !Matches(k, s + t)
  {
    hide Parse;
    if Matches(k, s + t) {
      var w := Parse(k, s + t).value;
      Accepted(k, s);
      Accepted(k, s + t);
      CountAppend(s, t, ')');
      SuffixHoldsLastParen(s, t, Core(w), w.trail);
    }
  }

  /** When `s + t` is `c` then whitespace, with `c` ending in `)`, a `t` that is not all whitespace holds that `)`. */
  lemma SuffixHoldsLastParen(s: string, t: string, c: string, trail: string)
    requires s + t == c + trail && AllWhite(trail) && c != [] && c[|c| - 1] == ')' && !AllWhite(t)
    ensures Count(t, ')') >= 1
  {
    var j :| 0 <= j < |t| && !IsWhite(t[j]);
    var x := s + t;
    assert forall i :: |c| <= i < |x| ==> x[i] == trail[i - |c|];
    assert !IsWhite(x[|s| + j]);
    assert x[|c| - 1] == ')';
    CountAtLeastOne(t, ')', |c| - 1 - |s|);
  }

  // ---------------------------------------------------------------- counting helpers

  lemma CountAtLeastOne(s: string, c: char, i: nat)
    requires i < |s| && s[i] == c
    ensures Count(s, c) >= 1
  {
    CountZero(s, c);
  }

  lemma CountThree(s: string, c: char, i: nat, j: nat, k: nat)
    requires i < j < k < |s| && s[i] == c && s[j] == c && s[k] == c
    ensures Count(s, c) >= 3
  {
    var a, b, d := s[..j], s[j..k], s[k..];
    assert s == a + b + d;
    CountAppend(a, b, c);
    CountAppend(a + b, d, c);
    CountAtLeastOne(a, c, i);
    CountAtLeastOne(b, c, 0);
    CountAtLeastOne(d, c, 0);
  }
}
