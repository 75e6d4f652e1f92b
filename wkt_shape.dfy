/**
 * Character-level facts about the texts the three WKT grammars accept: which
 * characters may follow the keyword, where a `.` or a `-` may stand, how many
 * parentheses and commas a text holds, and that it ends with `)` up to whitespace.
 * The validator's documented behaviour (one pair for a point, no trailing text,
 * no exponent or leading-dot numbers) follows from these.
 */
module WktShape {
  import opened Strings
  import opened Wrappers
  import opened WktGrammar

  // ---------------------------------------------------------------- counting

  /** The number of occurrences of `c` in `s`. */
  function Count(s: string, c: char): nat {
    if s == [] then 0 else (if s[0] == c then 1 else 0) + Count(s[1..], c)
  }

  lemma {:induction false} CountAppend(a: string, b: string, c: char)
    ensures Count(a + b, c) == Count(a, c) + Count(b, c)
    decreases |a|
  {
    if a == [] {
      assert a + b == b;
    } else {
      assert (a + b)[1..] == a[1..] + b;
      CountAppend(a[1..], b, c);
    }
  }

  /** A character is absent exactly when it is counted zero times. */
  lemma {:induction false} CountZero(s: string, c: char)
    ensures Count(s, c) == 0 <==> forall i :: 0 <= i < |s| ==> s[i] != c
    decreases |s|
  {
    if s != [] {
      CountZero(s[1..], c);
      assert forall i :: 1 <= i < |s| ==> s[i] == s[1..][i - 1];
    }
  }

  /** Only whitespace, digits, `-` and `.`: the characters of numbers and the gaps between them. */
  predicate Numeric(s: string) {
    forall i :: 0 <= i < |s| ==> IsWhite(s[i]) || IsDigit(s[i]) || s[i] == '-' || s[i] == '.'
  }

  /** A numeric piece holds no comma and no parenthesis. */
  lemma NumericCounts(s: string)
    requires Numeric(s)
    ensures Count(s, ',') == 0 && Count(s, '(') == 0 && Count(s, ')') == 0
  {
    CountZero(s, ',');
    CountZero(s, '(');
    CountZero(s, ')');
  }

  lemma NumNumeric(n: Num)
    requires NumOk(n)
    ensures Numeric(NumText(n))
  {
    var sign := if n.negative then "-" else "";
    var frac := if n.fraction.Some? then "." + n.fraction.value else "";
    var t := NumText(n);
    forall i | 0 <= i < |t|
      ensures IsWhite(t[i]) || IsDigit(t[i]) || t[i] == '-' || t[i] == '.'
    {
      if i < |sign| {
      } else if i < |sign| + |n.whole| {
        assert t[i] == n.whole[i - |sign|];
      } else {
        assert t[i] == frac[i - |sign| - |n.whole|];
        if i > |sign| + |n.whole| {
          assert t[i] == n.fraction.value[i - |sign| - |n.whole| - 1];
        }
      }
    }
  }

  lemma PairNumeric(p: Pair)
    requires PairOk(p)
    ensures Numeric(PairText(p))
  {
    NumNumeric(p.x);
    NumNumeric(p.y);
    var a, b := NumText(p.x), NumText(p.x) + p.gap;
    assert forall i :: |a| <= i < |b| ==> b[i] == p.gap[i - |a|];
    var t := PairText(p);
    assert forall i :: |b| <= i < |t| ==> t[i] == NumText(p.y)[i - |b|];
  }

  // ---------------------------------------------------------------- number placement

  /** After a keyword a text uses only these characters. */
  predicate BodyChar(c: char) {
    IsWhite(c) || IsDigit(c) || c == '-' || c == '.' || c == ',' || c == '(' || c == ')'
  }

  /**
   * Position `i` of `s` holds a character a body may use, a `.` there has a digit on
   * each side, and a `-` there has a digit after it.
   */
  predicate SoundAt(s: string, i: nat)
    requires i < |s|
  {
    BodyChar(s[i])
    && (s[i] == '.' ==> 0 < i < |s| - 1 && IsDigit(s[i - 1]) && IsDigit(s[i + 1]))
    && (s[i] == '-' ==> i < |s| - 1 && IsDigit(s[i + 1]))
  }

  predicate Sound(s: string) {
    forall i :: 0 <= i < |s| ==> SoundAt(s, i)
  }

  /** Soundness is local, so it survives concatenation. */
  lemma SoundAppend(a: string, b: string)
    requires Sound(a) && Sound(b)
    ensures Sound(a + b)
  {
    var s := a + b;
    forall i | 0 <= i < |s|
      ensures SoundAt(s, i)
    {
      if i < |a| {
        assert SoundAt(a, i);
      } else {
        assert SoundAt(b, i - |a|);
      }
    }
  }

  lemma SoundAppend3(a: string, b: string, c: string)
    requires Sound(a) && Sound(b) && Sound(c)
    ensures Sound(a + b + c)
  {
    SoundAppend(a, b);
    SoundAppend(a + b, c);
  }

  lemma WhiteSound(w: string)
    requires AllWhite(w)
    ensures Sound(w)
  {
    assert forall i :: 0 <= i < |w| ==> SoundAt(w, i);
  }

  lemma PunctuationSound(c: char)
    requires c == ',' || c == '(' || c == ')'
    ensures Sound([c])
  {
    assert SoundAt([c], 0);
  }

  lemma NumSound(n: Num)
    requires NumOk(n)
    ensures Sound(NumText(n))
  {
    var digits := n.whole + (if n.fraction.Some? then "." + n.fraction.value else "");
    assert Sound(digits) by {
      forall i | 0 <= i < |digits|
        ensures SoundAt(digits, i)
      {
        if i < |n.whole| {
          assert digits[i] == n.whole[i];
        } else if i > |n.whole| {
          assert digits[i] == n.fraction.value[i - |n.whole| - 1];
        }
      }
    }
    var t := NumText(n);
    assert t == (if n.negative then "-" else "") + digits;
    if n.negative {
      assert forall i :: 1 <= i < |t| ==> t[i] == digits[i - 1];
      assert SoundAt(t, 0);
      assert forall i :: 1 <= i < |t| ==> SoundAt(digits, i - 1) ==> SoundAt(t, i);
    }
  }

  lemma PairSound(p: Pair)
    requires PairOk(p)
    ensures Sound(PairText(p))
  {
    NumSound(p.x);
    WhiteSound(p.gap);
    NumSound(p.y);
    SoundAppend3(NumText(p.x), p.gap, NumText(p.y));
  }

  lemma TailSound(t: Tail)
    requires TailOk(t)
    ensures Sound(TailText(t))
  {
    WhiteSound(t.before);
    PunctuationSound(',');
    WhiteSound(t.after);
    PairSound(t.pair);
    SoundAppend3(t.before, ",", t.after);
    SoundAppend(t.before + "," + t.after, PairText(t.pair));
  }

  lemma {:induction false} TailsSound(ts: seq<Tail>)
    requires forall i :: 0 <= i < |ts| ==> TailOk(ts[i])
    ensures Sound(TailsText(ts))
    decreases |ts|
  {
    if ts == [] {
      assert Sound(TailsText(ts));
    } else {
      TailSound(ts[0]);
      TailsSound(ts[1..]);
      SoundAppend(TailText(ts[0]), TailsText(ts[1..]));
    }
  }

  lemma RingSound(r: Ring)
    requires RingOk(r)
    ensures Sound(RingText(r))
  {
    PairSound(r.first);
    TailsSound(r.more);
    WhiteSound(r.close);
    SoundAppend3(PairText(r.first), TailsText(r.more), r.close);
  }

  // ---------------------------------------------------------------- the body after the keyword

  /** Everything of a text after its keyword. */
  function Body(w: Wkt): string {
    OpeningText(w.kind, w.gap, w.open, w.inner) + RingText(w.ring) + ClosingText(w.kind, w.mid) + w.trail
  }

  /** Everything of a text up to its last `)`. */
  function Core(w: Wkt): string {
    w.lead + w.keyword + OpeningText(w.kind, w.gap, w.open, w.inner) + RingText(w.ring) + ClosingText(w.kind, w.mid)
  }

  /** How many parentheses a kind opens: two for a polygon, one otherwise. */
  function Depth(k: Kind): nat {
    if k == PolygonKind then 2 else 1
  }

  lemma TextParts(w: Wkt)
    ensures Text(w) == w.lead + w.keyword + Body(w)
    ensures Text(w) == Core(w) + w.trail
    ensures Core(w) != [] && Core(w)[|Core(w)| - 1] == ')'
  {
    var c := ClosingText(w.kind, w.mid);
    assert c[|c| - 1] == ')';
  }

  lemma OpeningSound(w: Wkt)
    requires WktOk(w)
    ensures Sound(OpeningText(w.kind, w.gap, w.open, w.inner))
  {
    WhiteSound(w.gap);
    PunctuationSound('(');
    WhiteSound(w.open);
    WhiteSound(w.inner);
    SoundAppend3(w.gap, "(", w.open);
    if w.kind == PolygonKind {
      SoundAppend("(", w.inner);
      SoundAppend(w.gap + "(" + w.open, "(" + w.inner);
    } else {
      assert OpeningText(w.kind, w.gap, w.open, w.inner) == w.gap + "(" + w.open + "";
    }
  }

  lemma ClosingSound(w: Wkt)
    requires WktOk(w)
    ensures Sound(ClosingText(w.kind, w.mid))
  {
    PunctuationSound(')');
    WhiteSound(w.mid);
    if w.kind == PolygonKind {
      SoundAppend3(")", w.mid, ")");
    } else {
      assert ClosingText(w.kind, w.mid) == ")" + "";
    }
  }

  /** Every character after the keyword is whitespace, a digit or `-.,()`, and each `.` and `-` stands inside a number. */
  lemma BodySound(w: Wkt)
    requires WktOk(w)
    ensures Sound(Body(w))
  {
    OpeningSound(w);
    RingSound(w.ring);
    ClosingSound(w);
    WhiteSound(w.trail);
    SoundAppend3(OpeningText(w.kind, w.gap, w.open, w.inner), RingText(w.ring), ClosingText(w.kind, w.mid));
    SoundAppend(OpeningText(w.kind, w.gap, w.open, w.inner) + RingText(w.ring) + ClosingText(w.kind, w.mid), w.trail);
  }

  // ---------------------------------------------------------------- parentheses and commas

  lemma {:induction false} TailsCounts(ts: seq<Tail>)
    requires forall i :: 0 <= i < |ts| ==> TailOk(ts[i])
    ensures Count(TailsText(ts), ',') == |ts|
    ensures Count(TailsText(ts), '(') == 0 && Count(TailsText(ts), ')') == 0
    decreases |ts|
  {
    if ts != [] {
      var t := ts[0];
      TailsCounts(ts[1..]);
      PairNumeric(t.pair);
      NumericCounts(PairText(t.pair));
      assert Numeric(t.before) && Numeric(t.after);
      NumericCounts(t.before);
      NumericCounts(t.after);
      forall c | c == ',' || c == '(' || c == ')'
        ensures Count(TailsText(ts), c) == Count(t.before, c) + Count(",", c) + Count(t.after, c)
                                           + Count(PairText(t.pair), c) + Count(TailsText(ts[1..]), c)
      {
        CountAppend(t.before, ",", c);
        CountAppend(t.before + ",", t.after, c);
        CountAppend(t.before + "," + t.after, PairText(t.pair), c);
        CountAppend(TailText(t), TailsText(ts[1..]), c);
      }
    }
  }

  lemma RingCounts(r: Ring)
    requires RingOk(r)
    ensures Count(RingText(r), ',') == |r.more|
    ensures Count(RingText(r), '(') == 0 && Count(RingText(r), ')') == 0
  {
    PairNumeric(r.first);
    NumericCounts(PairText(r.first));
    TailsCounts(r.more);
    assert Numeric(r.close);
    NumericCounts(r.close);
    forall c | c == ',' || c == '(' || c == ')'
      ensures Count(RingText(r), c) == Count(PairText(r.first), c) + Count(TailsText(r.more), c) + Count(r.close, c)
    {
      CountAppend(PairText(r.first), TailsText(r.more), c);
      CountAppend(PairText(r.first) + TailsText(r.more), r.close, c);
    }
  }

  lemma OpeningCounts(w: Wkt)
    requires WktOk(w)
    ensures Count(OpeningText(w.kind, w.gap, w.open, w.inner), '(') == Depth(w.kind)
    ensures Count(OpeningText(w.kind, w.gap, w.open, w.inner), ')') == 0
    ensures Count(OpeningText(w.kind, w.gap, w.open, w.inner), ',') == 0
  {
    assert Numeric(w.gap) && Numeric(w.open) && Numeric(w.inner);
    NumericCounts(w.gap);
    NumericCounts(w.open);
    NumericCounts(w.inner);
    var tail := if w.kind == PolygonKind then "(" + w.inner else "";
    forall c | c == ',' || c == '(' || c == ')'
      ensures Count(OpeningText(w.kind, w.gap, w.open, w.inner), c)
              == Count(w.gap, c) + Count("(", c) + Count(w.open, c) + Count(tail, c)
      ensures Count(tail, c) == if w.kind == PolygonKind then Count("(", c) + Count(w.inner, c) else 0
    {
      CountAppend(w.gap, "(", c);
      CountAppend(w.gap + "(", w.open, c);
      CountAppend(w.gap + "(" + w.open, tail, c);
      CountAppend("(", w.inner, c);
    }
  }

  lemma ClosingCounts(w: Wkt)
    requires WktOk(w)
    ensures Count(ClosingText(w.kind, w.mid), ')') == Depth(w.kind)
    ensures Count(ClosingText(w.kind, w.mid), '(') == 0
    ensures Count(ClosingText(w.kind, w.mid), ',') == 0
  {
    assert Numeric(w.mid);
    NumericCounts(w.mid);
    var tail := if w.kind == PolygonKind then w.mid + ")" else "";
    forall c | c == ',' || c == '(' || c == ')'
      ensures Count(ClosingText(w.kind, w.mid), c) == Count(")", c) + Count(tail, c)
      ensures Count(tail, c) == if w.kind == PolygonKind then Count(w.mid, c) + Count(")", c) else 0
    {
      CountAppend(")", tail, c);
      CountAppend(w.mid, ")", c);
    }
  }

  /** The keyword holds only letters. */
  lemma KeywordCounts(k: Kind, keyword: string)
    requires SpellsIgnoringCase(keyword, Keyword(k))
    ensures Count(keyword, ',') == 0 && Count(keyword, '(') == 0 && Count(keyword, ')') == 0
  {
    assert forall i :: 0 <= i < |keyword| ==> 'A' <= UpperChar(keyword[i]) <= 'Z';
    CountZero(keyword, ',');
    CountZero(keyword, '(');
    CountZero(keyword, ')');
  }

  /**
   * A text opens and closes exactly `Depth(kind)` parentheses and holds one comma
   * fewer than it has coordinate pairs.
   */
  lemma TextCounts(w: Wkt)
    requires WktOk(w)
    ensures Count(Text(w), '(') == Depth(w.kind) && Count(Text(w), ')') == Depth(w.kind)
    ensures Count(Text(w), ',') == PairCount(w.ring) - 1
  {
    var o := OpeningText(w.kind, w.gap, w.open, w.inner);
    var g := RingText(w.ring);
    var c := ClosingText(w.kind, w.mid);
    assert Numeric(w.lead) && Numeric(w.trail);
    NumericCounts(w.lead);
    NumericCounts(w.trail);
    KeywordCounts(w.kind, w.keyword);
    OpeningCounts(w);
    RingCounts(w.ring);
    ClosingCounts(w);
    forall ch | ch == ',' || ch == '(' || ch == ')'
      ensures Count(Text(w), ch)
              == Count(w.lead, ch) + Count(w.keyword, ch) + Count(o, ch) + Count(g, ch) + Count(c, ch) + Count(w.trail, ch)
    {
      CountAppend(w.lead, w.keyword, ch);
      CountAppend(w.lead + w.keyword, o, ch);
      CountAppend(w.lead + w.keyword + o, g, ch);
      CountAppend(w.lead + w.keyword + o + g, c, ch);
      CountAppend(w.lead + w.keyword + o + g + c, w.trail, ch);
    }
  }

  // ---------------------------------------------------------------- accepted strings

  /**
   * What every accepted string looks like: leading whitespace, the keyword in some
   * letter case, then a sound body; parentheses and commas as `TextCounts` says; and
   * nothing but whitespace after the last `)`.
   */
  lemma Accepted(kind: Kind, s: string)
    requires Parse(kind, s).Some?
    ensures var w := Parse(kind, s).value;
      s == w.lead + w.keyword + Body(w) && AllWhite(w.lead) && SpellsIgnoringCase(w.keyword, Keyword(kind))
      && Sound(Body(w))
      && Count(s, '(') == Depth(kind) && Count(s, ')') == Depth(kind)
      && Count(s, ',') == PairCount(w.ring) - 1
      && s == Core(w) + w.trail && AllWhite(w.trail) && Core(w) != [] && Core(w)[|Core(w)| - 1] == ')'
  {
    var w := Parse(kind, s).value;
    TextParts(w);
    BodySound(w);
    TextCounts(w);
  }

  /** Text after a string that is not all whitespace does not change where its leading whitespace ends. */
  lemma SpanWhiteAppend(s: string, t: string)
    requires !AllWhite(s)
    ensures SpanWhite(s + t) == (SpanWhite(s).0, SpanWhite(s).1 + t)
  {
    var a, b := SpanWhite(s).0, SpanWhite(s).1;
    assert b != [];
    assert s + t == a + (b + t);
    SpanWhiteOf(a, b + t);
  }

  /** Distinct well-formed trees of one kind print distinct texts: the grammar is unambiguous. */
  lemma TextInjective(w1: Wkt, w2: Wkt)
    requires WktOk(w1) && WktOk(w2) && w1.kind == w2.kind && Text(w1) == Text(w2)
    ensures w1 == w2
  {
    ParseComplete(w1);
    ParseComplete(w2);
  }
}
