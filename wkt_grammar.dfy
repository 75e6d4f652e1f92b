/**
 * The three textual geometry grammars of the back end's validator
 * (`backend/Domain/Validators.cs`), the Well-Known Text subset of
 * OGC Simple Features Access (ISO 19125-1, section 7) that it admits:
 *
 *   POINT        ( pair )
 *   LINESTRING   ( pair , pair { , pair } )
 *   POLYGON    ( ( pair , pair { , pair } ) )
 *
 * where a pair is two numbers separated by whitespace, a number is `-?\d+(\.\d+)?`,
 * whitespace may surround every token, and the keyword matches case-insensitively.
 *
 * The language is given declaratively by a concrete syntax tree (`Wkt`) that records
 * every whitespace run and the keyword as spelled, a well-formedness predicate and a
 * printer `Text`. The recogniser `Parse` is a recursive-descent reader over the
 * characters; `Parse` and `Text` are proved inverse: every accepted string is the
 * text of the well-formed tree it returns, and every well-formed tree's text is
 * accepted with that same tree.
 */
module WktGrammar {
  import opened Strings
  import opened Wrappers

  // ---------------------------------------------------------------- syntax trees

  /** A coordinate `-?\d+(\.\d+)?`: optional minus, whole digits, optional fraction digits. */
  datatype Num = Num(negative: bool, whole: string, fraction: Option<string>)

  /** Two coordinates separated by whitespace: `NUM\s+NUM`. */
  datatype Pair = Pair(x: Num, gap: string, y: Num)

  /** One further pair of a list, `\s*,\s*PAIR`. */
  datatype Tail = Tail(before: string, after: string, pair: Pair)

  /** A coordinate list up to (not including) its closing parenthesis: `PAIR(\s*,\s*PAIR)*\s*`. */
  datatype Ring = Ring(first: Pair, more: seq<Tail>, close: string)

  datatype Kind = PointKind | LineKind | PolygonKind

  /**
   * A whole text. For `PolygonKind` the list sits inside a second pair of parentheses:
   * `inner` is the whitespace after the second `(` and `mid` the whitespace between the two `)`;
   * the other kinds have no such runs.
   */
  datatype Wkt = Wkt(kind: Kind, lead: string, keyword: string, gap: string, open: string,
                     inner: string, ring: Ring, mid: string, trail: string)

  function Keyword(k: Kind): string {
    match k
    case PointKind => "POINT"
    case LineKind => "LINESTRING"
    case PolygonKind => "POLYGON"
  }

  /** `a` spells the upper-case keyword `k` in any mixture of letter case. */
  predicate SpellsIgnoringCase(a: string, k: string) {
    |a| == |k| && forall i :: 0 <= i < |a| ==> UpperChar(a[i]) == k[i]
  }

  // ---------------------------------------------------------------- well-formedness

  predicate NumOk(n: Num) {
    n.whole != [] && AllDigits(n.whole)
    && (n.fraction.Some? ==> n.fraction.value != [] && AllDigits(n.fraction.value))
  }

  predicate PairOk(p: Pair) {
    NumOk(p.x) && p.gap != [] && AllWhite(p.gap) && NumOk(p.y)
  }

  predicate TailOk(t: Tail) {
    AllWhite(t.before) && AllWhite(t.after) && PairOk(t.pair)
  }

  predicate RingOk(r: Ring) {
    PairOk(r.first) && (forall i :: 0 <= i < |r.more| ==> TailOk(r.more[i])) && AllWhite(r.close)
  }

  /** The number of coordinate pairs in a list. */
  function PairCount(r: Ring): nat {
    1 + |r.more|
  }

  predicate WktOk(w: Wkt) {
    AllWhite(w.lead) && SpellsIgnoringCase(w.keyword, Keyword(w.kind))
    && AllWhite(w.gap) && AllWhite(w.open) && AllWhite(w.inner) && AllWhite(w.mid) && AllWhite(w.trail)
    && RingOk(w.ring)
    && (if w.kind == PointKind then PairCount(w.ring) == 1 else PairCount(w.ring) >= 2)
    && (w.kind != PolygonKind ==> w.inner == [] && w.mid == [])
  }

  // ---------------------------------------------------------------- printing

  function NumText(n: Num): string {
    (if n.negative then "-" else "") + n.whole + (if n.fraction.Some? then "." + n.fraction.value else "")
  }

  function PairText(p: Pair): string {
    NumText(p.x) + p.gap + NumText(p.y)
  }

  function TailText(t: Tail): string {
    t.before + "," + t.after + PairText(t.pair)
  }

  function TailsText(ts: seq<Tail>): string {
    if ts == [] then "" else TailText(ts[0]) + TailsText(ts[1..])
  }

  function RingText(r: Ring): string {
    PairText(r.first) + TailsText(r.more) + r.close
  }

  /** From the keyword to the first pair: `\s*\(\s*`, and for a polygon a further `\(\s*`. */
  function OpeningText(kind: Kind, gap: string, open: string, inner: string): string {
    gap + "(" + open + (if kind == PolygonKind then "(" + inner else "")
  }

  /** After the list: `)`, and for a polygon `)\s*)`. */
  function ClosingText(kind: Kind, mid: string): string {
    ")" + (if kind == PolygonKind then mid + ")" else "")
  }

  function Text(w: Wkt): string {
    w.lead + w.keyword + OpeningText(w.kind, w.gap, w.open, w.inner)
    + RingText(w.ring) + ClosingText(w.kind, w.mid) + w.trail
  }

  // ---------------------------------------------------------------- lexing

  /** A split of a text's tail, with the first character put back in front, is a split of the text. */
  lemma ConsSplit(s: string, a: string, b: string)
    requires s != [] && a + b == s[1..]
    ensures [s[0]] + a + b == s
  {
    assert s == [s[0]] + s[1..];
  }

  /** Splits off the longest whitespace prefix (a greedy `\s*`). */
  function SpanWhite(s: string): (r: (string, string))
    ensures r.0 + r.1 == s && AllWhite(r.0)
    ensures r.1 == [] || !IsWhite(r.1[0])
  {
    if s == [] || !IsWhite(s[0]) then ([], s)
    else
      var r := SpanWhite(s[1..]);
      ConsSplit(s, r.0, r.1);
      ([s[0]] + r.0, r.1)
  }

  /** Splits off the longest digit prefix (a greedy `\d*`). */
  function SpanDigits(s: string): (r: (string, string))
    ensures r.0 + r.1 == s && AllDigits(r.0)
    ensures r.1 == [] || !IsDigit(r.1[0])
  {
    if s == [] || !IsDigit(s[0]) then ([], s)
    else
      var r := SpanDigits(s[1..]);
      ConsSplit(s, r.0, r.1);
      ([s[0]] + r.0, r.1)
  }

  /** Any whitespace run followed by a non-white character is what SpanWhite splits off. */
  lemma {:induction false} SpanWhiteOf(w: string, t: string)
    requires AllWhite(w) && (t == [] || !IsWhite(t[0]))
    ensures SpanWhite(w + t) == (w, t)
  {
    if w == [] {
      assert w + t == t;
    } else {
      assert (w + t)[0] == w[0];
      assert (w + t)[1..] == w[1..] + t;
      SpanWhiteOf(w[1..], t);
      assert [w[0]] + w[1..] == w;
    }
  }

  /** Any digit run followed by a non-digit is what SpanDigits splits off. */
  lemma {:induction false} SpanDigitsOf(d: string, t: string)
    requires AllDigits(d) && (t == [] || !IsDigit(t[0]))
    ensures SpanDigits(d + t) == (d, t)
  {
    if d == [] {
      assert d + t == t;
    } else {
      assert (d + t)[0] == d[0];
      assert (d + t)[1..] == d[1..] + t;
      SpanDigitsOf(d[1..], t);
      assert [d[0]] + d[1..] == d;
    }
  }

  // Each parser's "the text read is the text printed" fact, proved apart from the
  // large context of the parser that uses it.

  lemma NumGlue(s: string, s1: string, whole: string, r1: string, negative: bool, fraction: Option<string>, r2: string)
    requires s == (if negative then "-" else "") + s1 && s1 == whole + r1
    requires fraction.Some? ==> r1 == "." + fraction.value + r2
    requires fraction.None? ==> r1 == r2
    ensures NumText(Num(negative, whole, fraction)) + r2 == s
  {
  }

  lemma PairGlue(s: string, x: Num, r1: string, gap: string, r2: string, y: Num, r3: string)
    requires NumText(x) + r1 == s && gap + r2 == r1 && NumText(y) + r3 == r2
    ensures PairText(Pair(x, gap, y)) + r3 == s
  {
  }

  lemma TailsGlue(s: string, w: string, r1: string, w2: string, r2: string, p: Pair, r3: string,
                  ts: seq<Tail>, close: string, rest: string)
    requires s == w + r1 && r1 != [] && r1[0] == ',' && r1[1..] == w2 + r2 && r2 == PairText(p) + r3
    requires r3 == TailsText(ts) + close + rest
    ensures TailsText([Tail(w, w2, p)] + ts) + close + rest == s
  {
    assert r1 == "," + w2 + r2;
    assert ([Tail(w, w2, p)] + ts)[1..] == ts;
  }

  lemma RingGlue(s: string, p: Pair, r1: string, ts: seq<Tail>, close: string, rest: string)
    requires PairText(p) + r1 == s && TailsText(ts) + close + rest == r1
    ensures RingText(Ring(p, ts, close)) + rest == s
  {
  }

  lemma OpeningGlue(kind: Kind, s: string, gap: string, r1: string, open: string, r2: string, inner: string, rest: string)
    requires s == gap + r1 && r1 != [] && r1[0] == '(' && r1[1..] == open + r2
    requires kind == PolygonKind ==> r2 != [] && r2[0] == '(' && r2[1..] == inner + rest
    requires kind != PolygonKind ==> inner == [] && r2 == rest
    ensures s == OpeningText(kind, gap, open, inner) + rest
  {
    assert r1 == [r1[0]] + r1[1..];
    if kind == PolygonKind {
      assert r2 == [r2[0]] + r2[1..];
    }
  }

  lemma ClosingGlue(kind: Kind, s: string, mid: string, r1: string, rest: string)
    requires kind == PolygonKind ==> s == ")" + mid + r1 && r1 == ")" + rest
    requires kind != PolygonKind ==> mid == [] && s == ")" + rest
    ensures s == ClosingText(kind, mid) + rest
  {
  }

  lemma TextGlue(w: Wkt, s: string, r1: string, r2: string, r3: string, r4: string, r5: string)
    requires s == w.lead + r1 && r1 == w.keyword + r2
    requires r2 == OpeningText(w.kind, w.gap, w.open, w.inner) + r3
    requires r3 == RingText(w.ring) + r4 && r4 == ClosingText(w.kind, w.mid) + r5 && r5 == w.trail
    ensures Text(w) == s
  {
  }

  // ---------------------------------------------------------------- parsing

  /** Reads one coordinate from the front of `s`, returning it and the rest. */
  function ParseNum(s: string): (r: Option<(Num, string)>)
    ensures r.Some? ==> NumOk(r.value.0) && NumText(r.value.0) + r.value.1 == s
  {
    var negative := s != [] && s[0] == '-';
    var s1 := if negative then s[1..] else s;
    var digits := SpanDigits(s1);
    var whole, r1 := digits.0, digits.1;
    if whole == [] then None
    else if r1 != [] && r1[0] == '.' then
      var more := SpanDigits(r1[1..]);
      var fraction, r2 := more.0, more.1;
      if fraction == [] then None
      else
        NumGlue(s, s1, whole, r1, negative, Some(fraction), r2);
        Some((Num(negative, whole, Some(fraction)), r2))
    else
      NumGlue(s, s1, whole, r1, negative, None, r1);
      Some((Num(negative, whole, None), r1))
  }

  /** Reads `NUM\s+NUM` from the front of `s`. */
  function ParsePair(s: string): (r: Option<(Pair, string)>)
    ensures r.Some? ==> PairOk(r.value.0) && PairText(r.value.0) + r.value.1 == s
    ensures r.Some? ==> |r.value.1| < |s|
  {
    var nx := ParseNum(s);
    if nx.None? then None
    else
      var x, r1 := nx.value.0, nx.value.1;
      var sp := SpanWhite(r1);
      var gap, r2 := sp.0, sp.1;
      if gap == [] then None
      else
        var ny := ParseNum(r2);
        if ny.None? then None
        else
          PairGlue(s, x, r1, gap, r2, ny.value.0, ny.value.1);
          Some((Pair(x, gap, ny.value.0), ny.value.1))
  }

  /**
   * Reads `(\s*,\s*PAIR)*\s*` from the front of `s`: the further pairs, the whitespace
   * that follows the last of them, and the rest, which starts neither with whitespace nor with a comma.
   */
  function ParseTails(s: string): (r: Option<(seq<Tail>, string, string)>)
    ensures r.Some? ==>
      (forall i :: 0 <= i < |r.value.0| ==> TailOk(r.value.0[i])) && AllWhite(r.value.1)
      && TailsText(r.value.0) + r.value.1 + r.value.2 == s
      && (r.value.2 == [] || (!IsWhite(r.value.2[0]) && r.value.2[0] != ','))
    decreases |s|
  {
    var sp := SpanWhite(s);
    var w, r1 := sp.0, sp.1;
    if r1 != [] && r1[0] == ',' then
      var sp2 := SpanWhite(r1[1..]);
      var w2, r2 := sp2.0, sp2.1;
      var np := ParsePair(r2);
      if np.None? then None
      else
        var p, r3 := np.value.0, np.value.1;
        var more := ParseTails(r3);
        if more.None? then None
        else
          TailsGlue(s, w, r1, w2, r2, p, r3, more.value.0, more.value.1, more.value.2);
          Some(([Tail(w, w2, p)] + more.value.0, more.value.1, more.value.2))
    else
      Some(([], w, r1))
  }

  /** Reads a coordinate list up to its closing parenthesis. */
  function ParseRing(s: string): (r: Option<(Ring, string)>)
    ensures r.Some? ==> RingOk(r.value.0) && RingText(r.value.0) + r.value.1 == s
    ensures r.Some? ==> r.value.1 == [] || (!IsWhite(r.value.1[0]) && r.value.1[0] != ',')
  {
    var np := ParsePair(s);
    if np.None? then None
    else
      var more := ParseTails(np.value.1);
      if more.None? then None
      else
        RingGlue(s, np.value.0, np.value.1, more.value.0, more.value.1, more.value.2);
        Some((Ring(np.value.0, more.value.0, more.value.1), more.value.2))
  }

  /** Reads the keyword of `kind` in any letter case from the front of `s`. */
  function ParseKeyword(kind: Kind, s: string): (r: Option<(string, string)>)
    ensures r.Some? ==> SpellsIgnoringCase(r.value.0, Keyword(kind)) && r.value.0 + r.value.1 == s
  {
    var k := Keyword(kind);
    if |s| >= |k| && SpellsIgnoringCase(s[..|k|], k) then
      assert s[..|k|] + s[|k|..] == s;
      Some((s[..|k|], s[|k|..]))
    else None
  }

  /** After the keyword: `\s*\(\s*`, and for a polygon a second `\(\s*`. */
  function ParseOpening(kind: Kind, s: string): (r: Option<(string, string, string, string)>)
    ensures r.Some? ==>
      AllWhite(r.value.0) && AllWhite(r.value.1) && AllWhite(r.value.2)
      && (kind != PolygonKind ==> r.value.2 == [])
      && s == OpeningText(kind, r.value.0, r.value.1, r.value.2) + r.value.3
  {
    var sp := SpanWhite(s);
    var gap, r1 := sp.0, sp.1;
    if r1 == [] || r1[0] != '(' then None
    else
      var sp2 := SpanWhite(r1[1..]);
      var open, r2 := sp2.0, sp2.1;
      if kind != PolygonKind then
        OpeningGlue(kind, s, gap, r1, open, r2, [], r2);
        Some((gap, open, [], r2))
      else if r2 == [] || r2[0] != '(' then None
      else
        var sp3 := SpanWhite(r2[1..]);
        OpeningGlue(kind, s, gap, r1, open, r2, sp3.0, sp3.1);
        Some((gap, open, sp3.0, sp3.1))
  }

  /** After the list: `)` alone, or for a polygon `)\s*)`; returns the whitespace between and the rest. */
  function ParseClosing(kind: Kind, s: string): (r: Option<(string, string)>)
    ensures r.Some? ==> AllWhite(r.value.0) && (kind != PolygonKind ==> r.value.0 == [])
    ensures r.Some? ==> s == ClosingText(kind, r.value.0) + r.value.1
  {
    if s == [] || s[0] != ')' then None
    else if kind != PolygonKind then
      ClosingGlue(kind, s, [], [], s[1..]);
      Some(([], s[1..]))
    else
      var sp := SpanWhite(s[1..]);
      var mid, r1 := sp.0, sp.1;
      if r1 == [] || r1[0] != ')' then None
      else
        ClosingGlue(kind, s, mid, r1, r1[1..]);
        Some((mid, r1[1..]))
  }

  /**
   * The recogniser of one of the three anchored patterns: it accepts `s` exactly when
   * `s` is the text of a well-formed tree of that kind, and returns that tree.
   */
  function Parse(kind: Kind, s: string): (r: Option<Wkt>)
    ensures r.Some? ==> r.value.kind == kind && WktOk(r.value) && Text(r.value) == s
  {
    var sp := SpanWhite(s);
    var lead, r1 := sp.0, sp.1;
    var kw := ParseKeyword(kind, r1);
    if kw.None? then None
    else
      var keyword, r2 := kw.value.0, kw.value.1;
      var op := ParseOpening(kind, r2);
      if op.None? then None
      else
        var gap, open, inner, r3 := op.value.0, op.value.1, op.value.2, op.value.3;
        var rg := ParseRing(r3);
        if rg.None? then None
        else
          var ring, r4 := rg.value.0, rg.value.1;
          if (if kind == PointKind then PairCount(ring) != 1 else PairCount(ring) < 2) then None
          else
            var cl := ParseClosing(kind, r4);
            if cl.None? then None
            else
              var mid, r5 := cl.value.0, cl.value.1;
              var sp2 := SpanWhite(r5);
              if sp2.1 != [] then None
              else
                var w := Wkt(kind, lead, keyword, gap, open, inner, ring, mid, sp2.0);
                TextGlue(w, s, r1, r2, r3, r4, r5);
                Some(w)
  }

  // ---------------------------------------------------------------- completeness

  /** What may follow a number in a text: nothing that could extend it. */
  predicate EndsNumber(t: string) {
    t == [] || (!IsDigit(t[0]) && t[0] != '.')
  }

  lemma NumTextStart(n: Num)
    requires NumOk(n)
    ensures NumText(n) != [] && (NumText(n)[0] == '-' || IsDigit(NumText(n)[0]))
  {
    if !n.negative {
      assert NumText(n)[0] == n.whole[0];
    }
  }

  /** ParseNum, given the sign and what each digit run reads. */
  lemma ParseNumStages(s: string, negative: bool, s1: string, whole: string, r1: string, fraction: Option<string>, rest: string)
    requires negative == (s != [] && s[0] == '-') && s1 == (if negative then s[1..] else s)
    requires SpanDigits(s1) == (whole, r1) && whole != []
    requires fraction.None? ==> !(r1 != [] && r1[0] == '.') && rest == r1
    requires fraction.Some? ==> r1 != [] && r1[0] == '.' && SpanDigits(r1[1..]) == (fraction.value, rest) && fraction.value != []
    ensures ParseNum(s) == Some((Num(negative, whole, fraction), rest))
  {
  }

  /** A number's text starts with `-` exactly when it is negative, and the digits follow the sign. */
  lemma NumSignSplit(n: Num, tail: string, t: string)
    requires NumOk(n) && tail == (if n.fraction.Some? then "." + n.fraction.value + t else t)
    ensures var s := NumText(n) + t;
      (s != [] && s[0] == '-') == n.negative && (if n.negative then s[1..] else s) == n.whole + tail
  {
    var s1 := n.whole + tail;
    var s := NumText(n) + t;
    assert s == (if n.negative then "-" else "") + s1;
    if n.negative {
      assert s[0] == '-' && s[1..] == s1;
    } else {
      assert s[0] == n.whole[0];
    }
  }

  lemma {:induction false} ParseNumComplete(n: Num, t: string)
    requires NumOk(n) && EndsNumber(t)
    ensures ParseNum(NumText(n) + t) == Some((n, t))
  {
    hide ParseNum, SpanDigits, NumText, AllDigits;
    var tail := if n.fraction.Some? then "." + n.fraction.value + t else t;
    var s := NumText(n) + t;
    NumSignSplit(n, tail, t);
    assert SpanDigits(n.whole + tail) == (n.whole, tail) by {
      SpanDigitsOf(n.whole, tail);
    }
    if n.fraction.Some? {
      assert tail[0] == '.' && SpanDigits(tail[1..]) == (n.fraction.value, t) by {
        assert tail[1..] == n.fraction.value + t;
        SpanDigitsOf(n.fraction.value, t);
      }
    }
    ParseNumStages(s, n.negative, n.whole + tail, n.whole, tail, n.fraction, t);
  }

  lemma {:induction false} ParsePairComplete(p: Pair, t: string)
    requires PairOk(p) && EndsNumber(t)
    ensures ParsePair(PairText(p) + t) == Some((p, t))
  {
    var rest := p.gap + (NumText(p.y) + t);
    assert PairText(p) + t == NumText(p.x) + rest;
    ParseNumComplete(p.x, rest);
    NumTextStart(p.y);
    SpanWhiteOf(p.gap, NumText(p.y) + t);
    ParseNumComplete(p.y, t);
  }

  lemma PairTextStart(p: Pair)
    requires PairOk(p)
    ensures PairText(p) != [] && !IsWhite(PairText(p)[0]) && PairText(p)[0] != ','
  {
    NumTextStart(p.x);
  }

  /** Prepends a tail to a successful ParseTails result. */
  function ConsTail(h: Tail, r: Option<(seq<Tail>, string, string)>): Option<(seq<Tail>, string, string)> {
    if r.None? then None else Some(([h] + r.value.0, r.value.1, r.value.2))
  }

  /** One step of ParseTails over the text of a well-formed tail. */
  lemma {:induction false} ParseTailsStep(h: Tail, rest: string)
    requires TailOk(h) && EndsNumber(rest)
    ensures ParseTails(TailText(h) + rest) == ConsTail(h, ParseTails(rest))
  {
    var s := TailText(h) + rest;
    var afterComma := h.after + (PairText(h.pair) + rest);
    assert s == h.before + ("," + afterComma);
    SpanWhiteOf(h.before, "," + afterComma);
    assert ("," + afterComma)[1..] == afterComma;
    PairTextStart(h.pair);
    SpanWhiteOf(h.after, PairText(h.pair) + rest);
    ParsePairComplete(h.pair, rest);
  }

  /** A tail's text starts with its whitespace before the comma, or with the comma. */
  lemma TailTextStart(h: Tail)
    requires AllWhite(h.before)
    ensures TailText(h) != [] && (IsWhite(TailText(h)[0]) || TailText(h)[0] == ',')
  {
    if h.before != [] {
      assert TailText(h)[0] == h.before[0];
    } else {
      assert TailText(h)[0] == ',';
    }
  }

  /** What follows a number inside a list of tails never continues it. */
  lemma TailsTextEndsNumber(ts: seq<Tail>, close: string, t: string)
    requires forall i :: 0 <= i < |ts| ==> TailOk(ts[i])
    requires AllWhite(close) && t != [] && t[0] == ')'
    ensures EndsNumber(TailsText(ts) + close + t)
  {
    hide TailText;
    var s := TailsText(ts) + close + t;
    if ts != [] {
      TailTextStart(ts[0]);
      assert s[0] == TailText(ts[0])[0];
    } else if close != [] {
      assert s[0] == close[0];
    } else {
      assert s[0] == t[0];
    }
  }

  lemma TailsTextCons(ts: seq<Tail>)
    ensures ts == [] ==> TailsText(ts) == ""
    ensures ts != [] ==> TailsText(ts) == TailText(ts[0]) + TailsText(ts[1..])
  {
  }

  /** Whitespace before the closing parenthesis ends a list of tails. */
  lemma ParseTailsDone(close: string, t: string)
    requires AllWhite(close) && t != [] && t[0] == ')'
    ensures ParseTails(close + t) == Some(([], close, t))
  {
    SpanWhiteOf(close, t);
  }

  /** A well-formed list of tails, whitespace and a closing parenthesis is read back as itself. */
  lemma {:induction false} ParseTailsComplete(ts: seq<Tail>, close: string, t: string)
    requires forall i :: 0 <= i < |ts| ==> TailOk(ts[i])
    requires AllWhite(close) && t != [] && t[0] == ')'
    ensures ParseTails(TailsText(ts) + close + t) == Some((ts, close, t))
    decreases |ts|
  {
    TailsTextCons(ts);
    hide ParseTails, SpanWhite, PairText, TailsText, TailText;
    if ts == [] {
      assert TailsText(ts) + close + t == close + t;
      ParseTailsDone(close, t);
    } else {
      var h := ts[0];
      var tail := TailsText(ts[1..]) + close + t;
      assert TailsText(ts) + close + t == TailText(h) + tail;
      assert forall i :: 0 <= i < |ts[1..]| ==> TailOk(ts[1..][i]) by {
        forall i | 0 <= i < |ts[1..]|
          ensures TailOk(ts[1..][i])
        {
          assert ts[1..][i] == ts[i + 1];
        }
      }
      assert TailOk(h) && AllWhite(h.before);
      TailsTextEndsNumber(ts[1..], close, t);
      ParseTailsStep(h, tail);
      ParseTailsComplete(ts[1..], close, t);
      assert [h] + ts[1..] == ts;
    }
  }

  lemma {:induction false} ParseRingComplete(r: Ring, t: string)
    requires RingOk(r) && t != [] && t[0] == ')'
    ensures ParseRing(RingText(r) + t) == Some((r, t))
  {
    var rest := TailsText(r.more) + r.close + t;
    assert RingText(r) + t == PairText(r.first) + rest;
    if r.more != [] {
      PairTextStart(r.more[0].pair);
      assert rest[0] == TailText(r.more[0])[0];
    } else if r.close != [] {
      assert rest[0] == r.close[0];
    } else {
      assert rest[0] == t[0];
    }
    ParsePairComplete(r.first, rest);
    ParseTailsComplete(r.more, r.close, t);
  }

  lemma ParseKeywordComplete(kind: Kind, keyword: string, rest: string)
    requires SpellsIgnoringCase(keyword, Keyword(kind))
    ensures ParseKeyword(kind, keyword + rest) == Some((keyword, rest))
  {
    assert (keyword + rest)[..|keyword|] == keyword;
    assert (keyword + rest)[|keyword|..] == rest;
  }

  lemma {:induction false} ParseOpeningComplete(kind: Kind, gap: string, open: string, inner: string, rest: string)
    requires AllWhite(gap) && AllWhite(open) && AllWhite(inner) && (kind != PolygonKind ==> inner == [])
    requires rest != [] && !IsWhite(rest[0]) && rest[0] != '('
    ensures ParseOpening(kind, OpeningText(kind, gap, open, inner) + rest) == Some((gap, open, inner, rest))
  {
    hide SpanWhite;
    var s := OpeningText(kind, gap, open, inner) + rest;
    if kind == PolygonKind {
      var r2 := "(" + inner + rest;
      var r1 := "(" + open + r2;
      assert s == gap + r1;
      assert r1[0] == '(' && r1[1..] == open + r2;
      assert r2[0] == '(' && r2[1..] == inner + rest;
      SpanWhiteOf(gap, r1);
      SpanWhiteOf(open, r2);
      SpanWhiteOf(inner, rest);
    } else {
      var r1 := "(" + open + rest;
      assert s == gap + r1;
      assert r1[0] == '(' && r1[1..] == open + rest;
      SpanWhiteOf(gap, r1);
      SpanWhiteOf(open, rest);
    }
  }

  lemma {:induction false} ParseClosingComplete(kind: Kind, mid: string, rest: string)
    requires AllWhite(mid) && (kind != PolygonKind ==> mid == [])
    ensures ParseClosing(kind, ClosingText(kind, mid) + rest) == Some((mid, rest))
  {
    var s := ClosingText(kind, mid) + rest;
    if kind == PolygonKind {
      assert s[1..] == mid + (")" + rest);
      SpanWhiteOf(mid, ")" + rest);
      assert (")" + rest)[1..] == rest;
    } else {
      assert s[1..] == rest;
    }
  }

  lemma KeywordStart(k: Kind, keyword: string, rest: string)
    requires SpellsIgnoringCase(keyword, Keyword(k))
    ensures keyword + rest != [] && !IsWhite((keyword + rest)[0])
  {
    assert (keyword + rest)[0] == keyword[0];
    assert UpperChar(keyword[0]) == Keyword(k)[0];
  }

  /** Parse, given what each of its stages reads. */
  lemma ParseStages(kind: Kind, s: string, lead: string, r1: string, keyword: string, r2: string,
                    gap: string, open: string, inner: string, r3: string, ring: Ring, r4: string,
                    mid: string, r5: string, trail: string)
    requires SpanWhite(s) == (lead, r1)
    requires ParseKeyword(kind, r1) == Some((keyword, r2))
    requires ParseOpening(kind, r2) == Some((gap, open, inner, r3))
    requires ParseRing(r3) == Some((ring, r4))
    requires if kind == PointKind then PairCount(ring) == 1 else PairCount(ring) >= 2
    requires ParseClosing(kind, r4) == Some((mid, r5))
    requires SpanWhite(r5) == (trail, [])
    ensures Parse(kind, s) == Some(Wkt(kind, lead, keyword, gap, open, inner, ring, mid, trail))
  {
  }

  /** The recogniser accepts the text of every well-formed tree and gives that tree back. */
  lemma {:induction false} ParseComplete(w: Wkt)
    requires WktOk(w)
    ensures Parse(w.kind, Text(w)) == Some(w)
  {
    hide Parse, SpanWhite, ParseKeyword, ParseOpening, ParseRing, ParseClosing, Text;
    var k := w.kind;
    var r5 := w.trail;
    var r4 := ClosingText(k, w.mid) + r5;
    var r3 := RingText(w.ring) + r4;
    var r2 := OpeningText(k, w.gap, w.open, w.inner) + r3;
    var r1 := w.keyword + r2;
    TextGlue(w, w.lead + r1, r1, r2, r3, r4, r5);
    KeywordStart(k, w.keyword, r2);
    SpanWhiteOf(w.lead, r1);
    ParseKeywordComplete(k, w.keyword, r2);
    PairTextStart(w.ring.first);
    assert r3[0] == PairText(w.ring.first)[0];
    ParseOpeningComplete(k, w.gap, w.open, w.inner, r3);
    ParseRingComplete(w.ring, r4);
    ParseClosingComplete(k, w.mid, r5);
    SpanWhiteOf(w.trail, []);
    assert w.trail + [] == w.trail;
    ParseStages(k, Text(w), w.lead, r1, w.keyword, r2, w.gap, w.open, w.inner, r3, w.ring, r4, w.mid, r5, w.trail);
  }

  /** Soundness and completeness together: the accepted strings are exactly the well-formed texts. */
  lemma ParseIffText(kind: Kind, s: string)
    ensures Parse(kind, s).Some? <==> exists w: Wkt :: w.kind == kind && WktOk(w) && Text(w) == s
  {
    if exists w: Wkt :: w.kind == kind && WktOk(w) && Text(w) == s {
      var w: Wkt :| w.kind == kind && WktOk(w) && Text(w) == s;
      ParseComplete(w);
    }
  }
}
