/**
 * The state-handling helpers of the map component
 * (`frontend/src/components/Map.tsx`): the WKT text built from drawn
 * vertices, the photo-address normaliser, the error toast that drops quick
 * repeats, the area-selection tally, the removal of unsaved features, and the
 * message shown when a create fails. Map rendering, projections and the
 * network are not part of this model; vertices are whole numbers.
 */
module MapView {
  import opened Wrappers
  import opened Strings
  import opened WktGrammar
  import opened WktShape
  import opened Sequences
  import FeatureStore
  import Validators

  // ---------------------------------------------------------------- WKT from drawn vertices

  /** A drawn vertex `[x, y]`. */
  type Coord = (int, int)

  /** `${x} ${y}`. */
  function CoordText(c: Coord): string {
    IntToDecimal(c.0) + " " + IntToDecimal(c.1)
  }

  /** `coords.map(c => `${c[0]} ${c[1]}`).join(', ')`. */
  function PairsText(coords: seq<Coord>): string {
    Join(seq(|coords|, i requires 0 <= i < |coords| => CoordText(coords[i])), ", ")
  }

  /**
   * `getWKTFromCoordinates`. `None` stands for the exception a point without
   * vertices raises (it reads `coords[0][0]` of an empty list).
   */
  function WktFromCoordinates(coords: seq<Coord>, drawType: string): Option<string> {
    if drawType == "Point" then
      if |coords| == 0 then None else Some("POINT(" + CoordText(coords[0]) + ")")
    else if drawType == "LineString" then Some("LINESTRING(" + PairsText(coords) + ")")
    else if drawType == "Polygon" then Some("POLYGON((" + PairsText(coords) + "))")
    else Some("")
  }

  /** The validator pattern a draw type's text is meant for. */
  function KindOf(drawType: string): Kind {
    if drawType == "Point" then PointKind
    else if drawType == "LineString" then LineKind
    else PolygonKind
  }

  /** The coordinate token of a whole number. */
  function NumOf(v: int): Num {
    Num(v < 0, NatToDecimal(if v < 0 then -v else v), None)
  }

  function PairOf(c: Coord): Pair {
    Pair(NumOf(c.0), " ", NumOf(c.1))
  }

  /** The `, x y` pieces that follow the first pair. */
  function TailsOf(coords: seq<Coord>): seq<Tail> {
    seq(|coords|, i requires 0 <= i < |coords| => Tail("", " ", PairOf(coords[i])))
  }

  /** The syntax tree of the text built from `coords`, with no optional whitespace. */
  function TreeOf(kind: Kind, coords: seq<Coord>): Wkt
    requires |coords| >= 1
  {
    Wkt(kind, "", Keyword(kind), "", "", "", Ring(PairOf(coords[0]), TailsOf(coords[1..]), ""), "", "")
  }

  /** The whole number a coordinate token denotes (its fraction, if any, aside). */
  function NumValue(n: Num): int
    requires AllDigits(n.whole)
  {
    var d: int := DecimalValue(n.whole);
    if n.negative then -d else d
  }

  function PairValue(p: Pair): Coord
    requires AllDigits(p.x.whole) && AllDigits(p.y.whole)
  {
    (NumValue(p.x), NumValue(p.y))
  }

  /** The vertices a well-formed text lists, in order. */
  function Vertices(w: Wkt): (r: seq<Coord>)
    requires RingOk(w.ring)
    ensures |r| == PairCount(w.ring)
  {
    var more := w.ring.more;
    assert forall i :: 0 <= i < |more| ==> PairOk(more[i].pair) by {
      forall i | 0 <= i < |more| ensures PairOk(more[i].pair) {
        assert TailOk(more[i]);
      }
    }
    [PairValue(w.ring.first)] + seq(|more|, i requires 0 <= i < |more| => PairValue(more[i].pair))
  }

  /** A whole number's token is well formed, prints as JavaScript prints the number, and reads back as it. */
  lemma NumOfRoundTrip(v: int)
    ensures NumOk(NumOf(v)) && NumText(NumOf(v)) == IntToDecimal(v) && NumValue(NumOf(v)) == v
  {
    var n := NumOf(v);
    assert NumText(n) == (if v < 0 then "-" else "") + n.whole + "";
    assert n.whole + "" == n.whole;
  }

  lemma PairOfRoundTrip(c: Coord)
    ensures PairOk(PairOf(c)) && PairText(PairOf(c)) == CoordText(c) && PairValue(PairOf(c)) == c
  {
    NumOfRoundTrip(c.0);
    NumOfRoundTrip(c.1);
    assert IsWhite(' ');
  }

  /** The joined list is the first pair followed by one `, x y` piece per further vertex. */
  lemma {:induction false} PairsTextSplit(coords: seq<Coord>)
    requires |coords| >= 1
    ensures PairsText(coords) == CoordText(coords[0]) + TailsText(TailsOf(coords[1..]))
    decreases |coords|
  {
    hide CoordText;
    hide PairsText;
    hide TailsText;
    var first := CoordText(coords[0]);
    if |coords| == 1 {
      PairsTextOne(coords);
    } else {
      var rest := coords[1..];
      PairsTextStep(coords);
      PairsTextSplit(rest);
      TailsTextStep(rest);
      var tail := TailsText(TailsOf(rest[1..]));
      assert first + ", " + (CoordText(rest[0]) + tail) == first + (", " + CoordText(rest[0]) + tail);
    }
  }

  lemma PairsTextOne(coords: seq<Coord>)
    requires |coords| == 1
    ensures PairsText(coords) == CoordText(coords[0]) + TailsText(TailsOf(coords[1..]))
  {
    hide CoordText;
    var parts := seq(|coords|, i requires 0 <= i < |coords| => CoordText(coords[i]));
    assert parts == [CoordText(coords[0])];
    assert TailsOf(coords[1..]) == [];
    assert CoordText(coords[0]) + "" == CoordText(coords[0]);
  }

  /** `join` puts the separator between the first part and the join of the rest. */
  lemma PairsTextStep(coords: seq<Coord>)
    requires |coords| >= 2
    ensures PairsText(coords) == CoordText(coords[0]) + ", " + PairsText(coords[1..])
  {
    hide CoordText;
    var parts := seq(|coords|, i requires 0 <= i < |coords| => CoordText(coords[i]));
    var rest := coords[1..];
    assert parts[1..] == seq(|rest|, i requires 0 <= i < |rest| => CoordText(rest[i]));
  }

  lemma TailsTextStep(coords: seq<Coord>)
    requires |coords| >= 1
    ensures TailsText(TailsOf(coords)) == ", " + CoordText(coords[0]) + TailsText(TailsOf(coords[1..]))
  {
    hide CoordText;
    var ts := TailsOf(coords);
    assert ts[1..] == TailsOf(coords[1..]);
    PairOfRoundTrip(coords[0]);
    assert TailText(ts[0]) == ", " + CoordText(coords[0]);
  }

  /** The tree of a list of vertices is well formed and lists the vertices. */
  lemma TreeOfOk(kind: Kind, coords: seq<Coord>)
    requires |coords| >= 1 && (kind == PointKind <==> |coords| == 1)
    ensures WktOk(TreeOf(kind, coords)) && Vertices(TreeOf(kind, coords)) == coords
  {
    hide IntToDecimal;
    hide NatToDecimal;
    var w := TreeOf(kind, coords);
    var ts := TailsOf(coords[1..]);
    forall i | 0 <= i < |ts|
      ensures TailOk(ts[i]) && PairValue(ts[i].pair) == coords[i + 1]
    {
      PairOfRoundTrip(coords[i + 1]);
    }
    PairOfRoundTrip(coords[0]);
    assert RingOk(w.ring);
    assert SpellsIgnoringCase(Keyword(kind), Keyword(kind));
    assert Vertices(w) == coords;
  }

  /** The tree of a list of vertices prints as the text the map builds from them. */
  lemma TreeOfText(kind: Kind, coords: seq<Coord>)
    requires |coords| >= 1
    ensures Text(TreeOf(kind, coords)) == Keyword(kind) + (if kind == PolygonKind then "((" else "(")
      + PairsText(coords) + (if kind == PolygonKind then "))" else ")")
  {
    hide CoordText;
    hide PairsText;
    hide TailsText;
    var w := TreeOf(kind, coords);
    PairOfRoundTrip(coords[0]);
    PairsTextSplit(coords);
    assert RingText(w.ring) == PairsText(coords);
  }

  /** A single vertex joins to its own text. */
  lemma PairsTextSingle(c: Coord)
    ensures PairsText([c]) == CoordText(c)
  {
    hide CoordText;
    PairsTextOne([c]);
    assert TailsOf([c][1..]) == [];
  }

  /**
   * Whenever there are enough vertices, the text the map builds is one the back
   * end's validator accepts, read by the pattern of its own draw type, and it lists
   * exactly the drawn vertices: only the first one for a point, all of them, in
   * order and with no closing vertex added, for a line or a ring.
   */
  lemma GeneratedTextReadsBack(coords: seq<Coord>, drawType: string)
    requires drawType == "Point" || drawType == "LineString" || drawType == "Polygon"
    requires |coords| >= (if drawType == "Point" then 1 else 2)
    ensures var r := WktFromCoordinates(coords, drawType);
      r.Some? && Validators.ValidWkt(r) &&
      Parse(KindOf(drawType), r.value).Some? &&
      Vertices(Parse(KindOf(drawType), r.value).value) == (if drawType == "Point" then coords[..1] else coords)
  {
    hide Parse, Text, WktFromCoordinates;
    var kind := KindOf(drawType);
    var listed := if drawType == "Point" then coords[..1] else coords;
    var w := TreeOf(kind, listed);
    assert WktOk(w) && Vertices(w) == listed by {
      TreeOfOk(kind, listed);
    }
    GeneratedTextOfTree(coords, drawType);
    ParseComplete(w);
    Validators.WellFormedTextValid(w);
  }

  /** The text the map builds is the text of the tree of the vertices it lists. */
  lemma GeneratedTextOfTree(coords: seq<Coord>, drawType: string)
    requires drawType == "Point" || drawType == "LineString" || drawType == "Polygon"
    requires |coords| >= (if drawType == "Point" then 1 else 2)
    ensures WktFromCoordinates(coords, drawType)
      == Some(Text(TreeOf(KindOf(drawType), if drawType == "Point" then coords[..1] else coords)))
  {
    hide PairsText, CoordText, Text, TreeOf;
    var listed := if drawType == "Point" then coords[..1] else coords;
    var w := TreeOf(KindOf(drawType), listed);
    TreeOfText(KindOf(drawType), listed);
    if drawType == "Point" {
      assert listed == [coords[0]];
      PairsTextSingle(coords[0]);
      assert Text(w) == "POINT(" + CoordText(coords[0]) + ")";
    } else if drawType == "LineString" {
      assert Text(w) == "LINESTRING(" + PairsText(coords) + ")";
    } else {
      assert Text(w) == "POLYGON((" + PairsText(coords) + "))";
    }
  }


  /** A number's text holds only digits and a leading minus. */
  lemma DecimalNumeric(v: int)
    ensures Numeric(IntToDecimal(v))
  {
    var r := IntToDecimal(v);
    forall i | 0 <= i < |r|
      ensures IsDigit(r[i]) || r[i] == '-'
    {
      if v < 0 && i > 0 {
        assert r[i] == r[1..][i - 1];
      }
    }
  }

  /** The joined vertex list of at most one vertex holds no comma. */
  lemma ShortPairsNumeric(coords: seq<Coord>)
    requires |coords| <= 1
    ensures Numeric(PairsText(coords))
  {
    if |coords| == 1 {
      PairsTextSingle(coords[0]);
      assert coords == [coords[0]];
      var a, b := IntToDecimal(coords[0].0), IntToDecimal(coords[0].1);
      DecimalNumeric(coords[0].0);
      DecimalNumeric(coords[0].1);
      var t := a + " " + b;
      forall i | 0 <= i < |t|
        ensures IsWhite(t[i]) || IsDigit(t[i]) || t[i] == '-' || t[i] == '.'
      {
        if i < |a| {
          assert t[i] == a[i];
        } else if i > |a| {
          assert t[i] == b[i - |a| - 1];
        }
      }
    } else {
      assert PairsText(coords) == Join([], ", ");
    }
  }

  /** The text holds no capital ASCII letter. */
  predicate NoCapitals(s: string) {
    forall i :: 0 <= i < |s| ==> !('A' <= s[i] <= 'Z')
  }

  lemma NoCapitalsAppend(a: string, b: string)
    requires NoCapitals(a) && NoCapitals(b)
    ensures NoCapitals(a + b)
  {
    forall i | 0 <= i < |a + b|
      ensures !('A' <= (a + b)[i] <= 'Z')
    {
      if i >= |a| {
        assert (a + b)[i] == b[i - |a|];
      }
    }
  }

  lemma NumericNoCapitals(s: string)
    requires Numeric(s)
    ensures NoCapitals(s)
  {
  }

  /** The joined vertex list holds digits, minus signs, spaces and commas, and so no keyword letter. */
  lemma {:induction false} PairsTextNoCapitals(coords: seq<Coord>)
    ensures NoCapitals(PairsText(coords))
    decreases |coords|
  {
    hide PairsText;
    hide CoordText;
    hide Numeric;
    if |coords| <= 1 {
      ShortPairsNumeric(coords);
      NumericNoCapitals(PairsText(coords));
    } else {
      var head := CoordText(coords[0]);
      PairsTextStep(coords);
      ShortPairsNumeric([coords[0]]);
      PairsTextSingle(coords[0]);
      NumericNoCapitals(head);
      PairsTextNoCapitals(coords[1..]);
      NoCapitalsAppend(head, ", ");
      NoCapitalsAppend(head + ", ", PairsText(coords[1..]));
    }
  }

  /**
   * A line or a ring drawn with fewer than two vertices gives a text the
   * validator rejects: its patterns need a comma between two pairs.
   */
  lemma ShortTextRejected(coords: seq<Coord>, drawType: string)
    requires drawType == "LineString" || drawType == "Polygon"
    requires |coords| <= 1
    ensures !Validators.ValidWkt(WktFromCoordinates(coords, drawType))
  {
    hide Parse, Count, PairsText;
    var kind := KindOf(drawType);
    var s := WktFromCoordinates(coords, drawType).value;
    assert |s| > 2 && s[0] == Keyword(kind)[0] && s[2] == Keyword(kind)[2] by {
      var open := if kind == PolygonKind then "((" else "(";
      var close := if kind == PolygonKind then "))" else ")";
      assert s == Keyword(kind) + open + PairsText(coords) + close;
    }
    Validators.KeywordLettersRuleOut(PointKind, s);
    if kind == LineKind {
      Validators.KeywordLettersRuleOut(PolygonKind, s);
    } else {
      Validators.KeywordLettersRuleOut(LineKind, s);
    }
    ShortTextNoComma(coords, drawType);
    if Validators.Matches(kind, s) {
      Validators.PairsAndParentheses(kind, s);
    }
  }

  lemma ShortTextNoComma(coords: seq<Coord>, drawType: string)
    requires drawType == "LineString" || drawType == "Polygon"
    requires |coords| <= 1
    ensures Count(WktFromCoordinates(coords, drawType).value, ',') == 0
  {
    hide Count;
    hide PairsText;
    var kind := KindOf(drawType);
    var pairs := PairsText(coords);
    var s := WktFromCoordinates(coords, drawType).value;
    var head := Keyword(kind) + (if kind == PolygonKind then "((" else "(");
    var close := if kind == PolygonKind then "))" else ")";
    assert s == head + pairs + close;
    ShortPairsNumeric(coords);
    forall i | 0 <= i < |s|
      ensures s[i] != ','
    {
      if i < |head| {
        assert s[i] == head[i];
      } else if i < |head| + |pairs| {
        assert s[i] == pairs[i - |head|];
      } else {
        assert s[i] == close[i - |head| - |pairs|];
      }
    }
    CountZero(s, ',');
  }

  // ---------------------------------------------------------------- photo addresses

  /**
   * The gallery button's normaliser for one stored photo address: an address
   * starting with `http` is kept; otherwise a bare name goes under `/photos/`, a
   * path outside `/photos/` is moved under it, and the back end's origin
   * (`BACKEND_ORIGIN`) is put in front.
   */
  function NormalizePhoto(origin: string, url: string): string {
    if StartsWith(url, "http") then url
    else
      var path :=
        if !StartsWith(url, "/") then "/photos/" + url
        else if !StartsWith(url, "/photos/") then "/photos" + url
        else url;
      origin + path
  }

  /** `(photos || []).map(...)`: one normalised address per stored one, in order. */
  function NormalizePhotos(origin: string, photos: Option<seq<string>>): (r: seq<string>)
    ensures |r| == (if photos.None? then 0 else |photos.value|)
    ensures forall i :: 0 <= i < |r| ==> r[i] == NormalizePhoto(origin, photos.value[i])
  {
    var ps := if photos.None? then [] else photos.value;
    seq(|ps|, i requires 0 <= i < |ps| => NormalizePhoto(origin, ps[i]))
  }

  lemma StartsWithAppend(a: string, b: string, p: string)
    requires StartsWith(a, p)
    ensures StartsWith(a + b, p)
  {
    assert (a + b)[..|p|] == a[..|p|];
  }

  /**
   * Addresses starting with `http` are kept; every other address ends up under
   * `origin + "/photos/"`, and one already under `/photos/` only gains the origin.
   */
  lemma NormalizedPhotoShape(origin: string, url: string)
    ensures StartsWith(url, "http") ==> NormalizePhoto(origin, url) == url
    ensures !StartsWith(url, "http") ==> StartsWith(NormalizePhoto(origin, url), origin + "/photos/")
    ensures !StartsWith(url, "http") && StartsWith(url, "/photos/") ==> NormalizePhoto(origin, url) == origin + url
  {
    if !StartsWith(url, "http") {
      var r := NormalizePhoto(origin, url);
      if !StartsWith(url, "/") {
        assert r == origin + "/photos/" + url;
        StartsWithAppend(origin + "/photos/", url, origin + "/photos/");
      } else if !StartsWith(url, "/photos/") {
        assert url == "/" + url[1..] by { assert url[..1] == "/"; }
        assert r == origin + "/photos/" + url[1..];
        StartsWithAppend(origin + "/photos/", url[1..], origin + "/photos/");
      } else {
        assert url == "/photos/" + url[8..] by { assert url[..8] == "/photos/"; }
        assert r == origin + "/photos/" + url[8..];
        StartsWithAppend(origin + "/photos/", url[8..], origin + "/photos/");
      }
    }
  }

  /** With an `http` origin, normalising twice is normalising once. */
  lemma NormalizePhotoIdempotent(origin: string, url: string)
    requires StartsWith(origin, "http")
    ensures NormalizePhoto(origin, NormalizePhoto(origin, url)) == NormalizePhoto(origin, url)
  {
    NormalizedPhotoShape(origin, url);
    if !StartsWith(url, "http") {
      var r := NormalizePhoto(origin, url);
      StartsWithAppend(origin, r[|origin|..], "http");
      assert r == origin + r[|origin|..];
    }
  }

  /** Every address an upload stores (`/photos/<name>`) is shown as the origin followed by it. */
  lemma UploadedPhotosGainOrigin(origin: string, files: seq<FeatureStore.Upload>, newName: nat -> string)
    ensures var urls := FeatureStore.PhotoUrls(files, newName);
      forall i :: 0 <= i < |urls| ==> NormalizePhoto(origin, urls[i]) == origin + urls[i]
  {
    var urls := FeatureStore.PhotoUrls(files, newName);
    forall i | 0 <= i < |urls|
      ensures NormalizePhoto(origin, urls[i]) == origin + urls[i]
    {
      assert urls[i][0] == '/' by { assert urls[i][..8] == "/photos/"; }
      assert !StartsWith(urls[i], "http");
      NormalizedPhotoShape(origin, urls[i]);
    }
  }

  // ---------------------------------------------------------------- error toast

  /** A message equal to the last one shown, less than 1200 ms after it, is dropped. */
  predicate Suppressed(lastMsg: Option<string>, lastAt: int, msg: string, now: int) {
    lastMsg == Some(msg) && now - lastAt < 1200
  }

  /** The two refs behind `showErrorOnce` and the toast state it sets. */
  class ErrorToast {
    var lastMsg: Option<string>
    var lastAt: int
    var toastMessage: string
    var toastVariant: string
    var toastShow: bool

    constructor()
      ensures lastMsg == None && lastAt == 0
      ensures toastMessage == "" && toastVariant == "success" && !toastShow
    {
      lastMsg := None;
      lastAt := 0;
      toastMessage := "";
      toastVariant := "success";
      toastShow := false;
    }

    /** `showErrorOnce(msg)` at time `now` (the value `Date.now()` returns). */
    method ShowErrorOnce(msg: string, now: int) returns (shown: bool)
      modifies this
      ensures shown == !Suppressed(old(lastMsg), old(lastAt), msg, now)
      ensures shown ==> (lastMsg == Some(msg) && lastAt == now
                         && toastMessage == msg && toastVariant == "danger" && toastShow)
      ensures !shown ==> unchanged(this)
    {
      if lastMsg == Some(msg) && now - lastAt < 1200 {
        return false;
      }
      lastMsg := Some(msg);
      lastAt := now;
      toastVariant := "danger";
      toastMessage := msg;
      toastShow := true;
      shown := true;
    }
  }

  /**
   * A repeat inside the window is dropped and does not restart it: the same
   * message 1000 ms later is dropped, 1200 ms after the first showing it is
   * shown again, and a different message is shown at once.
   */
  method RepeatTrace() returns (first: bool, early: bool, late: bool, other: bool)
    ensures first && !early && late && other
  {
    var toast := new ErrorToast();
    first := toast.ShowErrorOnce("Hata", 5000);
    early := toast.ShowErrorOnce("Hata", 6000);
    late := toast.ShowErrorOnce("Hata", 6200);
    other := toast.ShowErrorOnce("Başka", 6201);
  }

  // ---------------------------------------------------------------- features on the map

  /**
   * A feature of the vector layer: the type of its geometry (`None` when it
   * has none), the id of the saved record it shows (`featureData.id`, `None`
   * when it has no record or the id is not a number), and its `name` property.
   */
  datatype MapFeature = MapFeature(geometryType: Option<string>, recordId: Option<int>, name: string)

  /** What the area tally tells features apart by. */
  datatype FeatureKey = IdKey(id: int) | NameKey(name: string)

  /**
   * `featureData?.id || name || `feature_${Math.random()}``: a non-zero record
   * id, else a non-empty name; `None` for the random key, which matches no
   * other key.
   */
  function TallyKey(f: MapFeature): Option<FeatureKey> {
    if f.recordId.Some? && f.recordId.value != 0 then Some(IdKey(f.recordId.value))
    else if f.name != "" then Some(NameKey(f.name))
    else None
  }

  /** The keys of the features counted so far (`seenFeatures`, less the random keys). */
  function Seen(found: seq<MapFeature>): set<FeatureKey> {
    set i | 0 <= i < |found| && TallyKey(found[i]).Some? :: TallyKey(found[i]).value
  }

  /** A feature is taken when it has a geometry and a key not seen before. */
  predicate Taken(f: MapFeature, seen: set<FeatureKey>) {
    f.geometryType.Some? && (TallyKey(f).None? || TallyKey(f).value !in seen)
  }

  /** The features the `boxend` handler collects, for the features it visits in this order. */
  function Found(visited: seq<MapFeature>): seq<MapFeature> {
    if visited == [] then []
    else
      var prev := Found(visited[..|visited| - 1]);
      var f := visited[|visited| - 1];
      if Taken(f, Seen(prev)) then prev + [f] else prev
  }

  function CountOf(found: seq<MapFeature>, geometryType: string): nat {
    |Filter(found, (f: MapFeature) => f.geometryType == Some(geometryType))|
  }

  datatype AreaStats = AreaStats(points: nat, lines: nat, polys: nat, total: nat)

  /** Before the first feature is visited nothing is found, seen or counted. */
  lemma TallyStart(visited: seq<MapFeature>)
    ensures Found(visited[..0]) == [] && Seen([]) == {}
    ensures CountOf([], "Point") == 0 && CountOf([], "LineString") == 0 && CountOf([], "Polygon") == 0
  {
  }

  /**
   * The `boxend` handler over the features the box intersects, in the order the
   * layer visits them: it collects each feature with a geometry once per key and
   * counts points, lines and polygons among them.
   */
  method AreaTally(visited: seq<MapFeature>) returns (stats: AreaStats, found: seq<MapFeature>)
    ensures found == Found(visited)
    ensures stats.points == CountOf(found, "Point") && stats.lines == CountOf(found, "LineString")
      && stats.polys == CountOf(found, "Polygon")
    ensures stats.total == stats.points + stats.lines + stats.polys
  {
    hide Found;
    hide Seen;
    hide CountOf;
    var points, lines, polys := 0, 0, 0;
    found := [];
    var seen: set<FeatureKey> := {};
    TallyStart(visited);
    for i := 0 to |visited|
      invariant found == Found(visited[..i])
      invariant seen == Seen(found)
      invariant points == CountOf(found, "Point") && lines == CountOf(found, "LineString")
        && polys == CountOf(found, "Polygon")
    {
      var f := visited[i];
      FoundStep(visited, i);
      var key := TallyKey(f);
      if f.geometryType.Some? && (key.None? || key.value !in seen) {
        // a random key is added to the set too, but no later key can equal it
        SeenAppend(found, f);
        if key.Some? {
          seen := seen + {key.value};
        }
        CountAppend(found, f, "Point");
        CountAppend(found, f, "LineString");
        CountAppend(found, f, "Polygon");
        found := found + [f];
        var t := f.geometryType.value;
        if t == "Point" {
          points := points + 1;
        } else if t == "LineString" {
          lines := lines + 1;
        } else if t == "Polygon" {
          polys := polys + 1;
        }
      }
    }
    assert visited[..|visited|] == visited;
    stats := AreaStats(points, lines, polys, points + lines + polys);
  }

  /** One more visited feature is appended to what was found exactly when it is taken. */
  lemma FoundStep(visited: seq<MapFeature>, i: nat)
    requires i < |visited|
    ensures var prev := Found(visited[..i]);
      Found(visited[..i + 1]) == if Taken(visited[i], Seen(prev)) then prev + [visited[i]] else prev
  {
    assert visited[..i + 1][..i] == visited[..i];
  }

  lemma SeenAppend(found: seq<MapFeature>, f: MapFeature)
    ensures Seen(found + [f]) == Seen(found) + (if TallyKey(f).Some? then {TallyKey(f).value} else {})
  {
    var s := found + [f];
    forall k | k in Seen(s)
      ensures k in Seen(found) + (if TallyKey(f).Some? then {TallyKey(f).value} else {})
    {
      var i :| 0 <= i < |s| && TallyKey(s[i]).Some? && TallyKey(s[i]).value == k;
      if i < |found| {
        assert s[i] == found[i];
      }
    }
    forall k | k in Seen(found)
      ensures k in Seen(s)
    {
      var i :| 0 <= i < |found| && TallyKey(found[i]).Some? && TallyKey(found[i]).value == k;
      assert s[i] == found[i];
    }
    if TallyKey(f).Some? {
      assert s[|found|] == f;
    }
  }

  lemma CountAppend(found: seq<MapFeature>, f: MapFeature, t: string)
    ensures CountOf(found + [f], t) == CountOf(found, t) + (if f.geometryType == Some(t) then 1 else 0)
  {
    var p := (g: MapFeature) => g.geometryType == Some(t);
    FilterAppend(found, [f], p);
    assert Filter([f], p) == (if p(f) then [f] else []) + Filter([], p);
  }

  /** The three counts never exceed the features collected, so `found.length >= total`. */
  lemma {:induction false} TallyBound(found: seq<MapFeature>)
    ensures CountOf(found, "Point") + CountOf(found, "LineString") + CountOf(found, "Polygon") <= |found|
    decreases |found|
  {
    if found != [] {
      var n := |found| - 1;
      TallyBound(found[..n]);
      assert found == found[..n] + [found[n]];
      CountAppend(found[..n], found[n], "Point");
      CountAppend(found[..n], found[n], "LineString");
      CountAppend(found[..n], found[n], "Polygon");
    }
  }

  /** Only visited features with a geometry are collected. */
  lemma {:induction false} FoundFromVisited(visited: seq<MapFeature>)
    ensures var found := Found(visited);
      forall j :: 0 <= j < |found| ==> found[j] in visited && found[j].geometryType.Some?
    decreases |visited|
  {
    if visited != [] {
      var n := |visited| - 1;
      var prev := Found(visited[..n]);
      FoundFromVisited(visited[..n]);
      FoundStep(visited, n);
      assert visited[..n + 1] == visited;
      var found := Found(visited);
      forall j | 0 <= j < |found|
        ensures found[j] in visited && found[j].geometryType.Some?
      {
        if j < |prev| {
          assert found[j] == prev[j] && prev[j] in visited[..n];
        }
      }
    }
  }

  /** No two collected features share a key. */
  lemma {:induction false} FoundKeysDistinct(visited: seq<MapFeature>)
    ensures var found := Found(visited);
      forall i, j :: 0 <= i < j < |found| && TallyKey(found[i]).Some? ==> TallyKey(found[i]) != TallyKey(found[j])
    decreases |visited|
  {
    if visited != [] {
      var n := |visited| - 1;
      var prev := Found(visited[..n]);
      FoundKeysDistinct(visited[..n]);
      FoundStep(visited, n);
      assert visited[..n + 1] == visited;
      var found := Found(visited);
      forall i, j | 0 <= i < j < |found| && TallyKey(found[i]).Some?
        ensures TallyKey(found[i]) != TallyKey(found[j])
      {
        if j == |prev| {
          assert found[i] == prev[i];
          assert TallyKey(prev[i]).value in Seen(prev);
        } else {
          assert found[i] == prev[i] && found[j] == prev[j];
        }
      }
    }
  }

  /** Every visited feature with a geometry is collected, or shares its key with one that is. */
  lemma {:induction false} FoundCoversVisited(visited: seq<MapFeature>)
    ensures var found := Found(visited);
      forall i :: 0 <= i < |visited| && visited[i].geometryType.Some? ==>
        if TallyKey(visited[i]).Some? then TallyKey(visited[i]).value in Seen(found) else visited[i] in found
    decreases |visited|
  {
    if visited != [] {
      var n := |visited| - 1;
      var prev := Found(visited[..n]);
      var f := visited[n];
      FoundCoversVisited(visited[..n]);
      FoundStep(visited, n);
      assert visited[..n + 1] == visited;
      var found := Found(visited);
      SeenAppend(prev, f);
      assert Seen(prev) <= Seen(found);
      forall i | 0 <= i < |visited| && visited[i].geometryType.Some?
        ensures if TallyKey(visited[i]).Some? then TallyKey(visited[i]).value in Seen(found) else visited[i] in found
      {
        if i < n {
          assert visited[i] == visited[..n][i];
        }
      }
    }
  }

  /**
   * The tally collects only visited features with a geometry, never two with
   * the same key, and every visited feature with a geometry is either collected
   * or shares its key with one that is.
   */
  lemma FoundOncePerKey(visited: seq<MapFeature>)
    ensures var found := Found(visited);
      (forall j :: 0 <= j < |found| ==> found[j] in visited && found[j].geometryType.Some?)
      && (forall i, j :: 0 <= i < j < |found| && TallyKey(found[i]).Some? ==> TallyKey(found[i]) != TallyKey(found[j]))
      && (forall i :: 0 <= i < |visited| && visited[i].geometryType.Some? ==>
            if TallyKey(visited[i]).Some? then TallyKey(visited[i]).value in Seen(found) else visited[i] in found)
  {
    FoundFromVisited(visited);
    FoundKeysDistinct(visited);
    FoundCoversVisited(visited);
  }

  // ---------------------------------------------------------------- unsaved features

  /** `fd && typeof fd.id === 'number'`: the feature shows a saved record. */
  predicate HasRecord(f: MapFeature) {
    f.recordId.Some?
  }

  /** The test `f !== gone` of a removal, by value. */
  function Other(gone: MapFeature): MapFeature -> bool {
    (g: MapFeature) => g != gone
  }

  /** The features still on the map once every feature in `gone` has been removed. */
  function Survives(gone: seq<MapFeature>): MapFeature -> bool {
    (g: MapFeature) => HasRecord(g) || g !in gone
  }

  /** Removing one more unsaved feature keeps exactly the features that survive the longer list. */
  lemma RemoveOneMore(s: seq<MapFeature>, gone: seq<MapFeature>, f: MapFeature)
    requires !HasRecord(f)
    ensures Filter(Filter(s, Survives(gone)), Other(f)) == Filter(s, Survives(gone + [f]))
  {
    FilterThenFilter(s, Survives(gone), Other(f), Survives(gone + [f]));
  }

  /** Before anything is removed every feature survives. */
  lemma NothingGone(s: seq<MapFeature>)
    ensures Filter(s, Survives([])) == s
  {
    FilterKeepsAll(s, Survives([]));
  }

  /** Once every unsaved feature of `s` is gone, the survivors are the saved ones. */
  lemma UnsavedAllGone(s: seq<MapFeature>, gone: seq<MapFeature>)
    requires forall i :: 0 <= i < |s| ==> (s[i] in gone <==> !HasRecord(s[i]))
    ensures Filter(s, Survives(gone)) == Filter(s, HasRecord)
  {
    FilterCongruent(s, Survives(gone), HasRecord);
  }

  /** The vector source of the map's feature layer. */
  class VectorSource {
    var features: seq<MapFeature>

    constructor(features: seq<MapFeature>)
      ensures this.features == features
    {
      this.features := features;
    }

    /** `src.removeFeature(f)`; features are compared by value. */
    method RemoveFeature(f: MapFeature)
      modifies this
      ensures features == Filter(old(features), Other(f))
    {
      features := Filter(features, Other(f));
    }

    /**
     * `removeEphemeralFeatures`: every feature without a saved record (a
     * drawing not yet stored) is taken off the map, and the others stay, in order.
     */
    method RemoveEphemeralFeatures()
      modifies this
      ensures features == Filter(old(features), HasRecord)
    {
      hide Filter;
      hide Survives;
      var doomed := Filter(features, (f: MapFeature) => !HasRecord(f));
      assert doomed[..0] == [];
      NothingGone(features);
      for i := 0 to |doomed|
        invariant features == Filter(old(features), Survives(doomed[..i]))
      {
        assert doomed[..i + 1] == doomed[..i] + [doomed[i]];
        RemoveOneMore(old(features), doomed[..i], doomed[i]);
        RemoveFeature(doomed[i]);
      }
      assert doomed[..|doomed|] == doomed;
      UnsavedAllGone(old(features), doomed);
    }
  }

  /** Removing the unsaved features twice removes nothing more. */
  lemma RemoveEphemeralIdempotent(features: seq<MapFeature>)
    ensures Filter(Filter(features, HasRecord), HasRecord) == Filter(features, HasRecord)
  {
    FilterKeepsAll(Filter(features, HasRecord), HasRecord);
  }

  // ---------------------------------------------------------------- a failed create

  const FailureFallback := "İşlem başarısız oldu"
  const BlockedPhrase := "B tipindeki çizgi ile kesiştiği için"
  const BlockedRetry := "B tipindeki çizgi ile kesişti. Lütfen farklı bir konuma ekleyin."

  /**
   * The message `handleCreateFeature` shows when a create fails: the server's
   * message, or a fixed one when it is missing or blank; a refusal because of a
   * `B` line is replaced by the retry text.
   */
  function CreateFailureMessage(apiMsg: Option<string>): string {
    var msg := if apiMsg.Some? && |Trim(apiMsg.value)| > 0 then apiMsg.value else FailureFallback;
    if Contains(msg, BlockedPhrase) then BlockedRetry else msg
  }

  lemma PhraseAbsentFromShort(s: string)
    requires |s| < |BlockedPhrase|
    ensures !Contains(s, BlockedPhrase)
  {
  }

  /**
   * A missing or blank message shows the fallback; a message naming the `B`
   * conflict shows the retry text; any other message is shown as it is.
   */
  lemma CreateFailureMessageCases(apiMsg: Option<string>)
    ensures var r := CreateFailureMessage(apiMsg);
      (apiMsg.None? || AllWhite(apiMsg.value) ==> r == FailureFallback)
      && (apiMsg.Some? && !AllWhite(apiMsg.value) ==>
            r == (if Contains(apiMsg.value, BlockedPhrase) then BlockedRetry else apiMsg.value))
  {
    PhraseAbsentFromShort(FailureFallback);
    if apiMsg.Some? {
      TrimEmptyIffBlank(apiMsg.value);
    }
  }

  /** Any message that opens with the `B` conflict phrase shows the retry text. */
  lemma PhraseFirstShowsRetry(rest: string)
    ensures CreateFailureMessage(Some(BlockedPhrase + rest)) == BlockedRetry
  {
    var m := BlockedPhrase + rest;
    assert m[0] == BlockedPhrase[0] == 'B';
    CreateFailureMessageCases(Some(m));
    assert BlockedPhrase[..|BlockedPhrase|] == BlockedPhrase;
    StartsWithAppend(BlockedPhrase, rest, BlockedPhrase);
    assert m[0..] == m;
  }

  /** A create refused because of a `B` line shows the retry text. */
  lemma BlockedCreateShowsRetry()
    ensures CreateFailureMessage(Some(FeatureStore.BlockedCreate)) == BlockedRetry
  {
    assert FeatureStore.BlockedCreate == BlockedPhrase + " eklenemez";
    PhraseFirstShowsRetry(" eklenemez");
  }

  /**
   * The other refusals of a create: `Invalid WKT` is shown as the server sent
   * it, and a reply without a message, such as the framework's own answer to
   * an invalid request body, shows the fixed fallback.
   */
  lemma OtherRefusalsShown()
    ensures CreateFailureMessage(Some(FeatureStore.InvalidWkt)) == FeatureStore.InvalidWkt
    ensures CreateFailureMessage(None) == FailureFallback
  {
    CreateFailureMessageCases(Some(FeatureStore.InvalidWkt));
    assert !IsWhite(FeatureStore.InvalidWkt[0]);
    PhraseAbsentFromShort(FeatureStore.InvalidWkt);
    CreateFailureMessageCases(None);
  }
}
