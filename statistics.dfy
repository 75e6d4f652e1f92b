/**
 * The statistics page (`Statistics.tsx`): from one `getAll(1, 1000)` reply,
 * the number of features, how many mention each keyword, and the five with
 * the largest ids. Its type label is the same function as the list page's
 * (`FeatureListView.TypeText`); its type icon takes the same branches.
 */
module StatisticsView {
  import opened Wrappers
  import opened Strings
  import opened Sequences
  import opened FeatureListView
  import FeatureStore

  datatype StatsData = StatsData(totalFeatures: nat, points: nat, lines: nat, polygons: nat, recent: seq<Listed>)

  const StatsFailed := "İstatistikler yüklenirken hata oluştu"

  // ---------------------------------------------------------------- counts

  /** `f => f.wkt.includes(keyword)`. */
  function Mentions(keyword: string): Listed -> bool {
    (f: Listed) => Contains(f.wkt, keyword)
  }

  /** `features.filter(f => f.wkt.includes(keyword)).length`. */
  function KeywordCount(features: seq<Listed>, keyword: string): (n: nat)
    ensures n <= |features|
  {
    |Filter(features, Mentions(keyword))|
  }

  /** Counting splits over a concatenation: the count of a list is the sum over its parts. */
  lemma KeywordCountAppend(a: seq<Listed>, b: seq<Listed>, keyword: string)
    ensures KeywordCount(a + b, keyword) == KeywordCount(a, keyword) + KeywordCount(b, keyword)
  {
    FilterAppend(a, b, Mentions(keyword));
  }

  lemma PresentBetween(a: string, sub: string, b: string)
    ensures Contains(a + sub + b, sub)
  {
    PresentAt(a + sub + b, sub, |a|);
  }

  /**
   * The per-type counts are not a partition: a text that mentions two
   * keywords, such as `GEOMETRYCOLLECTION(POINT(1 2),LINESTRING(0 0,1 1))`,
   * is counted under both, so the sum can exceed the number of features.
   */
  lemma CountsOverlap(a: string, b: string, c: string)
    ensures var items := [Listed(Some(1), Some("x"), a + "POINT" + b + "LINESTRING" + c)];
      KeywordCount(items, "POINT") + KeywordCount(items, "LINESTRING") > |items|
  {
    var wkt := a + "POINT" + b + "LINESTRING" + c;
    var f := Listed(Some(1), Some("x"), wkt);
    assert wkt == a + "POINT" + (b + "LINESTRING" + c);
    PresentBetween(a, "POINT", b + "LINESTRING" + c);
    assert wkt == (a + "POINT" + b) + "LINESTRING" + c;
    PresentBetween(a + "POINT" + b, "LINESTRING", c);
    assert Filter([f], Mentions("POINT")) == [f] + Filter([], Mentions("POINT"));
    assert Filter([f], Mentions("LINESTRING")) == [f] + Filter([], Mentions("LINESTRING"));
  }

  // ---------------------------------------------------------------- newest five

  /** `b.id || 0`: a missing id counts as 0. */
  function IdOrZero(f: Listed): int {
    if f.id.Some? then f.id.value else 0
  }

  /** The comparator `(b.id || 0) - (a.id || 0)` as "may stay before": the larger id first. */
  function NewestFirst(): (Listed, Listed) -> bool {
    (a: Listed, b: Listed) => IdOrZero(b) <= IdOrZero(a)
  }

  /** `n` capped at five, the length `slice(0, 5)` keeps. */
  function AtMostFive(n: nat): nat {
    if n < 5 then n else 5
  }

  /**
   * `recent` is a choice of newest features of `items`: as many as
   * `slice(0, 5)` keeps, in order of non-increasing id, and no feature left
   * out has a larger id than one kept.
   */
  ghost predicate NewestOf(recent: seq<Listed>, items: seq<Listed>) {
    |recent| == AtMostFive(|items|) && Sorted(recent, NewestFirst())
    && exists rest: seq<Listed> ::
         multiset(recent) + multiset(rest) == multiset(items)
         && forall i, j :: 0 <= i < |recent| && 0 <= j < |rest| ==> IdOrZero(rest[j]) <= IdOrZero(recent[i])
  }

  /** The first five of any newest-first order of `items` are a choice of its newest features. */
  lemma FirstFiveAreNewest(sorted: seq<Listed>, items: seq<Listed>)
    requires Sorted(sorted, NewestFirst()) && multiset(sorted) == multiset(items)
    ensures NewestOf(sorted[..AtMostFive(|sorted|)], items)
  {
    var k := AtMostFive(|sorted|);
    var recent, rest := sorted[..k], sorted[k..];
    assert sorted == recent + rest;
    assert |sorted| == |multiset(sorted)| == |multiset(items)| == |items|;
    forall i, j | 0 <= i < j < |recent|
      ensures NewestFirst()(recent[i], recent[j])
    {
      assert NewestFirst()(sorted[i], sorted[j]);
    }
    forall i, j | 0 <= i < |recent| && 0 <= j < |rest|
      ensures IdOrZero(rest[j]) <= IdOrZero(recent[i])
    {
      assert NewestFirst()(sorted[i], sorted[k + j]);
    }
    assert multiset(recent) + multiset(rest) == multiset(items);
  }

  lemma NewestFirstIsTotalPreorder()
    ensures TotalPreorder(NewestFirst())
  {
  }

  /** `features.sort((a, b) => (b.id || 0) - (a.id || 0)).slice(0, 5)`: sorts the reply's array in place, then keeps its first five. */
  method RecentFeatures(features: array<Listed>) returns (recent: seq<Listed>)
    modifies features
    ensures NewestOf(recent, old(features[..]))
    ensures Sorted(features[..], NewestFirst()) && multiset(features[..]) == multiset(old(features[..]))
    ensures recent == features[..AtMostFive(features.Length)]
  {
    NewestFirstIsTotalPreorder();
    SortInPlace(features, NewestFirst());
    recent := features[..AtMostFive(features.Length)];
    FirstFiveAreNewest(features[..], old(features[..]));
  }

  // ---------------------------------------------------------------- icons

  /** The four branches `getFeatureTypeText` and `getFeatureTypeIcon` share. */
  datatype Branch = PointBranch | LineBranch | PolygonBranch | OtherBranch

  function TypeBranch(wkt: string): Branch {
    if Contains(wkt, "POINT") then PointBranch
    else if Contains(wkt, "LINESTRING") then LineBranch
    else if Contains(wkt, "POLYGON") then PolygonBranch
    else OtherBranch
  }

  /** `getFeatureTypeIcon`. */
  function TypeIcon(wkt: string): string {
    if Contains(wkt, "POINT") then "\U{1F4CD}"
    else if Contains(wkt, "LINESTRING") then "\U{2796}"
    else if Contains(wkt, "POLYGON") then "\U{2B1C}"
    else "\U{2753}"
  }

  function LabelOf(b: Branch): string {
    match b
    case PointBranch => "Nokta"
    case LineBranch => "Çizgi"
    case PolygonBranch => "Polygon"
    case OtherBranch => "Bilinmeyen"
  }

  function IconOf(b: Branch): string {
    match b
    case PointBranch => "\U{1F4CD}"
    case LineBranch => "\U{2796}"
    case PolygonBranch => "\U{2B1C}"
    case OtherBranch => "\U{2753}"
  }

  /** For every text, the label and the icon come from the same branch, so a label always appears with its own icon. */
  lemma LabelAndIconAgree(wkt: string)
    ensures TypeText(wkt) == LabelOf(TypeBranch(wkt))
    ensures TypeIcon(wkt) == IconOf(TypeBranch(wkt))
  {
  }

  // ---------------------------------------------------------------- the page

  /**
   * The request `getAll(1, 1000)` is answered with a page size of 50, so the
   * statistics cover the first 50 matching rows at most; with more rows
   * stored, they cover exactly 50.
   */
  lemma StatisticsSeeFifty<S>(geo: FeatureStore.Geo<S>, st: FeatureStore.Store<S>, scan: seq<int>)
    requires FeatureStore.Enumerates(scan, st.rows)
    ensures var r := FeatureStore.GetAll(geo, st, 1, 1000, None, scan).body.data.value;
      r.pageSize == 50 && |r.items| <= 50 && |r.items| == (if r.total < 50 then r.total else 50)
  {
    FeatureStore.GetAllClamps(geo, st, 1, 1000, None, scan);
    FeatureStore.GetAllPage(geo, st, 1, 1000, None, scan);
  }

  class StatisticsPage {
    var stats: Option<StatsData>
    var loading: bool
    var error: Option<string>

    constructor()
      ensures stats == None && !loading && error == None
    {
      stats := None;
      loading := false;
      error := None;
    }

    /**
     * `loadStatistics` once the reply is in (`None` where the request threw):
     * counts over the fetched items, then the newest five after the in-place sort.
     */
    method LoadStatistics(reply: Option<ListReply>)
      modifies this
      ensures !loading
      ensures if reply.Some? && reply.value.success && reply.value.data.Some? then
          var d := reply.value.data.value;
          var items := if d.items.Some? then d.items.value else [];
          stats.Some? && error == None
          && stats.value.totalFeatures == |items|
          && stats.value.points == KeywordCount(items, "POINT")
          && stats.value.lines == KeywordCount(items, "LINESTRING")
          && stats.value.polygons == KeywordCount(items, "POLYGON")
          && NewestOf(stats.value.recent, items)
        else
          stats == old(stats) && error == Some(StatsFailed)
    {
      loading := true;
      error := None;
      if reply.Some? && reply.value.success && reply.value.data.Some? {
        var d := reply.value.data.value;
        var items := if d.items.Some? then d.items.value else [];
        var points := KeywordCount(items, "POINT");
        var lines := KeywordCount(items, "LINESTRING");
        var polygons := KeywordCount(items, "POLYGON");
        var features := new Listed[|items|](i requires 0 <= i < |items| => items[i]);
        assert features[..] == items;
        var recent := RecentFeatures(features);
        stats := Some(StatsData(|items|, points, lines, polygons, recent));
      } else {
        error := Some(StatsFailed);
      }
      loading := false;
    }
  }
}
