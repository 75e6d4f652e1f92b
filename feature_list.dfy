/**
 * The feature list page (`FeatureList.tsx`): the type label read off a WKT
 * text, the order the table is shown in, and the list and paging state that
 * the buttons change. A request to the server is returned as a value and its
 * answer is passed back in; `localeCompare(…, 'tr')` is modelled as code-unit
 * order.
 */
module FeatureListView {
  import opened Wrappers
  import opened Strings
  import opened Sequences
  import WktGrammar
  import Validators
  import MapView

  /** `FeatureReadDto` as the page reads it; `id` and `name` may be missing from the reply. */
  datatype Listed = Listed(id: Option<int>, name: Option<string>, wkt: string)

  // ---------------------------------------------------------------- type label

  /** `getFeatureTypeText`: the label of the first keyword found, tried in the order `POINT`, `LINESTRING`, `POLYGON`. */
  function TypeText(wkt: string): string {
    if Contains(wkt, "POINT") then "Nokta"
    else if Contains(wkt, "LINESTRING") then "Çizgi"
    else if Contains(wkt, "POLYGON") then "Polygon"
    else "Bilinmeyen"
  }

  /**
   * Each label names exactly one outcome of the keyword search: a text is
   * `Nokta` as soon as it mentions `POINT`, whatever else it mentions, and
   * `Bilinmeyen` only when it mentions none of the three.
   */
  lemma TypeTextCases(wkt: string)
    ensures var r := TypeText(wkt);
      (r == "Nokta" <==> Contains(wkt, "POINT"))
      && (r == "Çizgi" <==> !Contains(wkt, "POINT") && Contains(wkt, "LINESTRING"))
      && (r == "Polygon" <==> !Contains(wkt, "POINT") && !Contains(wkt, "LINESTRING") && Contains(wkt, "POLYGON"))
      && (r == "Bilinmeyen" <==> !Contains(wkt, "POINT") && !Contains(wkt, "LINESTRING") && !Contains(wkt, "POLYGON"))
  {
    assert "Nokta"[0] != "Çizgi"[0] && "Nokta"[0] != "Polygon"[0] && "Nokta"[0] != "Bilinmeyen"[0];
    assert "Çizgi"[0] != "Polygon"[0] && "Çizgi"[0] != "Bilinmeyen"[0] && "Polygon"[0] != "Bilinmeyen"[0];
  }

  /** A text in which the first character of `sub` never occurs does not contain `sub`. */
  lemma AbsentFirst(s: string, sub: string)
    requires sub != [] && forall i :: 0 <= i < |s| ==> s[i] != sub[0]
    ensures !Contains(s, sub)
  {
    forall i | 0 <= i <= |s| - |sub|
      ensures !StartsWith(s[i..], sub)
    {
      assert s[i..][0] == s[i];
    }
  }

  /** `sub` occurs in `s` at position `i`. */
  lemma PresentAt(s: string, sub: string, i: nat)
    requires i + |sub| <= |s| && s[i..i + |sub|] == sub
    ensures Contains(s, sub)
  {
    assert s[i..][..|sub|] == s[i..i + |sub|];
  }

  /** A compound type is labelled by the simple keyword inside its name: `MULTIPOINT` is `Nokta`. */
  lemma CompoundTypeLabelled()
    ensures TypeText("MULTIPOINT(1 2)") == "Nokta"
  {
    PresentAt("MULTIPOINT(1 2)", "POINT", 5);
  }

  /** `point(1 2)` passes `Validators.ValidWkt`: the patterns ignore letter case. */
  lemma LowerCaseValid()
    ensures Validators.ValidWkt(Some("point(1 2)"))
  {
    var one := WktGrammar.Num(false, "1", None);
    var two := WktGrammar.Num(false, "2", None);
    var w := WktGrammar.Wkt(WktGrammar.PointKind, "", "point", "", "", "", WktGrammar.Ring(WktGrammar.Pair(one, " ", two), [], ""), "", "");
    assert WktGrammar.SpellsIgnoringCase("point", "POINT");
    assert WktGrammar.Text(w) == "point(1 2)";
    Validators.WellFormedTextValid(w);
  }

  /** The keyword search is case-sensitive: the same `point(1 2)` is labelled `Bilinmeyen`. */
  lemma LowerCaseUnlabelled()
    ensures TypeText("point(1 2)") == "Bilinmeyen"
  {
    AbsentFirst("point(1 2)", "POINT");
    AbsentFirst("point(1 2)", "LINESTRING");
    AbsentFirst("point(1 2)", "POLYGON");
  }

  /**
   * A text that ends in capital-free `body` contains a capitalised keyword only
   * where `head` already does: the keyword's last letter cannot fall in `body`.
   */
  lemma AbsentFromHead(head: string, body: string, sub: string)
    requires sub != [] && 'A' <= sub[|sub| - 1] <= 'Z' && MapView.NoCapitals(body)
    requires !Contains(head, sub)
    ensures !Contains(head + body, sub)
  {
    var s := head + body;
    forall i | 0 <= i <= |s| - |sub|
      ensures !StartsWith(s[i..], sub)
    {
      var last := i + |sub| - 1;
      if last >= |head| {
        assert s[i..][|sub| - 1] == body[last - |head|];
      } else {
        assert s[i..][..|sub|] == head[i..][..|sub|];
      }
    }
  }

  /** A text that does not start with `sub`, and whose rest does not contain it, does not contain it. */
  lemma AbsentPastHead(s: string, sub: string)
    requires s != [] && !StartsWith(s, sub) && !Contains(s[1..], sub)
    ensures !Contains(s, sub)
  {
    forall i | 1 <= i <= |s| - |sub|
      ensures !StartsWith(s[i..], sub)
    {
      assert s[i..] == s[1..][i - 1..];
    }
  }

  /** The head `POLYGON((` mentions no `POINT`: its only `P` is followed by `OL`. */
  lemma PolygonHeadNoPoint()
    ensures !Contains("POLYGON((", "POINT")
  {
    var head := "POLYGON((";
    assert head[..5][2] == 'L';
    AbsentFirst(head[1..], "POINT");
    AbsentPastHead(head, "POINT");
  }

  lemma PolygonHeadNoLine()
    ensures !Contains("POLYGON((", "LINESTRING")
  {
  }

  /** The vertex list and closing parentheses of a generated text hold no capital letter. */
  lemma GeneratedBodyPlain(coords: seq<MapView.Coord>, close: string)
    requires close == ")" || close == "))"
    ensures MapView.NoCapitals(MapView.PairsText(coords) + close)
  {
    MapView.PairsTextNoCapitals(coords);
    MapView.NoCapitalsAppend(MapView.PairsText(coords), close);
  }

  /** A generated point text is labelled `Nokta`: it opens with `POINT(`. */
  lemma PointTextLabel(coords: seq<MapView.Coord>)
    requires |coords| >= 1
    ensures TypeText(MapView.WktFromCoordinates(coords, "Point").value) == "Nokta"
  {
    hide MapView.CoordText;
    hide Contains;
    var s := "POINT(" + MapView.CoordText(coords[0]) + ")";
    assert MapView.WktFromCoordinates(coords, "Point").value == s;
    PresentAt(s, "POINT", 0);
  }

  /** A generated line text is labelled `Çizgi`: it opens with `LINESTRING(` and mentions no `POINT`. */
  lemma LineTextLabel(coords: seq<MapView.Coord>)
    ensures TypeText(MapView.WktFromCoordinates(coords, "LineString").value) == "Çizgi"
  {
    hide MapView.PairsText;
    hide Contains;
    var body := MapView.PairsText(coords) + ")";
    var s := "LINESTRING(" + body;
    assert MapView.WktFromCoordinates(coords, "LineString").value == s;
    GeneratedBodyPlain(coords, ")");
    PresentAt(s, "LINESTRING", 0);
    AbsentFirst("LINESTRING(", "POINT");
    AbsentFromHead("LINESTRING(", body, "POINT");
  }

  /** A generated polygon text is labelled `Polygon`: it opens with `POLYGON((` and mentions neither `POINT` nor `LINESTRING`. */
  lemma PolygonTextLabel(coords: seq<MapView.Coord>)
    ensures TypeText(MapView.WktFromCoordinates(coords, "Polygon").value) == "Polygon"
  {
    hide MapView.PairsText;
    hide Contains;
    var body := MapView.PairsText(coords) + "))";
    var s := "POLYGON((" + body;
    assert MapView.WktFromCoordinates(coords, "Polygon").value == s;
    GeneratedBodyPlain(coords, "))");
    PresentAt(s, "POLYGON", 0);
    PolygonHeadNoPoint();
    AbsentFromHead("POLYGON((", body, "POINT");
    PolygonHeadNoLine();
    AbsentFromHead("POLYGON((", body, "LINESTRING");
  }

  /**
   * What the map sends for a drawn shape is labelled after its draw type: a
   * point `Nokta`, a line `Çizgi`, a polygon `Polygon`.
   */
  lemma GeneratedTextLabel(coords: seq<MapView.Coord>, drawType: string)
    requires drawType == "Point" || drawType == "LineString" || drawType == "Polygon"
    requires drawType == "Point" ==> |coords| >= 1
    ensures TypeText(MapView.WktFromCoordinates(coords, drawType).value)
      == if drawType == "Point" then "Nokta" else if drawType == "LineString" then "Çizgi" else "Polygon"
  {
    if drawType == "Point" {
      PointTextLabel(coords);
    } else if drawType == "LineString" {
      LineTextLabel(coords);
    } else {
      PolygonTextLabel(coords);
    }
  }

  // ---------------------------------------------------------------- sort order

  datatype SortKey = ByName | ByType
  datatype SortDir = Asc | Desc

  /** The text a row is compared by: its name in lower case (a missing name as `''`), or its type label. */
  function SortValue(key: SortKey, f: Listed): string {
    match key
    case ByName => ToLower(if f.name.Some? then f.name.value else "")
    case ByType => TypeText(f.wkt)
  }

  /** Code-unit lexicographic order: `a` sorts at or before `b`. */
  predicate LexLe(a: string, b: string) {
    a == [] || (b != [] && (a[0] < b[0] || (a[0] == b[0] && LexLe(a[1..], b[1..]))))
  }

  lemma {:induction false} LexLeTotal(a: string, b: string)
    ensures LexLe(a, b) || LexLe(b, a)
  {
    if a != [] && b != [] && a[0] == b[0] {
      LexLeTotal(a[1..], b[1..]);
    }
  }

  lemma {:induction false} LexLeTransitive(a: string, b: string, c: string)
    requires LexLe(a, b) && LexLe(b, c)
    ensures LexLe(a, c)
  {
    if a != [] && b != [] && c != [] && a[0] == b[0] == c[0] {
      LexLeTransitive(a[1..], b[1..], c[1..]);
    }
  }

  /** Two texts that sort at or before each other are the same text. */
  lemma {:induction false} LexLeAntisymmetric(a: string, b: string)
    requires LexLe(a, b) && LexLe(b, a)
    ensures a == b
  {
    if a != [] && b != [] {
      LexLeAntisymmetric(a[1..], b[1..]);
      assert a == [a[0]] + a[1..] && b == [b[0]] + b[1..];
    }
  }

  /**
   * The comparator of `sortedFeatures` as "may stay before": ascending, the
   * values in order; descending, the comparison negated, so the values in
   * reverse order.
   */
  function Order(key: SortKey, dir: SortDir): (Listed, Listed) -> bool {
    (a: Listed, b: Listed) =>
      if dir == Asc then LexLe(SortValue(key, a), SortValue(key, b))
      else LexLe(SortValue(key, b), SortValue(key, a))
  }

  /** Every key and direction gives a consistent comparator, so the sort is well defined. */
  lemma OrderIsTotalPreorder(key: SortKey, dir: SortDir)
    ensures TotalPreorder(Order(key, dir))
  {
    var le := Order(key, dir);
    forall x: Listed, y: Listed
      ensures le(x, y) || le(y, x)
    {
      LexLeTotal(SortValue(key, x), SortValue(key, y));
    }
    forall x: Listed, y: Listed, z: Listed | le(x, y) && le(y, z)
      ensures le(x, z)
    {
      if dir == Asc {
        LexLeTransitive(SortValue(key, x), SortValue(key, y), SortValue(key, z));
      } else {
        LexLeTransitive(SortValue(key, z), SortValue(key, y), SortValue(key, x));
      }
    }
  }

  function Reversed<T>(s: seq<T>): (r: seq<T>)
    ensures |r| == |s| && forall i :: 0 <= i < |s| ==> r[i] == s[|s| - 1 - i]
  {
    seq(|s|, i requires 0 <= i < |s| => s[|s| - 1 - i])
  }

  /** A list in descending order is, read backwards, a list in ascending order, and the other way round. */
  lemma DescIsReversedAsc(key: SortKey, s: seq<Listed>)
    ensures Sorted(s, Order(key, Desc)) <==> Sorted(Reversed(s), Order(key, Asc))
  {
    var r := Reversed(s);
    if Sorted(s, Order(key, Desc)) {
      forall i, j | 0 <= i < j < |r|
        ensures Order(key, Asc)(r[i], r[j])
      {
        assert Order(key, Desc)(s[|s| - 1 - j], s[|s| - 1 - i]);
      }
    }
    if Sorted(r, Order(key, Asc)) {
      forall i, j | 0 <= i < j < |s|
        ensures Order(key, Desc)(s[i], s[j])
      {
        assert Order(key, Asc)(r[|s| - 1 - j], r[|s| - 1 - i]);
      }
    }
  }

  /** Which key and direction follow a click on the header of `key`. */
  function Toggled(current: SortKey, dir: SortDir, key: SortKey): (SortKey, SortDir) {
    if current == key then (key, if dir == Asc then Desc else Asc) else (key, Asc)
  }

  /**
   * A click always sorts by the clicked column; on a new column it starts
   * ascending, on the current one it reverses, so a second click on the same
   * column restores the direction.
   */
  lemma ToggledCases(current: SortKey, dir: SortDir, key: SortKey)
    ensures Toggled(current, dir, key).0 == key
    ensures current != key ==> Toggled(current, dir, key).1 == Asc
    ensures current == key ==> Toggled(current, dir, key).1 != dir
    ensures var t := Toggled(current, dir, key); current == key ==> Toggled(t.0, t.1, key) == (current, dir)
  {
  }

  // ---------------------------------------------------------------- paging

  /** `Math.ceil(total / pageSize)` for a positive page size. */
  function CeilDiv(total: int, pageSize: int): int
    requires pageSize > 0
  {
    (total + pageSize - 1) / pageSize
  }

  /** `CeilDiv` is the least `c` with `total <= pageSize * c`. */
  lemma CeilDivBounds(total: int, pageSize: int)
    requires pageSize > 0
    ensures var c := CeilDiv(total, pageSize); pageSize * (c - 1) < total <= pageSize * c
  {
    var c := CeilDiv(total, pageSize);
    var r := (total + pageSize - 1) % pageSize;
    assert total + pageSize - 1 == pageSize * c + r && 0 <= r < pageSize;
    assert pageSize * (c - 1) == pageSize * c - pageSize;
  }

  /** The page count shown, `Math.max(1, Math.ceil(total / pageSize))`. */
  function PageCount(total: int, pageSize: int): int
    requires pageSize > 0
  {
    var c := CeilDiv(total, pageSize);
    if c < 1 then 1 else c
  }

  /** There is always a page; the shown pages hold every row, and with rows present the last page is not empty. */
  lemma PageCountCovers(total: int, pageSize: int)
    requires pageSize > 0
    ensures PageCount(total, pageSize) >= 1
    ensures total <= pageSize * PageCount(total, pageSize)
    ensures total > 0 ==> pageSize * (PageCount(total, pageSize) - 1) < total
  {
    CeilDivBounds(total, pageSize);
  }

  // ---------------------------------------------------------------- page state

  /** The page sizes the selector offers. */
  const PageSizes: set<int> := {10, 20, 50, 100}

  const LoadFailed := "Konumlar yüklenirken hata oluştu"
  const DeleteFailed := "Konum silinirken hata oluştu"

  /** `featureService.getAll(page, pageSize, search)`. */
  datatype PageRequest = PageRequest(page: int, pageSize: int, search: string)

  /** The parts of a `getAll` reply the page reads: `success`, and `data.items` and `data.total` where present. */
  datatype ListReply = ListReply(success: bool, data: Option<PageData>)
  datatype PageData = PageData(items: Option<seq<Listed>>, total: Option<int>)

  /** `f.id !== id`. */
  function KeepOthers(id: Option<int>): Listed -> bool {
    (f: Listed) => f.id != id
  }

  /** `f.id === id`. */
  function HasId(id: Option<int>): Listed -> bool {
    (f: Listed) => f.id == id
  }

  /**
   * After a delete the list keeps, in order, every entry with another id, and
   * drops every entry with the deleted id and nothing else; deleting the same
   * id again changes nothing.
   */
  lemma DeleteDropsExactlyId(features: seq<Listed>, id: Option<int>)
    ensures var kept := Filter(features, KeepOthers(id));
      multiset(kept) + multiset(Filter(features, HasId(id))) == multiset(features)
      && (forall i :: 0 <= i < |kept| ==> kept[i].id != id)
      && Filter(kept, KeepOthers(id)) == kept
  {
    FilterPartition(features, KeepOthers(id), HasId(id));
    FilterKeepsAll(Filter(features, KeepOthers(id)), KeepOthers(id));
  }

  class FeatureListPage {
    var features: seq<Listed>
    var loading: bool
    var error: Option<string>
    var searchTerm: string
    var showDeleteModal: bool
    var featureToDelete: Option<Listed>
    var sortKey: SortKey
    var sortDir: SortDir
    var page: int
    var pageSize: int
    var total: int

    /** The page number never drops below 1 and the page size is one the selector offers. */
    ghost predicate Valid()
      reads this
    {
      page >= 1 && pageSize in PageSizes
    }

    /** The initial state of the component's hooks. */
    constructor()
      ensures Valid()
      ensures features == [] && !loading && error == None && searchTerm == ""
      ensures !showDeleteModal && featureToDelete == None
      ensures sortKey == ByName && sortDir == Asc && page == 1 && pageSize == 50 && total == 0
    {
      features := [];
      loading := false;
      error := None;
      searchTerm := "";
      showDeleteModal := false;
      featureToDelete := None;
      sortKey := ByName;
      sortDir := Asc;
      page := 1;
      pageSize := 50;
      total := 0;
    }

    /** `sortedFeatures`: a sorted copy; `features` itself is left as it is. */
    method SortedFeatures() returns (sorted: seq<Listed>)
      ensures Sorted(sorted, Order(sortKey, sortDir))
      ensures multiset(sorted) == multiset(features)
    {
      var copy := new Listed[|features|](i requires 0 <= i < |features| reads this => features[i]);
      assert copy[..] == features;
      OrderIsTotalPreorder(sortKey, sortDir);
      SortInPlace(copy, Order(sortKey, sortDir));
      sorted := copy[..];
    }

    /** `toggleSort`. */
    method ToggleSort(key: SortKey)
      requires Valid()
      modifies this
      ensures Valid()
      ensures (sortKey, sortDir) == Toggled(old(sortKey), old(sortDir), key)
      ensures features == old(features) && page == old(page) && pageSize == old(pageSize) && total == old(total)
      ensures loading == old(loading) && error == old(error) && searchTerm == old(searchTerm)
      ensures featureToDelete == old(featureToDelete) && showDeleteModal == old(showDeleteModal)
    {
      if sortKey == key {
        sortDir := if sortDir == Asc then Desc else Asc;
      } else {
        sortKey := key;
        sortDir := Asc;
      }
    }

    method SetSearchTerm(s: string)
      modifies this
      ensures searchTerm == s && features == old(features) && page == old(page) && pageSize == old(pageSize)
      ensures loading == old(loading) && error == old(error) && total == old(total)
      ensures sortKey == old(sortKey) && sortDir == old(sortDir)
      ensures featureToDelete == old(featureToDelete) && showDeleteModal == old(showDeleteModal)
    {
      searchTerm := s;
    }

    /**
     * `handleSearch`: back to page 1 and a request for it. When the page was
     * not 1 already, the change of page sets off the reload effect too, which
     * asks for the same page a second time.
     */
    method HandleSearch() returns (requests: seq<PageRequest>)
      requires Valid()
      modifies this
      ensures Valid()
      ensures page == 1 && loading && error == None
      ensures var r := PageRequest(1, pageSize, searchTerm);
        requests == if old(page) == 1 then [r] else [r, r]
      ensures features == old(features) && pageSize == old(pageSize) && searchTerm == old(searchTerm)
      ensures total == old(total) && sortKey == old(sortKey) && sortDir == old(sortDir)
      ensures featureToDelete == old(featureToDelete) && showDeleteModal == old(showDeleteModal)
    {
      var before := page;
      page := 1;
      loading := true;
      error := None;
      var r := PageRequest(1, pageSize, searchTerm);
      requests := [r];
      if before != 1 {
        requests := requests + [r];
      }
    }

    /** The end of `loadFeatures`: `reply` is `None` where the request threw. */
    method FinishLoad(reply: Option<ListReply>)
      requires Valid()
      modifies this
      ensures Valid() && !loading
      ensures if reply.Some? && reply.value.success && reply.value.data.Some? then
          var d := reply.value.data.value;
          features == (if d.items.Some? then d.items.value else [])
          && total == (if d.total.Some? then d.total.value else 0)
          && error == old(error)
        else
          features == old(features) && total == old(total) && error == Some(LoadFailed)
      ensures page == old(page) && pageSize == old(pageSize)
      ensures searchTerm == old(searchTerm) && sortKey == old(sortKey) && sortDir == old(sortDir)
      ensures featureToDelete == old(featureToDelete) && showDeleteModal == old(showDeleteModal)
    {
      if reply.Some? && reply.value.success && reply.value.data.Some? {
        var d := reply.value.data.value;
        features := if d.items.Some? then d.items.value else [];
        total := if d.total.Some? then d.total.value else 0;
      } else {
        error := Some(LoadFailed);
      }
      loading := false;
    }

    /** `confirmDelete`. */
    method ConfirmDelete(f: Listed)
      requires Valid()
      modifies this
      ensures Valid()
      ensures featureToDelete == Some(f) && showDeleteModal
      ensures features == old(features) && page == old(page) && pageSize == old(pageSize)
      ensures loading == old(loading) && error == old(error) && total == old(total)
      ensures searchTerm == old(searchTerm) && sortKey == old(sortKey) && sortDir == old(sortDir)
    {
      featureToDelete := Some(f);
      showDeleteModal := true;
    }

    /**
     * `handleDelete`: `deleted` is the `success` of the server's reply, `None`
     * where the request threw; `notified` says whether `onFeatureDeleted` runs.
     */
    method HandleDelete(deleted: Option<bool>) returns (notified: bool)
      requires Valid()
      modifies this
      ensures Valid()
      ensures notified <==> old(featureToDelete).Some? && deleted == Some(true)
      ensures old(featureToDelete).None? ==> unchanged(this)
      ensures old(featureToDelete).Some? ==> !loading
      ensures notified ==> (features == Filter(old(features), KeepOthers(old(featureToDelete).value.id))
        && !showDeleteModal && featureToDelete == None && error == old(error))
      ensures old(featureToDelete).Some? && !notified ==>
        (features == old(features) && error == Some(DeleteFailed) && featureToDelete == old(featureToDelete)
         && showDeleteModal == old(showDeleteModal))
      ensures page == old(page) && pageSize == old(pageSize) && total == old(total)
      ensures searchTerm == old(searchTerm) && sortKey == old(sortKey) && sortDir == old(sortDir)
    {
      if featureToDelete.None? {
        return false;
      }
      var target := featureToDelete.value;
      loading := true;
      if deleted == Some(true) {
        features := Filter(features, KeepOthers(target.id));
        showDeleteModal := false;
        featureToDelete := None;
        notified := true;
      } else {
        error := Some(DeleteFailed);
        notified := false;
      }
      loading := false;
    }

    /**
     * The page buttons and the page-size selector are drawn below the table,
     * which is shown only when the list is neither loading nor empty; while
     * loading there is a spinner, and an empty list shows a notice instead.
     */
    predicate PagerShown()
      reads this
    {
      !loading && features != []
    }

    /**
     * The previous-page button: not there unless the pager is shown, and
     * disabled on page 1; otherwise one page back, never below 1. `reload` is
     * the request the page change sets off; the reload effect starts
     * `loadFeatures`, which sets `loading` and clears the error before it asks
     * the server.
     */
    method Prev() returns (reload: Option<PageRequest>)
      requires Valid()
      modifies this
      ensures Valid()
      ensures if old(page) <= 1 || !old(PagerShown()) then page == old(page) else page == old(page) - 1
      ensures reload == if page != old(page) then Some(PageRequest(page, pageSize, searchTerm)) else None
      ensures reload.Some? ==> loading && error == None
      ensures reload.None? ==> loading == old(loading) && error == old(error)
      ensures features == old(features) && pageSize == old(pageSize) && total == old(total)
      ensures searchTerm == old(searchTerm) && sortKey == old(sortKey) && sortDir == old(sortDir)
      ensures featureToDelete == old(featureToDelete) && showDeleteModal == old(showDeleteModal)
    {
      reload := None;
      if !(page <= 1 || !PagerShown()) {
        page := if page - 1 < 1 then 1 else page - 1;
        reload := Some(PageRequest(page, pageSize, searchTerm));
        loading := true;
        error := None;
      }
    }

    /**
     * The next-page button: not there unless the pager is shown, and disabled
     * from page `ceil(total / pageSize)` on; otherwise one page on, so it
     * never leads past that page. A page change starts a reload as `Prev` does.
     */
    method Next() returns (reload: Option<PageRequest>)
      requires Valid()
      modifies this
      ensures Valid()
      ensures if old(page) >= CeilDiv(total, pageSize) || !old(PagerShown()) then page == old(page) else page == old(page) + 1
      ensures page <= old(page) || page <= CeilDiv(total, pageSize)
      ensures reload == if page != old(page) then Some(PageRequest(page, pageSize, searchTerm)) else None
      ensures reload.Some? ==> loading && error == None
      ensures reload.None? ==> loading == old(loading) && error == old(error)
      ensures features == old(features) && pageSize == old(pageSize) && total == old(total)
      ensures searchTerm == old(searchTerm) && sortKey == old(sortKey) && sortDir == old(sortDir)
      ensures featureToDelete == old(featureToDelete) && showDeleteModal == old(showDeleteModal)
    {
      reload := None;
      if !(page >= CeilDiv(total, pageSize) || !PagerShown()) {
        page := page + 1;
        reload := Some(PageRequest(page, pageSize, searchTerm));
        loading := true;
        error := None;
      }
    }

    /**
     * The page-size selector: not there unless the pager is shown; otherwise
     * the new size and page 1, reloaded when either changed; the reload
     * starts as `Prev`'s does.
     */
    method ChangePageSize(size: int) returns (reload: Option<PageRequest>)
      requires Valid() && size in PageSizes
      modifies this
      ensures Valid()
      ensures if old(PagerShown()) then pageSize == size && page == 1
        else pageSize == old(pageSize) && page == old(page)
      ensures reload == if page != old(page) || pageSize != old(pageSize) then Some(PageRequest(1, size, searchTerm)) else None
      ensures reload.Some? ==> loading && error == None
      ensures reload.None? ==> loading == old(loading) && error == old(error)
      ensures features == old(features) && total == old(total)
      ensures searchTerm == old(searchTerm) && sortKey == old(sortKey) && sortDir == old(sortDir)
      ensures featureToDelete == old(featureToDelete) && showDeleteModal == old(showDeleteModal)
    {
      reload := None;
      if !PagerShown() {
        return;
      }
      var changed := page != 1 || pageSize != size;
      pageSize := size;
      page := 1;
      if changed {
        reload := Some(PageRequest(1, size, searchTerm));
        loading := true;
        error := None;
      }
    }

    /**
     * The refresh button: disabled while loading; otherwise `loadFeatures()`
     * for the current page and size with no search term, whatever the box holds.
     */
    method Refresh() returns (request: Option<PageRequest>)
      requires Valid()
      modifies this
      ensures Valid()
      ensures request == if old(loading) then None else Some(PageRequest(page, pageSize, ""))
      ensures request.Some? ==> loading && error == None
      ensures request.None? ==> loading == old(loading) && error == old(error)
      ensures features == old(features) && page == old(page) && pageSize == old(pageSize) && total == old(total)
      ensures searchTerm == old(searchTerm) && sortKey == old(sortKey) && sortDir == old(sortDir)
      ensures featureToDelete == old(featureToDelete) && showDeleteModal == old(showDeleteModal)
    {
      request := None;
      if !loading {
        request := Some(PageRequest(page, pageSize, ""));
        loading := true;
        error := None;
      }
    }
  }
}
