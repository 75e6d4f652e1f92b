/**
 * The form that names a drawn shape before it is sent (`FeatureForm.tsx`):
 * its submit guards, the texts it shows about the drawing, and the resets when
 * it opens and closes. The drawing (`coordinates`, `featureType`) comes in as
 * parameters; `getWKT` is the map's `MapView.WktFromCoordinates`, whose `None`
 * is the exception a point without vertices raises. The map's `onSubmit`
 * catches its own errors, so only `getWKT` can make the submit fail.
 */
module FeatureFormView {
  import opened Wrappers
  import opened Strings
  import MapView
  import FeatureListView
  import FeatureStore
  import Validators

  /** The options of the type selector. */
  const TypeOptions: set<string> := {"A", "B", "C"}

  const NameRequired := "Konum adı zorunludur"
  const NoCoordinates := "Koordinat seçilmedi"
  const SaveFailed := "Kaydetme sırasında bir hata oluştu"

  // ---------------------------------------------------------------- texts about the drawing

  /** `getFeatureTypeName`: the title word for a draw type. */
  function FeatureTypeName(drawType: string): string {
    if drawType == "Point" then "Nokta"
    else if drawType == "LineString" then "Çizgi"
    else if drawType == "Polygon" then "Polygon"
    else "Konum"
  }

  /** The form's title word for a drawing is the label the list gives the text the drawing is sent as. */
  lemma TitleMatchesListLabel(coords: seq<MapView.Coord>, drawType: string)
    requires drawType == "Point" || drawType == "LineString" || drawType == "Polygon"
    requires drawType == "Point" ==> |coords| >= 1
    ensures FeatureTypeName(drawType) == FeatureListView.TypeText(MapView.WktFromCoordinates(coords, drawType).value)
  {
    FeatureListView.GeneratedTextLabel(coords, drawType);
  }

  /** `getPolygonName`: a fixed name from three to eight corners, `${n}gen` otherwise. */
  function PolygonName(n: int): string {
    if n == 3 then "üçgen"
    else if n == 4 then "dörtgen"
    else if n == 5 then "beşgen"
    else if n == 6 then "altıgen"
    else if n == 7 then "yedigen"
    else if n == 8 then "sekizgen"
    else IntToDecimal(n) + "gen"
  }

  lemma DecimalInjective(a: int, b: int)
    requires IntToDecimal(a) == IntToDecimal(b)
    ensures a == b
  {
  }

  /** The fixed names start with six different letters. */
  lemma FixedNamesDistinct(a: int, b: int)
    requires 3 <= a <= 8 && 3 <= b <= 8 && a != b
    ensures PolygonName(a) != PolygonName(b)
  {
    hide IntToDecimal;
    assert PolygonName(a)[0] != PolygonName(b)[0];
  }

  /** A fixed name starts with a letter. */
  lemma FixedNameStart(n: int)
    requires 3 <= n <= 8
    ensures !IsDigit(PolygonName(n)[0]) && PolygonName(n)[0] != '-'
  {
    hide IntToDecimal;
  }

  /** A count outside three to eight is named after its digits, which a fixed name never starts with. */
  lemma ComputedNameStart(n: int)
    requires !(3 <= n <= 8)
    ensures PolygonName(n) == IntToDecimal(n) + "gen"
    ensures IsDigit(PolygonName(n)[0]) || PolygonName(n)[0] == '-'
  {
    hide IntToDecimal;
    var d := IntToDecimal(n);
    assert PolygonName(n)[0] == d[0];
    if n >= 0 {
      assert IsDigit(d[0]);
    }
  }

  /** Different corner counts always get different names. */
  lemma PolygonNamesDistinct(a: int, b: int)
    requires a != b
    ensures PolygonName(a) != PolygonName(b)
  {
    hide IntToDecimal;
    hide PolygonName;
    var x, y := PolygonName(a), PolygonName(b);
    var fixedA, fixedB := 3 <= a <= 8, 3 <= b <= 8;
    if fixedA && fixedB {
      FixedNamesDistinct(a, b);
    } else if !fixedA && !fixedB {
      ComputedNameStart(a);
      ComputedNameStart(b);
      var da, db := IntToDecimal(a), IntToDecimal(b);
      if |da| == |db| {
        assert x[..|da|] == da && y[..|db|] == db;
        if da == db {
          DecimalInjective(a, b);
        }
      } else {
        assert |x| != |y|;
      }
    } else {
      var fixed, other := if fixedA then a else b, if fixedA then b else a;
      ComputedNameStart(other);
      FixedNameStart(fixed);
    }
  }

  /**
   * The number of points a polygon's message reports: the closing vertex,
   * equal to the first, is not counted again once there are more than two.
   */
  function PointCount(coords: seq<MapView.Coord>): nat {
    if |coords| > 2 && coords[0] == coords[|coords| - 1] then |coords| - 1 else |coords|
  }

  /** A ring closed by repeating its first vertex is counted by its corners. */
  lemma ClosedRingCountsCorners(corners: seq<MapView.Coord>)
    requires |corners| >= 2
    ensures PointCount(corners + [corners[0]]) == |corners|
  {
  }

  /** `n.toFixed(6)` for an integer: the digits, then six zero decimals. */
  function Fixed6(v: int): string {
    IntToDecimal(v) + ".000000"
  }

  /** `formatCoordinates`, with `featureType` the current draw type. */
  function FormatCoordinates(coords: seq<MapView.Coord>, featureType: Option<string>): string {
    if |coords| == 1 then "Boylam: " + Fixed6(coords[0].0) + ", Enlem: " + Fixed6(coords[0].1)
    else if featureType == Some("Polygon") then
      var n := PointCount(coords);
      NatToDecimal(n) + " nokta seçildi (" + PolygonName(n) + ")"
    else NatToDecimal(|coords|) + " nokta seçildi"
  }

  /** A closed polygon ring is described by its corners: the count and the name both leave out the repeated vertex. */
  lemma ClosedRingDescribed(corners: seq<MapView.Coord>)
    requires |corners| >= 2
    ensures FormatCoordinates(corners + [corners[0]], Some("Polygon"))
      == NatToDecimal(|corners|) + " nokta seçildi (" + PolygonName(|corners|) + ")"
  {
    ClosedRingCountsCorners(corners);
  }

  // ---------------------------------------------------------------- what is sent

  /** A type from the selector is stored as chosen. */
  lemma ChosenTypeStored(typeVal: string)
    requires typeVal in TypeOptions
    ensures FeatureStore.StoredType(Some(Trim(typeVal))) == typeVal
  {
    hide Trim;
    assert |typeVal| == 1 && !IsWhite(typeVal[0]);
    TrimSolid(typeVal);
    assert !Validators.IsNullOrWhiteSpace(Some(typeVal));
  }

  /** A trimmed non-blank name passes `Validators.ValidName` exactly when it is at most 200 UTF-16 code units. */
  lemma TrimmedNameValid(name: string)
    requires !AllWhite(name)
    ensures Validators.ValidName(Some(Trim(name))) <==> Utf16Length(Trim(name)) <= Validators.MaxNameLength
  {
    hide Trim;
    hide Validators.ValidName;
    Validators.ValidNameIff(Some(Trim(name)));
    TrimIdempotent(name);
    TrimEmptyIffBlank(name);
  }

  /**
   * What the form sends for a non-blank name, a type from the selector and a
   * drawing with enough vertices: a text `Validators.ValidWkt` accepts, a type
   * `FeatureStore.StoredType` keeps as chosen, and a name that passes
   * `Validators.ValidName` exactly when it is at most 200 UTF-16 code units
   * once trimmed (the form itself checks no length).
   */
  lemma SubmittedFeatureAccepted(name: string, typeVal: string, coords: seq<MapView.Coord>, drawType: string)
    requires !AllWhite(name) && typeVal in TypeOptions
    requires drawType == "Point" || drawType == "LineString" || drawType == "Polygon"
    requires |coords| >= (if drawType == "Point" then 1 else 2)
    ensures var dto := FeatureStore.FeatureInput(Trim(name), MapView.WktFromCoordinates(coords, drawType).value, Some(Trim(typeVal)));
      (Validators.ValidName(Some(dto.name)) <==> Utf16Length(Trim(name)) <= Validators.MaxNameLength)
      && Validators.ValidWkt(Some(dto.wkt))
      && FeatureStore.StoredType(dto.typ) == typeVal
  {
    hide MapView.WktFromCoordinates;
    hide Validators.ValidWkt;
    hide Validators.ValidName;
    hide FeatureStore.StoredType;
    hide Trim;
    TrimmedNameValid(name);
    ChosenTypeStored(typeVal);
    MapView.GeneratedTextReadsBack(coords, drawType);
  }

  class FeatureForm {
    var name: string
    var nameError: string
    var typeVal: string
    var generalError: string
    var showPreview: bool

    /** The type is always one the selector offers. */
    ghost predicate Valid()
      reads this
    {
      typeVal in TypeOptions
    }

    /** Cleared fields, the preview closed and type `A`: the state after opening and after closing. */
    ghost predicate Fresh()
      reads this
    {
      name == "" && nameError == "" && generalError == "" && !showPreview && typeVal == "A"
    }

    constructor()
      ensures Valid() && Fresh()
    {
      name := "";
      nameError := "";
      typeVal := "A";
      generalError := "";
      showPreview := false;
    }

    /** The effect on `show`: opening the form clears it; hiding it leaves it as it is. */
    method ShowChanged(show: bool)
      requires Valid()
      modifies this
      ensures Valid()
      ensures show ==> Fresh()
      ensures !show ==> unchanged(this)
    {
      if show {
        name := "";
        nameError := "";
        generalError := "";
        showPreview := false;
        typeVal := "A";
      }
    }

    /** `handleClose`: clears the form before `onHide`. */
    method HandleClose()
      requires Valid()
      modifies this
      ensures Valid() && Fresh()
    {
      name := "";
      nameError := "";
      generalError := "";
      showPreview := false;
      typeVal := "A";
    }

    method SetName(s: string)
      requires Valid()
      modifies this
      ensures Valid() && name == s
      ensures typeVal == old(typeVal) && nameError == old(nameError) && generalError == old(generalError) && showPreview == old(showPreview)
    {
      name := s;
    }

    /** The type selector, which offers `A`, `B` and `C` only. */
    method SetType(t: string)
      requires Valid() && t in TypeOptions
      modifies this
      ensures Valid() && typeVal == t
      ensures name == old(name) && nameError == old(nameError) && generalError == old(generalError) && showPreview == old(showPreview)
    {
      typeVal := t;
    }

    method TogglePreview()
      requires Valid()
      modifies this
      ensures Valid() && showPreview == !old(showPreview)
      ensures name == old(name) && typeVal == old(typeVal) && nameError == old(nameError) && generalError == old(generalError)
    {
      showPreview := !showPreview;
    }

    /**
     * `handleSubmit`: a blank name, then a missing drawing, stop the submit
     * with their message; otherwise the text is built and the form sends the
     * trimmed name, the text and the trimmed type, then clears the name. An
     * empty list of vertices is not "missing" (an empty array is truthy).
     */
    method HandleSubmit(coordinates: Option<seq<MapView.Coord>>, featureType: Option<string>) returns (sent: Option<FeatureStore.FeatureInput>)
      requires Valid()
      modifies this
      ensures Valid() && typeVal == old(typeVal)
      ensures AllWhite(old(name)) ==>
        (sent.None? && nameError == NameRequired && name == old(name)
         && generalError == old(generalError) && showPreview == old(showPreview))
      ensures !AllWhite(old(name)) && (coordinates.None? || featureType.None? || featureType == Some("")) ==>
        (sent.None? && nameError == "" && generalError == NoCoordinates && name == old(name) && showPreview == old(showPreview))
      ensures !AllWhite(old(name)) && coordinates.Some? && featureType.Some? && featureType != Some("") ==>
        var wkt := MapView.WktFromCoordinates(coordinates.value, featureType.value);
        (wkt.None? ==> sent.None? && nameError == "" && generalError == SaveFailed && name == old(name) && showPreview == old(showPreview))
        && (wkt.Some? ==>
              sent == Some(FeatureStore.FeatureInput(Trim(old(name)), wkt.value, Some(Trim(old(typeVal)))))
              && name == "" && nameError == "" && generalError == "" && !showPreview)
    {
      hide MapView.WktFromCoordinates;
      hide Trim;
      TrimEmptyIffBlank(name);
      if Trim(name) == [] {
        nameError := NameRequired;
        return None;
      }
      nameError := "";
      if coordinates.None? || featureType.None? || featureType.value == "" {
        generalError := NoCoordinates;
        return None;
      }
      generalError := "";
      var wkt := MapView.WktFromCoordinates(coordinates.value, featureType.value);
      if wkt.None? {
        generalError := SaveFailed;
        return None;
      }
      sent := Some(FeatureStore.FeatureInput(Trim(name), wkt.value, Some(Trim(typeVal))));
      name := "";
      showPreview := false;
      generalError := "";
      nameError := "";
    }
  }
}
