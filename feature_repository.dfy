/**
 * The stored feature row (`backend/Domain/Feature.cs`) and the two read-only
 * spatial queries of `FeatureRepository`. A query sees the table as a map from
 * id to row; geometry is an abstract type `G` and `intersects(a, b)` stands for
 * `a.Intersects(b)` of the geometry library. `Where` and `Any` are the LINQ
 * operators the queries are built from, so both queries are functions of the
 * rows and cannot change them.
 */
module FeatureRepository {
  import opened Wrappers

  /** One row of the features table; `geometry` is `None` where the column holds null. */
  datatype Feature<G> = Feature(id: int, name: string, wkt: string, geometry: Option<G>, photos: seq<string>, typ: string)

  /** `rows.Where(p)`: the rows that satisfy `p`, each unchanged. */
  function Where<G>(rows: map<int, Feature<G>>, p: Feature<G> -> bool): (r: map<int, Feature<G>>)
    ensures forall id :: id in r <==> id in rows && p(rows[id])
    ensures forall id :: id in r ==> r[id] == rows[id]
  {
    map id | id in rows && p(rows[id]) :: rows[id]
  }

  /** `rows.AnyAsync()`: the table holds at least one row. */
  function Any<G>(rows: map<int, Feature<G>>): (r: bool)
    ensures r <==> exists id :: id in rows
  {
    if |rows| > 0 then
      var keys := rows.Keys;
      assert exists id :: id in keys by {
        if forall id :: id !in keys { assert false; }
      }
      true
    else
      assert rows == map[];
      false
  }

  /** The row intersects `g`: it has a geometry, and that geometry intersects `g`. */
  predicate Touches<G>(f: Feature<G>, g: G, intersects: (G, G) -> bool) {
    f.geometry.Some? && intersects(f.geometry.value, g)
  }

  /** `IntersectsAsync(g)`: the rows with a geometry that intersects `g`. */
  function Intersecting<G>(rows: map<int, Feature<G>>, g: G, intersects: (G, G) -> bool): (r: map<int, Feature<G>>)
    ensures forall id :: id in r <==> id in rows && rows[id].geometry.Some? && intersects(rows[id].geometry.value, g)
    ensures forall id :: id in r ==> r[id] == rows[id]
  {
    Where(rows, (f: Feature<G>) => Touches(f, g, intersects))
  }

  /**
   * `IntersectsBlockingAsync(g, excludeId)`: the rows of type exactly `"B"` whose
   * geometry intersects `g`, less the row whose id is `excludeId`, are not empty.
   */
  function IntersectsBlocking<G>(rows: map<int, Feature<G>>, g: G, excludeId: Option<int>, intersects: (G, G) -> bool): bool {
    Any(Where(Where(rows, (f: Feature<G>) => f.typ == "B" && Touches(f, g, intersects)),
              (f: Feature<G>) => excludeId.None? || f.id != excludeId.value))
  }

  /** The row would block a candidate at `g`. */
  predicate Blocks<G>(f: Feature<G>, g: G, excludeId: Option<int>, intersects: (G, G) -> bool) {
    f.typ == "B" && f.geometry.Some? && intersects(f.geometry.value, g)
    && (excludeId.None? || f.id != excludeId.value)
  }

  /** The query holds exactly when some stored row is of type `"B"`, intersects `g`, and is not the excluded one. */
  lemma IntersectsBlockingIff<G>(rows: map<int, Feature<G>>, g: G, excludeId: Option<int>, intersects: (G, G) -> bool)
    ensures IntersectsBlocking(rows, g, excludeId, intersects) <==>
      exists id :: id in rows && Blocks(rows[id], g, excludeId, intersects)
  {
    var inner := Where(rows, (f: Feature<G>) => f.typ == "B" && Touches(f, g, intersects));
    var outer := Where(inner, (f: Feature<G>) => excludeId.None? || f.id != excludeId.value);
    if exists id :: id in rows && Blocks(rows[id], g, excludeId, intersects) {
      var id :| id in rows && Blocks(rows[id], g, excludeId, intersects);
      assert id in outer;
    }
  }

  /** Rows of any type other than exactly `"B"` (`"b"` and `"A"` included) never make the query hold. */
  lemma OtherTypesNeverBlock<G>(rows: map<int, Feature<G>>, g: G, excludeId: Option<int>, intersects: (G, G) -> bool)
    ensures IntersectsBlocking(rows, g, excludeId, intersects)
        == IntersectsBlocking(Where(rows, (f: Feature<G>) => f.typ == "B"), g, excludeId, intersects)
    ensures (forall id :: id in rows ==> rows[id].typ != "B") ==> !IntersectsBlocking(rows, g, excludeId, intersects)
  {
    var only := Where(rows, (f: Feature<G>) => f.typ == "B");
    IntersectsBlockingIff(rows, g, excludeId, intersects);
    IntersectsBlockingIff(only, g, excludeId, intersects);
    if IntersectsBlocking(rows, g, excludeId, intersects) {
      var id :| id in rows && Blocks(rows[id], g, excludeId, intersects);
      assert id in only;
    }
  }

  /** Naming an id to exclude can turn a hit into a miss, never a miss into a hit. */
  lemma ExcludeOnlyWeakens<G>(rows: map<int, Feature<G>>, g: G, excluded: int, intersects: (G, G) -> bool)
    ensures IntersectsBlocking(rows, g, Some(excluded), intersects) ==> IntersectsBlocking(rows, g, None, intersects)
  {
    IntersectsBlockingIff(rows, g, Some(excluded), intersects);
    IntersectsBlockingIff(rows, g, None, intersects);
    if IntersectsBlocking(rows, g, Some(excluded), intersects) {
      var id :| id in rows && Blocks(rows[id], g, Some(excluded), intersects);
      assert Blocks(rows[id], g, None, intersects);
    }
  }

  /** Without an excluded id, the blocking query holds exactly when `IntersectsAsync` returns a row of type `"B"`. */
  lemma BlockingIsIntersectingB<G>(rows: map<int, Feature<G>>, g: G, intersects: (G, G) -> bool)
    ensures IntersectsBlocking(rows, g, None, intersects) <==>
      exists id :: id in Intersecting(rows, g, intersects) && Intersecting(rows, g, intersects)[id].typ == "B"
  {
    IntersectsBlockingIff(rows, g, None, intersects);
    var hits := Intersecting(rows, g, intersects);
    if IntersectsBlocking(rows, g, None, intersects) {
      var id :| id in rows && Blocks(rows[id], g, None, intersects);
      assert id in hits;
    }
    if exists id :: id in hits && hits[id].typ == "B" {
      var id :| id in hits && hits[id].typ == "B";
      assert Blocks(rows[id], g, None, intersects);
    }
  }
}
