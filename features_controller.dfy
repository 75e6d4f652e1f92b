/**
 * `FeaturesController` over a table it changes in place: the rows and the
 * identity counter are fields, and each endpoint that writes is a method
 * proved to answer, and to leave the fields as, the transition of the same
 * name in `FeatureStore` prescribes. The read-only endpoints `GetEf` and
 * `GetAll` are the functions `FeatureStore.Get` and `FeatureStore.GetAll`
 * of the current state.
 */
module Controllers {
  import opened Wrappers
  import opened FeatureRepository
  import opened FeatureStore

  class FeaturesController<S> {
    const geo: Geo<S>
    var rows: map<int, Row<S>>
    var nextId: int

    ghost function State(): Store<S>
      reads this
    {
      Store(rows, nextId)
    }

    ghost predicate Valid()
      reads this
    {
      ValidStore(State())
    }

    constructor(geo: Geo<S>, rows: map<int, Row<S>>, nextId: int)
      requires ValidStore(Store(rows, nextId))
      ensures this.geo == geo && State() == Store(rows, nextId) && Valid()
    {
      this.geo := geo;
      this.rows := rows;
      this.nextId := nextId;
    }

    /** `CreateEf`. */
    method CreateEf(modelValid: bool, dto: FeatureInput) returns (r: Reply<ReadDto<S>>)
      requires Valid()
      modifies this
      ensures Valid()
      ensures Step(r, State()) == Create(geo, old(State()), modelValid, dto)
    {
      CreateAddsOneRow(geo, State(), modelValid, dto);
      if !modelValid {
        return Reply(BadRequest, Fail(ValidationFailed));
      }
      var geom := ParseWkt(geo, dto.wkt);
      if geom.None? {
        return Reply(BadRequest, Fail(InvalidWkt));
      }
      var typeVal := StoredType(dto.typ);
      var blocks := IntersectsBlocking(rows, geom.value, None, Meets(geo));
      if blocks {
        return Reply(BadRequest, Fail(BlockedCreate));
      }
      // AddAsync, then SaveChangesAsync: the identity column hands out nextId
      var entity := Feature(nextId, dto.name, dto.wkt, geom, [], typeVal);
      rows := rows[entity.id := entity];
      nextId := nextId + 1;
      r := Reply(Created, Succeed(Project(geo, entity), "Created"));
    }

    /** `AddRangeEf`: read every text first, then commit the whole list at once. */
    method AddRangeEf(dtos: Option<seq<FeatureInput>>, modelValid: bool) returns (r: Reply<Batch<S>>)
      requires Valid()
      modifies this
      ensures Valid()
      ensures Step(r, State()) == AddRange(geo, old(State()), dtos, modelValid)
    {
      if dtos.None? || |dtos.value| == 0 {
        return Reply(BadRequest, Fail(EmptyList));
      }
      if !modelValid {
        return Reply(BadRequest, Fail(ValidationFailed));
      }
      var input := dtos.value;
      ghost var before := State();
      hide AddRange;
      var list: seq<Row<S>> := [];
      var i := 0;
      while i < |input|
        invariant 0 <= i <= |input| && |list| == i
        invariant forall j :: 0 <= j < i ==> geo.read(input[j].wkt).Some? && list[j] == BatchRow(geo, input[j], 0)
      {
        var g := ParseWkt(geo, input[i].wkt);
        if g.None? {
          AddRangeNamesFirstUnreadable(geo, before, input, i);
          return Reply(BadRequest, Fail("Unvalid WKT: " + input[i].wkt));
        }
        list := list + [Feature(0, input[i].name, input[i].wkt, g, [], "")];
        i := i + 1;
      }
      // AddRangeAsync, then SaveChangesAsync: the identity column numbers the rows in list order
      var start := nextId;
      ghost var parsed := list;
      list := seq(|list|, j requires 0 <= j < |list| => list[j].(id := start + j));
      rows := rows + BatchRows(geo, input, start);
      nextId := nextId + |input|;
      var items := seq(|list|, j requires 0 <= j < |list| => Project(geo, list[j]));
      forall j | 0 <= j < |input|
        ensures items[j] == BatchItems(geo, input, start)[j]
      {
        assert parsed[j] == BatchRow(geo, input[j], 0);
        assert list[j] == BatchRow(geo, input[j], start + j);
      }
      assert items == BatchItems(geo, input, start);
      r := Reply(Created, Succeed(Batch(|items|, items), "Created"));
      AddRangeAllRead(geo, before, input);
      BatchMergeValid(geo, before, input, rows);
    }

    /** `UpdateEf`: the tracked row is edited field by field; the table sees it only after the blocking check. */
    method UpdateEf(modelValid: bool, id: int, dto: FeatureInput) returns (r: Reply<ReadDto<S>>)
      requires Valid()
      modifies this
      ensures Valid()
      ensures Step(r, State()) == Update(geo, old(State()), modelValid, id, dto)
    {
      UpdateRewritesOneRow(geo, State(), modelValid, id, dto);
      if !modelValid {
        return Reply(BadRequest, Fail(ValidationFailed));
      }
      if id !in rows {
        return Reply(NotFound, Fail(FeatureNotFound));
      }
      var f := rows[id];
      var geom := ParseWkt(geo, dto.wkt);
      if geom.None? {
        return Reply(BadRequest, Fail(InvalidWkt));
      }
      f := f.(name := dto.name);
      f := f.(wkt := dto.wkt);
      f := f.(geometry := geom);
      f := f.(typ := StoredType(dto.typ));
      var blocksUpd := IntersectsBlocking(rows, geom.value, Some(f.id), Meets(geo));
      if blocksUpd {
        return Reply(BadRequest, Fail(BlockedUpdate));
      }
      rows := rows[id := f];
      r := Reply(Ok, Succeed(Project(geo, f), "Updated"));
    }

    /** `UploadPhotos`: `newName(i)` is the name generated for the `i`-th file. */
    method UploadPhotos(id: int, files: Option<seq<Upload>>, newName: nat -> string) returns (r: Reply<PhotoList>)
      requires Valid()
      modifies this
      ensures Valid()
      ensures Step(r, State()) == FeatureStore.UploadPhotos(old(State()), id, files, newName)
    {
      UploadAppends(State(), id, files, newName);
      if id !in rows {
        return Reply(NotFound, Fail(FeatureNotFound));
      }
      if files.None? || |files.value| == 0 {
        return Reply(BadRequest, Fail(NoFiles));
      }
      var f := rows[id];
      var publicUrls: seq<string> := [];
      var i := 0;
      while i < |files.value|
        invariant 0 <= i <= |files.value|
        invariant publicUrls == PhotoUrls(files.value[..i], newName)
      {
        var file := files.value[i];
        assert files.value[..i + 1][..i] == files.value[..i];
        if file.length > 0 {
          publicUrls := publicUrls + [PhotosPath + newName(i) + file.ext];
        }
        i := i + 1;
      }
      assert files.value[..i] == files.value;
      f := f.(photos := f.photos + publicUrls);
      rows := rows[id := f];
      r := Reply(Ok, Succeed(PhotoList(f.id, f.photos), "Uploaded"));
    }

    /** `DeleteEf`. */
    method DeleteEf(id: int) returns (r: Reply<Deleted>)
      requires Valid()
      modifies this
      ensures Valid()
      ensures Step(r, State()) == Delete(old(State()), id)
    {
      if id !in rows {
        return Reply(NotFound, Fail(FeatureNotFound));
      }
      rows := rows - {id};
      r := Reply(Ok, Succeed(Deleted(id), "Deleted"));
    }
  }
}
