/**
 * What the endpoints of `FeaturesController` do to the stored features, as
 * transitions on a value: the rows keyed by id, plus the next value of the
 * identity column. Each operation yields the reply it sends and the store it
 * leaves behind; one `SaveChanges` is one atomic commit, so a reply sent
 * before it leaves the store as it was. The geometry library is the `Geo`
 * record: a partial WKT reader, a writer and `Intersects`.
 */
module FeatureStore {
  import opened Wrappers
  import opened Strings
  import opened FeatureRepository
  import Validators

  /** The spatial reference every parsed geometry is stamped with. */
  const Srid := 4326

  datatype Geometry<S> = Geometry(shape: S, srid: int)

  type Row<S> = Feature<Geometry<S>>

  /** `WKTReader.Read` (`None` where it throws), `WKTWriter.Write` and `Geometry.Intersects`. */
  datatype Geo<!S> = Geo(read: string -> Option<S>, write: S -> string, intersects: (S, S) -> bool)

  datatype Store<S> = Store(rows: map<int, Row<S>>, nextId: int)

  /**
   * What the table guarantees: each row sits under its own id, every id was
   * drawn from the identity column before `nextId`, and every geometry has
   * SRID 4326 (the column type is `geometry(Geometry,4326)`).
   */
  ghost predicate ValidStore<S>(st: Store<S>) {
    1 <= st.nextId &&
    forall id :: id in st.rows ==>
      st.rows[id].id == id && 1 <= id < st.nextId &&
      (st.rows[id].geometry.Some? ==> st.rows[id].geometry.value.srid == Srid)
  }

  datatype Status = Ok | Created | BadRequest | NotFound

  datatype Response<T> = Response(success: bool, message: string, data: Option<T>)

  /** `Response<T>.Ok(data, message)`. */
  function Succeed<T>(data: T, message: string): Response<T> {
    Response(true, message, Some(data))
  }

  /** `Response<T>.Fail(message)`. */
  function Fail<T>(message: string): Response<T> {
    Response(false, message, None)
  }

  datatype Reply<T> = Reply(status: Status, body: Response<T>)

  datatype Step<T, S> = Step(reply: Reply<T>, store: Store<S>)

  datatype Paged<T> = Paged(total: int, page: int, pageSize: int, items: seq<T>)

  datatype ReadDto<S> = ReadDto(id: int, name: string, wkt: string, geometry: Option<Geometry<S>>, photos: seq<string>, typ: string)

  /** The body of a batch reply: `{ count, items }`. */
  datatype Batch<S> = Batch(count: int, items: seq<ReadDto<S>>)

  /** The body of an upload reply: `{ id, photos }`. */
  datatype PhotoList = PhotoList(id: int, photos: seq<string>)

  /** The body of a delete reply: `{ id }`. */
  datatype Deleted = Deleted(id: int)

  /** The fields of a create or update request that the controller reads. */
  datatype FeatureInput = FeatureInput(name: string, wkt: string, typ: Option<string>)

  /** An uploaded file: its length in bytes and the extension of its file name. */
  datatype Upload = Upload(length: int, ext: string)

  const ValidationFailed := "Validation failed"
  const InvalidWkt := "Invalid WKT"
  const FeatureNotFound := "Feature not found"
  const BlockedCreate := "B tipindeki çizgi ile kesiştiği için eklenemez"
  const BlockedUpdate := "B tipindeki çizgi ile kesiştiği için güncellenemez"
  const EmptyList := "List can't be empty"
  const NoFiles := "No files uploaded"
  const PhotosPath := "/photos/"

  /** `ParseWktOrBadRequest`: read the text and stamp SRID 4326; `None` where the reader throws. */
  function ParseWkt<S>(geo: Geo<S>, wkt: string): (r: Option<Geometry<S>>)
    ensures r.Some? <==> geo.read(wkt).Some?
    ensures r.Some? ==> r.value.srid == Srid && r.value.shape == geo.read(wkt).value
  {
    if geo.read(wkt).None? then None else Some(Geometry(geo.read(wkt).value, Srid))
  }

  /** `Intersects` on stamped geometries. */
  function Meets<S>(geo: Geo<S>): (Geometry<S>, Geometry<S>) -> bool {
    (a: Geometry<S>, b: Geometry<S>) => geo.intersects(a.shape, b.shape)
  }

  /**
   * The type a create or update stores: `"A"` for a missing or blank type,
   * otherwise the type trimmed, so it is never blank and never starts or ends
   * with white space.
   */
  function StoredType(typ: Option<string>): (r: string)
    ensures r != [] && !IsWhite(r[0]) && !IsWhite(r[|r| - 1])
    ensures Validators.IsNullOrWhiteSpace(typ) ==> r == "A"
    ensures !Validators.IsNullOrWhiteSpace(typ) ==> r == Trim(typ.value)
  {
    if Validators.IsNullOrWhiteSpace(typ) then "A"
    else
      TrimEmptyIffBlank(typ.value);
      TrimEnds(typ.value);
      Trim(typ.value)
  }

  /** The read projection (`FeatureReadDto`): `Type` is never set, so it stays `""`. */
  function Project<S>(geo: Geo<S>, f: Row<S>): ReadDto<S> {
    ReadDto(f.id, f.name, if f.geometry.None? then f.wkt else geo.write(f.geometry.value.shape),
            f.geometry, f.photos, "")
  }

  // ---------------------------------------------------------------- create

  /** `CreateEf`. */
  function Create<S>(geo: Geo<S>, st: Store<S>, modelValid: bool, dto: FeatureInput): Step<ReadDto<S>, S> {
    if !modelValid then Step(Reply(BadRequest, Fail(ValidationFailed)), st)
    else
      var geom := ParseWkt(geo, dto.wkt);
      if geom.None? then Step(Reply(BadRequest, Fail(InvalidWkt)), st)
      else if IntersectsBlocking(st.rows, geom.value, None, Meets(geo)) then
        Step(Reply(BadRequest, Fail(BlockedCreate)), st)
      else
        var f := Feature(st.nextId, dto.name, dto.wkt, geom, [], StoredType(dto.typ));
        Step(Reply(Created, Succeed(Project(geo, f), "Created")),
             Store(st.rows[st.nextId := f], st.nextId + 1))
  }

  /** A create fails for an invalid request, an unreadable text or a blocking `"B"` row, in that order, and only then; a failed create changes nothing. */
  lemma CreateOutcome<S>(geo: Geo<S>, st: Store<S>, modelValid: bool, dto: FeatureInput)
    ensures var s := Create(geo, st, modelValid, dto);
      (s.reply.status == Created <==>
        modelValid && geo.read(dto.wkt).Some? &&
        !IntersectsBlocking(st.rows, Geometry(geo.read(dto.wkt).value, Srid), None, Meets(geo)))
      && (s.reply.status != Created ==> s.reply.status == BadRequest && !s.reply.body.success && s.store == st)
      && (!modelValid ==> s.reply.body.message == ValidationFailed)
      && (modelValid && geo.read(dto.wkt).None? ==> s.reply.body.message == InvalidWkt)
      && (modelValid && geo.read(dto.wkt).Some? &&
          IntersectsBlocking(st.rows, Geometry(geo.read(dto.wkt).value, Srid), None, Meets(geo))
          ==> s.reply.body.message == BlockedCreate)
  {
  }

  /**
   * A successful create adds exactly one row, under a fresh id, holding the
   * request's name and text, the parsed geometry, no photos and the stored
   * type; the reply carries that row's projection.
   */
  lemma CreateAddsOneRow<S>(geo: Geo<S>, st: Store<S>, modelValid: bool, dto: FeatureInput)
    requires ValidStore(st)
    ensures var s := Create(geo, st, modelValid, dto);
      ValidStore(s.store) &&
      (s.reply.status == Created ==>
        st.nextId !in st.rows && s.store.rows.Keys == st.rows.Keys + {st.nextId} &&
        |s.store.rows| == |st.rows| + 1 &&
        (forall id :: id in st.rows ==> s.store.rows[id] == st.rows[id]) &&
        s.store.rows[st.nextId] == Feature(st.nextId, dto.name, dto.wkt, ParseWkt(geo, dto.wkt), [], StoredType(dto.typ)) &&
        s.reply.body.data == Some(Project(geo, s.store.rows[st.nextId])))
  {
  }

  /** The type the request asks for plays no part in whether a create is blocked. */
  lemma CreateIgnoresOwnType<S>(geo: Geo<S>, st: Store<S>, modelValid: bool, d1: FeatureInput, d2: FeatureInput)
    requires d1.wkt == d2.wkt
    ensures Create(geo, st, modelValid, d1).reply.status == Create(geo, st, modelValid, d2).reply.status
  {
  }

  /** No `"B"` row's geometry intersects another row's geometry. */
  ghost predicate NoBOverlap<S>(geo: Geo<S>, st: Store<S>) {
    forall i, j :: i in st.rows && j in st.rows && i != j && st.rows[i].typ == "B" ==>
      st.rows[i].geometry.None? || !Touches(st.rows[j], st.rows[i].geometry.value, Meets(geo))
  }

  /**
   * A store with one `"A"` row, then a create of a `"B"` line over it: the
   * create succeeds, so "no `"B"` row intersects another row" is not an
   * invariant of the service.
   */
  lemma BOverAIsAccepted()
    ensures var geo := Geo((s: string) => Some(0), (x: int) => "", (a: int, b: int) => a == b);
      var st := Store(map[1 := Feature(1, "a", "x", Some(Geometry(0, Srid)), [], "A")], 2);
      var s := Create(geo, st, true, FeatureInput("b", "y", Some("B")));
      ValidStore(st) && NoBOverlap(geo, st) &&
      s.reply.status == Created && ValidStore(s.store) && !NoBOverlap(geo, s.store)
  {
    var geo := Geo((s: string) => Some(0), (x: int) => "", (a: int, b: int) => a == b);
    var st := Store(map[1 := Feature(1, "a", "x", Some(Geometry(0, Srid)), [], "A")], 2);
    OtherTypesNeverBlock(st.rows, Geometry(0, Srid), None, Meets(geo));
    var s := Create(geo, st, true, FeatureInput("b", "y", Some("B")));
    assert StoredType(Some("B")) == "B" by {
      assert !IsWhite('B');
    }
    assert s.store.rows[2].typ == "B" && Touches(s.store.rows[1], s.store.rows[2].geometry.value, Meets(geo));
  }

  // ---------------------------------------------------------------- batch create

  /** The first position, from `from` on, whose text the reader rejects. */
  function FirstUnreadable<S>(geo: Geo<S>, dtos: seq<FeatureInput>, from: nat): (r: Option<nat>)
    requires from <= |dtos|
    ensures r.Some? ==> from <= r.value < |dtos| && geo.read(dtos[r.value].wkt).None?
    ensures r.Some? ==> forall j :: from <= j < r.value ==> geo.read(dtos[j].wkt).Some?
    ensures r.None? <==> forall j :: from <= j < |dtos| ==> geo.read(dtos[j].wkt).Some?
    decreases |dtos| - from
  {
    if from == |dtos| then None
    else if geo.read(dtos[from].wkt).None? then Some(from)
    else FirstUnreadable(geo, dtos, from + 1)
  }

  /** The row a batch item becomes: no photos and the type left at `""`. */
  function BatchRow<S>(geo: Geo<S>, d: FeatureInput, id: int): Row<S> {
    Feature(id, d.name, d.wkt, ParseWkt(geo, d.wkt), [], "")
  }

  /** The rows a batch adds, numbered by the identity column in input order from `start`. */
  function BatchRows<S>(geo: Geo<S>, dtos: seq<FeatureInput>, start: int): map<int, Row<S>> {
    if dtos == [] then map[]
    else
      var n := |dtos| - 1;
      BatchRows(geo, dtos[..n], start)[start + n := BatchRow(geo, dtos[n], start + n)]
  }

  /** The batch rows sit under the ids `start` to `start + |dtos| - 1`, item `i` under `start + i`. */
  lemma {:induction false} BatchRowsShape<S>(geo: Geo<S>, dtos: seq<FeatureInput>, start: int)
    ensures forall id :: id in BatchRows(geo, dtos, start) <==> start <= id < start + |dtos|
    ensures forall id :: start <= id < start + |dtos| ==> BatchRows(geo, dtos, start)[id] == BatchRow(geo, dtos[id - start], id)
    ensures |BatchRows(geo, dtos, start)| == |dtos|
  {
    hide BatchRow;
    if dtos != [] {
      var n := |dtos| - 1;
      var prev := BatchRows(geo, dtos[..n], start);
      var rows := BatchRows(geo, dtos, start);
      assert rows == prev[start + n := BatchRow(geo, dtos[n], start + n)];
      BatchRowsShape(geo, dtos[..n], start);
      assert start + n !in prev;
      forall id | start <= id < start + n
        ensures rows[id] == BatchRow(geo, dtos[id - start], id)
      {
        assert rows[id] == prev[id];
        assert dtos[..n][id - start] == dtos[id - start];
      }
    }
  }

  /** Merging maps with disjoint keys adds their sizes. */
  lemma MergeSize<K, V>(a: map<K, V>, b: map<K, V>)
    requires a.Keys !! b.Keys
    ensures |a + b| == |a| + |b|
  {
    assert (a + b).Keys == a.Keys + b.Keys;
    assert |(a + b).Keys| == |a.Keys| + |b.Keys|;
  }

  function BatchItems<S>(geo: Geo<S>, dtos: seq<FeatureInput>, start: int): seq<ReadDto<S>> {
    seq(|dtos|, i requires 0 <= i < |dtos| => Project(geo, BatchRow(geo, dtos[i], start + i)))
  }

  /** `AddRangeEf`. */
  function AddRange<S>(geo: Geo<S>, st: Store<S>, dtos: Option<seq<FeatureInput>>, modelValid: bool): Step<Batch<S>, S> {
    if dtos.None? || |dtos.value| == 0 then Step(Reply(BadRequest, Fail(EmptyList)), st)
    else if !modelValid then Step(Reply(BadRequest, Fail(ValidationFailed)), st)
    else
      var bad := FirstUnreadable(geo, dtos.value, 0);
      if bad.Some? then Step(Reply(BadRequest, Fail("Unvalid WKT: " + dtos.value[bad.value].wkt)), st)
      else
        var items := BatchItems(geo, dtos.value, st.nextId);
        Step(Reply(Created, Succeed(Batch(|items|, items), "Created")),
             Store(st.rows + BatchRows(geo, dtos.value, st.nextId), st.nextId + |dtos.value|))
  }

  /**
   * A batch is all or nothing: it succeeds exactly when the list is present
   * and not empty, the request is valid and every text reads; otherwise the
   * store is unchanged, and an unreadable text is named in the message (the
   * first one in input order). The rows already stored play no part, so no
   * blocking check is made.
   */
  lemma AddRangeAllOrNothing<S>(geo: Geo<S>, st: Store<S>, other: Store<S>, dtos: Option<seq<FeatureInput>>, modelValid: bool)
    ensures var s := AddRange(geo, st, dtos, modelValid);
      (s.reply.status == Created <==>
        dtos.Some? && |dtos.value| > 0 && modelValid &&
        forall j :: 0 <= j < |dtos.value| ==> geo.read(dtos.value[j].wkt).Some?)
      && (s.reply.status != Created ==> s.reply.status == BadRequest && s.store == st)
      && (dtos.None? || dtos == Some([]) ==> s.reply.body.message == EmptyList)
      && s.reply.status == AddRange(geo, other, dtos, modelValid).reply.status
  {
  }

  /** A batch that fails on text changes nothing and names the first unreadable item. */
  lemma AddRangeNamesFirstUnreadable<S>(geo: Geo<S>, st: Store<S>, dtos: seq<FeatureInput>, k: nat)
    requires k < |dtos| && geo.read(dtos[k].wkt).None?
    requires forall j :: 0 <= j < k ==> geo.read(dtos[j].wkt).Some?
    ensures AddRange(geo, st, Some(dtos), true) == Step(Reply(BadRequest, Fail("Unvalid WKT: " + dtos[k].wkt)), st)
  {
    var bad := FirstUnreadable(geo, dtos, 0);
    assert bad.Some?;
  }

  /**
   * A successful batch adds one row per item, in input order under
   * consecutive fresh ids, each with type `""` and no photos, and keeps every
   * row already stored.
   */
  lemma AddRangeAddsInOrder<S>(geo: Geo<S>, st: Store<S>, dtos: seq<FeatureInput>)
    requires ValidStore(st)
    ensures var s := AddRange(geo, st, Some(dtos), true);
      ValidStore(s.store) &&
      (s.reply.status == Created ==>
        s.store.nextId == st.nextId + |dtos| &&
        (forall id :: id in st.rows ==> id in s.store.rows && s.store.rows[id] == st.rows[id]) &&
        (forall i :: 0 <= i < |dtos| ==>
          st.nextId + i !in st.rows && st.nextId + i in s.store.rows &&
          s.store.rows[st.nextId + i] == Feature(st.nextId + i, dtos[i].name, dtos[i].wkt, ParseWkt(geo, dtos[i].wkt), [], "")) &&
        |s.store.rows| == |st.rows| + |dtos|)
  {
    hide AddRange;
    var s := AddRange(geo, st, Some(dtos), true);
    AddRangeSucceeds(geo, st, dtos);
    if s.reply.status == Created {
      var rows := st.rows + BatchRows(geo, dtos, st.nextId);
      BatchMerge(geo, st, dtos, rows);
      forall i | 0 <= i < |dtos|
        ensures st.nextId + i in rows
        ensures rows[st.nextId + i] == Feature(st.nextId + i, dtos[i].name, dtos[i].wkt, ParseWkt(geo, dtos[i].wkt), [], "")
      {
        assert rows[st.nextId + i] == BatchRow(geo, dtos[i], st.nextId + i);
      }
    }
  }

  /** The reply to a successful batch counts the items and projects each new row, in input order, with no type. */
  lemma AddRangeAnswersEachRow<S>(geo: Geo<S>, st: Store<S>, dtos: seq<FeatureInput>)
    ensures var s := AddRange(geo, st, Some(dtos), true);
      s.reply.status == Created ==>
        var b := s.reply.body.data.value;
        b.count == |dtos| == |b.items| &&
        forall i :: 0 <= i < |dtos| ==>
          st.nextId + i in s.store.rows && b.items[i] == Project(geo, s.store.rows[st.nextId + i]) && b.items[i].typ == ""
  {
    hide AddRange;
    var s := AddRange(geo, st, Some(dtos), true);
    AddRangeSucceeds(geo, st, dtos);
    if s.reply.status == Created {
      BatchItemsProjectRows(geo, dtos, st.nextId, st.rows, s.store.rows);
    }
  }

  lemma BatchItemsLength<S>(geo: Geo<S>, dtos: seq<FeatureInput>, start: int)
    ensures |BatchItems(geo, dtos, start)| == |dtos|
  {
  }

  lemma BatchItemAt<S>(geo: Geo<S>, dtos: seq<FeatureInput>, start: int, i: int)
    requires 0 <= i < |dtos|
    ensures |BatchItems(geo, dtos, start)| == |dtos|
    ensures BatchItems(geo, dtos, start)[i] == Project(geo, BatchRow(geo, dtos[i], start + i))
  {
  }

  /**
   * Item `i` of a batch reply is the projection of the row stored under
   * `start + i` once the batch is merged over any rows.
   */
  lemma BatchItemsProjectRows<S>(geo: Geo<S>, dtos: seq<FeatureInput>, start: int, base: map<int, Row<S>>, rows: map<int, Row<S>>)
    requires rows == base + BatchRows(geo, dtos, start)
    ensures forall id :: start <= id < start + |dtos| ==> id in rows
    ensures var items := BatchItems(geo, dtos, start);
      |items| == |dtos| &&
      forall i :: 0 <= i < |dtos| ==> items[i] == Project(geo, rows[start + i]) && items[i].typ == ""
  {
    hide BatchRows, BatchRow, BatchItems;
    var added := BatchRows(geo, dtos, start);
    var items := BatchItems(geo, dtos, start);
    forall id | start <= id < start + |dtos|
      ensures id in rows
    {
      assert id in added by { BatchRowsShape(geo, dtos, start); }
    }
    BatchItemsLength(geo, dtos, start);
    forall i | 0 <= i < |dtos|
      ensures items[i] == Project(geo, rows[start + i]) && items[i].typ == ""
    {
      var id := start + i;
      BatchItemAt(geo, dtos, start, i);
      assert id in added && added[id] == BatchRow(geo, dtos[i], id) by {
        BatchRowsShape(geo, dtos, start);
        assert id - start == i;
      }
      assert rows[id] == added[id];
    }
  }

  /** What a successful batch leaves behind and answers. */
  lemma AddRangeSucceeds<S>(geo: Geo<S>, st: Store<S>, dtos: seq<FeatureInput>)
    ensures var s := AddRange(geo, st, Some(dtos), true);
      (s.reply.status != Created ==> s.store == st) &&
      (s.reply.status == Created ==>
        s == Step(Reply(Created, Succeed(Batch(|dtos|, BatchItems(geo, dtos, st.nextId)), "Created")),
                  Store(st.rows + BatchRows(geo, dtos, st.nextId), st.nextId + |dtos|)))
  {
  }

  /** A non-empty, valid batch whose every text reads is committed whole, numbered from the counter. */
  lemma AddRangeAllRead<S>(geo: Geo<S>, st: Store<S>, dtos: seq<FeatureInput>)
    requires |dtos| > 0 && forall j :: 0 <= j < |dtos| ==> geo.read(dtos[j].wkt).Some?
    ensures AddRange(geo, st, Some(dtos), true)
      == Step(Reply(Created, Succeed(Batch(|dtos|, BatchItems(geo, dtos, st.nextId)), "Created")),
              Store(st.rows + BatchRows(geo, dtos, st.nextId), st.nextId + |dtos|))
  {
    assert FirstUnreadable(geo, dtos, 0).None?;
  }

  /** Merging a batch into a valid store keeps every old row and adds one row per item. */
  lemma BatchMerge<S>(geo: Geo<S>, st: Store<S>, dtos: seq<FeatureInput>, rows: map<int, Row<S>>)
    requires ValidStore(st) && rows == st.rows + BatchRows(geo, dtos, st.nextId)
    ensures forall id :: id in st.rows ==> id in rows && rows[id] == st.rows[id]
    ensures forall id :: st.nextId <= id < st.nextId + |dtos| ==>
      id !in st.rows && id in rows && rows[id] == BatchRow(geo, dtos[id - st.nextId], id)
    ensures |rows| == |st.rows| + |dtos|
    ensures ValidStore(Store(rows, st.nextId + |dtos|))
  {
    var added := BatchRows(geo, dtos, st.nextId);
    BatchRowsShape(geo, dtos, st.nextId);
    assert st.rows.Keys !! added.Keys by {
      forall id | id in st.rows
        ensures id !in added
      {
      }
    }
    MergeSize(st.rows, added);
    forall id | st.nextId <= id < st.nextId + |dtos|
      ensures id !in st.rows && id in rows && rows[id] == BatchRow(geo, dtos[id - st.nextId], id)
    {
      assert id in added && rows[id] == added[id];
    }
    BatchMergeValid(geo, st, dtos, rows);
  }

  /** The merged rows sit under their own ids, below the advanced counter, with SRID 4326. */
  lemma BatchMergeValid<S>(geo: Geo<S>, st: Store<S>, dtos: seq<FeatureInput>, rows: map<int, Row<S>>)
    requires ValidStore(st) && rows == st.rows + BatchRows(geo, dtos, st.nextId)
    ensures ValidStore(Store(rows, st.nextId + |dtos|))
  {
    var added := BatchRows(geo, dtos, st.nextId);
    BatchRowsShape(geo, dtos, st.nextId);
    forall id | id in rows
      ensures rows[id].id == id && 1 <= id < st.nextId + |dtos|
      ensures rows[id].geometry.Some? ==> rows[id].geometry.value.srid == Srid
    {
      if id in added {
        assert rows[id] == added[id] == BatchRow(geo, dtos[id - st.nextId], id);
      } else {
        assert rows[id] == st.rows[id];
      }
    }
  }

  // ---------------------------------------------------------------- get

  /** `GetEf`. */
  function Get<S>(geo: Geo<S>, st: Store<S>, id: int): Reply<ReadDto<S>> {
    if id !in st.rows then Reply(NotFound, Fail(FeatureNotFound))
    else Reply(Ok, Succeed(Project(geo, st.rows[id]), "Success"))
  }

  /**
   * A lookup finds exactly the stored ids; it answers the stored text when
   * the row has no geometry and the written geometry otherwise, and never
   * fills in the type.
   */
  lemma GetFinds<S>(geo: Geo<S>, st: Store<S>, id: int)
    ensures var r := Get(geo, st, id);
      (r.status == Ok <==> id in st.rows) && (r.status == Ok <==> r.body.data.Some?)
      && (r.status != Ok ==> r.status == NotFound && r.body.message == FeatureNotFound)
      && (id in st.rows ==>
        r.body.data.value.id == st.rows[id].id && r.body.data.value.name == st.rows[id].name &&
        r.body.data.value.photos == st.rows[id].photos && r.body.data.value.typ == "" &&
        (st.rows[id].geometry.None? ==> r.body.data.value.wkt == st.rows[id].wkt) &&
        (st.rows[id].geometry.Some? ==> r.body.data.value.wkt == geo.write(st.rows[id].geometry.value.shape)))
  {
  }

  /** Reading back a created feature gives what the create answered. */
  lemma GetAfterCreate<S>(geo: Geo<S>, st: Store<S>, modelValid: bool, dto: FeatureInput)
    requires Create(geo, st, modelValid, dto).reply.status == Created
    ensures var s := Create(geo, st, modelValid, dto);
      Get(geo, s.store, st.nextId).body.data == s.reply.body.data
  {
  }

  // ---------------------------------------------------------------- paged list

  predicate IsInt32(x: int) {
    -0x8000_0000 <= x < 0x8000_0000
  }

  /** C#'s unchecked 32-bit `int` arithmetic: the value modulo 2^32 in the signed range. */
  function Wrap32(x: int): (r: int)
    ensures IsInt32(r)
    ensures IsInt32(x) ==> r == x
    ensures (x - r) % 0x1_0000_0000 == 0
  {
    (x + 0x8000_0000) % 0x1_0000_0000 - 0x8000_0000
  }

  function ClampPage(page: int): int {
    if page <= 0 then 1 else page
  }

  function ClampPageSize(pageSize: int): int {
    if pageSize <= 0 || pageSize > 500 then 50 else pageSize
  }

  /** The name filter: no filter, an empty filter, or a case-sensitive substring. */
  predicate NameMatches(name: Option<string>, candidate: string) {
    name.None? || name.value == [] || Contains(candidate, name.value)
  }

  /** `scan` lists every stored id exactly once: the order the table is read in. */
  predicate Enumerates<S>(scan: seq<int>, rows: map<int, Row<S>>) {
    (forall i :: 0 <= i < |scan| ==> scan[i] in rows) &&
    (forall id :: id in rows ==> id in scan) &&
    (forall i, j :: 0 <= i < j < |scan| ==> scan[i] != scan[j])
  }

  /** `WhereAsync(x => IsNullOrEmpty(name) || x.Name.Contains(name))`, in table order. */
  function Matching<S>(rows: map<int, Row<S>>, scan: seq<int>, name: Option<string>): seq<Row<S>>
    requires forall i :: 0 <= i < |scan| ==> scan[i] in rows
  {
    if scan == [] then []
    else (if NameMatches(name, rows[scan[0]].name) then [rows[scan[0]]] else []) + Matching(rows, scan[1..], name)
  }

  /** The ids the name filter keeps. */
  ghost function MatchingIds<S>(rows: map<int, Row<S>>, name: Option<string>): set<int> {
    set id | id in rows && NameMatches(name, rows[id].name)
  }

  /** LINQ `Skip`: a count at or below zero skips nothing. */
  function Skip<T>(xs: seq<T>, n: int): seq<T> {
    if n <= 0 then xs else if n >= |xs| then [] else xs[n..]
  }

  /** LINQ `Take`. */
  function Take<T>(xs: seq<T>, n: int): seq<T> {
    if n <= 0 then [] else if n >= |xs| then xs else xs[..n]
  }

  function ProjectAll<S>(geo: Geo<S>, rows: seq<Row<S>>): seq<ReadDto<S>> {
    seq(|rows|, i requires 0 <= i < |rows| => Project(geo, rows[i]))
  }

  /** `GetAll`: clamp, filter, count, then skip `(page - 1) * pageSize` in 32-bit arithmetic and take a page. */
  function GetAll<S>(geo: Geo<S>, st: Store<S>, page: int, pageSize: int, name: Option<string>, scan: seq<int>): Reply<Paged<ReadDto<S>>>
    requires Enumerates(scan, st.rows)
  {
    var p := ClampPage(page);
    var ps := ClampPageSize(pageSize);
    var all := Matching(st.rows, scan, name);
    var items := Take(Skip(all, Wrap32((p - 1) * ps)), ps);
    Reply(Ok, Succeed(Paged(|all|, p, ps, ProjectAll(geo, items)), "Success"))
  }

  /** The page is at least 1 and the page size within 1..500; values in range are echoed, others become 1 and 50. */
  lemma GetAllClamps<S>(geo: Geo<S>, st: Store<S>, page: int, pageSize: int, name: Option<string>, scan: seq<int>)
    requires Enumerates(scan, st.rows)
    ensures var r := GetAll(geo, st, page, pageSize, name, scan);
      var p := r.body.data.value;
      r.status == Ok && r.body.success && 1 <= p.page && 1 <= p.pageSize <= 500
      && (page >= 1 ==> p.page == page) && (page < 1 ==> p.page == 1)
      && (1 <= pageSize <= 500 ==> p.pageSize == pageSize)
      && (pageSize < 1 || pageSize > 500 ==> p.pageSize == 50)
  {
  }

  /** The filtered rows of a duplicate-free scan are as many as the matching ids it lists. */
  lemma {:induction false} MatchingCount<S>(rows: map<int, Row<S>>, scan: seq<int>, name: Option<string>)
    requires forall i :: 0 <= i < |scan| ==> scan[i] in rows
    requires forall i, j :: 0 <= i < j < |scan| ==> scan[i] != scan[j]
    ensures |Matching(rows, scan, name)| == |set id | id in scan && NameMatches(name, rows[id].name)|
  {
    var ids := set id | id in scan && NameMatches(name, rows[id].name);
    if scan != [] {
      var rest := set id | id in scan[1..] && NameMatches(name, rows[id].name);
      MatchingCount(rows, scan[1..], name);
      assert scan[0] !in rest by {
        forall k | 0 <= k < |scan| - 1
          ensures scan[1..][k] != scan[0]
        {
          assert scan[1..][k] == scan[k + 1];
        }
      }
      if NameMatches(name, rows[scan[0]].name) {
        assert ids == rest + {scan[0]};
      } else {
        assert ids == rest;
      }
    } else {
      assert ids == {};
    }
  }

  /** `Total` is the number of rows the name filter keeps; the page, the page size and the table order play no part. */
  lemma GetAllTotal<S>(geo: Geo<S>, st: Store<S>, page: int, pageSize: int, name: Option<string>, scan: seq<int>)
    requires Enumerates(scan, st.rows)
    ensures GetAll(geo, st, page, pageSize, name, scan).body.data.value.total == |MatchingIds(st.rows, name)|
    ensures name.None? || name == Some([]) ==> GetAll(geo, st, page, pageSize, name, scan).body.data.value.total == |st.rows|
  {
    MatchingCount(st.rows, scan, name);
    forall id | id in scan
      ensures id in st.rows
    {
      var i :| 0 <= i < |scan| && scan[i] == id;
    }
    var viaScan := set id | id in scan && NameMatches(name, st.rows[id].name);
    forall id | id in MatchingIds(st.rows, name)
      ensures id in viaScan
    {
    }
    assert viaScan == MatchingIds(st.rows, name);
    if name.None? || name == Some([]) {
      forall id | id in st.rows
        ensures id in MatchingIds(st.rows, name)
      {
      }
      assert MatchingIds(st.rows, name) == st.rows.Keys;
    }
  }

  /**
   * Where `(page - 1) * pageSize` fits in 32 bits, the page holds
   * `max(0, min(pageSize, total - (page - 1) * pageSize))` items: the filtered
   * rows from position `(page - 1) * pageSize` on, projected, with no type.
   */
  lemma GetAllPage<S>(geo: Geo<S>, st: Store<S>, page: int, pageSize: int, name: Option<string>, scan: seq<int>)
    requires Enumerates(scan, st.rows)
    requires IsInt32((ClampPage(page) - 1) * ClampPageSize(pageSize))
    ensures var r := GetAll(geo, st, page, pageSize, name, scan).body.data.value;
      var all := Matching(st.rows, scan, name);
      var skip := (r.page - 1) * r.pageSize;
      |r.items| == Max(0, Min(r.pageSize, r.total - skip)) &&
      forall i :: 0 <= i < |r.items| ==> 0 <= skip + i < |all| && r.items[i] == Project(geo, all[skip + i]) && r.items[i].typ == ""
  {
    var p := ClampPage(page);
    var ps := ClampPageSize(pageSize);
    var all := Matching(st.rows, scan, name);
    assert Wrap32((p - 1) * ps) == (p - 1) * ps;
    var items := Take(Skip(all, (p - 1) * ps), ps);
    assert GetAll(geo, st, page, pageSize, name, scan).body.data.value == Paged(|all|, p, ps, ProjectAll(geo, items));
    ProductNonNegative(p - 1, ps);
    TakeAfterSkip(all, (p - 1) * ps, ps);
  }

  lemma ProductNonNegative(a: int, b: int)
    requires 0 <= a && 0 <= b
    ensures 0 <= a * b
  {
  }

  /** Skipping `skip` and taking `n` leaves `max(0, min(n, |xs| - skip))` items, from position `skip` on. */
  lemma TakeAfterSkip<T>(xs: seq<T>, skip: int, n: int)
    requires 0 <= skip && 1 <= n
    ensures var ys := Take(Skip(xs, skip), n);
      |ys| == Max(0, Min(n, |xs| - skip)) && forall i :: 0 <= i < |ys| ==> ys[i] == xs[skip + i]
  {
  }

  function Min(a: int, b: int): int {
    if a <= b then a else b
  }

  function Max(a: int, b: int): int {
    if a >= b then a else b
  }

  /**
   * Page 4294969 of size 500 skips `4294968 * 500`, which wraps to a negative
   * count, so it answers the rows of page 1 however far past the end it lies.
   */
  lemma GetAllOffsetOverflows<S>(geo: Geo<S>, st: Store<S>, name: Option<string>, scan: seq<int>)
    requires Enumerates(scan, st.rows)
    ensures IsInt32(4294969) && Wrap32((4294969 - 1) * 500) < 0
    ensures GetAll(geo, st, 4294969, 500, name, scan).body.data.value.items ==
            GetAll(geo, st, 1, 500, name, scan).body.data.value.items
  {
    assert Wrap32(4294968 * 500) == -2147483296;
  }

  // ---------------------------------------------------------------- update

  /** The row after an update's field assignments: id and photos kept. */
  function Updated<S>(geo: Geo<S>, f: Row<S>, dto: FeatureInput): Row<S> {
    f.(name := dto.name, wkt := dto.wkt, geometry := ParseWkt(geo, dto.wkt), typ := StoredType(dto.typ))
  }

  /** `UpdateEf`. */
  function Update<S>(geo: Geo<S>, st: Store<S>, modelValid: bool, id: int, dto: FeatureInput): Step<ReadDto<S>, S> {
    if !modelValid then Step(Reply(BadRequest, Fail(ValidationFailed)), st)
    else if id !in st.rows then Step(Reply(NotFound, Fail(FeatureNotFound)), st)
    else
      var geom := ParseWkt(geo, dto.wkt);
      if geom.None? then Step(Reply(BadRequest, Fail(InvalidWkt)), st)
      else
        var f := st.rows[id];
        if IntersectsBlocking(st.rows, geom.value, Some(f.id), Meets(geo)) then
          Step(Reply(BadRequest, Fail(BlockedUpdate)), st)
        else
          var g := Updated(geo, f, dto);
          Step(Reply(Ok, Succeed(Project(geo, g), "Updated")), Store(st.rows[id := g], st.nextId))
  }

  /** An unknown id is reported before the text is looked at; every failure leaves the store unchanged. */
  lemma UpdateFailuresChangeNothing<S>(geo: Geo<S>, st: Store<S>, modelValid: bool, id: int, dto: FeatureInput)
    ensures var s := Update(geo, st, modelValid, id, dto);
      (s.reply.status != Ok ==> s.store == st && !s.reply.body.success)
      && (modelValid && id !in st.rows ==> s.reply.status == NotFound && s.reply.body.message == FeatureNotFound)
      && (modelValid && id in st.rows && geo.read(dto.wkt).None? ==> s.reply.body.message == InvalidWkt)
  {
  }

  /**
   * An update is blocked exactly when some other `"B"` row intersects the new
   * geometry: the row being updated never blocks itself.
   */
  lemma UpdateExcludesItself<S>(geo: Geo<S>, st: Store<S>, id: int, dto: FeatureInput)
    requires ValidStore(st) && id in st.rows && geo.read(dto.wkt).Some?
    ensures var g := Geometry(geo.read(dto.wkt).value, Srid);
      Update(geo, st, true, id, dto).reply.status == Ok <==>
        forall k :: k in st.rows && k != id ==> !Blocks(st.rows[k], g, None, Meets(geo))
  {
    var g := Geometry(geo.read(dto.wkt).value, Srid);
    IntersectsBlockingIff(st.rows, g, Some(id), Meets(geo));
    if exists k :: k in st.rows && k != id && Blocks(st.rows[k], g, None, Meets(geo)) {
      var k :| k in st.rows && k != id && Blocks(st.rows[k], g, None, Meets(geo));
      assert Blocks(st.rows[k], g, Some(id), Meets(geo));
    }
  }

  /**
   * A successful update rewrites name, text, geometry and type of that one
   * row, keeps its id and photos, touches no other row, and reads back as
   * it answered.
   */
  lemma UpdateRewritesOneRow<S>(geo: Geo<S>, st: Store<S>, modelValid: bool, id: int, dto: FeatureInput)
    requires ValidStore(st)
    ensures var s := Update(geo, st, modelValid, id, dto);
      ValidStore(s.store) &&
      (s.reply.status == Ok ==>
        id in st.rows && s.store.rows.Keys == st.rows.Keys && s.store.nextId == st.nextId &&
        (forall k :: k in st.rows && k != id ==> s.store.rows[k] == st.rows[k]) &&
        s.store.rows[id].id == id && s.store.rows[id].photos == st.rows[id].photos &&
        s.store.rows[id].name == dto.name && s.store.rows[id].wkt == dto.wkt &&
        s.store.rows[id].geometry == ParseWkt(geo, dto.wkt) &&
        s.store.rows[id].typ == StoredType(dto.typ) &&
        Get(geo, s.store, id).body.data == s.reply.body.data)
  {
  }

  // ---------------------------------------------------------------- photos

  /** How many of the files are not empty. */
  function NonEmptyCount(files: seq<Upload>): nat {
    if files == [] then 0
    else NonEmptyCount(files[..|files| - 1]) + (if files[|files| - 1].length <= 0 then 0 else 1)
  }

  /**
   * One `/photos/<name><extension>` URL per non-empty file, in upload order;
   * `newName(i)` is the name generated for the `i`-th file.
   */
  function PhotoUrls(files: seq<Upload>, newName: nat -> string): (r: seq<string>)
    ensures |r| == NonEmptyCount(files)
    ensures forall i :: 0 <= i < |r| ==> StartsWith(r[i], PhotosPath)
  {
    if files == [] then []
    else
      var n := |files| - 1;
      PhotoUrls(files[..n], newName) + (if files[n].length <= 0 then [] else [PhotosPath + newName(n) + files[n].ext])
  }

  /** `UploadPhotos`. */
  function UploadPhotos<S>(st: Store<S>, id: int, files: Option<seq<Upload>>, newName: nat -> string): Step<PhotoList, S> {
    if id !in st.rows then Step(Reply(NotFound, Fail(FeatureNotFound)), st)
    else if files.None? || |files.value| == 0 then Step(Reply(BadRequest, Fail(NoFiles)), st)
    else
      var f := st.rows[id];
      var g := f.(photos := f.photos + PhotoUrls(files.value, newName));
      Step(Reply(Ok, Succeed(PhotoList(g.id, g.photos), "Uploaded")), Store(st.rows[id := g], st.nextId))
  }

  /**
   * An upload to an unknown id is not found and one without files is
   * refused, both changing nothing; otherwise the row's photos become the old
   * list followed by one `/photos/` URL per non-empty file, nothing else
   * changes, and the reply lists the new photos.
   */
  lemma UploadAppends<S>(st: Store<S>, id: int, files: Option<seq<Upload>>, newName: nat -> string)
    requires ValidStore(st)
    ensures var s := UploadPhotos(st, id, files, newName);
      ValidStore(s.store)
      && (s.reply.status != Ok ==> s.store == st)
      && (id !in st.rows ==> s.reply.status == NotFound)
      && (id in st.rows && (files.None? || files == Some([])) ==> s.reply.status == BadRequest && s.reply.body.message == NoFiles)
      && (s.reply.status == Ok ==>
        id in st.rows && files.Some? &&
        var photos := s.store.rows[id].photos;
        photos[..|st.rows[id].photos|] == st.rows[id].photos &&
        |photos| == |st.rows[id].photos| + NonEmptyCount(files.value) &&
        (forall i :: |st.rows[id].photos| <= i < |photos| ==> StartsWith(photos[i], PhotosPath)) &&
        s.store.rows[id] == st.rows[id].(photos := photos) &&
        (forall k :: k in st.rows && k != id ==> s.store.rows[k] == st.rows[k]) &&
        s.store.rows.Keys == st.rows.Keys &&
        s.reply.body.data == Some(PhotoList(id, photos)))
  {
    var s := UploadPhotos(st, id, files, newName);
    if s.reply.status == Ok {
      var old_ := st.rows[id].photos;
      var urls := PhotoUrls(files.value, newName);
      var photos := s.store.rows[id].photos;
      assert photos == old_ + urls;
      forall i | |old_| <= i < |photos|
        ensures StartsWith(photos[i], PhotosPath)
      {
        assert photos[i] == urls[i - |old_|];
      }
    }
  }

  // ---------------------------------------------------------------- delete

  /** `DeleteEf`. */
  function Delete<S>(st: Store<S>, id: int): Step<Deleted, S> {
    if id !in st.rows then Step(Reply(NotFound, Fail(FeatureNotFound)), st)
    else Step(Reply(Ok, Succeed(Deleted(id), "Deleted")), Store(st.rows - {id}, st.nextId))
  }

  /**
   * A delete of a stored id removes that row alone and keeps the identity
   * counter, so the id is never handed out again; a delete of an unknown id
   * is not found and changes nothing, and so is a second delete of the same id.
   */
  lemma DeleteRemovesOnce<S>(geo: Geo<S>, st: Store<S>, id: int, modelValid: bool, dto: FeatureInput)
    requires ValidStore(st)
    ensures var s := Delete(st, id);
      ValidStore(s.store)
      && (s.reply.status == Ok <==> id in st.rows)
      && (s.reply.status != Ok ==> s.reply.status == NotFound && s.store == st)
      && (s.reply.status == Ok ==>
            s.store.rows.Keys == st.rows.Keys - {id} &&
            (forall k :: k in s.store.rows ==> s.store.rows[k] == st.rows[k]))
      && Delete(s.store, id).reply.status == NotFound && Delete(s.store, id).store == s.store
      && (id in st.rows && Create(geo, s.store, modelValid, dto).reply.status == Created ==>
            Create(geo, s.store, modelValid, dto).reply.body.data.value.id != id)
  {
  }
}
