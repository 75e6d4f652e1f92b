# BasarSoftProje feature store, modelled in Dafny

BasarSoftProje stores named map features: points, line strings and polygons. Each
feature has a WKT text, a type letter (`A`, `B`, `C`) and a list of photo addresses.
An ASP.NET controller serves them from PostGIS, and a React front end draws, lists,
counts and edits them. A feature of type `B` blocks any new or moved feature whose
geometry intersects it.

This project models the core of both sides:

- **`WktGrammar`, `WktShape`, `Validators`** (`backend/Domain/Validators.cs`).
  - The three anchored, case-insensitive patterns are a concrete syntax tree with a printer and a hand-written recursive-descent recogniser. The two are proved inverse.
  - The documented consequences are proved from them: one pair for a point, at least two for a line, one ring for a polygon, the number forms, case and whitespace, no trailing text.
  - `ValidName` is a trimmed length check, counted in UTF-16 code units as .NET `String.Length` counts.
  - The controller does not call `ValidName` or `ValidWkt`; its actions decide what they store with the geometry reader and the database's column limits. The validators are therefore modelled on their own. A lemma that a name or text passes them says what the validators return, not what the actions accept.
- **`FeatureRepository`** (`backend/Infrastructure/Repositories/FeatureRepository.cs`).
  - The two spatial queries are functions over the rows.
  - Geometry is an abstract type, and `Intersects` is a parameter.
- **`FeatureStore`, `Controllers`** (`backend/Controllers/Controller.cs`).
  - Each endpoint is a transition on a store value: the rows by id and the identity counter. Each transition returns the reply it sends.
  - Its properties are proved as lemmas.
  - The class `Controllers.FeaturesController` holds the rows and the counter as fields. Its endpoint methods change them in place. Each method is proved to answer, and to leave the store, as its transition says.
  - The WKT reader and writer of the geometry library are a parameter record `Geo`.
- **`MapView`** (`frontend/src/components/Map.tsx`).
  - The WKT text built from drawn vertices. It is proved to pass `Validators.ValidWkt` and to list the drawn vertices.
  - The photo-address normaliser.
  - The error toast that drops quick repeats.
  - The area-selection tally.
  - The removal of unsaved features from the vector source.
  - The message shown when a create fails.
- **`FeatureListView`** (`frontend/src/components/FeatureList.tsx`).
  - The type label, the sort comparator and the in-place sort of a copy.
  - The sort toggle, the search, the delete, and the page buttons and selector, as methods of a page class.
- **`StatisticsView`** (`frontend/src/components/Statistics.tsx`).
  - The keyword counts.
  - The newest five features after the in-place sort.
  - The type icon and label, which take the same branches.
  - The fact that the back end answers at most 50 rows.
- **`FeatureFormView`** (`frontend/src/components/FeatureForm.tsx`).
  - The submit guards and what is sent.
  - The polygon names and the coordinate description.
  - The resets when the form opens and closes.
- **`Strings`, `Sequences`, `Wrappers`.** Supporting modules:
  - .NET / JavaScript string operations on ASCII.
  - `Array.prototype.filter` and an insertion sort standing for `Array.prototype.sort`.
  - `Option`.

The `GetAll` name filter is `x.Name.Contains(name)` (backend/Controllers/Controller.cs:135),
which is case-sensitive, so `FeatureStore.NameMatches` is a case-sensitive
substring test.

## Model

| member | source | states |
|---|---|---|
| Validators.ValidName | backend/Domain/Validators.cs:11 | `ValidName`: present, not blank, and at most 200 UTF-16 code units once trimmed; stated by `ValidNameIff` |
| Validators.ValidNameIff | backend/Domain/Validators.cs:11 | a name is valid exactly when it is present and trims to a non-empty text of at most 200 UTF-16 code units; any non-blank name of at most 100 characters once trimmed is valid |
| Validators.AstralNameRejected | backend/Domain/Validators.cs:11 | 101 copies of U+1F4CD are 101 characters but 202 code units, so the name is refused |
| Strings.Utf16LengthBounds | backend/Domain/Validators.cs:11 | a text's UTF-16 length lies between its character count and twice it: equal to the count when every character is at most U+FFFF, twice it when every character is above |
| Validators.ValidWkt | backend/Domain/Validators.cs:12 | `ValidWkt`: present, not blank, and matched by one of the three patterns; stated by `ValidWktIff` |
| Validators.Matches | backend/Domain/Validators.cs:7-9 | one of the three anchored, case-ignoring patterns matches the text; its language is stated by `WktGrammar.ParseIffText`, `PairsAndParentheses` and the accepted and rejected examples below |
| Validators.ValidWktIff | backend/Domain/Validators.cs:12 | missing, empty or whitespace-only text is rejected; a text is valid exactly when one of the three patterns accepts it |
| Validators.PairsAndParentheses | backend/Domain/Validators.cs:7-9 | an accepted point has one pair of parentheses and no comma; an accepted line has one pair and at least one comma; an accepted polygon has exactly two pairs (one ring) and at least one comma |
| Validators.WellFormedTextValid | backend/Domain/Validators.cs:7-12 | the text of every well-formed tree passes `ValidWkt` |
| Validators.OpenTwoPairPolygonAccepted | backend/Domain/Validators.cs:9 | a polygon ring need not be closed and may have just two pairs |
| Validators.SpacedLowerCasePointAccepted | backend/Domain/Validators.cs:7 | keywords match in any case, and whitespace may surround every token |
| Validators.MixedCaseLineAccepted | backend/Domain/Validators.cs:8 | a mixed-case line string with whitespace around its comma is accepted |
| Validators.TwoPairPointRejected | backend/Domain/Validators.cs:7 | a point with two pairs is rejected |
| Validators.OnePairLineRejected | backend/Domain/Validators.cs:8 | a line string with one pair is rejected |
| Validators.InnerRingRejected | backend/Domain/Validators.cs:9 | a polygon with an inner ring is rejected |
| Validators.NumberFormsRejected | backend/Domain/Validators.cs:7-9 | `+5`, `1e3`, `.5` and `5.` are not coordinates |
| Validators.OtherKeywordsRejected | backend/Domain/Validators.cs:7-9 | `MULTIPOINT` and `GEOMETRYCOLLECTION` texts are rejected |
| Validators.KeywordCaseIgnored | backend/Domain/Validators.cs:7-9 | changing the letter case of the keyword never changes whether a pattern matches |
| Validators.PointOnly | backend/Domain/Validators.cs:7-9 | only the point pattern can match a text that starts with `POINT` |
| Validators.LineOnly | backend/Domain/Validators.cs:7-9 | only the line pattern can match a text that starts with `LINESTRING` |
| Validators.SameKind | backend/Domain/Validators.cs:7-9 | if one pattern accepts `s` and another accepts an extension of `s`, they are the same pattern |
| Validators.TrailingTextRejected | backend/Domain/Validators.cs:7-12 | a valid text followed by anything other than whitespace is invalid (the `^…$` anchors) |
| Validators.KeywordAfterLead | backend/Domain/Validators.cs:7-9 | an accepted text is leading whitespace, the keyword in some case, then a sound body |
| Validators.KeywordLettersRuleOut | backend/Domain/Validators.cs:7-9 | a text that starts with a letter other than the keyword's first, or has a third letter other than the keyword's third, is rejected by that pattern |
| Validators.MatchNotBlank | backend/Domain/Validators.cs:12 | a text a pattern matches is not blank, so the blank guard never changes the verdict |
| WktGrammar.SpanWhite | backend/Domain/Validators.cs:7-9 | the greedy `\s*`: the split rejoins to the input, the prefix is all white, and the rest does not start with white |
| WktGrammar.SpanDigits | backend/Domain/Validators.cs:7-9 | the greedy `\d*`: the split rejoins to the input, the prefix is all digits, and the rest does not start with a digit |
| WktGrammar.ParseNum | backend/Domain/Validators.cs:7-9 | a coordinate read off the front is well formed and prints back as what it consumed |
| WktGrammar.ParsePair | backend/Domain/Validators.cs:7-9 | a pair read off the front is well formed, prints back as what it consumed, and consumes something |
| WktGrammar.ParseTails | backend/Domain/Validators.cs:8-9 | the further `, pair` items read are well formed and print back as what they consumed |
| WktGrammar.ParseRing | backend/Domain/Validators.cs:7-9 | a coordinate list read is well formed, prints back as what it consumed, and stops before neither white space nor a comma |
| WktGrammar.ParseKeyword | backend/Domain/Validators.cs:7-9 | the keyword read spells the pattern's keyword ignoring case |
| WktGrammar.ParseOpening | backend/Domain/Validators.cs:7-9 | what is read after the keyword is `\s*\(\s*`, plus `\(\s*` for a polygon |
| WktGrammar.ParseClosing | backend/Domain/Validators.cs:7-9 | what is read after the list is `)`, or `)\s*)` for a polygon |
| WktGrammar.Parse | backend/Domain/Validators.cs:7-9 | soundness: an accepted text is the text of the well-formed tree of that kind that is returned |
| WktGrammar.ParseComplete | backend/Domain/Validators.cs:7-9 | completeness: the text of every well-formed tree is accepted, and that same tree is returned |
| WktGrammar.ParseIffText | backend/Domain/Validators.cs:7-9 | the texts a pattern accepts are exactly the texts of well-formed trees of its kind |
| WktGrammar.ParseTailsComplete | backend/Domain/Validators.cs:8-9 | a well-formed list of further pairs, whitespace and `)` reads back as itself |
| WktGrammar.ParseRingComplete | backend/Domain/Validators.cs:7-9 | a well-formed coordinate list followed by `)` reads back as itself |
| WktShape.TextCounts | backend/Domain/Validators.cs:7-9 | a well-formed text opens and closes `Depth(kind)` parentheses and holds one comma fewer than its pairs |
| WktShape.BodySound | backend/Domain/Validators.cs:7-9 | after the keyword only whitespace, digits and `-.,()` occur, with every `.` between digits and every `-` before a digit |
| WktShape.Accepted | backend/Domain/Validators.cs:7-9 | an accepted string is white, keyword, sound body, counted parentheses and commas, `)`, then only whitespace |
| WktShape.TextInjective | backend/Domain/Validators.cs:7-9 | distinct well-formed trees of one kind print differently: the grammar is unambiguous |
| WktShape.CountAppend | backend/Domain/Validators.cs:7-9 | occurrences of a character in a concatenation add up |
| FeatureRepository.Where | backend/Infrastructure/Repositories/FeatureRepository.cs:15 | the rows kept are exactly those satisfying the test, unchanged |
| FeatureRepository.Any | backend/Infrastructure/Repositories/FeatureRepository.cs:25 | holds exactly when some row is present |
| FeatureRepository.Intersecting | backend/Infrastructure/Repositories/FeatureRepository.cs:11-17 | `IntersectsAsync` returns exactly the rows with a geometry intersecting `g`, each unchanged |
| FeatureRepository.IntersectsBlocking | backend/Infrastructure/Repositories/FeatureRepository.cs:19-26 | the two `Where` filters then `AnyAsync`; stated by `IntersectsBlockingIff`, `OtherTypesNeverBlock`, `ExcludeOnlyWeakens` and `BlockingIsIntersectingB` |
| FeatureRepository.IntersectsBlockingIff | backend/Infrastructure/Repositories/FeatureRepository.cs:19-26 | the blocking query holds exactly when some row has type `"B"`, a geometry intersecting `g`, and an id other than the excluded one |
| FeatureRepository.OtherTypesNeverBlock | backend/Infrastructure/Repositories/FeatureRepository.cs:23 | rows whose type is not exactly `"B"` (including `"b"`) never make the query hold |
| FeatureRepository.ExcludeOnlyWeakens | backend/Infrastructure/Repositories/FeatureRepository.cs:24 | an excluded id can turn a hit into a miss, never a miss into a hit |
| FeatureRepository.BlockingIsIntersectingB | backend/Infrastructure/Repositories/FeatureRepository.cs:11-26 | with no excluded id, the query holds exactly when `IntersectsAsync` returns a `"B"` row |
| FeatureStore.ParseWkt | backend/Controllers/Controller.cs:256-268 | the text reads exactly when the reader accepts it, and the geometry is stamped SRID 4326 |
| FeatureStore.StoredType | backend/Controllers/Controller.cs:49 | a missing or blank type is stored as `"A"`, any other type trimmed; the stored type is never blank and never padded |
| FeatureStore.Create | backend/Controllers/Controller.cs:40-68 | `CreateEf` as one step of the table: the invalid-body, unreadable-text and blocking-`B` refusals in that order, otherwise one new row and a 201 reply; its contract is stated by `CreateOutcome`, `CreateAddsOneRow` and `CreateIgnoresOwnType` |
| FeatureStore.CreateOutcome | backend/Controllers/Controller.cs:40-56 | a create fails, in this order, for an invalid request, an unreadable text or an intersecting `"B"` row, and only then; a failed create leaves the store as it was |
| FeatureStore.CreateAddsOneRow | backend/Controllers/Controller.cs:49-67 | a successful create adds exactly one row under a fresh id, with the request's name and text, the parsed geometry, no photos and the stored type, and answers its projection with the type empty |
| FeatureStore.CreateIgnoresOwnType | backend/Controllers/Controller.cs:49-52 | the candidate's own type plays no part in the outcome |
| FeatureStore.BOverAIsAccepted | backend/Controllers/Controller.cs:49-56 | a `"B"` line created over an `"A"` row is accepted, so "no `B` row intersects another row" is not an invariant |
| FeatureStore.FirstUnreadable | backend/Controllers/Controller.cs:81-86 | the first unreadable position, if any: every earlier text reads; `None` exactly when all read |
| FeatureStore.BatchRowsShape | backend/Controllers/Controller.cs:85-89 | the batch rows take consecutive ids from the counter in input order, one per item |
| FeatureStore.AddRange | backend/Controllers/Controller.cs:73-101 | `AddRangeEf` as one step: an empty or missing list, an invalid body, or the first unreadable text refuses the whole batch; otherwise every item is added in order in one commit; stated by `AddRangeAllOrNothing`, `AddRangeNamesFirstUnreadable`, `AddRangeAddsInOrder` and `AddRangeAnswersEachRow` |
| FeatureStore.AddRangeAllOrNothing | backend/Controllers/Controller.cs:73-100 | a batch succeeds exactly when the list is present and non-empty, the request valid and every text readable; otherwise the store is unchanged; the stored rows play no part (no blocking check) |
| FeatureStore.AddRangeNamesFirstUnreadable | backend/Controllers/Controller.cs:81-84 | a batch with an unreadable text names the first one in input order and changes nothing |
| FeatureStore.AddRangeAddsInOrder | backend/Controllers/Controller.cs:80-89 | a successful batch keeps every old row and adds one row per item, in order, under fresh ids, with type `""` and no photos |
| FeatureStore.AddRangeAnswersEachRow | backend/Controllers/Controller.cs:91-100 | the reply counts the items and projects each new row in input order |
| FeatureStore.BatchItemsProjectRows | backend/Controllers/Controller.cs:91-97 | once the batch is merged over any rows, ids `start` to `start + n - 1` are present and reply item `i` is the projection of the row under `start + i` |
| FeatureStore.BatchMerge | backend/Controllers/Controller.cs:88-89 | merging a batch keeps old rows, adds one row per item and keeps the store valid |
| FeatureStore.Get | backend/Controllers/Controller.cs:106-122 | `GetEf`: not found, or the stored row with its geometry written back as text; stated by `GetFinds` and `GetAfterCreate` |
| FeatureStore.GetFinds | backend/Controllers/Controller.cs:106-121 | a lookup finds exactly the stored ids and answers the written geometry (or the stored text when there is none) with no type |
| FeatureStore.GetAfterCreate | backend/Controllers/Controller.cs:58-67 | reading back a created feature gives what the create answered |
| FeatureStore.Wrap32 | backend/Controllers/Controller.cs:138 | C# unchecked `int` arithmetic: in range, equal to the input when it fits, congruent modulo 2^32 |
| FeatureStore.GetAll | backend/Controllers/Controller.cs:126-159 | `GetAll`: the clamped page and size, the case-sensitive name filter, the total and one page of rows; stated by `GetAllClamps`, `GetAllTotal`, `GetAllPage` and `GetAllOffsetOverflows` |
| FeatureStore.GetAllClamps | backend/Controllers/Controller.cs:132-133 | page ≤ 0 becomes 1; a page size outside 1..500 becomes 50; values in range are echoed |
| FeatureStore.MatchingCount | backend/Controllers/Controller.cs:135-136 | the filtered rows of a duplicate-free scan are as many as the matching ids |
| FeatureStore.GetAllTotal | backend/Controllers/Controller.cs:135-136 | the total counts the rows whose name contains the filter (all rows for no or an empty filter), whatever the page, page size or table order |
| FeatureStore.GetAllPage | backend/Controllers/Controller.cs:137-148 | without 32-bit overflow, the page holds `max(0, min(pageSize, total - (page-1)*pageSize))` items: the filtered rows from that offset on, projected |
| FeatureStore.TakeAfterSkip | backend/Controllers/Controller.cs:138-139 | skipping then taking leaves `max(0, min(n, |xs| - skip))` items from the offset on |
| FeatureStore.GetAllOffsetOverflows | backend/Controllers/Controller.cs:138 | page 4294969 of size 500 wraps to a negative skip and answers the rows of page 1 |
| FeatureStore.Update | backend/Controllers/Controller.cs:165-199 | `UpdateEf` as one step: the refusals (invalid body, not found, unreadable text, a blocking `B` line other than itself), otherwise name, text, geometry and type rewritten; stated by `UpdateFailuresChangeNothing`, `UpdateExcludesItself` and `UpdateRewritesOneRow` |
| FeatureStore.UpdateFailuresChangeNothing | backend/Controllers/Controller.cs:165-185 | an unknown id is reported before the text is read; every failed update leaves the store unchanged |
| FeatureStore.UpdateExcludesItself | backend/Controllers/Controller.cs:183-185 | an update is blocked exactly when some other `"B"` row intersects the new geometry |
| FeatureStore.UpdateRewritesOneRow | backend/Controllers/Controller.cs:178-198 | a successful update rewrites name, text, geometry and type of that row, keeps its id and photos, touches no other row and reads back as answered |
| FeatureStore.PhotoUrls | backend/Controllers/Controller.cs:217-229 | one `/photos/` URL per non-empty file |
| FeatureStore.UploadPhotos | backend/Controllers/Controller.cs:205-239 | the photo upload as one step: no files or an unknown id is refused, otherwise one URL per non-empty file appended to the list; stated by `UploadAppends` and `PhotoUrls` |
| FeatureStore.UploadAppends | backend/Controllers/Controller.cs:205-238 | an unknown id is not found and no files is refused, both changing nothing; otherwise the photos become the old list then one `/photos/` URL per non-empty file, in order, and nothing else changes |
| FeatureStore.Delete | backend/Controllers/Controller.cs:244-254 | `DeleteEf` as one step: not found, or the row removed; stated by `DeleteRemovesOnce` |
| FeatureStore.DeleteRemovesOnce | backend/Controllers/Controller.cs:244-253 | a delete removes that row alone and keeps the counter; an unknown id, or the same id a second time, is not found and changes nothing |
| Controllers.FeaturesController.constructor | backend/Controllers/Controller.cs:31-35 | the controller starts over a valid table |
| Controllers.FeaturesController.CreateEf | backend/Controllers/Controller.cs:40-67 | answers and changes the table as `FeatureStore.Create` prescribes, and keeps the table valid |
| Controllers.FeaturesController.AddRangeEf | backend/Controllers/Controller.cs:73-100 | reads every text in a loop, then commits at once; answers and changes the table as `FeatureStore.AddRange` prescribes |
| Controllers.FeaturesController.UpdateEf | backend/Controllers/Controller.cs:165-198 | edits the tracked row field by field; answers and changes the table as `FeatureStore.Update` prescribes |
| Controllers.FeaturesController.UploadPhotos | backend/Controllers/Controller.cs:205-238 | builds the URL list in a loop; answers and changes the table as `FeatureStore.UploadPhotos` prescribes |
| Controllers.FeaturesController.DeleteEf | backend/Controllers/Controller.cs:244-253 | answers and changes the table as `FeatureStore.Delete` prescribes |
| MapView.WktFromCoordinates | frontend/src/components/Map.tsx:624-635 | `getWKTFromCoordinates`, `None` where a point has no vertex; stated by `GeneratedTextOfTree`, `GeneratedTextReadsBack` and `ShortTextRejected` |
| MapView.GeneratedTextReadsBack | frontend/src/components/Map.tsx:624-635 | with enough vertices, the text built is accepted by the pattern of its draw type and lists the drawn vertices: only the first for a point, all in order with no closing vertex added for a line or ring |
| MapView.GeneratedTextOfTree | frontend/src/components/Map.tsx:624-635 | the text built for a draw type is the printed form of the tree of the vertices it lists |
| MapView.TreeOfOk | frontend/src/components/Map.tsx:624-635 | the syntax tree of the drawn vertices is well formed and lists them |
| MapView.NumOfRoundTrip | frontend/src/components/Map.tsx:626-631 | a whole number prints as its coordinate token and reads back as itself |
| MapView.PairsTextStep | frontend/src/components/Map.tsx:628 | `join(', ')` puts the separator between the first pair and the rest |
| MapView.ShortTextRejected | frontend/src/components/Map.tsx:627-632 | a line or ring drawn with fewer than two vertices gives text `Validators.ValidWkt` rejects |
| MapView.PairsTextNoCapitals | frontend/src/components/Map.tsx:628-631 | the joined vertex list holds no capital letter |
| MapView.NormalizePhotos | frontend/src/components/Map.tsx:201-206 | one normalised address per stored one, in order |
| MapView.NormalizePhoto | frontend/src/components/Map.tsx:201-205 | the `map` callback over stored photo addresses; stated by `NormalizedPhotoShape` and `NormalizePhotoIdempotent` |
| MapView.NormalizedPhotoShape | frontend/src/components/Map.tsx:201-205 | `http` addresses are kept; every other address ends up under `origin + "/photos/"`; one already under `/photos/` only gains the origin |
| MapView.NormalizePhotoIdempotent | frontend/src/components/Map.tsx:201-205 | with an `http` origin, normalising twice is normalising once |
| MapView.UploadedPhotosGainOrigin | frontend/src/components/Map.tsx:201-205 | every address an upload stores is shown as the origin followed by it |
| MapView.ErrorToast.constructor | frontend/src/components/Map.tsx:52-53 | no message shown yet, time 0, toast hidden |
| MapView.ErrorToast.ShowErrorOnce | frontend/src/components/Map.tsx:55-63 | shows exactly when the message differs from the last one or 1200 ms have passed; then records it and the time and shows a danger toast; otherwise changes nothing |
| MapView.RepeatTrace | frontend/src/components/Map.tsx:55-63 | a repeat within 1200 ms is dropped and does not restart the window; after 1200 ms it shows again; another message shows at once |
| MapView.TallyKey | frontend/src/components/Map.tsx:533-536 | no key for a feature without geometry; otherwise the record id, else the name, else a fresh key; stated by `FoundStep` |
| MapView.Found | frontend/src/components/Map.tsx:530-540 | the features the `boxend` handler collects, in visit order; stated by `FoundOncePerKey` and computed by `AreaTally` |
| MapView.AreaTally | frontend/src/components/Map.tsx:523-549 | the `boxend` loop collects `Found(visited)` and counts points, lines and polygons among them, with total their sum |
| MapView.FoundStep | frontend/src/components/Map.tsx:532-540 | one more visited feature is collected exactly when it has a geometry and an unseen key |
| MapView.TallyBound | frontend/src/components/Map.tsx:540-549 | the three counts together never exceed the features collected |
| MapView.FoundFromVisited | frontend/src/components/Map.tsx:530-540 | every collected feature was visited and has a geometry |
| MapView.FoundKeysDistinct | frontend/src/components/Map.tsx:532-538 | no two collected features share a key |
| MapView.FoundCoversVisited | frontend/src/components/Map.tsx:530-540 | every visited feature with a geometry is collected or shares its key with a collected one |
| MapView.FoundOncePerKey | frontend/src/components/Map.tsx:530-540 | only visited features with a geometry are collected, never two with one key, and every visited feature with a geometry is collected or shares a key with one that is |
| MapView.VectorSource.RemoveFeature | frontend/src/components/Map.tsx:100 | removes that feature and keeps the rest in order |
| MapView.VectorSource.RemoveEphemeralFeatures | frontend/src/components/Map.tsx:91-101 | the source keeps, in order, exactly the features with a saved record |
| MapView.RemoveOneMore | frontend/src/components/Map.tsx:94-100 | removing one more unsaved feature keeps exactly the survivors of the longer list |
| MapView.RemoveEphemeralIdempotent | frontend/src/components/Map.tsx:91-101 | removing the unsaved features twice removes nothing more |
| MapView.CreateFailureMessage | frontend/src/components/Map.tsx:588-592 | the message a failed create shows; stated by `CreateFailureMessageCases`, `BlockedCreateShowsRetry` and `OtherRefusalsShown` |
| MapView.CreateFailureMessageCases | frontend/src/components/Map.tsx:587-608 | a missing or blank message shows the fallback; one naming the `B` conflict shows the retry text; any other is shown as sent |
| MapView.BlockedCreateShowsRetry | frontend/src/components/Map.tsx:589-591 | the back end's blocked-create message is shown as the retry text |
| MapView.OtherRefusalsShown | frontend/src/components/Map.tsx:588-589 | `Invalid WKT` is shown as sent; a reply without a message (the framework's automatic answer to an invalid body) shows the fallback text |
| FeatureListView.TypeText | frontend/src/components/FeatureList.tsx:108-113 | `getFeatureTypeText`: the label of the first of `POINT`, `LINESTRING`, `POLYGON` the text contains, `Bilinmeyen` otherwise; stated by `TypeTextCases` |
| FeatureListView.TypeTextCases | frontend/src/components/FeatureList.tsx:108-113 | `Nokta` exactly when the text contains `POINT`; `Çizgi` exactly when it contains `LINESTRING` but not `POINT`; `Polygon` and `Bilinmeyen` likewise down the order |
| FeatureListView.CompoundTypeLabelled | frontend/src/components/FeatureList.tsx:108-109 | `MULTIPOINT(1 2)` is labelled `Nokta` |
| FeatureListView.LowerCaseValid | backend/Domain/Validators.cs:7 | `point(1 2)` passes `Validators.ValidWkt` |
| FeatureListView.LowerCaseUnlabelled | frontend/src/components/FeatureList.tsx:108-113 | the same `point(1 2)` is labelled `Bilinmeyen`: the keyword search is case-sensitive |
| FeatureListView.GeneratedTextLabel | frontend/src/components/FeatureList.tsx:108-113 | the text the map builds is labelled after its draw type |
| FeatureListView.LexLeTotal | frontend/src/components/FeatureList.tsx:60 | any two texts compare |
| FeatureListView.LexLeTransitive | frontend/src/components/FeatureList.tsx:60 | the text order chains |
| FeatureListView.LexLeAntisymmetric | frontend/src/components/FeatureList.tsx:60 | two texts each at or before the other are equal |
| FeatureListView.Order | frontend/src/components/FeatureList.tsx:50-62 | the sort comparator for a key and direction; stated by `OrderIsTotalPreorder` and `DescIsReversedAsc` |
| FeatureListView.OrderIsTotalPreorder | frontend/src/components/FeatureList.tsx:50-62 | every key and direction gives a consistent comparator |
| FeatureListView.DescIsReversedAsc | frontend/src/components/FeatureList.tsx:61 | a list in descending order is, reversed, in ascending order, and the other way round |
| FeatureListView.ToggledCases | frontend/src/components/FeatureList.tsx:66-73 | a click sorts by the clicked key; a new key starts ascending; the current key reverses, and a second click restores it |
| FeatureListView.PageCount | frontend/src/components/FeatureList.tsx:340 | `Math.max(1, Math.ceil(total / pageSize))`; stated by `CeilDivBounds` and `PageCountCovers` |
| FeatureListView.CeilDivBounds | frontend/src/components/FeatureList.tsx:340 | `ceil(total / pageSize)` is the least `c` with `total <= pageSize * c` |
| FeatureListView.PageCountCovers | frontend/src/components/FeatureList.tsx:340 | there is always a page, the pages hold every row, and with rows the last page is not empty |
| FeatureListView.DeleteDropsExactlyId | frontend/src/components/FeatureList.tsx:88 | the kept list and the entries with the deleted id make up the old list; every kept entry has another id; a second delete changes nothing |
| FeatureListView.FeatureListPage.constructor | frontend/src/components/FeatureList.tsx:12-22 | the initial state of the hooks |
| FeatureListView.FeatureListPage.SortedFeatures | frontend/src/components/FeatureList.tsx:48-64 | a copy sorted in place by the current key and direction: sorted, and a permutation of `features` |
| FeatureListView.FeatureListPage.ToggleSort | frontend/src/components/FeatureList.tsx:66-73 | key and direction become `Toggled(...)`; list and paging untouched |
| FeatureListView.FeatureListPage.SetSearchTerm | frontend/src/components/FeatureList.tsx:162 | only the search term changes |
| FeatureListView.FeatureListPage.HandleSearch | frontend/src/components/FeatureList.tsx:75-79 | page 1 and a request for it; a second identical request when the page was not 1 (the reload effect) |
| FeatureListView.FeatureListPage.FinishLoad | frontend/src/components/FeatureList.tsx:24-41 | on success the items (or none) and the total (or 0) are shown; otherwise the load error, the list kept |
| FeatureListView.FeatureListPage.ConfirmDelete | frontend/src/components/FeatureList.tsx:103-106 | the feature is marked and the dialog opened |
| FeatureListView.FeatureListPage.HandleDelete | frontend/src/components/FeatureList.tsx:81-101 | nothing without a marked feature; on success the list drops exactly the entries with its id and the dialog closes; otherwise the delete error, with the dialog and the marked feature kept |
| FeatureListView.FeatureListPage.Prev | frontend/src/components/FeatureList.tsx:204-343 | absent while loading or for an empty list (the pager is drawn only under a non-empty table) and disabled on page 1, so the page stays; otherwise one page back; a change reloads, and the reload (lines 24-27, 43-46) sets loading and clears the error; every other field is kept |
| FeatureListView.FeatureListPage.Next | frontend/src/components/FeatureList.tsx:204-346 | absent while loading or for an empty list and disabled from page `ceil(total / pageSize)` on, so the page stays; otherwise one page on, so never past it; a change reloads, setting loading and clearing the error; every other field is kept |
| FeatureListView.FeatureListPage.ChangePageSize | frontend/src/components/FeatureList.tsx:204-337 | absent while loading or for an empty list, so nothing changes; otherwise the new size and page 1, reloaded when either changed, the reload setting loading and clearing the error; every other field is kept |
| FeatureListView.FeatureListPage.Refresh | frontend/src/components/FeatureList.tsx:139-143 | disabled while loading; otherwise a request for the current page and size with no search term, loading set and the error cleared, every other field kept |
| StatisticsView.KeywordCount | frontend/src/components/Statistics.tsx:34-38 | a per-type count never exceeds the number of items |
| StatisticsView.KeywordCountAppend | frontend/src/components/Statistics.tsx:35-37 | counts add up over a concatenation |
| StatisticsView.CountsOverlap | frontend/src/components/Statistics.tsx:34-38 | one text that mentions `POINT` and `LINESTRING` is counted twice, so the counts can sum past the total |
| StatisticsView.FirstFiveAreNewest | frontend/src/components/Statistics.tsx:40-42 | the first five of a newest-first order are the newest: at most five, non-increasing id, and no left-out item with a larger id |
| StatisticsView.NewestFirstIsTotalPreorder | frontend/src/components/Statistics.tsx:41 | the id comparator, a missing id as 0, is consistent |
| StatisticsView.RecentFeatures | frontend/src/components/Statistics.tsx:40-42 | sorts the fetched array in place (a permutation, newest first) and returns its first five elements, which are the newest five |
| StatisticsView.TypeIcon | frontend/src/components/Statistics.tsx:69-74 | `getFeatureTypeIcon`: the icon of the first of `POINT`, `LINESTRING`, `POLYGON` the text contains; stated by `LabelAndIconAgree` |
| StatisticsView.LabelAndIconAgree | frontend/src/components/Statistics.tsx:62-74 | label and icon come from the same branch for every text |
| StatisticsView.StatisticsSeeFifty | frontend/src/components/Statistics.tsx:30 | `getAll(1, 1000)` is answered with page size 50 and `min(total, 50)` items |
| StatisticsView.StatisticsPage.constructor | frontend/src/components/Statistics.tsx:21-23 | no statistics, not loading, no error |
| StatisticsView.StatisticsPage.LoadStatistics | frontend/src/components/Statistics.tsx:25-58 | on success the item count, the three keyword counts and the newest five; otherwise the error and the old statistics |
| FeatureFormView.FeatureTypeName | frontend/src/components/FeatureForm.tsx:82-89 | `getFeatureTypeName`: the Turkish word for each draw type, `Konum` otherwise; stated by `TitleMatchesListLabel` |
| FeatureFormView.PolygonName | frontend/src/components/FeatureForm.tsx:94-104 | `getPolygonName`: a fixed name for three to eight corners, the count followed by `gen` otherwise; stated by `FixedNamesDistinct`, `ComputedNameStart` and `PolygonNamesDistinct` |
| FeatureFormView.FormatCoordinates | frontend/src/components/FeatureForm.tsx:106-120 | `formatCoordinates`: the single vertex, the corner count and name of a polygon, or the vertex count; stated by `ClosedRingCountsCorners` and `ClosedRingDescribed` |
| FeatureFormView.TitleMatchesListLabel | frontend/src/components/FeatureForm.tsx:82-89 | the form's title word for a drawing equals the list's label for the text it is sent as |
| FeatureFormView.FixedNamesDistinct | frontend/src/components/FeatureForm.tsx:94-101 | the six fixed polygon names differ |
| FeatureFormView.ComputedNameStart | frontend/src/components/FeatureForm.tsx:102 | outside 3..8 the name is the number then `gen`, starting with a digit or `-` |
| FeatureFormView.PolygonNamesDistinct | frontend/src/components/FeatureForm.tsx:94-104 | different corner counts get different names |
| FeatureFormView.ClosedRingCountsCorners | frontend/src/components/FeatureForm.tsx:111-115 | a ring closed by repeating its first vertex is counted by its corners |
| FeatureFormView.ClosedRingDescribed | frontend/src/components/FeatureForm.tsx:106-117 | a closed polygon ring is described by its corner count and that count's name |
| FeatureFormView.ChosenTypeStored | frontend/src/components/FeatureForm.tsx:173-177 | a type from the selector, trimmed, is stored by the back end as chosen |
| FeatureFormView.TrimmedNameValid | frontend/src/components/FeatureForm.tsx:61 | a trimmed non-blank name passes `Validators.ValidName` exactly when it has at most 200 UTF-16 code units |
| FeatureFormView.SubmittedFeatureAccepted | frontend/src/components/FeatureForm.tsx:59-62 | what the form sends has a text `Validators.ValidWkt` accepts and a type `FeatureStore.StoredType` keeps as chosen, and its name passes `Validators.ValidName` exactly when it has at most 200 UTF-16 code units once trimmed |
| FeatureFormView.FeatureForm.constructor | frontend/src/components/FeatureForm.tsx:26-30 | cleared fields, preview closed, type `A` |
| FeatureFormView.FeatureForm.ShowChanged | frontend/src/components/FeatureForm.tsx:32-40 | opening the form resets it; hiding it leaves it as it is |
| FeatureFormView.FeatureForm.HandleClose | frontend/src/components/FeatureForm.tsx:73-80 | closing resets name, errors, preview and type |
| FeatureFormView.FeatureForm.SetName | frontend/src/components/FeatureForm.tsx:151 | only the name changes |
| FeatureFormView.FeatureForm.SetType | frontend/src/components/FeatureForm.tsx:173 | only the type changes, to an offered option |
| FeatureFormView.FeatureForm.TogglePreview | frontend/src/components/FeatureForm.tsx:185 | only the preview flag flips |
| FeatureFormView.FeatureForm.HandleSubmit | frontend/src/components/FeatureForm.tsx:42-71 | a blank name stops with the name message; then a missing drawing stops with the coordinate message; otherwise it sends the trimmed name, the generated text and the trimmed type and clears the name, or on a throwing `getWKT` shows the save error |
| Strings.TrimEmptyIffBlank | backend/Domain/Validators.cs:11 | a text trims to empty exactly when it is all whitespace |
| Strings.TrimIdempotent | frontend/src/components/FeatureForm.tsx:61 | trimming twice is trimming once |
| Sequences.Filter | frontend/src/components/FeatureList.tsx:88 | the kept elements all pass and are exactly the elements of the input that pass |
| Sequences.FilterAppend | frontend/src/components/Statistics.tsx:35-37 | filtering a concatenation filters each part, in order |
| Sequences.FilterPartition | frontend/src/components/FeatureList.tsx:88 | a filter and its opposite together hold the input, duplicates counted |
| Sequences.SortInPlace | frontend/src/components/FeatureList.tsx:50-62 | `Array.prototype.sort` with a consistent comparator: sorted, and a permutation |

## Left out

- HTTP status codes, routing, attributes, CORS, Swagger and static files are plumbing. A reply is a status tag and a `Response` value.
- `ModelState.IsValid` is a boolean parameter. The validation attributes of the request types are not part of this model, and neither is the error dictionary `ValidationErrors` builds.
- `FeatureStore.Create`, `FeatureStore.AddRange` and `FeatureStore.Update` keep the actions' `ModelState` branch that answers "Validation failed" (backend/Controllers/Controller.cs:42-43, 77-78 and the check in `UpdateEf`). In the running program that branch never runs. The `[ApiController]` attribute (backend/Controllers/Controller.cs:22) makes ASP.NET answer an invalid body with its own 400 validation-problem reply before the action starts, and backend/Program.cs does not switch that off. That reply carries no `message`, so the map shows its fallback text, not "Validation failed".
- The geometry library (`WKTReader`, `WKTWriter`, `Intersects`) is the parameter record `Geo`. Its floating-point geometry is foreign code. The reader is partial (`None` where it throws).
- Entity Framework, PostGIS and the migrations are left out. One `SaveChanges` is one atomic commit, and the identity column is the store's `nextId` counter.
- `FeatureStore.Create`, `FeatureStore.Update`: the `varchar(1)` limit on `Type` (backend/Infrastructure/AppDbContext.cs:38-41) is not modelled. The controller never checks it. In the program, a type longer than one character makes `SaveChanges` fail, so the request ends in a server error (500) and nothing is stored. The model stores such a type as given.
- `FeatureStore.Create`, `FeatureStore.AddRange`, `FeatureStore.Update`: the name column's limits are not modelled either. `Name` is required and at most 200 characters (backend/Infrastructure/AppDbContext.cs:29-32), stored as `character varying(200)` not null (backend/Migrations/20250902110901_AddPhotos.cs:28). The actions store `dto.Name` untrimmed, so a name over 200 characters (for example one padded with spaces that `ValidName` trims away) makes the program's save fail with a server error and nothing is stored. The model stores it.
- `FeatureStore.GetAll`: the database returns rows in an unspecified order. The order is a parameter `scan` that lists every stored id once. Total and page length do not depend on it.
- `FeatureStore.GetAllPage` assumes `(page - 1) * pageSize` fits in 32 bits. When it does not, the skip wraps in C# unchecked arithmetic; `FeatureStore.GetAllOffsetOverflows` shows one such page.
- `Controllers.FeaturesController`: `GetEf` and `GetAll` change nothing, so they are the functions `FeatureStore.Get` and `FeatureStore.GetAll` of the controller's state rather than methods.
- `FeatureStore.UploadPhotos`: file contents, the upload directory and the stream copy are I/O. The generated file names (`Guid.NewGuid`) are a parameter `newName`.
- Asynchrony, cancellation tokens and the race between the blocking check and the write are concurrency. Each endpoint is one sequential step.
- .NET `\d` and `\s` match Unicode digits and spaces. The model uses ASCII digits and whitespace, and ASCII letter case for the keyword.
- `Validators.Matches`: `RegexOptions.IgnoreCase` without `CultureInvariant` (backend/Domain/Validators.cs:7-9) compares letters under the server's current culture. Under a Turkish culture (`tr-TR`), `i` is not the lower case of `I`, so `point(1 2)` fails the point pattern there. The model uses culture-free ASCII case folding, which matches the invariant culture.
- `Strings.IsWhite` is ASCII-only. .NET `Trim` and `string.IsNullOrWhiteSpace` (backend/Domain/Validators.cs:11-12, backend/Controllers/Controller.cs:49 and 181) and JavaScript `trim` (frontend/src/components/Map.tsx:589 and 605, frontend/src/components/FeatureForm.tsx:45 and 61) also treat U+00A0 and the other Unicode spaces as white. A name, type or message made only of such spaces is blank in the program and not blank in the model.
- `localeCompare(…, 'tr')` is modelled as code-unit order, and `toLowerCase` as ASCII lower-casing.
- `FeatureListView.FeatureListPage.SortedFeatures` and `StatisticsView.RecentFeatures` do not state stability. `Array.prototype.sort` is stable, but the contracts state order and permutation only.
- Front-end coordinates are whole numbers. JavaScript's rendering of non-integral numbers and `toFixed(6)` of fractions are foreign, and so is the `isSame` tolerance, which becomes exact equality.
- OpenLayers drawing, layers, projections, popups and the map's other handlers (edit, delete, drag box setup) are rendering plumbing. The area tally receives the features the box intersects as a sequence.
- The random key `feature_${Math.random()}` of the area tally is modelled as a key that matches no other key. A collision of random keys is left out.
- `MapView.VectorSource.RemoveFeature` compares features by value, where OpenLayers compares object identity. Two equal unsaved features are removed together, just as the filter would remove them both.
- `Date.now()` is the parameter `now` of `MapView.ErrorToast.ShowErrorOnce`.
- The network calls of `featureService` are left out. A request is returned as a value, and a reply, or `None` for a request that threw, is passed back in.
- `onFeatureDeleted`, `onHide`, `onSubmit`, `onFeatureSelect` and `console.error` are callbacks and logging. Where a method has a callback, its result says whether the callback runs.
- `FeatureFormView.FeatureForm.HandleSubmit`: the map's `onSubmit` catches its own errors, so only `getWKT` can make the submit fail.
- The photo upload and gallery modals, the navigation bar, the application shell, the service client and the type declarations are UI or client plumbing.
