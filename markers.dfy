/** The map screen's marker list and the two local tables that feed it, as values: the rows of
    `points` and `photos`, the conversion of the loading query's rows into markers, the merge of
    a marker edited on the detail screen, the primary-key insert of a new point and the lookup
    of a pressed marker. */
module Markers {
  import opened Wrappers
  import opened CommaList

  /** A pin on the map. Coordinates are only ever copied, so any totally ordered number type
      would do; `real` stands for JavaScript's number. */
  datatype MarkerData = MarkerData(id: string, latitude: real, longitude: real, images: seq<string>)

  /** A row of the `points` table; `id` is its primary key. */
  datatype PointRow = PointRow(id: string, latitude: real, longitude: real)

  /** A row of the `photos` table; `id` is its primary key, `pointId` refers to `points.id`. */
  datatype PhotoRow = PhotoRow(id: string, pointId: string, uri: string)

  /** The `{id, images}` object the detail screen sends back when it is saved. */
  datatype Payload = Payload(id: string, images: seq<string>)

  // ----- tables -----------------------------------------------------------------------------

  predicate HasPointId(points: seq<PointRow>, id: string)
  {
    exists k :: 0 <= k < |points| && points[k].id == id
  }

  /** The PRIMARY KEY constraint of `points`. */
  predicate UniquePointIds(points: seq<PointRow>)
  {
    forall i, j :: 0 <= i < j < |points| ==> points[i].id != points[j].id
  }

  /** The PRIMARY KEY constraint of `photos`. */
  predicate UniquePhotoIds(photos: seq<PhotoRow>)
  {
    forall i, j :: 0 <= i < j < |photos| ==> photos[i].id != photos[j].id
  }

  /** The FOREIGN KEY of `photos.point_id` onto `points.id`. */
  predicate PhotosReferencePoints(photos: seq<PhotoRow>, points: seq<PointRow>)
  {
    forall i :: 0 <= i < |photos| ==> HasPointId(points, photos[i].pointId)
  }

  predicate NoPhotoFor(photos: seq<PhotoRow>, pointId: string)
  {
    forall i :: 0 <= i < |photos| ==> photos[i].pointId != pointId
  }

  /** The ids of the markers, in list order. */
  function MarkerIds(markers: seq<MarkerData>): (ids: seq<string>)
    ensures |ids| == |markers|
  {
    seq(|markers|, i requires 0 <= i < |markers| => markers[i].id)
  }

  /** No two markers share an id. */
  predicate UniqueMarkerIds(markers: seq<MarkerData>)
  {
    forall i, j :: 0 <= i < j < |markers| ==> markers[i].id != markers[j].id
  }

  /** Every marker stands for a stored point. */
  predicate MarkersOfPoints(markers: seq<MarkerData>, points: seq<PointRow>)
  {
    forall i :: 0 <= i < |markers| ==> HasPointId(points, markers[i].id)
  }

  /** `INSERT INTO points (id, latitude, longitude) VALUES (?, ?, ?)`: the row is appended, or,
      when its id is already taken, the primary key rejects it and nothing is stored. */
  function InsertPoint(points: seq<PointRow>, row: PointRow): (r: Option<seq<PointRow>>)
    ensures r.None? <==> HasPointId(points, row.id)
    ensures r.Some? ==> r.value == points + [row]
    ensures UniquePointIds(points) && r.Some? ==> UniquePointIds(r.value)
    ensures r.Some? ==> forall id :: HasPointId(points, id) ==> HasPointId(r.value, id)
  {
    if HasPointId(points, row.id) then None
    else
      assert forall k :: 0 <= k < |points| ==> (points + [row])[k] == points[k];
      Some(points + [row])
  }

  // ----- loading ----------------------------------------------------------------------------

  /** The `uri`s of the photo rows of one point, in the order the rows are stored. */
  function UrisOf(photos: seq<PhotoRow>, pointId: string): (uris: seq<string>)
    ensures |uris| <= |photos|
    ensures uris == [] <==> NoPhotoFor(photos, pointId)
    ensures forall u :: u in uris <==>
      exists i :: 0 <= i < |photos| && photos[i].pointId == pointId && photos[i].uri == u
  {
    if photos == [] then []
    else
      var rest := UrisOf(photos[1..], pointId);
      assert forall i :: 1 <= i < |photos| ==> photos[i] == photos[1..][i - 1];
      if photos[0].pointId == pointId then [photos[0].uri] + rest else rest
  }

  /** The `images` column of the loading query: `(SELECT GROUP_CONCAT(ph.uri, ',') FROM photos ph
      WHERE ph.point_id = p.id)`, which is NULL when the point has no photo rows. */
  function GroupConcat(photos: seq<PhotoRow>, pointId: string): (images: Option<string>)
    ensures images.None? <==> NoPhotoFor(photos, pointId)
    ensures images.Some? && CommaFree(UrisOf(photos, pointId)) ==>
              Split(images.value) == UrisOf(photos, pointId)
  {
    var uris := UrisOf(photos, pointId);
    if uris == [] then None
    else
      assert CommaFree(uris) ==> Split(Join(uris)) == uris by {
        if CommaFree(uris) { SplitJoin(uris); }
      }
      Some(Join(uris))
  }

  /** `row.images ? row.images.split(',') : []`: NULL and the empty (falsy) string give no
      images, any other text is split on commas. */
  function ImagesOf(images: Option<string>): (r: seq<string>)
    ensures images.None? || images == Some("") ==> r == []
    ensures images.Some? && images.value != "" ==>
              r != [] && Join(r) == images.value && CommaFree(r)
  {
    match images
    case None => []
    case Some(s) => if s == "" then [] else JoinSplit(s); Split(s)
  }

  /** One row of the loading query turned into a marker. */
  function RowToMarker(row: PointRow, photos: seq<PhotoRow>): (m: MarkerData)
    ensures m.id == row.id && m.latitude == row.latitude && m.longitude == row.longitude
    ensures NoPhotoFor(photos, row.id) ==> m.images == []
    ensures CommaFree(UrisOf(photos, row.id)) && UrisOf(photos, row.id) != [""] ==>
              m.images == UrisOf(photos, row.id)
  {
    var uris := UrisOf(photos, row.id);
    assert uris != [] && CommaFree(uris) ==> Split(Join(uris)) == uris by {
      if uris != [] && CommaFree(uris) { SplitJoin(uris); }
    }
    MarkerData(row.id, row.latitude, row.longitude, ImagesOf(GroupConcat(photos, row.id)))
  }

  /** `results.map(row => ...)` over the rows of `points` in stored order. */
  function Load(points: seq<PointRow>, photos: seq<PhotoRow>): (ms: seq<MarkerData>)
    ensures |ms| == |points|
    ensures forall i :: 0 <= i < |points| ==>
      ms[i].id == points[i].id && ms[i].latitude == points[i].latitude
      && ms[i].longitude == points[i].longitude
    ensures forall i :: 0 <= i < |points| && NoPhotoFor(photos, points[i].id) ==> ms[i].images == []
    ensures forall i :: 0 <= i < |points| && CommaFree(UrisOf(photos, points[i].id))
                        && UrisOf(photos, points[i].id) != [""] ==>
      ms[i].images == UrisOf(photos, points[i].id)
  {
    if points == [] then []
    else [RowToMarker(points[0], photos)] + Load(points[1..], photos)
  }

  // ----- merging an edited marker -----------------------------------------------------------

  /** `m.id === parsedMarker.id ? { ...m, images: parsedMarker.images } : m` over the list. */
  function MergeImages(markers: seq<MarkerData>, p: Payload): (r: seq<MarkerData>)
    ensures |r| == |markers|
    ensures forall i :: 0 <= i < |markers| ==>
      r[i].id == markers[i].id && r[i].latitude == markers[i].latitude
      && r[i].longitude == markers[i].longitude
    ensures forall i :: 0 <= i < |markers| && markers[i].id == p.id ==> r[i].images == p.images
    ensures forall i :: 0 <= i < |markers| && markers[i].id != p.id ==> r[i] == markers[i]
  {
    if markers == [] then []
    else
      var m := markers[0];
      [if m.id == p.id then m.(images := p.images) else m] + MergeImages(markers[1..], p)
  }

  /** The effect run when a payload arrives: a payload that failed to parse (`None`) is caught
      and changes nothing; a parsed one is merged. */
  function ApplyUpdate(markers: seq<MarkerData>, parsed: Option<Payload>): (r: seq<MarkerData>)
    ensures parsed.None? ==> r == markers
    ensures |r| == |markers|
    ensures forall i :: 0 <= i < |markers| ==>
      r[i].id == markers[i].id && r[i].latitude == markers[i].latitude
      && r[i].longitude == markers[i].longitude
    ensures forall i :: 0 <= i < |markers| && (parsed.None? || markers[i].id != parsed.value.id) ==>
      r[i] == markers[i]
    ensures forall i :: 0 <= i < |markers| && parsed.Some? && markers[i].id == parsed.value.id ==>
      r[i].images == parsed.value.images
  {
    match parsed
    case None => markers
    case Some(p) => MergeImages(markers, p)
  }

  // ----- lookup -----------------------------------------------------------------------------

  /** `markers.find(m => m.id === id)`: the first marker carrying `id`, if any. */
  function FindMarker(markers: seq<MarkerData>, id: string): (r: Option<MarkerData>)
    ensures r.None? <==> forall i :: 0 <= i < |markers| ==> markers[i].id != id
    ensures r.Some? ==> exists i :: 0 <= i < |markers| && markers[i] == r.value
                          && r.value.id == id && forall j :: 0 <= j < i ==> markers[j].id != id
  {
    if markers == [] then None
    else if markers[0].id == id then
      Some(markers[0])
    else
      var r := FindMarker(markers[1..], id);
      assert forall i :: 1 <= i < |markers| ==> markers[i] == markers[1..][i - 1];
      r
  }

  // ----- how the operations fit together ----------------------------------------------------

  /** Loading after one more point row is loading before it plus that row's marker at the end. */
  lemma {:induction false} LoadAppend(points: seq<PointRow>, row: PointRow, photos: seq<PhotoRow>)
    ensures Load(points + [row], photos) == Load(points, photos) + [RowToMarker(row, photos)]
    decreases |points|
  {
    if points == [] {
      assert [row][1..] == [];
    } else {
      LoadAppend(points[1..], row, photos);
      assert (points + [row])[1..] == points[1..] + [row];
    }
  }

  /** A point inserted on a long-press, which no photo row refers to yet, loads as exactly the
      marker the long-press appends: the list kept in memory matches a reload. */
  lemma LoadAfterInsert(points: seq<PointRow>, photos: seq<PhotoRow>, id: string, lat: real, lon: real)
    requires NoPhotoFor(photos, id)
    ensures Load(points + [PointRow(id, lat, lon)], photos)
            == Load(points, photos) + [MarkerData(id, lat, lon, [])]
  {
    LoadAppend(points, PointRow(id, lat, lon), photos);
  }

  /** Loading gives every marker the id of its point row, so the primary key makes marker ids
      unique. */
  lemma LoadUniqueIds(points: seq<PointRow>, photos: seq<PhotoRow>)
    requires UniquePointIds(points)
    ensures UniqueMarkerIds(Load(points, photos))
    ensures forall i :: 0 <= i < |Load(points, photos)| ==> HasPointId(points, Load(points, photos)[i].id)
  {
  }

  /** A payload for an id no marker has leaves the list as it was: nothing is inserted. */
  lemma MergeNoMatch(markers: seq<MarkerData>, p: Payload)
    requires forall i :: 0 <= i < |markers| ==> markers[i].id != p.id
    ensures MergeImages(markers, p) == markers
  {
  }

  /** Receiving the same payload again changes nothing more. */
  lemma MergeIdempotent(markers: seq<MarkerData>, p: Payload)
    ensures MergeImages(MergeImages(markers, p), p) == MergeImages(markers, p)
  {
  }

  /** Merging keeps the ids and their order: no marker appears, disappears or moves. */
  lemma MergeKeepsIds(markers: seq<MarkerData>, p: Payload)
    ensures MarkerIds(MergeImages(markers, p)) == MarkerIds(markers)
    ensures UniqueMarkerIds(markers) ==> UniqueMarkerIds(MergeImages(markers, p))
  {
  }

  /** Appending the marker of a freshly inserted point row keeps marker ids unique, every
      marker backed by a stored point, and every photo's point stored. */
  lemma AppendInserted(markers: seq<MarkerData>, points: seq<PointRow>, photos: seq<PhotoRow>,
                       m: MarkerData, row: PointRow)
    requires UniqueMarkerIds(markers) && MarkersOfPoints(markers, points)
    requires PhotosReferencePoints(photos, points)
    requires !HasPointId(points, row.id) && m.id == row.id
    ensures UniqueMarkerIds(markers + [m])
    ensures MarkersOfPoints(markers + [m], points + [row])
    ensures PhotosReferencePoints(photos, points + [row])
    ensures NoPhotoFor(photos, row.id)
  {
    var points' := points + [row];
    assert forall k :: 0 <= k < |points| ==> points'[k] == points[k];
    assert points'[|points|] == row;
    assert forall i :: 0 <= i < |markers| ==> (markers + [m])[i] == markers[i];
  }

  /** Pressing the edited marker after the merge finds it with the payload's images. */
  lemma FindAfterMerge(markers: seq<MarkerData>, p: Payload)
    ensures FindMarker(MergeImages(markers, p), p.id)
            == match FindMarker(markers, p.id)
               case None => None
               case Some(m) => Some(m.(images := p.images))
  {
  }

  /** Pressing a marker just appended with a fresh id finds that marker. */
  lemma {:induction false} FindAfterAppend(markers: seq<MarkerData>, m: MarkerData)
    requires forall i :: 0 <= i < |markers| ==> markers[i].id != m.id
    ensures FindMarker(markers + [m], m.id) == Some(m)
    decreases |markers|
  {
    if markers == [] {
      assert ([] + [m])[0] == m;
    } else {
      FindAfterAppend(markers[1..], m);
      assert (markers + [m])[1..] == markers[1..] + [m];
    }
  }

  /** With unique ids, the first marker carrying an id is the only one. */
  lemma FindUnique(markers: seq<MarkerData>, id: string, i: nat)
    requires UniqueMarkerIds(markers)
    requires i < |markers| && markers[i].id == id
    ensures FindMarker(markers, id) == Some(markers[i])
  {
  }

  /** Why the round trip needs comma-free uris: a stored uri holding a comma loads as two
      images. */
  lemma CommaUriLoadsAsTwo()
    ensures RowToMarker(PointRow("p", 0.0, 0.0), [PhotoRow("1", "p", "a,b")]).images == ["a", "b"]
  {
    var photos := [PhotoRow("1", "p", "a,b")];
    assert UrisOf(photos, "p") == ["a,b"];
    assert Split("a,b") == ["a", "b"] by {
      assert "a,b" == "a" + [COMMA] + "b";
      SplitAfterHead("a", "b");
      SplitCommaFree("b");
    }
  }

  /** Why the round trip needs more than one character: a point whose only photo has the empty
      uri aggregates to the empty text, which is falsy, and loads with no images. */
  lemma EmptyUriLoadsAsNone()
    ensures RowToMarker(PointRow("p", 0.0, 0.0), [PhotoRow("1", "p", "")]).images == []
  {
  }
}
