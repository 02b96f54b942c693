/** The map screen as a stateful object: the `markers` state it renders and the `points` and
    `photos` tables of the local database it reads and writes. Each handler of the screen is a
    method; what it does to the list is given by the functions of module Markers. */
module MapScreen {
  import opened Wrappers
  import opened Markers

  /** The navigation to the detail screen: the pressed marker's id and the marker itself,
      which the screen passes on serialised. */
  datatype Route = Route(id: string, marker: MarkerData)

  class Screen {
    var markers: seq<MarkerData>
    var points: seq<PointRow>
    var photos: seq<PhotoRow>

    /** The tables keep their keys, and the list only holds markers of stored points, one per
        id. */
    ghost predicate Valid()
      reads this
    {
      && UniquePointIds(points)
      && UniquePhotoIds(photos)
      && PhotosReferencePoints(photos, points)
      && UniqueMarkerIds(markers)
      && MarkersOfPoints(markers, points)
    }

    /** The screen mounts over the tables as they are stored, with an empty list. */
    constructor (points: seq<PointRow>, photos: seq<PhotoRow>)
      requires UniquePointIds(points) && UniquePhotoIds(photos)
      requires PhotosReferencePoints(photos, points)
      ensures Valid()
      ensures this.markers == [] && this.points == points && this.photos == photos
    {
      this.markers := [];
      this.points := points;
      this.photos := photos;
    }

    /** `loadMarkers`: the list becomes one marker per point row; when the query fails
        (`readFails`) the error is caught and the list stays as it was. */
    method LoadMarkers(readFails: bool)
      requires Valid()
      modifies this
      ensures Valid()
      ensures points == old(points) && photos == old(photos)
      ensures markers == if readFails then old(markers) else Load(points, photos)
    {
      if !readFails {
        LoadUniqueIds(points, photos);
        markers := Load(points, photos);
      }
    }

    /** The `updatedMarker` effect: `parsed` is the result of parsing the payload, `None` when
        parsing threw. The tables are not touched. */
    method ReceiveUpdate(parsed: Option<Payload>)
      requires Valid()
      modifies this
      ensures Valid()
      ensures points == old(points) && photos == old(photos)
      ensures markers == ApplyUpdate(old(markers), parsed)
    {
      if parsed.Some? {
        MergeKeepsIds(markers, parsed.value);
      }
      markers := ApplyUpdate(markers, parsed);
    }

    /** `handleLongPress`: a marker with empty `images` is built for the pressed coordinates;
        it is appended only once its row is inserted into `points`. The insert fails when `id`
        is already a key of `points`, or when the store fails for another reason
        (`storageFails`); a failure is caught and nothing changes. */
    method HandleLongPress(id: string, latitude: real, longitude: real, storageFails: bool)
      returns (added: bool)
      requires Valid()
      modifies this
      ensures Valid()
      ensures added <==> !storageFails && !HasPointId(old(points), id)
      ensures added ==> points == old(points) + [PointRow(id, latitude, longitude)]
                        && markers == old(markers) + [MarkerData(id, latitude, longitude, [])]
      ensures !added ==> points == old(points) && markers == old(markers)
      ensures photos == old(photos)
      ensures old(markers) == Load(old(points), photos) ==> markers == Load(points, photos)
    {
      var newMarker := MarkerData(id, latitude, longitude, []);
      var inserted := if storageFails then None
                      else InsertPoint(points, PointRow(id, latitude, longitude));
      if inserted.Some? {
        AppendInserted(markers, points, photos, newMarker, PointRow(id, latitude, longitude));
        if markers == Load(points, photos) {
          LoadAfterInsert(points, photos, id, latitude, longitude);
        }
        points := inserted.value;
        markers := markers + [newMarker];
        added := true;
      } else {
        added := false;
      }
    }

    /** `handleMarkerPress`: the first marker with the pressed id is looked up; navigation to
        its detail screen happens only when there is one. */
    method HandleMarkerPress(id: string) returns (route: Option<Route>)
      requires Valid()
      ensures route.None? <==> forall i :: 0 <= i < |markers| ==> markers[i].id != id
      ensures route.Some? ==> route.value.id == id && route.value.marker.id == id
                              && route.value.marker in markers
      ensures forall i :: 0 <= i < |markers| && markers[i].id == id ==>
                route == Some(Route(id, markers[i]))
    {
      var found := FindMarker(markers, id);
      if found.Some? {
        forall i | 0 <= i < |markers| && markers[i].id == id
          ensures found == Some(markers[i])
        {
          FindUnique(markers, id, i);
        }
        route := Some(Route(found.value.id, found.value));
      } else {
        route := None;
      }
    }
  }
}
