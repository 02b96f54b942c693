# Map markers with photos: the marker list of the map screen

The application lets a user drop pins on a map by long-pressing it and attach photos to each
pin. Its map screen (`app/index.tsx`) keeps an in-memory list of markers, each an `id`, a
`latitude`, a `longitude` and the `images` (photo locations) attached to it. The list is fed by
two tables of a local SQLite database: `points (id PRIMARY KEY, latitude, longitude)` and
`photos (id PRIMARY KEY, point_id REFERENCES points(id), uri)`.

This project models that list and those tables:

- `comma_list.dfy` (module `CommaList`): the text that carries a point's photo locations out of
  the database. The loading query aggregates them with `GROUP_CONCAT(uri, ',')`, and the screen
  splits the result with JavaScript's `split(',')`. `Join` and `Split` model the two. The lemmas
  prove that they are inverse: `Join(Split(s)) == s` for all text, and `Split(Join(parts)) == parts`
  when no part contains a comma.
- `markers.dfy` (module `Markers`): the marker record and the table rows as datatypes, and the
  screen's list transforms as functions:
  - loading (`Load`, one marker per `points` row);
  - merging a marker edited on the detail screen (`MergeImages`, `ApplyUpdate`);
  - the primary-key insert (`InsertPoint`);
  - the lookup of a pressed marker (`FindMarker`).

  It also holds the lemmas that connect these operations.
- `map_screen.dfy` (module `MapScreen`): the screen as a class `Screen`. The fields `markers`,
  `points` and `photos` are updated in place. Each handler is a method: `LoadMarkers`,
  `ReceiveUpdate` (the `updatedMarker` effect), `HandleLongPress` and `HandleMarkerPress`.
  `Valid()` is the object invariant:
  - both tables keep their primary keys;
  - every photo refers to a stored point;
  - marker ids are unique;
  - every marker stands for a stored point.

  Every method preserves it.

Modelling choices:

- Coordinates are `real`. They are only ever copied, never computed with.
- Photo rows are a sequence in stored order. The aggregate lists a point's `uri`s in that
  order, because SQLite does not promise an order for `GROUP_CONCAT` and the query asks for none.
- Results that come from outside the screen are inputs:
  - the id `Date.now()` produces;
  - the outcome of `JSON.parse` (`None` when parsing throws);
  - whether the database fails for a reason other than the primary key (`readFails`,
    `storageFails`).
- Two edge cases of loading follow the code:
  - A point whose single photo has the empty uri aggregates to `''`. That string is falsy, so
    the point loads with no images (`EmptyUriLoadsAsNone`).
  - A uri containing a comma is split into several images (`CommaUriLoadsAsTwo`).

  So the round-trip property of loading holds for comma-free uris, other than the single
  empty uri.

## Model

| member | source | states |
|---|---|---|
| `CommaList.Join` | app/index.tsx:58 | the aggregate starts with the first uri, contains a comma as soon as there are two uris, and is empty only for the single empty uri |
| `CommaList.Split` | app/index.tsx:68 | splitting always gives at least one piece, no piece contains a comma, and there are at most one more pieces than characters |
| `CommaList.JoinSplit` | app/index.tsx:68 | splitting loses nothing: joining the pieces with commas gives back the text |
| `CommaList.SplitJoin` | app/index.tsx:58-60 | splitting the comma-joined aggregate of comma-free uris gives back exactly those uris, in order |
| `Markers.InsertPoint` | app/index.tsx:103-106 | the insert fails exactly when the id is already a key of `points` (`id TEXT PRIMARY KEY`, line 32); otherwise the row is appended, no key is lost and keys stay unique |
| `Markers.UrisOf` | app/index.tsx:58-60 | the photo locations of a point are exactly the `uri`s of the photo rows whose `point_id` is that point's, and there are none exactly when no photo row refers to it |
| `Markers.GroupConcat` | app/index.tsx:57-62 | the aggregate column is NULL exactly when the point has no photo rows; otherwise splitting it gives back the point's uris when they are comma-free |
| `Markers.ImagesOf` | app/index.tsx:68 | a NULL or empty aggregate gives `[]`; any other text gives comma-free images that join back to that text |
| `Markers.RowToMarker` | app/index.tsx:64-69 | a row's marker carries the row's id and coordinates; with no photo rows its images are `[]`; with comma-free uris (other than a single empty one) its images are exactly those uris |
| `Markers.Load` | app/index.tsx:57-69 | loading gives exactly one marker per `points` row, in row order, with that row's id and coordinates, `[]` for a point without photos, and the point's uris when they are comma-free |
| `Markers.MergeImages` | app/index.tsx:81-85 | the merge keeps the length and order and every id and coordinate; every marker with the payload's id gets exactly the payload's images; every other marker is identical to before |
| `Markers.ApplyUpdate` | app/index.tsx:77-90 | a payload that failed to parse leaves the list unchanged; a parsed one is merged as above |
| `Markers.FindMarker` | app/index.tsx:114 | finds nothing exactly when no marker has the id; otherwise finds a marker of the list with that id, and no earlier marker has it |
| `Markers.LoadAppend` | app/index.tsx:64-69 | loading the table with one more row gives the previous load plus that row's marker at the end |
| `Markers.LoadAfterInsert` | app/index.tsx:95-107 | the marker a long-press appends is the marker a reload would give the inserted row, so the list kept in memory matches a reload |
| `Markers.LoadUniqueIds` | app/index.tsx:32 | with the primary key of `points`, loaded markers have unique ids, each the id of a stored point |
| `Markers.MergeNoMatch` | app/index.tsx:82-84 | a payload for an id that no marker has leaves the list unchanged; nothing is inserted |
| `Markers.MergeIdempotent` | app/index.tsx:81-85 | applying the same payload a second time changes nothing more |
| `Markers.MergeKeepsIds` | app/index.tsx:81-85 | the merge keeps the sequence of ids, so no marker appears, disappears or moves, and unique ids stay unique |
| `Markers.AppendInserted` | app/index.tsx:103-107 | appending the marker of a newly inserted point keeps marker ids unique and every marker and photo backed by a stored point, and no photo refers to the new point yet |
| `Markers.FindAfterMerge` | app/index.tsx:83 | after the merge, pressing the edited marker finds it with the payload's images |
| `Markers.FindAfterAppend` | app/index.tsx:107 | after a marker with a fresh id is appended, pressing that id finds that marker |
| `Markers.FindUnique` | app/index.tsx:114 | with unique ids, the marker found for an id is the one marker carrying it |
| `Markers.CommaUriLoadsAsTwo` | app/index.tsx:68 | a single stored uri `a,b` loads as the two images `a` and `b` |
| `Markers.EmptyUriLoadsAsNone` | app/index.tsx:68 | a single stored empty uri loads as no images |
| `MapScreen.Screen.constructor` | app/index.tsx:17 | the screen starts over stored tables with an empty marker list, and its invariant holds |
| `MapScreen.Screen.LoadMarkers` | app/index.tsx:49-75 | the list becomes the load of the tables; a failed query leaves it unchanged; the tables are untouched and the invariant kept |
| `MapScreen.Screen.ReceiveUpdate` | app/index.tsx:77-90 | the list becomes the update applied to the old list; the tables are untouched and the invariant kept |
| `MapScreen.Screen.HandleLongPress` | app/index.tsx:92-111 | the marker is added exactly when the id is not yet a key and the store does not fail. Then the point row and the marker `(id, coordinates, [])` are appended at the end, and earlier markers are unchanged. Otherwise the table and the list are unchanged. A list that matched a reload still matches one |
| `MapScreen.Screen.HandleMarkerPress` | app/index.tsx:113-124 | navigation happens exactly when some marker has the pressed id, and it carries that id and the (unique) marker with it |

## Left out

- Rendering of the map and its markers, the styles and all JSX (app/index.tsx:126-167). They
  are user interface only.
- The SQLite engine: opening the database, the transaction around table creation, the
  `CREATE TABLE IF NOT EXISTS` statements and the asynchronous scheduling (app/index.tsx:14,
  28-47). The tables are values, and the constructor takes them as already stored.
- Foreign-key enforcement. It is part of the invariant and is taken as given for the stored
  tables. No operation of this screen writes to `photos`.
- Other database failures. A failing read or insert is an input, not a cause the model derives.
- `JSON.parse` and `JSON.stringify` (app/index.tsx:80, 120). The parse result is an input of
  type `Option<Payload>`. A text that parses to something other than an `{id, images}` object
  is not distinguished from one that fails to parse.
- `router.push` (app/index.tsx:116-122). It becomes the returned `Route`.
- `Date.now()` (app/index.tsx:96). The new id is a parameter.
- `console.error` logging.
- The detail screen (app/markerPages/[id].tsx), which imports photos and sends the payload
  back. It is not part of this model; its payload is an input.
- Routing configuration (app/_layout.tsx) is not part of this model.
- The order of points. The loading query has no `ORDER BY`, so the order of the returned rows
  is not promised. The model loads in stored order.
