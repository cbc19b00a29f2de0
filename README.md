# Photo gallery core, modelled in Dafny

A React Native gallery lets the user pick or take photos, tags each with the
capture time and, when it can, a coordinate, keeps them in a local SQLite
table, and shows them as a grid, on a map, and one at a time in a full-screen
view that reveals a map when the image is swiped up. This project models the
logic under that UI:

- `PhotoStore` (`photo_store.dfy`): the `images` table of
  `app/services/DatabaseService.ts` as an in-memory class: AUTOINCREMENT ids
  that are never reused, `getImages` ordered by `timestamp` descending,
  `deleteImage` by id, and `addImage` both as written and as intended.
- `Geolocation` (`geolocation.dfy`): the fallback chain of
  `app/services/GeolocationService.ts` (permission, one low-accuracy fix with
  a 5000 ms timeout, one IP lookup) as a function over the outcomes of those
  three calls, returning the answer and the calls it made.
- `FullScreenView` (`full_screen_view.dfy`): the swipe-to-reveal state machine
  of `app/services/screens/FullScreenImageView.tsx` as a function `Next`, a
  class `ReviewScreen` whose event handlers are proved to follow it, the
  rename dialog and the confirm-then-delete flow.
- `GalleryScreen` and `MapViewScreen` (`gallery_screen.dfy`,
  `map_view_screen.dfy`): tab and view dispatch, the add-image flows, the
  overlay state, the loading flag and the map-type toggle.
- `MapMarkers` (`markers.dfy`): the marker filter both screens write
  identically (`img.latitude && img.longitude`, so a coordinate of exactly 0
  is dropped) and the region centred on the first marker.
- `Records`, `Wrappers`: the shared image record, JavaScript truthiness of a
  coordinate, permission statuses, alerts, `Option` and `Result`.

Outside calls (permissions, picker, camera, `fetch`, the clock, SQLite I/O
failures) are parameters carrying the outcome they deliver. Alerts, callbacks
and navigation are returned as values (`Alert`, `Intent`), not performed.

Where the design and the code disagree, the model follows the code:

- `getImages` promises only `ORDER BY timestamp DESC`; rows with equal
  timestamps (CURRENT_TIMESTAMP has one-second resolution) come in no promised
  order, with no tie-break by id.
- A release at exactly 100 px snaps back (`dy < -100` is strict).
- The move that claims the swipe (abs(dy) > 10) does not move the content:
  PanResponder consumes it in `onMoveShouldSetPanResponder` and does not pass
  it to `onPanResponderMove`, and the grant resets `dy` to 0, so later moves
  and the release measure `dy` from the claim point
  (`FullScreenView.ClaimingMoveOnlyClaims`).
- Nothing blocks a new gesture during a snap: the claiming move leaves the
  snap running, and the next upward move stops it, whose completion callback
  still fires, and takes over the offset
  (`FullScreenView.MoveDuringSnapTakesOver`).
- The IP lookup's `latitude`/`longitude` are passed on unchecked, so a
  response missing one of them yields a half coordinate
  (`Geolocation.PartialLookupPassesThrough`).
- No name is ever stored: the table has no `name` column and the store has
  no `updateImageName`, so the rename dialog always fails (see "Findings").
  `ReviewScreen.SaveName` takes the outcome of that call as a parameter;
  `SaveNameAsWritten` and `SaveNameIntended` give it the outcome as written
  and the outcome of the intended `ImageTable.UpdateImageName`.

## Model

| member | source | states |
|---|---|---|
| `PhotoStore.ImageTable.constructor` | app/services/DatabaseService.ts:16-23 | A new table has no rows and has handed out no id. |
| `PhotoStore.UnknownColumn` | app/services/DatabaseService.ts:16-23 | An INSERT column list is accepted exactly when every column is one the table declares; otherwise the reported column is in the list and not in the table. |
| `PhotoStore.AddImageStatementRejected` | app/services/DatabaseService.ts:37 | The INSERT `addImage` runs names `date`, which the table lacks, so SQLite rejects it. |
| `PhotoStore.IntendedStatementAccepted` | app/services/DatabaseService.ts:16-23 | An INSERT naming only uri, latitude and longitude is accepted by the schema. |
| `PhotoStore.ImageTable.AddImage` | app/services/DatabaseService.ts:35-40 | As written, `addImage` fails with "no column named date" for every argument and leaves the table alone. |
| `PhotoStore.ImageTable.InsertImage` | app/services/DatabaseService.ts:18-22 | A NULL uri fails the NOT NULL constraint and changes nothing; otherwise exactly one row is appended with id one past the largest ever issued (greater than every id issued before, deleted ones included), the given coordinates (NULL allowed), timestamp `now` and no name; existing rows are unchanged and the table invariant (ids ascending, all issued) is kept. |
| `PhotoStore.InsertByTimestamp` | app/services/DatabaseService.ts:43 | Placing a row into a newest-first listing gives a newest-first listing of the old rows plus that row. |
| `PhotoStore.SortByTimestamp` | app/services/DatabaseService.ts:43 | Produces a permutation of the rows in non-increasing timestamp order. |
| `PhotoStore.ImageTable.GetImages` | app/services/DatabaseService.ts:42-44 | Returns every row of the table exactly once (same multiset), newest first, with no order promised among equal timestamps; an empty table gives an empty list. |
| `PhotoStore.ListingAfterInsert` | app/services/DatabaseService.ts:35-43 | After a row is inserted, any listing of the table contains it and has one row more than before. |
| `PhotoStore.ListingOfOneRow` | app/services/DatabaseService.ts:43 | A table with a single row lists exactly that row with all its fields. |
| `PhotoStore.WithoutId` | app/services/DatabaseService.ts:48 | After `DELETE … WHERE id = ?` a row remains exactly when it was there and has another id; an absent id leaves the rows as they were. |
| `PhotoStore.WithoutIdKeepsOrder` | app/services/DatabaseService.ts:48 | Deleting keeps the remaining rows in ascending key order. |
| `PhotoStore.WithoutIdOfConcat` | app/services/DatabaseService.ts:48 | Deletion distributes over concatenation, so it keeps the other rows in their order. |
| `PhotoStore.DeleteIdempotent` | app/services/DatabaseService.ts:48 | Deleting an id twice is the same as deleting it once. |
| `PhotoStore.ListingAfterDelete` | app/services/DatabaseService.ts:43-48 | After `deleteImage(id)`, whether the id existed or not, no listing contains that id and every other row is still listed. |
| `PhotoStore.Renamed` | app/services/screens/FullScreenImageView.tsx:112 | The intended `UPDATE images SET name = ? WHERE id = ?`: same length, the row with that id takes the name and every other row is unchanged, position by position. |
| `PhotoStore.RenameLastWins` | app/services/screens/FullScreenImageView.tsx:112 | Renaming twice leaves only the second name. |
| `PhotoStore.DeleteAfterRename` | app/services/DatabaseService.ts:47-49 | Deleting a renamed image leaves the same rows as deleting it unrenamed. |
| `PhotoStore.ImageTable.UpdateImageName` | app/services/screens/FullScreenImageView.tsx:112 | The store method the full-screen view calls: the rows become `Renamed` of the old rows, ids and the counter are unchanged, the invariant is kept. |
| `PhotoStore.ImageTable.DeleteImage` | app/services/DatabaseService.ts:47-49 | Removes the row with that id if present, never fails, leaves the id counter alone and keeps the table invariant. |
| `Geolocation.RequestLocationPermission` | app/services/GeolocationService.ts:4-13 | True exactly when the status is 'granted'; an exception gives false. |
| `Geolocation.GetFallbackLocation` | app/services/GeolocationService.ts:35-44 | One fetch of https://ipapi.co/json/; a JSON body's latitude and longitude come back verbatim, any network or parse error fails with "Failed to get fallback location". |
| `Geolocation.GetCurrentLocation` | app/services/GeolocationService.ts:15-33 | Calls: permission, then a Low-accuracy fix with a 5000 ms timeout only if granted, then the lookup only if the fix was not used. A granted permission with a fix returns the fix's coordinates unchanged; otherwise the lookup's answer. It fails only when the lookup fails, with "Failed to get fallback location". |
| `Geolocation.FallbackCalledUnlessFixUsed` | app/services/GeolocationService.ts:17-31 | The lookup is called exactly once when the permission is refused or the fix fails (timeout included), and never when the fix is used. |
| `Geolocation.TimeoutFallsBack` | app/services/GeolocationService.ts:22-31 | A fix that times out followed by a lookup answering (12.9, 77.6) yields (12.9, 77.6) without an error. |
| `Geolocation.PartialLookupPassesThrough` | app/services/GeolocationService.ts:38-39 | A lookup body without a longitude is passed on as a coordinate with only a latitude. |
| `Records.Truthy` | app/services/screens/GalleryScreen.tsx:123 | A coordinate is falsy exactly when it is null/undefined or 0. |
| `Records.HasLocation` | app/services/screens/MapViewScreen.tsx:44 | `img.latitude && img.longitude`: true only with both coordinates present, false exactly when either is missing or 0. |
| `MapMarkers.CenteredOn` | app/services/screens/MapViewScreen.tsx:75-80 | The initial region is centred on the image's own coordinates, never on 0, with equal latitude and longitude spans. |
| `MapMarkers.Markers` | app/services/screens/GalleryScreen.tsx:123 | An image is a marker exactly when it is in the list and both its latitude and longitude are truthy (present and not 0). |
| `MapMarkers.MarkersOfConcat` | app/services/screens/MapViewScreen.tsx:44 | The filter distributes over concatenation, so markers keep the list order. |
| `MapMarkers.ZeroCoordinateDropped` | app/services/screens/GalleryScreen.tsx:123 | An image with a coordinate equal to 0 or missing is never a marker. |
| `MapMarkers.FirstMarkerIsFirstLocated` | app/services/screens/GalleryScreen.tsx:136-141 | The first marker, on which the initial region is centred, is the first image in the list that has a location. |
| `GalleryScreen.RenderMapView` | app/services/screens/GalleryScreen.tsx:122-160 | The empty state exactly when no image has a location; otherwise a map of all markers centred on the first one with a span of 10 degrees in latitude and in longitude. |
| `GalleryScreen.RenderContent` | app/services/screens/GalleryScreen.tsx:162-185 | 'gallery' draws the grid of all images, 'map' draws the map view, any other tab draws nothing. |
| `GalleryScreen.LocationLine` | app/services/screens/GalleryScreen.tsx:219-221 | Shows the coordinates exactly when both are truthy, otherwise 'No location data'. |
| `GalleryScreen.MarkerIffLocationShown` | app/services/screens/GalleryScreen.tsx:123 | An image in the list is on the map tab exactly when its overlay shows coordinates. |
| `GalleryScreen.Gallery.constructor` | app/services/screens/GalleryScreen.tsx:22-25 | The screen starts on the gallery tab with no images, no selection and the info panel hidden. |
| `GalleryScreen.Gallery.LoadImages` | app/services/screens/GalleryScreen.tsx:31-39 | The image list becomes a listing of the store (every row once, newest first). |
| `GalleryScreen.Gallery.PickImage` | app/services/screens/GalleryScreen.tsx:41-86 | Without both permissions: one alert, store and list untouched. Cancelled: nothing. Otherwise exactly one row with the picked uri is added, with id one past the counter, carrying the coordinates `Geolocation.GetCurrentLocation` resolves from the same replies, or none and a location alert when that resolution fails, and the list is reloaded. |
| `GalleryScreen.Gallery.TakePicture` | app/services/screens/GalleryScreen.tsx:88-110 | Without camera permission: one alert, nothing else. Otherwise a row without coordinates, with id one past the counter, is added unless the camera was cancelled; the counter advances by one exactly when a row is added, a cancelled shot leaves the store untouched, and the list is reloaded either way. |
| `GalleryScreen.Gallery.DeleteImage` | app/services/screens/GalleryScreen.tsx:112-120 | Removes the row with that id from the store and reloads the list. |
| `GalleryScreen.Gallery.SelectImage` | app/services/screens/GalleryScreen.tsx:172 | Tapping a thumbnail selects that image and changes nothing else. |
| `GalleryScreen.Gallery.CloseOverlay` | app/services/screens/GalleryScreen.tsx:196-199 | Closing the overlay clears the selection and hides the info panel. |
| `GalleryScreen.Gallery.ToggleInfo` | app/services/screens/GalleryScreen.tsx:206 | Tapping the overlay's image flips the info panel. |
| `GalleryScreen.Gallery.SetActiveTab` | app/services/screens/GalleryScreen.tsx:237 | A tab button sets the active tab and nothing else. |
| `MapViewScreen.Toggled` | app/services/screens/MapViewScreen.tsx:118 | The toggle always changes the map type. |
| `MapViewScreen.ToggleTwiceRestores` | app/services/screens/MapViewScreen.tsx:118 | Two toggles restore the original map type. |
| `MapViewScreen.Render` | app/services/screens/MapViewScreen.tsx:46-81 | The spinner exactly while loading, whatever the markers; when not loading, the empty state exactly when no image has a location; otherwise the map of all markers, with the current map type, centred on the first marker with a span of 0.001 in latitude and in longitude. |
| `MapViewScreen.MapScreen.View` | app/services/screens/MapViewScreen.tsx:44-81 | In the screen's current state: the spinner exactly while loading; a drawn map has the current map type and the screen's markers; once loaded, any located image means the map is drawn. |
| `MapViewScreen.MapScreen.constructor` | app/services/screens/MapViewScreen.tsx:22-25 | The screen mounts on the store, loading, with no images, no selected marker and the standard map. |
| `MapViewScreen.MapScreen.StartLoad` | app/services/screens/MapViewScreen.tsx:33 | Starting a load sets `loading`, so the spinner shows. |
| `MapViewScreen.MapScreen.FinishLoad` | app/services/screens/MapViewScreen.tsx:34-41 | After a load `loading` is false whether the read succeeded or threw; on success the images become a listing of the store (every row once, newest first) and no alert; on failure the images stay and one alert is raised. |
| `MapViewScreen.MapScreen.ToggleMapType` | app/services/screens/MapViewScreen.tsx:118 | The map type becomes the other one; nothing else changes. |
| `MapViewScreen.MapScreen.SelectMarker` | app/services/screens/MapViewScreen.tsx:89 | Tapping a marker selects that image. |
| `FullScreenView.Claims` | app/services/screens/FullScreenImageView.tsx:36-37 | The gesture is claimed exactly when the absolute value of dy exceeds 10, so never at dy = 0. |
| `FullScreenView.Next` | app/services/screens/FullScreenImageView.tsx:36-67 | A move before the claim only decides the claim and changes nothing else; after the claim an upward move (dy < 0) sets the offset to dy, so the content follows the finger, and stops any running snap; every event but a release leaves the map's eventual visibility (after any running snap completes) as it was; a release by the responder gives up the gesture and decides that visibility: shown exactly when dy < -100. |
| `FullScreenView.ReleaseSnap` | app/services/screens/FullScreenImageView.tsx:43-67 | A release opens the map exactly when dy < -100; the snap target is -height/2 when it opens and 0 otherwise, never positive. |
| `FullScreenView.NextKeepsConsistent` | app/services/screens/FullScreenImageView.tsx:38-67 | One event keeps the offset non-positive and any running snap aimed at 0 (closing) or -height/2 (opening). |
| `FullScreenView.OffsetNeverPositive` | app/services/screens/FullScreenImageView.tsx:38-67 | From a consistent state, after any sequence of moves, releases and completions the offset is still at most 0. |
| `FullScreenView.StepChanges` | app/services/screens/FullScreenImageView.tsx:36-67 | The responder is claimed only by a move with abs(dy) > 10; the offset changes only on an upward move after the claim or a snap's completion; `mapVisible` changes only to the value a snap's completion callback passes. |
| `FullScreenView.DownwardMoveIgnored` | app/services/screens/FullScreenImageView.tsx:38-42 | A move with dy >= 0 leaves the offset, the running snap and `mapVisible` unchanged. |
| `FullScreenView.ReleaseDecides` | app/services/screens/FullScreenImageView.tsx:43-67 | Release then completion: the map is visible and the offset at -height/2 exactly when dy < -100; otherwise hidden at 0. |
| `FullScreenView.ExactThresholdSnapsBack` | app/services/screens/FullScreenImageView.tsx:44 | A claimed drag to exactly -100 px and release returns to rest with the map hidden. |
| `FullScreenView.DragTo120Opens` | app/services/screens/FullScreenImageView.tsx:44-58 | A claimed drag to -120 px and release ends at -height/2 with the map visible. |
| `FullScreenView.ClaimingMoveOnlyClaims` | app/services/screens/FullScreenImageView.tsx:36-42 | From rest, a move of -50 claims the gesture and leaves the offset at 0; a move of -5 changes nothing. |
| `FullScreenView.MoveDuringSnapTakesOver` | app/services/screens/FullScreenImageView.tsx:38-42 | A new gesture during a snap is not held back: its claiming move leaves the snap running, and the next upward move stops the snap, whose callback sets `mapVisible`, and sets the offset. |
| `FullScreenView.MapSubView` | app/services/screens/FullScreenImageView.tsx:189-224 | No map panel while `mapVisible` is false; when true, a panel centred on the image's coordinates titled with its name, with a span of 0.005 both ways; an error whenever it is visible and a coordinate is missing (`toFixed` on null). |
| `FullScreenView.ReviewScreen.constructor` | app/services/screens/FullScreenImageView.tsx:27-31 | At open the offset is 0, the map and both dialogs are hidden, and the name field holds `image.name`, or '' when there is none. |
| `FullScreenView.ReviewScreen.Move` | app/services/screens/FullScreenImageView.tsx:36-42 | A move event updates the gesture exactly as `Next` says (a claiming move only claims) and touches no dialog state. |
| `FullScreenView.ReviewScreen.Release` | app/services/screens/FullScreenImageView.tsx:43-49 | A release updates the gesture exactly as `Next` says. |
| `FullScreenView.ReviewScreen.SnapFinished` | app/services/screens/FullScreenImageView.tsx:53-67 | A finishing snap moves the offset to its target and sets `mapVisible` from its completion, as `Next` says. |
| `FullScreenView.ReviewScreen.OpenEdit` | app/services/screens/FullScreenImageView.tsx:105-107 | Opens the rename dialog and changes nothing else. |
| `FullScreenView.ReviewScreen.EditText` | app/services/screens/FullScreenImageView.tsx:155 | Typing replaces the name field and changes nothing else. |
| `FullScreenView.ReviewScreen.CancelEdit` | app/services/screens/FullScreenImageView.tsx:162 | Cancel closes the dialog without touching the store. |
| `FullScreenView.ReviewScreen.SaveName` | app/services/screens/FullScreenImageView.tsx:109-130 | On success the caller (when given) receives the image with only `name` replaced by the typed name, then the dialog closes and a success alert shows; on failure only an error alert, and the dialog stays open. |
| `FullScreenView.ReviewScreen.SaveNameAsWritten` | app/services/screens/FullScreenImageView.tsx:109-130 | With the store as written, `updateImageName` does not exist: every save raises only the error alert and the dialog stays open. |
| `FullScreenView.ReviewScreen.SaveNameIntended` | app/services/screens/FullScreenImageView.tsx:109-130 | With the intended `updateImageName`, the image's row takes the typed name, the caller (when given) gets the renamed image, the dialog closes and the success alert shows. |
| `FullScreenView.ReviewScreen.RequestDelete` | app/services/screens/FullScreenImageView.tsx:79-83 | Asking to delete only opens the confirmation. |
| `FullScreenView.ReviewScreen.CancelDelete` | app/services/screens/FullScreenImageView.tsx:84 | Cancelling the confirmation leaves the store untouched. |
| `FullScreenView.ReviewScreen.ConfirmDelete` | app/services/screens/FullScreenImageView.tsx:85-98 | After confirming, a successful delete removes the image's row and then asks for `onImageDeleted` (when given) and `goBack`; a failed one leaves the store as it was and only raises an alert. |

## Findings

| source | as written | input that shows it | evidently intended | confidence | as-written member | corrected member |
|---|---|---|---|---|---|---|
| app/services/screens/FullScreenImageView.tsx:112 | `handleSaveName` awaits `DatabaseService.updateImageName`, which DatabaseService.ts never defines (and the table has no `name` column), so the call throws a TypeError; the catch at lines 126-129 shows 'Failed to update image name' and the dialog stays open, so no rename ever succeeds | Open the rename dialog on any image, type "Beach", press Save | Store the name (`UPDATE images SET name = ? WHERE id = ?` on a table with a `name` column), pass the renamed image on and close the dialog | not executed | `FullScreenView.ReviewScreen.SaveNameAsWritten` (with `FullScreenView.UpdateImageNameAsWritten`) | `FullScreenView.ReviewScreen.SaveNameIntended` (with `PhotoStore.ImageTable.UpdateImageName`) |
| app/services/DatabaseService.ts:37 | The INSERT names columns `date` and `time`, which the CREATE TABLE at lines 16-23 never declares, so every `addImage` call is rejected when the statement is prepared and no image is ever stored | `addImage("file:///a.jpg", 37.0, -122.0)` | Insert (uri, latitude, longitude) and let `timestamp` default to the current time | not executed | `PhotoStore.ImageTable.AddImage` (with `PhotoStore.AddImageStatementRejected`) | `PhotoStore.ImageTable.InsertImage` (with `PhotoStore.IntendedStatementAccepted`) |

The screens in this model add images through `InsertImage`. With `AddImage` as
written, `pickImage` and `takePicture` would end in their error alerts
('Failed to pick or save image', 'Failed to take picture.') instead.

## Left out

- Opening the database (`openDatabaseSync`, `openDatabaseAsync`) and `initDatabase`, which swallows its own errors: SQLite is a foreign library; the table starts empty and is always open.
- SQLite read and write failures other than the schema and NOT NULL errors: they are I/O. `ReviewScreen.ConfirmDelete` takes a flag for a failed write; the gallery's `loadImages` catch and the outer catches of `pickImage`/`takePicture`/`deleteImage` are not reachable in the model.
- The `name` column the intended `UpdateImageName` writes: the schema check (`UnknownColumn`) covers only INSERT column lists, so adding that column to the CREATE TABLE is not modelled.
- `expo-location`, `fetch` and `response.json()`: I/O, replaced by the outcome values `PermissionReply`, `FixReply` and `LookupReply`.
- Permission prompts, the image picker and the camera: replaced by `PermissionStatus` and `PickerResult` values.
- The clock: `CURRENT_TIMESTAMP` is the `now` parameter, in whole seconds.
- Animation frames, durations, easing and `useNativeDriver`: only a snap's target and its completion callback are modelled. When a snap is stopped part-way, the offset it had reached is not tracked.
- `Alert`, `Share`, `navigation`, `MapView`/`Marker` drawing and the callout's navigation: external UI; alerts and callbacks are returned as values, sharing is not modelled.
- `console.log` and `console.error` calls (GeolocationService.ts, GalleryScreen.tsx, FullScreenImageView.tsx, MapViewScreen.tsx): logging only, with no effect on state or results.
- `toFixed`, `toLocaleString` and `Date` formatting: floating point and locale.
- NaN: coordinates are mathematical reals, so JavaScript's falsy NaN has no counterpart (SQLite stores NaN as NULL anyway).
- Overlapping asynchronous calls (a reload racing a write, two loads at once): each handler runs to completion before the next event; `loadImages` is not awaited by `pickImage`, which the model treats as finishing before the next event.
- `onPanResponderTerminate` and other responder callbacks the screen does not install.
- The splash screen's 5000 ms timer, `App.tsx`, `index.tsx` (which imports a file not in the repository) and the colour constants: startup wiring and styling.
