/**
 * MapViewScreen: every located image as a marker on a map, with a loading
 * state, an empty state, a standard/satellite toggle and the tapped marker.
 * The store read is represented by what it delivers.
 */
module MapViewScreen {
  import opened Wrappers
  import opened Records
  import opened MapMarkers
  import PhotoStore

  /** Span of this screen's initial region. */
  const ScreenMapDelta: real := 0.001

  const LoadFailed: Alert := Alert("Error", "Failed to load images")

  datatype MapType = Standard | Satellite

  /** The map-type button: `mapType === 'standard' ? 'satellite' : 'standard'`. */
  function Toggled(t: MapType): (r: MapType)
    ensures r != t
  {
    if t == Standard then Satellite else Standard
  }

  /** Two presses of the map-type button restore the original type. */
  lemma ToggleTwiceRestores(t: MapType)
    ensures Toggled(Toggled(t)) == t
  {
  }

  /** What the screen draws. */
  datatype Screen =
    | Spinner
    | EmptyState
    | MapShown(mapType: MapType, region: Region, markers: seq<ImageRecord>)

  /** The spinner while loading, else the empty state when no image has a location, else the map. */
  function Render(loading: bool, images: seq<ImageRecord>, mapType: MapType): (v: Screen)
    ensures loading <==> v.Spinner?
    ensures v.EmptyState? <==> !loading && forall img :: img in images ==> !HasLocation(img)
    ensures v.MapShown? ==>
              && v.mapType == mapType
              && v.markers == Markers(images)
              && v.markers != [] && HasLocation(v.markers[0])
              && v.region.latitude == v.markers[0].latitude.value
              && v.region.longitude == v.markers[0].longitude.value
              && v.region.latitudeDelta == ScreenMapDelta
              && v.region.longitudeDelta == ScreenMapDelta
  {
    if loading then Spinner
    else
      var markers := Markers(images);
      if |markers| == 0 then EmptyState
      else
        assert markers[0] in markers;
        MapShown(mapType, CenteredOn(markers[0], ScreenMapDelta), markers)
  }

  class MapScreen {
    const db: PhotoStore.ImageTable
    var images: seq<ImageRecord>
    var loading: bool
    var selectedMarker: Option<ImageRecord>
    var mapType: MapType

    /** The screen as it mounts: loading, no images, standard map, nothing selected. */
    constructor (db: PhotoStore.ImageTable)
      ensures this.db == db
      ensures images == [] && loading && selectedMarker == None && mapType == Standard
    {
      this.db := db;
      images, loading, selectedMarker, mapType := [], true, None, Standard;
    }

    /** What the screen draws in its current state. */
    function View(): (v: Screen)
      reads this
      ensures loading <==> v.Spinner?
      ensures v.MapShown? ==> v.mapType == mapType && v.markers == Markers(images)
      ensures !loading && Markers(images) != [] ==> v.MapShown?
    {
      Render(loading, images, mapType)
    }

    /** `loadImages` up to its `await`: `setLoading(true)`. */
    method StartLoad()
      modifies this
      ensures loading && View() == Spinner
      ensures images == old(images) && selectedMarker == old(selectedMarker) && mapType == old(mapType)
    {
      loading := true;
    }

    /**
     * `loadImages` after its `await`: on success the images become the
     * store's listing (`readFailed` says the read threw), and in both cases
     * `finally { setLoading(false) }`.
     */
    method FinishLoad(readFailed: bool) returns (alerts: seq<Alert>)
      modifies this
      ensures !loading
      ensures !readFailed ==> PhotoStore.IsListing(images, db.rows) && alerts == []
      ensures readFailed ==> images == old(images) && alerts == [LoadFailed]
      ensures selectedMarker == old(selectedMarker) && mapType == old(mapType)
    {
      alerts := [];
      if readFailed {
        alerts := [LoadFailed];
      } else {
        images := db.GetImages();
      }
      loading := false;
    }

    /** The map-type button. */
    method ToggleMapType()
      modifies this
      ensures mapType == Toggled(old(mapType))
      ensures images == old(images) && loading == old(loading) && selectedMarker == old(selectedMarker)
    {
      mapType := Toggled(mapType);
    }

    /** A tap on a marker. */
    method SelectMarker(img: ImageRecord)
      requires img in Markers(images)
      modifies this
      ensures selectedMarker == Some(img)
      ensures images == old(images) && loading == old(loading) && mapType == old(mapType)
    {
      selectedMarker := Some(img);
    }
  }
}
