/**
 * The marker filter `images.filter(img => img.latitude && img.longitude)`,
 * written identically in GalleryScreen and MapViewScreen, and the map region
 * both screens centre on the first marker.
 */
module MapMarkers {
  import opened Wrappers
  import opened Records

  /** The images that get a map marker, in list order. */
  function Markers(images: seq<ImageRecord>): (m: seq<ImageRecord>)
    ensures |m| <= |images|
    ensures forall img :: img in m <==> img in images && HasLocation(img)
  {
    if images == [] then []
    else if HasLocation(images[0]) then [images[0]] + Markers(images[1..])
    else Markers(images[1..])
  }

  /** Filtering distributes over concatenation, so markers keep the list order. */
  lemma {:induction false} MarkersOfConcat(a: seq<ImageRecord>, b: seq<ImageRecord>)
    ensures Markers(a + b) == Markers(a) + Markers(b)
  {
    if a == [] {
      assert a + b == b;
    } else {
      assert (a + b)[1..] == a[1..] + b;
      MarkersOfConcat(a[1..], b);
    }
  }

  /** A record with a coordinate of exactly 0 (or a missing one) never becomes a marker. */
  lemma ZeroCoordinateDropped(images: seq<ImageRecord>, img: ImageRecord)
    requires img.latitude == Some(0.0) || img.longitude == Some(0.0) || img.latitude.None? || img.longitude.None?
    ensures img !in Markers(images)
  {
  }

  /** The first marker is the first image in the list that has a location. */
  lemma {:induction false} FirstMarkerIsFirstLocated(images: seq<ImageRecord>)
    requires Markers(images) != []
    ensures exists i :: 0 <= i < |images| && images[i] == Markers(images)[0]
              && forall j :: 0 <= j < i ==> !HasLocation(images[j])
  {
    if HasLocation(images[0]) {
      assert images[0] == Markers(images)[0];
    } else {
      FirstMarkerIsFirstLocated(images[1..]);
      var i :| 0 <= i < |images[1..]| && images[1..][i] == Markers(images[1..])[0]
                && forall j :: 0 <= j < i ==> !HasLocation(images[1..][j]);
      assert images[i + 1] == Markers(images)[0];
      forall j | 0 <= j < i + 1 ensures !HasLocation(images[j]) {
        if j > 0 { assert images[j] == images[1..][j - 1]; }
      }
    }
  }

  /** `initialRegion` of a MapView: centre and span in degrees. */
  datatype Region = Region(latitude: real, longitude: real, latitudeDelta: real, longitudeDelta: real)

  /**
   * The region centred on a marker, with the same span in both directions.
   * Only a located image can be a centre, so the centre is never (0, 0).
   */
  function CenteredOn(img: ImageRecord, delta: real): (r: Region)
    requires HasLocation(img)
    ensures Some(r.latitude) == img.latitude && Some(r.longitude) == img.longitude
    ensures r.latitude != 0.0 && r.longitude != 0.0
    ensures r.latitudeDelta == r.longitudeDelta == delta
  {
    Region(img.latitude.value, img.longitude.value, delta, delta)
  }
}
