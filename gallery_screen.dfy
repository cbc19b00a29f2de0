/**
 * GalleryScreen: the grid/map tabs, the add-image flows (pick from the
 * library, take a picture), delete on long press, and the overlay showing one
 * selected image. The store is the shared `ImageTable`; permission prompts,
 * the picker, the camera and the location resolver appear as the outcomes
 * they deliver.
 */
module GalleryScreen {
  import opened Wrappers
  import opened Records
  import opened MapMarkers
  import PhotoStore
  import Geolocation

  const GalleryTab: string := "gallery"
  const MapTab: string := "map"
  /** Span of the map tab's initial region. */
  const GalleryMapDelta: real := 10.0

  const PermissionsNeeded: Alert := Alert("Permissions Needed", "Sorry, we need camera roll and camera permissions")
  const LocationError: Alert :=
    Alert("Location Error", "Failed to get current location. Image will be saved without location data.")
  const CameraDenied: Alert := Alert("Permission Denied", "Camera permission is required.")

  /** The map tab: the empty state, or a map centred on the first marker. */
  datatype MapPane = NoImagesWithLocation | Map(region: Region, markers: seq<ImageRecord>)

  /** What `renderContent` draws. */
  datatype Content = Grid(items: seq<ImageRecord>) | MapContent(pane: MapPane) | Nothing

  /** `renderMapView`. */
  function RenderMapView(images: seq<ImageRecord>): (v: MapPane)
    ensures v.NoImagesWithLocation? <==> forall img :: img in images ==> !HasLocation(img)
    ensures v.Map? ==>
              && v.markers == Markers(images)
              && v.markers != [] && HasLocation(v.markers[0])
              && v.region.latitude == v.markers[0].latitude.value
              && v.region.longitude == v.markers[0].longitude.value
              && v.region.latitudeDelta == GalleryMapDelta
              && v.region.longitudeDelta == GalleryMapDelta
  {
    var markers := Markers(images);
    if |markers| == 0 then NoImagesWithLocation
    else
      assert markers[0] in markers;
      Map(CenteredOn(markers[0], GalleryMapDelta), markers)
  }

  /** `renderContent`: dispatch on the active tab; any other tab draws nothing. */
  function RenderContent(activeTab: string, images: seq<ImageRecord>): (c: Content)
    ensures c.Grid? <==> activeTab == GalleryTab
    ensures c.MapContent? <==> activeTab == MapTab
    ensures c.Nothing? <==> activeTab != GalleryTab && activeTab != MapTab
    ensures c.Grid? ==> c.items == images
    ensures c.MapContent? ==> c.pane == RenderMapView(images)
  {
    if activeTab == GalleryTab then Grid(images)
    else if activeTab == MapTab then MapContent(RenderMapView(images))
    else Nothing
  }

  /** The overlay's location line: the coordinates, or 'No location data'. */
  datatype LocationText = ShowCoordinates(latitude: real, longitude: real) | NoLocationData

  function LocationLine(img: ImageRecord): (t: LocationText)
    ensures t.ShowCoordinates? <==> HasLocation(img)
    ensures t.ShowCoordinates? ==> t.latitude == img.latitude.value && t.longitude == img.longitude.value
  {
    if HasLocation(img) then ShowCoordinates(img.latitude.value, img.longitude.value) else NoLocationData
  }

  /** A marker on the map tab and the overlay's location line agree: both need two truthy coordinates. */
  lemma MarkerIffLocationShown(images: seq<ImageRecord>, img: ImageRecord)
    requires img in images
    ensures img in Markers(images) <==> LocationLine(img).ShowCoordinates?
  {
  }

  /** What the image picker or the camera delivers. */
  datatype PickerResult = Canceled | Picked(uri: string)

  class Gallery {
    const db: PhotoStore.ImageTable
    var activeTab: string
    var images: seq<ImageRecord>
    var selectedImage: Option<ImageRecord>
    var showInfo: bool

    ghost predicate Valid()
      reads this, db
    {
      db.Valid()
    }

    constructor (db: PhotoStore.ImageTable)
      requires db.Valid()
      ensures Valid() && this.db == db
      ensures activeTab == GalleryTab && images == [] && selectedImage == None && !showInfo
    {
      this.db := db;
      activeTab, images, selectedImage, showInfo := GalleryTab, [], None, false;
    }

    /** `loadImages`: the list becomes the store's listing. */
    method LoadImages()
      requires Valid()
      modifies this
      ensures Valid() && PhotoStore.IsListing(images, db.rows)
      ensures activeTab == old(activeTab) && selectedImage == old(selectedImage) && showInfo == old(showInfo)
    {
      images := db.GetImages();
    }

    /**
     * `pickImage`, given both permission statuses, the picker's result, the
     * replies the location resolver receives (its answer is
     * `Geolocation.GetCurrentLocation` of them) and the clock. Nothing is added without
     * both permissions or when the picker is cancelled; a failed location
     * still adds the image, without coordinates.
     */
    method PickImage(libraryStatus: PermissionStatus, cameraStatus: PermissionStatus, picked: PickerResult,
                     permission: Geolocation.PermissionReply, fix: Geolocation.FixReply,
                     lookup: Geolocation.LookupReply, now: int)
      returns (alerts: seq<Alert>)
      requires Valid()
      modifies this, db
      ensures Valid()
      ensures activeTab == old(activeTab) && selectedImage == old(selectedImage) && showInfo == old(showInfo)
      ensures libraryStatus != Granted || cameraStatus != Granted ==>
                alerts == [PermissionsNeeded] && unchanged(db) && images == old(images)
      ensures libraryStatus == Granted && cameraStatus == Granted && picked.Canceled? ==>
                alerts == [] && unchanged(db) && images == old(images)
      ensures libraryStatus == Granted && cameraStatus == Granted && picked.Picked? ==>
                var located := Geolocation.GetCurrentLocation(permission, fix, lookup).result;
                var coords := if located.Success? then located.value else Geolocation.Coordinates(None, None);
                && db.rows == old(db.rows) + [ImageRecord(old(db.lastId) + 1, picked.uri, now,
                                                          coords.latitude, coords.longitude, None)]
                && db.lastId == old(db.lastId) + 1
                && PhotoStore.IsListing(images, db.rows)
                && alerts == (if located.Failure? then [LocationError] else [])
    {
      if libraryStatus != Granted || cameraStatus != Granted {
        return [PermissionsNeeded];
      }
      if picked.Canceled? {
        return [];
      }
      var located := Geolocation.GetCurrentLocation(permission, fix, lookup).result;
      var coords := Geolocation.Coordinates(None, None);
      alerts := [];
      if located.Success? {
        coords := located.value;
      } else {
        alerts := [LocationError];
      }
      var _ := db.InsertImage(Some(picked.uri), coords.latitude, coords.longitude, now);
      LoadImages();
    }

    /** `takePicture`: adds the shot without coordinates unless cancelled, and reloads either way. */
    method TakePicture(cameraStatus: PermissionStatus, shot: PickerResult, now: int)
      returns (alerts: seq<Alert>)
      requires Valid()
      modifies this, db
      ensures Valid()
      ensures activeTab == old(activeTab) && selectedImage == old(selectedImage) && showInfo == old(showInfo)
      ensures cameraStatus != Granted ==> alerts == [CameraDenied] && unchanged(db) && images == old(images)
      ensures cameraStatus == Granted ==>
                && alerts == []
                && PhotoStore.IsListing(images, db.rows)
                && db.rows == old(db.rows)
                     + (if shot.Picked? then [ImageRecord(old(db.lastId) + 1, shot.uri, now, None, None, None)] else [])
                && db.lastId == old(db.lastId) + (if shot.Picked? then 1 else 0)
      ensures cameraStatus == Granted && shot.Canceled? ==> unchanged(db)
    {
      if cameraStatus != Granted {
        return [CameraDenied];
      }
      if shot.Picked? {
        var _ := db.InsertImage(Some(shot.uri), None, None, now);
      }
      LoadImages();
      alerts := [];
    }

    /** Long press on a thumbnail: delete that row and reload. */
    method DeleteImage(id: int)
      requires Valid()
      modifies this, db
      ensures Valid()
      ensures activeTab == old(activeTab) && selectedImage == old(selectedImage) && showInfo == old(showInfo)
      ensures db.rows == PhotoStore.WithoutId(old(db.rows), id) && db.lastId == old(db.lastId)
      ensures PhotoStore.IsListing(images, db.rows)
    {
      db.DeleteImage(id);
      LoadImages();
    }

    /** Tap on a thumbnail: open the overlay on it. */
    method SelectImage(img: ImageRecord)
      modifies this
      ensures selectedImage == Some(img)
      ensures activeTab == old(activeTab) && images == old(images) && showInfo == old(showInfo)
    {
      selectedImage := Some(img);
    }

    /** The overlay's Close button: no selection, and the info panel is reset. */
    method CloseOverlay()
      modifies this
      ensures selectedImage == None && !showInfo
      ensures activeTab == old(activeTab) && images == old(images)
    {
      selectedImage := None;
      showInfo := false;
    }

    /** Tap on the overlay's image: show or hide the info panel. */
    method ToggleInfo()
      modifies this
      ensures showInfo == !old(showInfo)
      ensures activeTab == old(activeTab) && images == old(images) && selectedImage == old(selectedImage)
    {
      showInfo := !showInfo;
    }

    /** A tab button. */
    method SetActiveTab(tab: string)
      modifies this
      ensures activeTab == tab
      ensures images == old(images) && selectedImage == old(selectedImage) && showInfo == old(showInfo)
    {
      activeTab := tab;
    }
  }
}
