/**
 * FullScreenImageView: one image under a vertical swipe that reveals a map,
 * a rename dialog and a confirm-then-delete flow.
 *
 * The swipe is a small state machine over the vertical offset `translateY`,
 * the running snap animation (only its target and the `setMapVisible`
 * argument of its completion callback), `mapVisible`, and whether the pan
 * responder holds the gesture. `Next` states it as a function; the class
 * `ReviewScreen` holds the same fields and its handlers are proved to follow
 * `Next`. Frame timing, durations and easing are not modelled.
 *
 * Two facts of the Animated library shape the model: `setValue` and starting
 * a new animation both stop the one running on that value, and a stopped
 * animation still runs its completion callback (with `finished: false`,
 * which the callbacks here ignore).
 *
 * Two facts of PanResponder do too. The move that claims the gesture is
 * consumed by `onMoveShouldSetPanResponder`: the responder is granted, but
 * `onPanResponderMove` is not called for that same move. And the grant
 * resets `gestureState.dy` to 0, so the `dy` of every later move and of the
 * release counts from where the gesture was claimed. An event's `dy` here is
 * the value the callback receives.
 */
module FullScreenView {
  import opened Wrappers
  import opened Records
  import PhotoStore
  import MapMarkers

  /** A move is claimed once |dy| exceeds this many pixels. */
  const ClaimThreshold: real := 10.0
  /** A release opens the map only when dragged strictly further up than this. */
  const RevealThreshold: real := 100.0
  /** Span of the map region around the image. */
  const MapDelta: real := 0.005

  /** `onMoveShouldSetPanResponder`: `Math.abs(dy) > 10`. */
  predicate Claims(dy: real): (c: bool)
    ensures c <==> (if dy < 0.0 then -dy else dy) > ClaimThreshold
    ensures c ==> dy != 0.0
  {
    dy > ClaimThreshold || dy < -ClaimThreshold
  }

  /** A running `Animated.timing`: where it goes and what its completion passes to `setMapVisible`. */
  datatype Snap = Snap(target: real, opensMap: bool)

  /** `onPanResponderRelease`: `showMap` below -100, `resetPosition` otherwise. */
  function ReleaseSnap(dy: real, height: real): (s: Snap)
    requires height > 0.0
    ensures s.opensMap <==> dy < -RevealThreshold
    ensures s.target < 0.0 <==> s.opensMap
    ensures s.target == -height / 2.0 || s.target == 0.0
  {
    if dy < -RevealThreshold then Snap(-height / 2.0, true) else Snap(0.0, false)
  }

  datatype Gesture = Gesture(translateY: real, snap: Option<Snap>, mapVisible: bool, responder: bool)

  /** The state when the screen opens. */
  const AtOpen: Gesture := Gesture(0.0, None, false, false)

  /** Input: a touch move or release with its accumulated `dy`, or the end of the running animation. */
  datatype Event = Move(dy: real) | Release(dy: real) | SnapDone

  /** `mapVisible` once the running animation, if any, has run its completion callback. */
  function Settled(g: Gesture): bool {
    if g.snap.Some? then g.snap.value.opensMap else g.mapVisible
  }

  /**
   * One event of the swipe. A move either claims the gesture and changes
   * nothing else, or, once claimed, moves the content up; only a release
   * changes where the map ends up, and it decides that from `dy` alone.
   */
  function Next(g: Gesture, e: Event, height: real): (r: Gesture)
    requires height > 0.0
    ensures e.Move? && !g.responder ==> r == g.(responder := Claims(e.dy))
    ensures !e.Release? ==> Settled(r) == Settled(g)
    ensures e.Move? && g.responder && e.dy < 0.0 ==> r.translateY == e.dy && r.snap == None && r.responder
    ensures e.Release? && g.responder ==> !r.responder && Settled(r) == (e.dy < -RevealThreshold)
  {
    match e
    case Move(dy) =>
      if !g.responder then
        // consumed by onMoveShouldSetPanResponder; onPanResponderMove is not called for it
        g.(responder := Claims(dy))
      else if dy < 0.0 then
        // translateY.setValue(dy): stops a running snap, whose callback still fires
        Gesture(dy, None, Settled(g), true)
      else
        g
    case Release(dy) =>
      if !g.responder then g
      else Gesture(g.translateY, Some(ReleaseSnap(dy, height)), Settled(g), false)
    case SnapDone =>
      match g.snap
      case None => g
      case Some(s) => Gesture(s.target, None, s.opensMap, g.responder)
  }

  /** The events in order. */
  function Run(g: Gesture, events: seq<Event>, height: real): Gesture
    requires height > 0.0
    decreases |events|
  {
    if events == [] then g else Run(Next(g, events[0], height), events[1..], height)
  }

  /** The offset is never positive, and a running snap goes to one of the two targets. */
  ghost predicate Consistent(g: Gesture, height: real) {
    && g.translateY <= 0.0
    && (g.snap.Some? ==> g.snap.value == Snap(-height / 2.0, true) || g.snap.value == Snap(0.0, false))
  }

  lemma NextKeepsConsistent(g: Gesture, e: Event, height: real)
    requires height > 0.0 && Consistent(g, height)
    ensures Consistent(Next(g, e, height), height)
  {
  }

  /** Whatever the user does, the content never moves below its resting place. */
  lemma {:induction false} OffsetNeverPositive(g: Gesture, events: seq<Event>, height: real)
    requires height > 0.0 && Consistent(g, height)
    ensures Consistent(Run(g, events, height), height)
    ensures Run(g, events, height).translateY <= 0.0
    decreases |events|
  {
    if events != [] {
      NextKeepsConsistent(g, events[0], height);
      OffsetNeverPositive(Next(g, events[0], height), events[1..], height);
    }
  }

  /**
   * What one event may change: the responder is claimed only beyond 10 px;
   * the offset moves only on an upward move or when a snap completes;
   * `mapVisible` only ever takes the value a snap's completion passes.
   */
  lemma StepChanges(g: Gesture, e: Event, height: real)
    requires height > 0.0
    ensures var h := Next(g, e, height);
            && (!g.responder && h.responder ==> e.Move? && Claims(e.dy))
            && (h.translateY != g.translateY ==> (e.Move? && g.responder && e.dy < 0.0) || (e.SnapDone? && g.snap.Some?))
            && (h.mapVisible != g.mapVisible ==> g.snap.Some? && h.mapVisible == g.snap.value.opensMap)
  {
  }

  /** A downward or level move leaves the offset, the snap and the map alone. */
  lemma DownwardMoveIgnored(g: Gesture, dy: real, height: real)
    requires height > 0.0 && dy >= 0.0
    ensures var h := Next(g, Move(dy), height);
            h.translateY == g.translateY && h.snap == g.snap && h.mapVisible == g.mapVisible
  {
  }

  /** Release then completion: open at -height/2 exactly when dragged beyond 100 px, otherwise back at 0 and hidden. */
  lemma ReleaseDecides(g: Gesture, dy: real, height: real)
    requires height > 0.0 && g.responder
    ensures var h := Next(Next(g, Release(dy), height), SnapDone, height);
            && h.snap == None
            && h.mapVisible == (dy < -RevealThreshold)
            && h.translateY == (if dy < -RevealThreshold then -height / 2.0 else 0.0)
  {
  }

  /** A drag of exactly 100 px does not open the map (the comparison is strict). */
  lemma ExactThresholdSnapsBack(height: real)
    requires height > 0.0
    ensures Run(AtOpen, [Move(-15.0), Move(-100.0), Release(-100.0), SnapDone], height)
            == Gesture(0.0, None, false, false)
  {
    var g1 := Next(AtOpen, Move(-15.0), height);
    var g2 := Next(g1, Move(-100.0), height);
    var g3 := Next(g2, Release(-100.0), height);
    var g4 := Next(g3, SnapDone, height);
    assert g4 == Gesture(0.0, None, false, false);
    RunSteps(AtOpen, [Move(-15.0), Move(-100.0), Release(-100.0), SnapDone], height);
  }

  /** A claimed drag to -120 px opens the map at -height/2. */
  lemma DragTo120Opens(height: real)
    requires height > 0.0
    ensures Run(AtOpen, [Move(-15.0), Move(-120.0), Release(-120.0), SnapDone], height)
            == Gesture(-height / 2.0, None, true, false)
  {
    var g1 := Next(AtOpen, Move(-15.0), height);
    var g2 := Next(g1, Move(-120.0), height);
    var g3 := Next(g2, Release(-120.0), height);
    var g4 := Next(g3, SnapDone, height);
    assert g4 == Gesture(-height / 2.0, None, true, false);
    RunSteps(AtOpen, [Move(-15.0), Move(-120.0), Release(-120.0), SnapDone], height);
  }

  /** The move that claims the gesture does not move the content, however far up it is. */
  lemma ClaimingMoveOnlyClaims(height: real)
    requires height > 0.0
    ensures Next(AtOpen, Move(-50.0), height) == Gesture(0.0, None, false, true)
    ensures Next(AtOpen, Move(-5.0), height) == AtOpen
  {
  }

  /** Running a short list of events is stepping through it one event at a time. */
  lemma RunSteps(g: Gesture, events: seq<Event>, height: real)
    requires height > 0.0 && 1 <= |events| <= 4
    ensures |events| == 1 ==> Run(g, events, height) == Next(g, events[0], height)
    ensures |events| == 2 ==> Run(g, events, height) == Next(Next(g, events[0], height), events[1], height)
    ensures |events| == 3 ==>
              Run(g, events, height) == Next(Next(Next(g, events[0], height), events[1], height), events[2], height)
    ensures |events| == 4 ==>
              Run(g, events, height) == Next(Next(Next(Next(g, events[0], height), events[1], height), events[2], height), events[3], height)
    decreases |events|
  {
    var g1 := Next(g, events[0], height);
    if |events| > 1 {
      RunSteps(g1, events[1..], height);
    }
  }

  /**
   * Nothing holds a new gesture back while a snap runs: the claiming move
   * leaves the snap running, and the next upward move stops it, so that the
   * snap's callback fires at once, and takes over the offset.
   */
  lemma MoveDuringSnapTakesOver(g: Gesture, claim: real, dy: real, height: real)
    requires height > 0.0 && g.snap.Some? && !g.responder && Claims(claim) && dy < 0.0
    ensures var h := Next(g, Move(claim), height);
            && h == g.(responder := true)
            && Next(h, Move(dy), height) == Gesture(dy, None, g.snap.value.opensMap, true)
  {
  }

  /** The map panel: `initialRegion` around the image, and the marker's title. */
  datatype MapPanel = MapPanel(region: MapMarkers.Region, title: Option<string>)

  /**
   * `{mapVisible && (…)}`: no panel while the map is hidden. The panel prints
   * `image.latitude.toFixed(6)`, which throws when a coordinate is missing.
   */
  function MapSubView(mapVisible: bool, image: ImageRecord): (v: Result<Option<MapPanel>, string>)
    ensures v.Success? && v.value.Some? <==> mapVisible && image.latitude.Some? && image.longitude.Some?
    ensures !mapVisible ==> v == Success(None)
    ensures mapVisible && (image.latitude.None? || image.longitude.None?) ==> v.Failure?
    ensures v.Success? && v.value.Some? ==>
              && v.value.value.region.latitude == image.latitude.value
              && v.value.value.region.longitude == image.longitude.value
              && v.value.value.region.latitudeDelta == MapDelta
              && v.value.value.region.longitudeDelta == MapDelta
              && v.value.value.title == image.name
  {
    if !mapVisible then Success(None)
    else if image.latitude.None? || image.longitude.None? then Failure("TypeError")
    else Success(Some(MapPanel(
      MapMarkers.Region(image.latitude.value, image.longitude.value, MapDelta, MapDelta), image.name)))
  }

  /** What a handler asks of its surroundings. */
  datatype Intent =
    | ImageUpdated(image: ImageRecord)   // onImageUpdated(…)
    | ImageDeleted                       // route.params.onImageDeleted()
    | GoBack                             // navigation.goBack()
    | ShowAlert(alert: Alert)

  const RenameSucceeded: Alert := Alert("Success", "Image name updated successfully")
  const RenameFailed: Alert := Alert("Error", "Failed to update image name")
  const DeleteFailed: Alert := Alert("Error", "Failed to delete image")

  /**
   * What `await DatabaseService.updateImageName(…)` does as the store is
   * written: the store defines no such method, so the call throws a
   * TypeError before anything is awaited.
   */
  const UpdateImageNameAsWritten: Result<(), string> := Failure("TypeError")

  class ReviewScreen {
    const image: ImageRecord
    const height: real
    const db: PhotoStore.ImageTable
    const hasOnImageUpdated: bool
    const hasOnImageDeleted: bool

    var translateY: real
    var snap: Option<Snap>
    var mapVisible: bool
    var responder: bool
    var isEditModalVisible: bool
    var newName: string
    var deleteDialogVisible: bool

    function State(): Gesture
      reads this
    {
      Gesture(translateY, snap, mapVisible, responder)
    }

    ghost predicate Valid()
      reads this, db
    {
      height > 0.0 && Consistent(State(), height) && db.Valid()
    }

    /** Opening the screen on `image`; `newName` starts as `image.name || ''`. */
    constructor (image: ImageRecord, height: real, db: PhotoStore.ImageTable,
                 hasOnImageUpdated: bool, hasOnImageDeleted: bool)
      requires height > 0.0 && db.Valid()
      ensures Valid()
      ensures this.image == image && this.height == height && this.db == db
      ensures this.hasOnImageUpdated == hasOnImageUpdated && this.hasOnImageDeleted == hasOnImageDeleted
      ensures State() == AtOpen && translateY == 0.0 && !mapVisible
      ensures !isEditModalVisible && !deleteDialogVisible
      ensures newName == image.name.GetOr("")
    {
      this.image, this.height, this.db := image, height, db;
      this.hasOnImageUpdated, this.hasOnImageDeleted := hasOnImageUpdated, hasOnImageDeleted;
      translateY, snap, mapVisible, responder := 0.0, None, false, false;
      isEditModalVisible, deleteDialogVisible := false, false;
      newName := if image.name.Some? then image.name.value else "";
    }

    /** A touch move with accumulated `dy`, offered to the pan responder. */
    method Move(dy: real)
      requires Valid()
      modifies this
      ensures Valid()
      ensures State() == Next(old(State()), Event.Move(dy), height)
      ensures isEditModalVisible == old(isEditModalVisible) && newName == old(newName)
      ensures deleteDialogVisible == old(deleteDialogVisible)
    {
      if !responder {
        responder := Claims(dy);
      } else if dy < 0.0 {
        if snap.Some? {
          mapVisible := snap.value.opensMap;
          snap := None;
        }
        translateY := dy;
      }
    }

    /** The finger lifts with accumulated `dy`. */
    method Release(dy: real)
      requires Valid()
      modifies this
      ensures Valid()
      ensures State() == Next(old(State()), Event.Release(dy), height)
      ensures isEditModalVisible == old(isEditModalVisible) && newName == old(newName)
      ensures deleteDialogVisible == old(deleteDialogVisible)
    {
      if !responder {
        return;
      }
      responder := false;
      if snap.Some? {
        mapVisible := snap.value.opensMap;
      }
      snap := Some(ReleaseSnap(dy, height));
    }

    /** The running animation reaches its target and calls back. */
    method SnapFinished()
      requires Valid()
      modifies this
      ensures Valid()
      ensures State() == Next(old(State()), SnapDone, height)
      ensures isEditModalVisible == old(isEditModalVisible) && newName == old(newName)
      ensures deleteDialogVisible == old(deleteDialogVisible)
    {
      if snap.Some? {
        translateY, mapVisible := snap.value.target, snap.value.opensMap;
        snap := None;
      }
    }

    /** `handleEdit`: open the rename dialog. */
    method OpenEdit()
      requires Valid()
      modifies this
      ensures Valid() && isEditModalVisible
      ensures State() == old(State()) && newName == old(newName)
      ensures deleteDialogVisible == old(deleteDialogVisible)
    {
      isEditModalVisible := true;
    }

    /** `onChangeText={setNewName}`. */
    method EditText(text: string)
      requires Valid()
      modifies this
      ensures Valid() && newName == text
      ensures State() == old(State()) && isEditModalVisible == old(isEditModalVisible)
      ensures deleteDialogVisible == old(deleteDialogVisible)
    {
      newName := text;
    }

    /** The Cancel button (and the back gesture): close the dialog; the store is not called. */
    method CancelEdit()
      requires Valid()
      modifies this
      ensures Valid() && !isEditModalVisible
      ensures State() == old(State()) && newName == old(newName)
      ensures deleteDialogVisible == old(deleteDialogVisible)
    {
      isEditModalVisible := false;
    }

    /**
     * `handleSaveName`, given the outcome of `DatabaseService.updateImageName(image.id, newName)`.
     * On success the caller gets a copy of the image with only `name` replaced and the dialog closes;
     * on failure the dialog stays open. The store itself is not changed here.
     */
    method SaveName(rename: Result<(), string>) returns (intents: seq<Intent>)
      requires Valid()
      modifies this
      ensures Valid()
      ensures State() == old(State()) && newName == old(newName)
      ensures deleteDialogVisible == old(deleteDialogVisible)
      ensures rename.Success? ==>
        && !isEditModalVisible
        && intents == (if hasOnImageUpdated then [ImageUpdated(image.(name := Some(newName)))] else [])
                      + [ShowAlert(RenameSucceeded)]
      ensures rename.Failure? ==>
        isEditModalVisible == old(isEditModalVisible) && intents == [ShowAlert(RenameFailed)]
    {
      if rename.Failure? {
        return [ShowAlert(RenameFailed)];
      }
      intents := [];
      if hasOnImageUpdated {
        intents := intents + [ImageUpdated(image.(name := Some(newName)))];
      }
      isEditModalVisible := false;
      intents := intents + [ShowAlert(RenameSucceeded)];
    }

    /**
     * `handleSaveName` against the store as written: `updateImageName` is
     * missing, so every save ends in the catch, with the dialog still open.
     */
    method SaveNameAsWritten() returns (intents: seq<Intent>)
      requires Valid()
      modifies this
      ensures Valid()
      ensures isEditModalVisible == old(isEditModalVisible) && intents == [ShowAlert(RenameFailed)]
      ensures State() == old(State()) && newName == old(newName)
      ensures deleteDialogVisible == old(deleteDialogVisible)
    {
      intents := SaveName(UpdateImageNameAsWritten);
    }

    /**
     * `handleSaveName` against a store that has the `updateImageName` it
     * calls: the image's row takes the typed name, the caller gets the
     * renamed image, and the dialog closes.
     */
    method SaveNameIntended() returns (intents: seq<Intent>)
      requires Valid()
      modifies this, db
      ensures Valid() && !isEditModalVisible
      ensures db.rows == PhotoStore.Renamed(old(db.rows), image.id, newName)
      ensures db.lastId == old(db.lastId)
      ensures intents == (if hasOnImageUpdated then [ImageUpdated(image.(name := Some(newName)))] else [])
                         + [ShowAlert(RenameSucceeded)]
      ensures State() == old(State()) && newName == old(newName)
      ensures deleteDialogVisible == old(deleteDialogVisible)
    {
      db.UpdateImageName(image.id, newName);
      intents := SaveName(Success(()));
    }

    /** `handleDelete`: ask for confirmation; nothing is deleted yet. */
    method RequestDelete()
      requires Valid()
      modifies this
      ensures Valid() && deleteDialogVisible
      ensures State() == old(State()) && newName == old(newName)
      ensures isEditModalVisible == old(isEditModalVisible)
    {
      deleteDialogVisible := true;
    }

    /** The confirmation's Cancel button: the dialog closes, the store is not touched. */
    method CancelDelete()
      requires Valid()
      modifies this
      ensures Valid() && !deleteDialogVisible
      ensures State() == old(State()) && newName == old(newName)
      ensures isEditModalVisible == old(isEditModalVisible)
    {
      deleteDialogVisible := false;
    }

    /**
     * The confirmation's Delete button. `storeFailed` says whether the
     * store's write rejected. On success: the row goes, then `onImageDeleted`
     * (when given), then `goBack`; on failure only an alert, and the screen stays.
     */
    method ConfirmDelete(storeFailed: bool) returns (intents: seq<Intent>)
      requires Valid() && deleteDialogVisible
      modifies this, db
      ensures Valid() && !deleteDialogVisible
      ensures State() == old(State()) && newName == old(newName)
      ensures isEditModalVisible == old(isEditModalVisible)
      ensures storeFailed ==> unchanged(db) && intents == [ShowAlert(DeleteFailed)]
      ensures !storeFailed ==>
        && db.rows == PhotoStore.WithoutId(old(db.rows), image.id)
        && db.lastId == old(db.lastId)
        && intents == (if hasOnImageDeleted then [ImageDeleted] else []) + [GoBack]
    {
      deleteDialogVisible := false;
      if storeFailed {
        return [ShowAlert(DeleteFailed)];
      }
      db.DeleteImage(image.id);
      intents := if hasOnImageDeleted then [ImageDeleted, GoBack] else [GoBack];
    }
  }
}
