/**
 * Values shared by the image store, the location resolver and the screens:
 * the image record as the screens see it, JavaScript truthiness of a
 * coordinate, permission statuses and alert dialogs.
 */
module Records {
  import opened Wrappers

  /**
   * One image: a row of the `images` table as `SELECT *` returns it, or the
   * object the full-screen view hands back after a rename. As written, the
   * table has no `name` column, so only that object carries a name; the
   * intended `updateImageName` stores one in the row.
   * `timestamp` is SQLite's CURRENT_TIMESTAMP in whole seconds: its text form
   * `YYYY-MM-DD HH:MM:SS` sorts in the same order as this number.
   * A coordinate that is SQL NULL, JavaScript null or undefined is `None`.
   */
  datatype ImageRecord = ImageRecord(
    id: int,
    uri: string,
    timestamp: int,
    latitude: Option<real>,
    longitude: Option<real>,
    name: Option<string>)

  /** JavaScript truthiness of a number that may be null or undefined: null, undefined and 0 are falsy. */
  predicate Truthy(x: Option<real>): (t: bool)
    ensures !t <==> x == None || x == Some(0.0)
  {
    x.Some? && x.value != 0.0
  }

  /** The test `img.latitude && img.longitude` that both screens use to choose map markers. */
  predicate HasLocation(img: ImageRecord): (h: bool)
    ensures h ==> img.latitude.Some? && img.longitude.Some?
    ensures !h <==> img.latitude in {None, Some(0.0)} || img.longitude in {None, Some(0.0)}
  {
    Truthy(img.latitude) && Truthy(img.longitude)
  }

  /** The `status` field of a permission request (expo-location, expo-image-picker). */
  datatype PermissionStatus = Granted | Denied | Undetermined

  /** An `Alert.alert(title, message)` the screen raises; recorded, not shown. */
  datatype Alert = Alert(title: string, message: string)
}
