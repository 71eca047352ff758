/** Shapes shared by the server and the client. */
module Common {

  /** A value that may be absent; the source's `null`. */
  datatype Option<+T> = None | Some(value: T)

  /**
   * A geographic position `{lat, lng}`. No arithmetic is ever done on it: the server and the
   * client only store and forward it.
   */
  datatype Location = Location(lat: real, lng: real)
}
