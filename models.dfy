/** The records the heat-map core consumes. Coordinates, stored as C# doubles, are
    modelled as mathematical reals: rounding, NaN and infinities are abstracted away. */
module Models {

  /** Stock optional value, standing in for C# null and nullable values. */
  datatype Option<T> = None | Some(value: T)

  /** `Math.Abs` on reals. */
  function Abs(x: real): real
  {
    if x < 0.0 then -x else x
  }

  /** One stored reading. The DateTime timestamp is represented by its tick count and
      the nullable accuracy (metres) by an Option. The core reads only the coordinates. */
  datatype LocationPoint = LocationPoint(
    id: int,
    latitude: real,
    longitude: real,
    timestamp: int,
    accuracy: Option<real>)
}
