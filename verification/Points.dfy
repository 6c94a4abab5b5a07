/** Points of the plane. */
module Points {
  datatype Point = Point(x: real, y: real)
}
