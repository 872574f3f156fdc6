/** Window geometry shared by the input handlers and the label layout. */
module Geometry {

  /** A position in pixel coordinates. */
  datatype Point = Point(x: int, y: int)

}
