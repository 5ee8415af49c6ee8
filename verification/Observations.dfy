/**
  What the gesture modes read from a frame: its units, and the answers of the zone, motion and axis tests
  (source/GestureInteraction/GestureInteractionManager.h:62-68, :135-136).
 */
module Observations {

  const MILLISECONDS := 1000
  const SECONDS := 1000000

  datatype Zone = ZoneNone | ZoneHovering | ZoneTouching

  /** What the motion filter is sure of, if anything. */
  datatype Motion = Undecided | Rotating | Translating | Scaling

  /** The dominant axis of a translation, if any. */
  datatype Direction = NoDirection | Horizontal | Vertical
}
