/**
 * The tuples that flow between the detector, the trackers and the emitter:
 * a detection `(x1, y1, x2, y2, conf, cls_id, cls_name)` and a tracked
 * detection `(x1, y1, x2, y2, track_id, conf, cls_name)`.
 */
module Detections {

  /** An axis-aligned box in pixel coordinates. */
  datatype Box = Box(x1: int, y1: int, x2: int, y2: int)

  /** One detector output. Confidences are exact reals. */
  datatype Det = Det(x1: int, y1: int, x2: int, y2: int, conf: real, clsId: int, clsName: string)

  /** One tracker output, aligned by position with the detection it came from. */
  datatype TrackedDet = TrackedDet(x1: int, y1: int, x2: int, y2: int, trackId: int, conf: real, clsName: string)

  function Max(a: int, b: int): int { if a >= b then a else b }

  function Min(a: int, b: int): int { if a <= b then a else b }

  function BoxOf(d: Det): Box { Box(d.x1, d.y1, d.x2, d.y2) }

  /** The tracked detection carries the detection's box, confidence and class name. */
  predicate Carries(t: TrackedDet, d: Det)
  {
    t.x1 == d.x1 && t.y1 == d.y1 && t.x2 == d.x2 && t.y2 == d.y2 &&
    t.conf == d.conf && t.clsName == d.clsName
  }

  /** The id the pipeline uses for "no identity". */
  const NoTrack: int := -1

  /**
   * What the frame loop hands on when tracking is off: every detection
   * with the "no identity" id.
   */
  function Untracked(dets: seq<Det>): (r: seq<TrackedDet>)
    ensures |r| == |dets|
    ensures forall i :: 0 <= i < |dets| ==> Carries(r[i], dets[i]) && r[i].trackId == NoTrack
  {
    seq(|dets|, i requires 0 <= i < |dets| =>
      TrackedDet(dets[i].x1, dets[i].y1, dets[i].x2, dets[i].y2, NoTrack, dets[i].conf, dets[i].clsName))
  }
}
