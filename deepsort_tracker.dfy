/**
 * The re-alignment step of the DeepSORT wrapper. The library call that turns
 * the converted detections into tracks is outside the model: its result is an
 * input. What is modelled is the conversion of the detections, the filtering
 * of the library's tracks into candidates, the best-IoU search per detection
 * with a 0.5 threshold, and the output aligned with the detections.
 */
module DeepSortAlignment {
  import opened Options
  import opened Detections
  import SimpleTracking

  // ---------------------------------------------------------------------------
  // Conversion to left, top, width, height
  // ---------------------------------------------------------------------------

  datatype Ltwh = Ltwh(l: int, t: int, w: int, h: int)

  /** What the library receives for one detection: the box, the confidence and the class name. */
  datatype RawDet = RawDet(box: Ltwh, conf: real, cls: string)

  /** Width and height are clamped at 0, so a flipped box becomes an empty one at its corner. */
  function ToRawDet(d: Det): (r: RawDet)
    ensures r.box.l == d.x1 && r.box.t == d.y1 && r.box.w >= 0 && r.box.h >= 0
    ensures d.x1 <= d.x2 ==> r.box.l + r.box.w == d.x2
    ensures d.x2 < d.x1 ==> r.box.w == 0
    ensures d.y1 <= d.y2 ==> r.box.t + r.box.h == d.y2
    ensures d.y2 < d.y1 ==> r.box.h == 0
    ensures r.conf == d.conf && r.cls == d.clsName
  {
    RawDet(Ltwh(d.x1, d.y1, Max(0, d.x2 - d.x1), Max(0, d.y2 - d.y1)), d.conf, d.clsName)
  }

  function Corners(b: Ltwh): Box
  {
    Box(b.l, b.t, b.l + b.w, b.t + b.h)
  }

  /** For a box that is not flipped, the conversion loses nothing; a flipped side collapses to width 0. */
  lemma ToRawDetRoundTrip(d: Det)
    ensures d.x1 <= d.x2 && d.y1 <= d.y2 ==> Corners(ToRawDet(d).box) == BoxOf(d)
    ensures d.x2 < d.x1 ==> ToRawDet(d).box.w == 0
    ensures d.y2 < d.y1 ==> ToRawDet(d).box.h == 0
  {
  }

  /** The conversion loop over all detections. */
  method ToRaw(dets: seq<Det>) returns (raw: seq<RawDet>)
    ensures |raw| == |dets|
    ensures forall i :: 0 <= i < |dets| ==> raw[i] == ToRawDet(dets[i])
  {
    raw := [];
    for i := 0 to |dets|
      invariant |raw| == i
      invariant forall j :: 0 <= j < i ==> raw[j] == ToRawDet(dets[j])
    {
      raw := raw + [ToRawDet(dets[i])];
    }
  }

  // ---------------------------------------------------------------------------
  // Candidates
  // ---------------------------------------------------------------------------

  datatype RealBox = RealBox(l: real, t: real, r: real, b: real)

  /**
   * What the alignment reads of one library track. An attribute the track
   * lacks is None: `confirmed` is the answer of `is_confirmed`, `ltrb` the
   * original detection box (None also when the call returns None), `tlbr`
   * the predicted box.
   */
  datatype ExtTrack = ExtTrack(
    confirmed: Option<bool>,
    ltrb: Option<RealBox>,
    tlbr: Option<RealBox>,
    trackId: Option<int>,
    detClass: Option<string>,
    detConf: Option<real>)

  datatype Candidate = Candidate(tid: int, box: Box, name: string, conf: real)

  /** Python's `int()` of a float: truncation toward zero. */
  function Trunc(v: real): (r: int)
    ensures 0.0 <= v ==> 0 <= r && r as real <= v < r as real + 1.0
    ensures v < 0.0 ==> r <= 0 && r as real - 1.0 < v <= r as real
  {
    if v >= 0.0 then v.Floor else -((-v).Floor)
  }

  function TruncBox(b: RealBox): Box
  {
    Box(Trunc(b.l), Trunc(b.t), Trunc(b.r), Trunc(b.b))
  }

  /**
   * A track is skipped when it reports itself unconfirmed or has no box at
   * all; otherwise its box is the original detection box if there is one,
   * else the predicted box. A missing id reads as -1, a missing or empty
   * class as "object", a missing or zero confidence as 1.0.
   */
  function CandidateOf(t: ExtTrack): (c: Option<Candidate>)
    ensures c.None? <==> t.confirmed == Some(false) || (t.ltrb.None? && t.tlbr.None?)
    ensures c.Some? ==> c.value.box == TruncBox(if t.ltrb.Some? then t.ltrb.value else t.tlbr.value)
    ensures c.Some? ==> c.value.tid == (if t.trackId.Some? then t.trackId.value else -1)
    ensures c.Some? ==> c.value.name != "" && c.value.conf != 0.0
    ensures c.Some? && t.detClass.Some? && t.detClass.value != "" ==> c.value.name == t.detClass.value
    ensures c.Some? && (t.detClass.None? || t.detClass.value == "") ==> c.value.name == "object"
    ensures c.Some? && t.detConf.Some? && t.detConf.value != 0.0 ==> c.value.conf == t.detConf.value
    ensures c.Some? && (t.detConf.None? || t.detConf.value == 0.0) ==> c.value.conf == 1.0
  {
    if t.confirmed == Some(false) then None
    else
      var orig := if t.ltrb.Some? then t.ltrb else t.tlbr;
      if orig.None? then None
      else
        var tid := if t.trackId.Some? then t.trackId.value else -1;
        var name := if t.detClass.Some? && t.detClass.value != "" then t.detClass.value else "object";
        var conf := if t.detConf.Some? && t.detConf.value != 0.0 then t.detConf.value else 1.0;
        Some(Candidate(tid, TruncBox(orig.value), name, conf))
  }

  /** The candidates, in the library's track order. */
  function Filtered(ts: seq<ExtTrack>): (cs: seq<Candidate>)
    ensures |cs| <= |ts|
    ensures forall k :: 0 <= k < |cs| ==> cs[k].name != ""
    decreases |ts|
  {
    if ts == [] then []
    else
      var c := CandidateOf(ts[|ts| - 1]);
      Filtered(ts[..|ts| - 1]) + (if c.Some? then [c.value] else [])
  }

  /** A candidate is exactly what some track that is not skipped yields. */
  lemma {:induction false} FilteredMembers(ts: seq<ExtTrack>, c: Candidate)
    ensures c in Filtered(ts) <==> exists i :: 0 <= i < |ts| && CandidateOf(ts[i]) == Some(c)
    decreases |ts|
  {
    if ts != [] {
      var n := |ts| - 1;
      FilteredMembers(ts[..n], c);
      if c in Filtered(ts[..n]) {
        var i :| 0 <= i < n && CandidateOf(ts[..n][i]) == Some(c);
        assert CandidateOf(ts[i]) == Some(c);
      }
      if exists i :: 0 <= i < |ts| && CandidateOf(ts[i]) == Some(c) {
        var i :| 0 <= i < |ts| && CandidateOf(ts[i]) == Some(c);
        if i < n {
          assert ts[..n][i] == ts[i];
        }
      }
    }
  }

  /** The candidate-filtering loop. */
  method Candidates(ts: seq<ExtTrack>) returns (cs: seq<Candidate>)
    ensures cs == Filtered(ts)
    ensures forall c :: c in cs <==> exists i :: 0 <= i < |ts| && CandidateOf(ts[i]) == Some(c)
  {
    cs := [];
    for i := 0 to |ts|
      invariant cs == Filtered(ts[..i])
    {
      assert ts[..i + 1][..i] == ts[..i];
      var c := CandidateOf(ts[i]);
      if c.Some? {
        cs := cs + [c.value];
      }
    }
    assert ts[..|ts|] == ts;
    forall c ensures c in cs <==> exists i :: 0 <= i < |ts| && CandidateOf(ts[i]) == Some(c) {
      FilteredMembers(ts, c);
    }
  }

  // ---------------------------------------------------------------------------
  // The second IoU
  // ---------------------------------------------------------------------------

  /** IoU with both areas clamped at 0, and 0 whenever the overlap or the union is not positive. */
  function DsIoU(a: Box, b: Box): (r: real)
    ensures 0.0 <= r
  {
    var iw := Max(0, Min(a.x2, b.x2) - Max(a.x1, b.x1));
    var ih := Max(0, Min(a.y2, b.y2) - Max(a.y1, b.y1));
    var inter := iw * ih;
    if inter <= 0 then 0.0
    else
      var areaA := Max(0, a.x2 - a.x1) * Max(0, a.y2 - a.y1);
      var areaB := Max(0, b.x2 - b.x1) * Max(0, b.y2 - b.y1);
      var union := areaA + areaB - inter;
      if union <= 0 then 0.0
      else inter as real / union as real
  }

  /**
   * On integer boxes the two IoU functions agree everywhere: a positive
   * overlap forces both boxes to be well formed, so neither the clamps nor
   * the floors ever apply.
   */
  lemma DsIoUAgrees(a: Box, b: Box)
    ensures DsIoU(a, b) == SimpleTracking.IoU(a, b)
  {
    var inter := SimpleTracking.Intersection(a, b);
    if inter > 0 {
      SimpleTracking.OverlapBounds(a, b);
      SimpleTracking.UnionCoversOverlap(a, b);
      assert Max(0, a.x2 - a.x1) * Max(0, a.y2 - a.y1) == SimpleTracking.Area(a);
      assert Max(0, b.x2 - b.x1) * Max(0, b.y2 - b.y1) == SimpleTracking.Area(b);
    }
  }

  lemma DsIoUBounds(a: Box, b: Box)
    ensures 0.0 <= DsIoU(a, b) <= 1.0
    ensures DsIoU(a, b) == DsIoU(b, a)
    ensures DsIoU(a, b) == 0.0 <==> SimpleTracking.Intersection(a, b) == 0
  {
    DsIoUAgrees(a, b);
    DsIoUAgrees(b, a);
    SimpleTracking.IoUAtMostOne(a, b);
    SimpleTracking.IoUSymmetric(a, b);
  }

  // ---------------------------------------------------------------------------
  // Matching and alignment
  // ---------------------------------------------------------------------------

  /** The scan over the candidates, keeping one only when strictly better: its IoU and position. */
  function BestIndex(cs: seq<Candidate>, box: Box): (r: (real, Option<nat>))
    ensures r.1.None? ==> r.0 == 0.0
    ensures r.1.Some? ==> r.1.value < |cs| && r.0 == DsIoU(box, cs[r.1.value].box) && r.0 > 0.0
    decreases |cs|
  {
    if cs == [] then (0.0, None)
    else
      var prev := BestIndex(cs[..|cs| - 1], box);
      var v := DsIoU(box, cs[|cs| - 1].box);
      if v > prev.0 then (v, Some(|cs| - 1)) else prev
  }

  /** Position p has the highest IoU with the box and no earlier candidate reaches it. */
  ghost predicate FirstBest(cs: seq<Candidate>, box: Box, p: nat)
  {
    && p < |cs|
    && (forall j :: 0 <= j < |cs| ==> DsIoU(box, cs[j].box) <= DsIoU(box, cs[p].box))
    && (forall j :: 0 <= j < p ==> DsIoU(box, cs[j].box) < DsIoU(box, cs[p].box))
  }

  /** Ties keep the earlier candidate; no position is found exactly when nothing overlaps. */
  lemma {:induction false} BestIndexIsFirstBest(cs: seq<Candidate>, box: Box)
    ensures BestIndex(cs, box).1.None? <==> forall j :: 0 <= j < |cs| ==> DsIoU(box, cs[j].box) == 0.0
    ensures BestIndex(cs, box).1.Some? ==> FirstBest(cs, box, BestIndex(cs, box).1.value)
    decreases |cs|
  {
    if cs != [] {
      var n := |cs| - 1;
      BestIndexIsFirstBest(cs[..n], box);
      assert forall j :: 0 <= j < n ==> cs[..n][j] == cs[j];
    }
  }

  /** What the search keeps: the IoU, the id and the class and confidence of the winner. */
  datatype Match = Match(iou: real, tid: int, name: string, conf: real)

  const NoMatch: Match := Match(0.0, -1, "object", 1.0)

  function MatchOf(cs: seq<Candidate>, box: Box): (m: Match)
    ensures m.iou == 0.0 <==> m == NoMatch
    ensures m.iou > 0.0 ==> exists k :: 0 <= k < |cs| && m == Match(DsIoU(box, cs[k].box), cs[k].tid, cs[k].name, cs[k].conf)
  {
    var (v, p) := BestIndex(cs, box);
    if p.Some? then Match(v, cs[p.value].tid, cs[p.value].name, cs[p.value].conf) else NoMatch
  }

  /** The match is taken only with IoU at least 0.5 and a positive id. */
  function Accepted(m: Match): bool
  {
    m.iou >= 0.5 && m.tid > 0
  }

  /**
   * The output for one detection: its own box and confidence, the winner's id
   * if accepted (else -1), and its own class name unless that is empty, in
   * which case the accepted winner's class, or "object".
   */
  function AlignOne(d: Det, cs: seq<Candidate>): (t: TrackedDet)
    ensures t.x1 == d.x1 && t.y1 == d.y1 && t.x2 == d.x2 && t.y2 == d.y2 && t.conf == d.conf
    ensures d.clsName != "" ==> t.clsName == d.clsName
    ensures t.trackId == NoTrack || t.trackId > 0
  {
    var m := MatchOf(cs, BoxOf(d));
    var meta := if Accepted(m) then m else NoMatch;
    var name := if d.clsName != "" then d.clsName else meta.name;
    TrackedDet(d.x1, d.y1, d.x2, d.y2, if Accepted(m) then m.tid else NoTrack, d.conf, name)
  }

  /** Conversely to BestIndexIsFirstBest, an overlapping first best is what the scan returns. */
  lemma BestIndexUnique(cs: seq<Candidate>, box: Box, p: nat)
    requires FirstBest(cs, box, p) && DsIoU(box, cs[p].box) > 0.0
    ensures BestIndex(cs, box) == (DsIoU(box, cs[p].box), Some(p))
  {
    BestIndexIsFirstBest(cs, box);
    assert BestIndex(cs, box).1.Some?;
  }

  /** The output name is never empty when the candidates come from the filter. */
  lemma AlignedNamed(d: Det, ts: seq<ExtTrack>)
    ensures AlignOne(d, Filtered(ts)).clsName != ""
  {
    var cs := Filtered(ts);
    var (v, p) := BestIndex(cs, BoxOf(d));
    if d.clsName == "" && p.Some? {
      FilteredMembers(ts, cs[p.value]);
      var i :| 0 <= i < |ts| && CandidateOf(ts[i]) == Some(cs[p.value]);
    }
  }

  /** With no claim set, detections with the same box always get the same id. */
  lemma SameBoxSameId(d1: Det, d2: Det, cs: seq<Candidate>)
    requires BoxOf(d1) == BoxOf(d2)
    ensures AlignOne(d1, cs).trackId == AlignOne(d2, cs).trackId
  {
  }

  /** So two detections of one frame can both take the same track. */
  lemma SharedIdExample()
    ensures var cs := [Candidate(7, Box(0, 0, 10, 10), "car", 0.8)];
      AlignOne(Det(0, 0, 10, 10, 0.9, 2, "car"), cs).trackId == 7 &&
      AlignOne(Det(0, 0, 10, 10, 0.6, 2, ""), cs) == TrackedDet(0, 0, 10, 10, 7, 0.6, "car")
  {
    var cs := [Candidate(7, Box(0, 0, 10, 10), "car", 0.8)];
    var box := Box(0, 0, 10, 10);
    assert DsIoU(box, box) == 1.0 by {
      DsIoUAgrees(box, box);
      SimpleTracking.IoUSelf(box);
    }
    assert cs[..0] == [];
  }

  /**
   * The id rule: when the first best candidate is p, the detection gets p's
   * id exactly when that IoU is at least 0.5 and the id is positive; when no
   * candidate overlaps, it gets -1.
   */
  lemma AlignIdRule(d: Det, cs: seq<Candidate>)
    ensures forall p: nat :: FirstBest(cs, BoxOf(d), p) && DsIoU(BoxOf(d), cs[p].box) > 0.0 ==>
      AlignOne(d, cs).trackId ==
        (if DsIoU(BoxOf(d), cs[p].box) >= 0.5 && cs[p].tid > 0 then cs[p].tid else NoTrack)
    ensures (forall j :: 0 <= j < |cs| ==> DsIoU(BoxOf(d), cs[j].box) == 0.0) ==> AlignOne(d, cs).trackId == NoTrack
  {
    BestIndexIsFirstBest(cs, BoxOf(d));
    forall p: nat | FirstBest(cs, BoxOf(d), p) && DsIoU(BoxOf(d), cs[p].box) > 0.0
      ensures AlignOne(d, cs).trackId ==
        (if DsIoU(BoxOf(d), cs[p].box) >= 0.5 && cs[p].tid > 0 then cs[p].tid else NoTrack)
    {
      BestIndexUnique(cs, BoxOf(d), p);
    }
  }

  /**
   * The name rule: a detection with an empty class name takes the name of
   * the first best candidate when its id is accepted, and "object" when it
   * is not or when no candidate overlaps.
   */
  lemma AlignNameRule(d: Det, cs: seq<Candidate>)
    ensures forall p: nat :: d.clsName == "" && FirstBest(cs, BoxOf(d), p) && DsIoU(BoxOf(d), cs[p].box) > 0.0 ==>
      AlignOne(d, cs).clsName ==
        (if DsIoU(BoxOf(d), cs[p].box) >= 0.5 && cs[p].tid > 0 then cs[p].name else "object")
    ensures d.clsName == "" && (forall j :: 0 <= j < |cs| ==> DsIoU(BoxOf(d), cs[j].box) == 0.0) ==>
      AlignOne(d, cs).clsName == "object"
  {
    BestIndexIsFirstBest(cs, BoxOf(d));
    forall p: nat | d.clsName == "" && FirstBest(cs, BoxOf(d), p) && DsIoU(BoxOf(d), cs[p].box) > 0.0
      ensures AlignOne(d, cs).clsName ==
        (if DsIoU(BoxOf(d), cs[p].box) >= 0.5 && cs[p].tid > 0 then cs[p].name else "object")
    {
      BestIndexUnique(cs, BoxOf(d), p);
    }
  }

  /** The best-match loop for one detection. */
  method SearchBest(cs: seq<Candidate>, box: Box) returns (m: Match)
    ensures m == MatchOf(cs, box)
  {
    var bestIou, bestTid, bestMeta := 0.0, -1, ("object", 1.0);
    ghost var pos: Option<nat> := None;
    for j := 0 to |cs|
      invariant (bestIou, pos) == BestIndex(cs[..j], box)
      invariant pos.Some? ==> pos.value < j && bestTid == cs[pos.value].tid && bestMeta == (cs[pos.value].name, cs[pos.value].conf)
      invariant pos.None? ==> bestTid == -1 && bestMeta == ("object", 1.0)
    {
      assert cs[..j + 1][..j] == cs[..j];
      var v := DsIoU(box, cs[j].box);
      if v > bestIou {
        bestIou, bestTid, bestMeta := v, cs[j].tid, (cs[j].name, cs[j].conf);
        pos := Some(j);
      }
    }
    assert cs[..|cs|] == cs;
    m := Match(bestIou, bestTid, bestMeta.0, bestMeta.1);
  }

  /**
   * One `update` call after the library has answered with `tracks`: the
   * detections handed to the library, and one output per detection, in
   * order, as AlignOne states it.
   */
  method Update(dets: seq<Det>, tracks: seq<ExtTrack>) returns (raw: seq<RawDet>, aligned: seq<TrackedDet>)
    ensures |raw| == |dets| && forall i :: 0 <= i < |dets| ==> raw[i] == ToRawDet(dets[i])
    ensures |aligned| == |dets|
    ensures forall i :: 0 <= i < |dets| ==> aligned[i] == AlignOne(dets[i], Filtered(tracks))
  {
    raw := ToRaw(dets);
    var cs := Candidates(tracks);
    var ids := seq(|dets|, _ => NoTrack);
    var metas := seq(|dets|, _ => ("object", 1.0));
    for i := 0 to |dets|
      invariant |ids| == |dets| && |metas| == |dets|
      invariant forall j :: 0 <= j < i ==>
        var m := MatchOf(cs, BoxOf(dets[j]));
        ids[j] == (if Accepted(m) then m.tid else NoTrack) &&
        metas[j] == (if Accepted(m) then (m.name, m.conf) else ("object", 1.0))
      invariant forall j :: i <= j < |dets| ==> ids[j] == NoTrack && metas[j] == ("object", 1.0)
    {
      var m := SearchBest(cs, BoxOf(dets[i]));
      if m.iou >= 0.5 && m.tid > 0 {
        ids := ids[i := m.tid];
        metas := metas[i := (m.name, m.conf)];
      }
    }
    aligned := [];
    for i := 0 to |dets|
      invariant |aligned| == i
      invariant forall j :: 0 <= j < i ==> aligned[j] == AlignOne(dets[j], cs)
    {
      var d := dets[i];
      var name := if d.clsName != "" then d.clsName else metas[i].0;
      aligned := aligned + [TrackedDet(d.x1, d.y1, d.x2, d.y2, ids[i], d.conf, name)];
    }
  }
}
