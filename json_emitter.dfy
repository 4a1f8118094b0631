/**
 * The per-frame detection record and the emitter that writes one record per
 * line. JSON text is not modelled: a line is the record value itself, and a
 * write appends it, with the sink it went to, to a log.
 */
module JsonEmission {
  import opened Options
  import opened Detections

  // ---------------------------------------------------------------------------
  // Decimal text of integers, for the detection ids
  // ---------------------------------------------------------------------------

  function DigitValue(c: char): int
  {
    (c as int) - ('0' as int)
  }

  /** The decimal digit character of a number below ten. */
  function Digit(n: nat): (c: char)
    requires n < 10
    ensures '0' <= c <= '9' && DigitValue(c) == n
  {
    ('0' as int + n) as char
  }

  predicate AllDigits(s: string)
  {
    forall k :: 0 <= k < |s| ==> '0' <= s[k] <= '9'
  }

  /** Decimal digits of a natural number, most significant first, no leading zeros. */
  function NatToString(n: nat): (s: string)
    ensures |s| >= 1 && AllDigits(s)
    ensures s[0] == '0' ==> n == 0 && s == "0"
    decreases n
  {
    if n < 10 then [Digit(n)] else NatToString(n / 10) + [Digit(n % 10)]
  }

  /** `str(n)` of an integer: a minus sign in front of a negative one. */
  function IntToString(n: int): (s: string)
    ensures |s| >= 1
    ensures n >= 0 <==> s[0] != '-'
  {
    if n >= 0 then NatToString(n) else "-" + NatToString(-n)
  }

  function ParseNat(s: string): int
    decreases |s|
  {
    if s == [] then 0 else 10 * ParseNat(s[..|s| - 1]) + DigitValue(s[|s| - 1])
  }

  /** Reading the digits back gives the number. */
  lemma {:induction false} ParseNatToString(n: nat)
    ensures ParseNat(NatToString(n)) == n
    decreases n
  {
    if n >= 10 {
      var s := NatToString(n / 10) + [Digit(n % 10)];
      assert s[..|s| - 1] == NatToString(n / 10);
      ParseNatToString(n / 10);
    }
  }

  lemma NatToStringInjective(i: nat, j: nat)
    requires NatToString(i) == NatToString(j)
    ensures i == j
  {
    ParseNatToString(i);
    ParseNatToString(j);
  }

  // ---------------------------------------------------------------------------
  // The record
  // ---------------------------------------------------------------------------

  /** The detection id `"{frame_index}-{i}"`. */
  function DetId(frameIndex: int, i: nat): string
  {
    IntToString(frameIndex) + "-" + NatToString(i)
  }

  /** Within a frame, detection ids are pairwise distinct. */
  lemma DetIdInjective(frameIndex: int, i: nat, j: nat)
    requires DetId(frameIndex, i) == DetId(frameIndex, j)
    ensures i == j
  {
    var p := IntToString(frameIndex) + "-";
    assert DetId(frameIndex, i)[|p|..] == NatToString(i);
    assert DetId(frameIndex, j)[|p|..] == NatToString(j);
    NatToStringInjective(i, j);
  }

  datatype Point = Point(x: int, y: int)

  datatype NormBox = NormBox(x: real, y: real, w: real, h: real)

  datatype Entry = Entry(
    detId: string,
    cls: string,
    classId: int,
    conf: real,
    bbox: Box,
    bboxNorm: NormBox,
    centroid: Point,
    trackId: Option<int>)

  /**
   * The record written for a frame. It has no image size: the size only
   * scales the normalised boxes. `source` is passed through untouched.
   */
  datatype Record = Record(
    schemaVersion: string,
    pipelineRunId: string,
    source: map<string, string>,
    frameIndex: int,
    captureTs: string,
    detections: seq<Entry>)

  /** Python's `//` by 2: the floor of the half, for negative sums too. */
  function Half(n: int): (c: int)
    ensures 2 * c <= n < 2 * c + 2
  {
    n / 2
  }

  function Centroid(d: Det): (c: Point)
    ensures 2 * c.x <= d.x1 + d.x2 < 2 * c.x + 2
    ensures 2 * c.y <= d.y1 + d.y2 < 2 * c.y + 2
  {
    Point(Half(d.x1 + d.x2), Half(d.y1 + d.y2))
  }

  /**
   * The box divided by the frame size, each divisor floored at 1, so that a
   * frame of size 0 never divides by zero.
   */
  function Normalized(d: Det, w: int, h: int): (n: NormBox)
    ensures n.x * Max(1, w) as real == d.x1 as real && n.w * Max(1, w) as real == (d.x2 - d.x1) as real
    ensures n.y * Max(1, h) as real == d.y1 as real && n.h * Max(1, h) as real == (d.y2 - d.y1) as real
  {
    var dw, dh := Max(1, w) as real, Max(1, h) as real;
    NormBox(d.x1 as real / dw, d.y1 as real / dh, (d.x2 - d.x1) as real / dw, (d.y2 - d.y1) as real / dh)
  }

  /** A box of (10, 20)-(30, 60) in a 100 by 200 frame. */
  lemma NormalizedExample()
    ensures Normalized(Det(10, 20, 30, 60, 0.5, 0, "person"), 100, 200) == NormBox(0.1, 0.1, 0.2, 0.2)
    ensures Normalized(Det(10, 20, 30, 60, 0.5, 0, "person"), 0, 0) == NormBox(10.0, 20.0, 20.0, 40.0)
  {
  }

  function EntryOf(frameIndex: int, i: nat, d: Det, w: int, h: int, trackId: Option<int>): (e: Entry)
    ensures e.detId == DetId(frameIndex, i) && e.trackId == trackId
    ensures e.cls == d.clsName && e.classId == d.clsId && e.conf == d.conf && e.bbox == BoxOf(d)
    ensures e.bboxNorm == Normalized(d, w, h) && e.centroid == Centroid(d)
  {
    Entry(DetId(frameIndex, i), d.clsName, d.clsId, d.conf, BoxOf(d), Normalized(d, w, h), Centroid(d), trackId)
  }

  /** Track ids are copied only from a tracked list of exactly the same length. */
  predicate UsesTracked(dets: seq<Det>, tracked: Option<seq<TrackedDet>>)
  {
    tracked.Some? && |tracked.value| == |dets|
  }

  /**
   * The record for one frame. `now` stands for the clock read the source
   * makes when no capture time is given (or an empty one).
   */
  function BuildRecord(
    schemaVersion: string, pipelineRunId: string, source: map<string, string>, frameIndex: int,
    captureTs: Option<string>, now: string, imageSize: (int, int), dets: seq<Det>,
    tracked: Option<seq<TrackedDet>>): (r: Record)
    ensures |r.detections| == |dets|
    ensures forall i :: 0 <= i < |dets| ==>
      var e := r.detections[i];
      e.detId == DetId(frameIndex, i) && e.cls == dets[i].clsName && e.classId == dets[i].clsId &&
      e.conf == dets[i].conf && e.bbox == BoxOf(dets[i]) && e.centroid == Centroid(dets[i]) &&
      e.bboxNorm == Normalized(dets[i], imageSize.0, imageSize.1)
    ensures UsesTracked(dets, tracked) ==>
      forall i :: 0 <= i < |dets| ==> r.detections[i].trackId == Some(tracked.value[i].trackId)
    ensures !UsesTracked(dets, tracked) ==> forall i :: 0 <= i < |dets| ==> r.detections[i].trackId.None?
    ensures r.captureTs == if captureTs.Some? && captureTs.value != "" then captureTs.value else now
    ensures r.schemaVersion == schemaVersion && r.pipelineRunId == pipelineRunId
    ensures r.source == source && r.frameIndex == frameIndex
  {
    var (w, h) := imageSize;
    var ts := if captureTs.Some? && captureTs.value != "" then captureTs.value else now;
    var entries :=
      if UsesTracked(dets, tracked) then
        seq(|dets|, i requires 0 <= i < |dets| => EntryOf(frameIndex, i, dets[i], w, h, Some(tracked.value[i].trackId)))
      else
        seq(|dets|, i requires 0 <= i < |dets| => EntryOf(frameIndex, i, dets[i], w, h, None));
    Record(schemaVersion, pipelineRunId, source, frameIndex, ts, entries)
  }

  /** Detection ids within one record are pairwise distinct. */
  lemma RecordDetIdsDistinct(
    schemaVersion: string, pipelineRunId: string, source: map<string, string>, frameIndex: int,
    captureTs: Option<string>, now: string, imageSize: (int, int), dets: seq<Det>,
    tracked: Option<seq<TrackedDet>>)
    ensures var es := BuildRecord(schemaVersion, pipelineRunId, source, frameIndex, captureTs, now, imageSize, dets, tracked).detections;
      forall i, j :: 0 <= i < j < |es| ==> es[i].detId != es[j].detId
  {
    var es := BuildRecord(schemaVersion, pipelineRunId, source, frameIndex, captureTs, now, imageSize, dets, tracked).detections;
    forall i, j | 0 <= i < j < |es| ensures es[i].detId != es[j].detId {
      if es[i].detId == es[j].detId {
        DetIdInjective(frameIndex, i, j);
      }
    }
  }

  // ---------------------------------------------------------------------------
  // The emitter
  // ---------------------------------------------------------------------------

  /** Where a line goes: the open file, or standard output. */
  datatype Sink = File(path: string) | Stdout

  class JsonEmitter {
    const outPath: Option<string>
    /** The open file, named by its path; None when writing to standard output or after closing. */
    var fh: Option<string>
    /** The files closed so far. */
    var closed: seq<string>
    /** Every record written, with the sink it went to. */
    var log: seq<(Sink, Record)>

    /** No path, the empty path or "-" write to standard output; any other path is opened for appending. */
    constructor (outPath: Option<string>)
      ensures this.outPath == outPath
      ensures fh == (if outPath.Some? && outPath.value != "" && outPath.value != "-" then outPath else None)
      ensures closed == [] && log == []
    {
      this.outPath := outPath;
      fh := if outPath.Some? && outPath.value != "" && outPath.value != "-" then outPath else None;
      closed := [];
      log := [];
    }

    /** Closes the file if one is open; afterwards there is none, so a second call does nothing. */
    method Close()
      modifies this
      ensures fh.None?
      ensures closed == old(closed) + (if old(fh).Some? then [old(fh).value] else [])
      ensures log == old(log)
    {
      if fh.Some? {
        closed := closed + [fh.value];
        fh := None;
      }
    }

    function CurrentSink(): (s: Sink)
      reads this
      ensures s.File? <==> fh.Some?
    {
      if fh.Some? then File(fh.value) else Stdout
    }

    /** The line goes to the open file, or to standard output when there is none. */
    method WriteLine(r: Record)
      modifies this
      ensures log == old(log) + [(old(CurrentSink()), r)]
      ensures fh == old(fh) && closed == old(closed)
    {
      log := log + [(CurrentSink(), r)];
    }

    /** Builds the frame's record and writes it as one line. */
    method EmitDetection(
      schemaVersion: string, pipelineRunId: string, source: map<string, string>, frameIndex: int,
      captureTs: Option<string>, now: string, imageSize: (int, int), dets: seq<Det>,
      tracked: Option<seq<TrackedDet>>)
      modifies this
      ensures log == old(log) + [(old(CurrentSink()),
        BuildRecord(schemaVersion, pipelineRunId, source, frameIndex, captureTs, now, imageSize, dets, tracked))]
      ensures fh == old(fh) && closed == old(closed)
    {
      var r := BuildRecord(schemaVersion, pipelineRunId, source, frameIndex, captureTs, now, imageSize, dets, tracked);
      WriteLine(r);
    }
  }

  /** Closing twice closes the file once; a record emitted after closing goes to standard output. */
  method CloseTwiceThenEmit(path: string, r: Record) returns (closed: seq<string>, log: seq<(Sink, Record)>)
    requires path != "" && path != "-"
    ensures closed == [path] && log == [(Stdout, r)]
  {
    var e := new JsonEmitter(Some(path));
    e.Close();
    e.Close();
    e.WriteLine(r);
    closed, log := e.closed, e.log;
  }
}
