/**
 * The offline analysis of a detection log: one record per line, blank lines
 * skipped, and for the detections of every record the counts of frames, of
 * detections without a track id, of detections per class, and the sets of
 * track ids seen overall and per class.
 */
module NdjsonAnalysis {
  import opened Options

  // ---------------------------------------------------------------------------
  // Input
  // ---------------------------------------------------------------------------

  /** A detection as read back: its `track_id` and its `class`, either of which may be missing or null. */
  datatype DetObj = DetObj(trackId: Option<int>, cls: Option<string>)

  /**
   * One line of the file: its text, and the `detections` list the record on
   * it holds (empty when the record has none). The list matters only for a
   * line that is not blank.
   */
  datatype Line = Line(text: string, detections: seq<DetObj>)

  /** The characters Python's `str.strip()` removes. */
  predicate IsSpace(c: char)
  {
    c == ' ' || '\U{9}' <= c <= '\U{D}' || '\U{1C}' <= c <= '\U{1F}' || c == '\U{85}' || c == '\U{A0}' ||
    c == '\U{1680}' || '\U{2000}' <= c <= '\U{200A}' || c == '\U{2028}' || c == '\U{2029}' ||
    c == '\U{202F}' || c == '\U{205F}' || c == '\U{3000}'
  }

  /** A line that is empty once stripped. */
  predicate IsBlank(text: string)
  {
    forall k :: 0 <= k < |text| ==> IsSpace(text[k])
  }

  // ---------------------------------------------------------------------------
  // The tallies
  // ---------------------------------------------------------------------------

  /**
   * What the analysis accumulates. `classCounts` is a counter (a class is a
   * key once counted), `classIds` a dictionary of sets created on first use.
   */
  datatype Summary = Summary(
    frames: nat,
    missing: nat,
    ids: set<int>,
    classCounts: map<string, nat>,
    classIds: map<string, set<int>>)

  const Empty := Summary(0, 0, {}, map[], map[])

  /** A counter's value for a key, zero when absent. */
  function Get(m: map<string, nat>, c: string): nat
  {
    if c in m then m[c] else 0
  }

  /** A default dictionary's set for a key, empty when absent. */
  function GetSet(m: map<string, set<int>>, c: string): set<int>
  {
    if c in m then m[c] else {}
  }

  /**
   * One detection counted: its class (if any) is counted; without a track id
   * it is a missing one; with one, the id joins the id set and, when the
   * class is known, that class's id set.
   */
  function Count(s: Summary, d: DetObj): (r: Summary)
    ensures r.frames == s.frames && s.missing <= r.missing <= s.missing + 1
    ensures s.ids <= r.ids && s.classCounts.Keys <= r.classCounts.Keys && s.classIds.Keys <= r.classIds.Keys
  {
    var counts := if d.cls.Some? then s.classCounts[d.cls.value := Get(s.classCounts, d.cls.value) + 1] else s.classCounts;
    if d.trackId.None? then
      s.(classCounts := counts, missing := s.missing + 1)
    else
      var classIds :=
        if d.cls.Some? then s.classIds[d.cls.value := GetSet(s.classIds, d.cls.value) + {d.trackId.value}]
        else s.classIds;
      s.(classCounts := counts, ids := s.ids + {d.trackId.value}, classIds := classIds)
  }

  /** A list of detections counted in order. */
  function CountAll(s: Summary, dets: seq<DetObj>): (r: Summary)
    ensures r.frames == s.frames && s.missing <= r.missing <= s.missing + |dets|
    ensures s.ids <= r.ids && s.classCounts.Keys <= r.classCounts.Keys && s.classIds.Keys <= r.classIds.Keys
    decreases |dets|
  {
    if dets == [] then s else Count(CountAll(s, dets[..|dets| - 1]), dets[|dets| - 1])
  }

  /** The tallies after the given lines: a blank line is skipped, any other is one more frame and its detections. */
  function Analyzed(lines: seq<Line>): (r: Summary)
    ensures r.frames <= |lines|
    decreases |lines|
  {
    if lines == [] then Empty
    else
      var s := Analyzed(lines[..|lines| - 1]);
      var l := lines[|lines| - 1];
      if IsBlank(l.text) then s else CountAll(s.(frames := s.frames + 1), l.detections)
  }

  // ---------------------------------------------------------------------------
  // The reference: the non-blank lines and all their detections
  // ---------------------------------------------------------------------------

  function NonBlank(lines: seq<Line>): (r: seq<Line>)
    ensures |r| <= |lines|
    ensures forall k :: 0 <= k < |r| ==> !IsBlank(r[k].text)
    decreases |lines|
  {
    if lines == [] then []
    else
      var l := lines[|lines| - 1];
      NonBlank(lines[..|lines| - 1]) + (if IsBlank(l.text) then [] else [l])
  }

  /** The detections of all non-blank lines, in file order. */
  function AllDets(lines: seq<Line>): seq<DetObj>
    decreases |lines|
  {
    if lines == [] then []
    else
      var l := lines[|lines| - 1];
      AllDets(lines[..|lines| - 1]) + (if IsBlank(l.text) then [] else l.detections)
  }

  function MissingCount(dets: seq<DetObj>): nat
    decreases |dets|
  {
    if dets == [] then 0 else MissingCount(dets[..|dets| - 1]) + (if dets[|dets| - 1].trackId.None? then 1 else 0)
  }

  function ClassCount(dets: seq<DetObj>, c: string): nat
    decreases |dets|
  {
    if dets == [] then 0 else ClassCount(dets[..|dets| - 1], c) + (if dets[|dets| - 1].cls == Some(c) then 1 else 0)
  }

  predicate Tracked(dets: seq<DetObj>, t: int)
  {
    exists k :: 0 <= k < |dets| && dets[k].trackId == Some(t)
  }

  predicate TrackedAs(dets: seq<DetObj>, c: string, t: int)
  {
    exists k :: 0 <= k < |dets| && dets[k].cls == Some(c) && dets[k].trackId == Some(t)
  }

  predicate HasTrackedOf(dets: seq<DetObj>, c: string)
  {
    exists k :: 0 <= k < |dets| && dets[k].cls == Some(c) && dets[k].trackId.Some?
  }

  // ---------------------------------------------------------------------------
  // Counting a list, field by field
  // ---------------------------------------------------------------------------

  /** Counting detections never changes the frame count, and commutes with setting it. */
  lemma {:induction false} CountAllFrames(s: Summary, f: nat, dets: seq<DetObj>)
    ensures CountAll(s, dets).frames == s.frames
    ensures CountAll(s.(frames := f), dets) == CountAll(s, dets).(frames := f)
    decreases |dets|
  {
    if dets != [] {
      CountAllFrames(s, f, dets[..|dets| - 1]);
    }
  }

  /** Counting `a` then `b` is counting `a + b`. */
  lemma {:induction false} CountAllAppend(s: Summary, a: seq<DetObj>, b: seq<DetObj>)
    ensures CountAll(CountAll(s, a), b) == CountAll(s, a + b)
    decreases |b|
  {
    if b != [] {
      var ab := a + b;
      assert ab[..|ab| - 1] == a + b[..|b| - 1];
      assert ab[|ab| - 1] == b[|b| - 1];
      CountAllAppend(s, a, b[..|b| - 1]);
    } else {
      assert a + b == a;
    }
  }

  lemma {:induction false} CountAllMissing(s: Summary, dets: seq<DetObj>)
    ensures CountAll(s, dets).missing == s.missing + MissingCount(dets)
    decreases |dets|
  {
    if dets != [] {
      CountAllMissing(s, dets[..|dets| - 1]);
    }
  }

  lemma {:induction false} CountAllIds(s: Summary, dets: seq<DetObj>)
    ensures forall t :: t in CountAll(s, dets).ids <==> t in s.ids || Tracked(dets, t)
    decreases |dets|
  {
    if dets != [] {
      var init := dets[..|dets| - 1];
      CountAllIds(s, init);
      forall t ensures Tracked(dets, t) <==> Tracked(init, t) || dets[|dets| - 1].trackId == Some(t) {
        if Tracked(dets, t) {
          var k :| 0 <= k < |dets| && dets[k].trackId == Some(t);
          if k < |dets| - 1 {
            assert init[k] == dets[k];
          }
        }
        if Tracked(init, t) {
          var k :| 0 <= k < |init| && init[k].trackId == Some(t);
          assert dets[k] == init[k];
        }
      }
    }
  }

  lemma {:induction false} CountAllClassCounts(s: Summary, dets: seq<DetObj>)
    ensures forall c :: Get(CountAll(s, dets).classCounts, c) == Get(s.classCounts, c) + ClassCount(dets, c)
    ensures forall c :: c in CountAll(s, dets).classCounts <==> c in s.classCounts || ClassCount(dets, c) > 0
    decreases |dets|
  {
    if dets != [] {
      CountAllClassCounts(s, dets[..|dets| - 1]);
    }
  }

  lemma {:induction false} CountAllClassIds(s: Summary, dets: seq<DetObj>)
    ensures forall c, t :: t in GetSet(CountAll(s, dets).classIds, c) <==> t in GetSet(s.classIds, c) || TrackedAs(dets, c, t)
    decreases |dets|
  {
    if dets != [] {
      var init := dets[..|dets| - 1];
      var d := dets[|dets| - 1];
      CountAllClassIds(s, init);
      forall c, t ensures TrackedAs(dets, c, t) <==> TrackedAs(init, c, t) || (d.cls == Some(c) && d.trackId == Some(t)) {
        if TrackedAs(dets, c, t) {
          var k :| 0 <= k < |dets| && dets[k].cls == Some(c) && dets[k].trackId == Some(t);
          if k < |dets| - 1 {
            assert init[k] == dets[k];
          }
        }
        if TrackedAs(init, c, t) {
          var k :| 0 <= k < |init| && init[k].cls == Some(c) && init[k].trackId == Some(t);
          assert dets[k] == init[k];
        }
      }
    }
  }

  lemma {:induction false} CountAllClassIdKeys(s: Summary, dets: seq<DetObj>)
    ensures forall c :: c in CountAll(s, dets).classIds <==> c in s.classIds || HasTrackedOf(dets, c)
    decreases |dets|
  {
    if dets != [] {
      var init := dets[..|dets| - 1];
      var d := dets[|dets| - 1];
      CountAllClassIdKeys(s, init);
      forall c ensures HasTrackedOf(dets, c) <==> HasTrackedOf(init, c) || (d.cls == Some(c) && d.trackId.Some?) {
        if HasTrackedOf(dets, c) {
          var k :| 0 <= k < |dets| && dets[k].cls == Some(c) && dets[k].trackId.Some?;
          if k < |dets| - 1 {
            assert init[k] == dets[k];
          }
        }
        if HasTrackedOf(init, c) {
          var k :| 0 <= k < |init| && init[k].cls == Some(c) && init[k].trackId.Some?;
          assert dets[k] == init[k];
        }
      }
    }
  }

  // ---------------------------------------------------------------------------
  // What the tallies mean
  // ---------------------------------------------------------------------------

  /** The tallies over the lines are the detections of the non-blank lines counted from scratch. */
  lemma {:induction false} AnalyzedFlat(lines: seq<Line>)
    ensures Analyzed(lines) == CountAll(Empty.(frames := |NonBlank(lines)|), AllDets(lines))
    decreases |lines|
  {
    if lines != [] {
      var init := lines[..|lines| - 1];
      var l := lines[|lines| - 1];
      AnalyzedFlat(init);
      if !IsBlank(l.text) {
        var s := Analyzed(init);
        var f := |NonBlank(init)|;
        var base := Empty.(frames := f);
        assert AllDets(lines) == AllDets(init) + l.detections;
        assert |NonBlank(lines)| == f + 1;
        CountAllFrames(base, f + 1, AllDets(init));
        assert s.(frames := s.frames + 1) == CountAll(Empty.(frames := f + 1), AllDets(init));
        CountAllAppend(Empty.(frames := f + 1), AllDets(init), l.detections);
      } else {
        assert AllDets(lines) == AllDets(init) + [];
        assert AllDets(init) + [] == AllDets(init);
        assert NonBlank(lines) == NonBlank(init) + [];
        assert NonBlank(init) + [] == NonBlank(init);
      }
    }
  }

  /**
   * `frames` is the number of non-blank lines; `missing` the number of
   * detections without a track id; `ids` exactly the track ids seen.
   */
  lemma AnalyzedCounts(lines: seq<Line>)
    ensures Analyzed(lines).frames == |NonBlank(lines)|
    ensures Analyzed(lines).missing == MissingCount(AllDets(lines))
    ensures forall t :: t in Analyzed(lines).ids <==> Tracked(AllDets(lines), t)
  {
    AnalyzedFlat(lines);
    var base := Empty.(frames := |NonBlank(lines)|);
    CountAllFrames(base, |NonBlank(lines)|, AllDets(lines));
    CountAllMissing(base, AllDets(lines));
    CountAllIds(base, AllDets(lines));
  }

  /**
   * A class is counted once per detection of that class, tracked or not,
   * and is a key exactly when it occurs.
   */
  lemma AnalyzedClassCounts(lines: seq<Line>)
    ensures forall c :: Get(Analyzed(lines).classCounts, c) == ClassCount(AllDets(lines), c)
    ensures forall c :: c in Analyzed(lines).classCounts <==> ClassCount(AllDets(lines), c) > 0
  {
    AnalyzedFlat(lines);
    CountAllClassCounts(Empty.(frames := |NonBlank(lines)|), AllDets(lines));
  }

  /**
   * A class's id set holds exactly the ids of detections with both that
   * class and a track id, and a class has a set only when there is one.
   */
  lemma AnalyzedClassIds(lines: seq<Line>)
    ensures forall c, t :: t in GetSet(Analyzed(lines).classIds, c) <==> TrackedAs(AllDets(lines), c, t)
    ensures forall c :: c in Analyzed(lines).classIds <==> HasTrackedOf(AllDets(lines), c)
  {
    AnalyzedFlat(lines);
    CountAllClassIds(Empty.(frames := |NonBlank(lines)|), AllDets(lines));
    CountAllClassIdKeys(Empty.(frames := |NonBlank(lines)|), AllDets(lines));
  }

  /** Every per-class id set lies within the overall id set. */
  lemma ClassIdsWithinIds(lines: seq<Line>)
    ensures forall c :: c in Analyzed(lines).classIds ==> Analyzed(lines).classIds[c] <= Analyzed(lines).ids
  {
    AnalyzedCounts(lines);
    AnalyzedClassIds(lines);
    var s := Analyzed(lines);
    var dets := AllDets(lines);
    forall c, t | c in s.classIds && t in s.classIds[c] ensures t in s.ids {
      assert t in GetSet(s.classIds, c);
      var k :| 0 <= k < |dets| && dets[k].cls == Some(c) && dets[k].trackId == Some(t);
      assert Tracked(dets, t);
    }
  }

  // ---------------------------------------------------------------------------
  // The analysis loop
  // ---------------------------------------------------------------------------

  /**
   * The inner loop over one record's detections, updating the tallies in
   * place; the result is the detections counted in order.
   */
  method CountDetections(s0: Summary, dets: seq<DetObj>) returns (s: Summary)
    ensures s == CountAll(s0, dets)
  {
    var missing: nat, ids: set<int> := s0.missing, s0.ids;
    var classCounts: map<string, nat>, classIds: map<string, set<int>> := s0.classCounts, s0.classIds;
    for j := 0 to |dets|
      invariant Summary(s0.frames, missing, ids, classCounts, classIds) == CountAll(s0, dets[..j])
    {
      assert dets[..j + 1][..j] == dets[..j];
      var d := dets[j];
      if d.cls.Some? {
        classCounts := classCounts[d.cls.value := Get(classCounts, d.cls.value) + 1];
      }
      if d.trackId.None? {
        missing := missing + 1;
      } else {
        ids := ids + {d.trackId.value};
        if d.cls.Some? {
          classIds := classIds[d.cls.value := GetSet(classIds, d.cls.value) + {d.trackId.value}];
        }
      }
    }
    assert dets[..|dets|] == dets;
    s := Summary(s0.frames, missing, ids, classCounts, classIds);
  }

  /**
   * One pass over the lines: a blank line is skipped, any other adds a
   * frame and has its detections counted. The result is the specification's
   * tallies.
   */
  method Analyze(lines: seq<Line>) returns (s: Summary)
    ensures s == Analyzed(lines)
  {
    s := Empty;
    for i := 0 to |lines|
      invariant s == Analyzed(lines[..i])
    {
      assert lines[..i + 1][..i] == lines[..i];
      var line := lines[i];
      if !IsBlank(line.text) {
        s := s.(frames := s.frames + 1);
        s := CountDetections(s, line.detections);
      }
    }
    assert lines[..|lines|] == lines;
  }
}
