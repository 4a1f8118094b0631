/**
 * The greedy IoU tracker: a table of live tracks in insertion order (which is
 * ascending id order), a monotonic id counter, and an `Update` that ages the
 * table, matches each detection in input order to the track it overlaps most,
 * and spawns a new id otherwise.
 */
module SimpleTracking {
  import opened Options
  import opened Detections

  const DefaultIouThresh: real := 0.3
  const DefaultMaxTtl: int := 30

  // ---------------------------------------------------------------------------
  // Intersection over union
  // ---------------------------------------------------------------------------

  /** Area of the overlap of two boxes; 0 when they do not overlap. */
  function Intersection(a: Box, b: Box): (r: int)
    ensures r >= 0
  {
    Max(0, Min(a.x2, b.x2) - Max(a.x1, b.x1)) * Max(0, Min(a.y2, b.y2) - Max(a.y1, b.y1))
  }

  function Area(b: Box): int { (b.x2 - b.x1) * (b.y2 - b.y1) }

  function RMax(a: real, b: real): real { if a >= b then a else b }

  /** IoU with the union floored at 1; exactly 0 when the boxes do not overlap. */
  function IoU(a: Box, b: Box): (r: real)
    ensures 0.0 <= r
    ensures r == 0.0 <==> Intersection(a, b) == 0
  {
    var inter := Intersection(a, b);
    if inter == 0 then 0.0
    else inter as real / RMax(1.0, (Area(a) + Area(b) - inter) as real)
  }

  lemma MulMono(a: int, b: int, c: int, d: int)
    requires 0 <= a <= c && 0 <= b <= d
    ensures a * b <= c * d
  {
    assert a * b <= c * b;
    assert c * b <= c * d;
  }

  /**
   * A positive overlap is only possible between two boxes of positive width
   * and height, and it is bounded by the area of either box.
   */
  lemma OverlapBounds(a: Box, b: Box)
    requires Intersection(a, b) > 0
    ensures a.x1 < a.x2 && a.y1 < a.y2 && b.x1 < b.x2 && b.y1 < b.y2
    ensures Intersection(a, b) <= Area(a) && Intersection(a, b) <= Area(b)
  {
    var iw := Max(0, Min(a.x2, b.x2) - Max(a.x1, b.x1));
    var ih := Max(0, Min(a.y2, b.y2) - Max(a.y1, b.y1));
    assert iw > 0 && ih > 0;
    MulMono(iw, ih, a.x2 - a.x1, a.y2 - a.y1);
    MulMono(iw, ih, b.x2 - b.x1, b.y2 - b.y1);
  }

  /** Whenever the boxes overlap, the union covers the overlap, so the floor at 1 never bites. */
  lemma UnionCoversOverlap(a: Box, b: Box)
    requires Intersection(a, b) > 0
    ensures Area(a) + Area(b) - Intersection(a, b) >= Intersection(a, b) >= 1
    ensures IoU(a, b) == Intersection(a, b) as real / (Area(a) + Area(b) - Intersection(a, b)) as real
  {
    OverlapBounds(a, b);
  }

  lemma RatioAtMostOne(n: int, u: int)
    requires 1 <= n <= u
    ensures n as real / u as real <= 1.0
  {
    var r := n as real / u as real;
    assert r * u as real == n as real;
    if r > 1.0 {
      assert r * u as real > 1.0 * u as real;
    }
  }

  /** IoU never exceeds 1, for any pair of boxes. */
  lemma IoUAtMostOne(a: Box, b: Box)
    ensures IoU(a, b) <= 1.0
  {
    var inter := Intersection(a, b);
    if inter > 0 {
      UnionCoversOverlap(a, b);
      RatioAtMostOne(inter, Area(a) + Area(b) - inter);
    }
  }

  lemma IoUSymmetric(a: Box, b: Box)
    ensures IoU(a, b) == IoU(b, a)
  {
    assert Intersection(a, b) == Intersection(b, a);
  }

  /** A box has IoU 1 with itself exactly when it has positive width and height. */
  lemma IoUSelf(a: Box)
    ensures IoU(a, a) == 1.0 <==> a.x1 < a.x2 && a.y1 < a.y2
  {
    if a.x1 < a.x2 && a.y1 < a.y2 {
      var area := Area(a);
      assert Intersection(a, a) == area;
      assert area > 0 by { MulMono(1, 1, a.x2 - a.x1, a.y2 - a.y1); }
      assert area + area - area == area;
      assert IoU(a, a) == area as real / area as real;
    } else {
      assert Intersection(a, a) == 0;
    }
  }

  /** IoU is 0 exactly when the boxes are apart (or only touch) along some axis. */
  lemma IoUZeroIffApart(a: Box, b: Box)
    ensures IoU(a, b) == 0.0 <==> Min(a.x2, b.x2) <= Max(a.x1, b.x1) || Min(a.y2, b.y2) <= Max(a.y1, b.y1)
  {
    var iw := Max(0, Min(a.x2, b.x2) - Max(a.x1, b.x1));
    var ih := Max(0, Min(a.y2, b.y2) - Max(a.y1, b.y1));
    if iw > 0 && ih > 0 {
      MulMono(1, 1, iw, ih);
    }
  }

  // ---------------------------------------------------------------------------
  // The track table
  // ---------------------------------------------------------------------------

  /** One dictionary entry `track_id -> {bbox, ttl, conf, cls}`, key included. */
  datatype Track = Track(id: int, bbox: Box, ttl: int, conf: real, cls: string)

  /** The entry a detection creates, or overwrites when it claims a track. */
  function Seeded(d: Det, id: int, maxTtl: int): Track
  {
    Track(id, BoxOf(d), maxTtl, d.conf, d.clsName)
  }

  function Emitted(d: Det, id: int): (t: TrackedDet)
    ensures Carries(t, d) && t.trackId == id
  {
    TrackedDet(d.x1, d.y1, d.x2, d.y2, id, d.conf, d.clsName)
  }

  /** Dictionary order is insertion order, which here is ascending id order. */
  ghost predicate Ascending(ts: seq<Track>)
  {
    forall i, j :: 0 <= i < j < |ts| ==> ts[i].id < ts[j].id
  }

  /** The table invariant: ascending ids, all issued from a counter that starts at 1. */
  ghost predicate TableOk(ts: seq<Track>, nextId: int)
  {
    1 <= nextId && Ascending(ts) && forall t :: t in ts ==> 1 <= t.id < nextId
  }

  function Ids(ts: seq<Track>): set<int>
  {
    set t | t in ts :: t.id
  }

  /** The table seen as the source's dictionary from id to entry. */
  function AsMap(ts: seq<Track>): (m: map<int, Track>)
    ensures m.Keys == Ids(ts)
    decreases |ts|
  {
    if ts == [] then map[]
    else
      assert ts == ts[..|ts| - 1] + [ts[|ts| - 1]];
      AsMap(ts[..|ts| - 1])[ts[|ts| - 1].id := ts[|ts| - 1]]
  }

  lemma SnocSplit<T>(s: seq<T>)
    requires s != []
    ensures s[..|s| - 1] + [s[|s| - 1]] == s
  {
  }

  lemma IdsSnoc(ts: seq<Track>, t: Track)
    ensures Ids(ts + [t]) == Ids(ts) + {t.id}
  {
  }

  lemma AsMapSnoc(ts: seq<Track>, t: Track)
    ensures AsMap(ts + [t]) == AsMap(ts)[t.id := t]
  {
    assert (ts + [t])[..|ts|] == ts;
  }

  lemma IdsUpdateSameId(ts: seq<Track>, p: nat, t: Track)
    requires p < |ts| && ts[p].id == t.id
    ensures Ids(ts[p := t]) == Ids(ts)
  {
    forall id | id in Ids(ts) ensures id in Ids(ts[p := t]) {
      var u :| u in ts && u.id == id;
      var j :| 0 <= j < |ts| && ts[j] == u;
      assert ts[p := t][j].id == id;
    }
    forall id | id in Ids(ts[p := t]) ensures id in Ids(ts) {
      var u :| u in ts[p := t] && u.id == id;
      var j :| 0 <= j < |ts| && ts[p := t][j] == u;
      assert ts[j].id == id;
    }
  }

  lemma AscendingMember(ts: seq<Track>, t: Track)
    requires Ascending(ts) && |ts| > 0 && t in ts[..|ts| - 1]
    ensures t.id < ts[|ts| - 1].id
  {
    var j :| 0 <= j < |ts| - 1 && ts[..|ts| - 1][j] == t;
  }

  lemma AscendingPrefix(ts: seq<Track>, n: nat)
    requires Ascending(ts) && n <= |ts|
    ensures Ascending(ts[..n])
  {
  }

  /** With distinct ids, the dictionary maps each id to that id's own entry. */
  lemma {:induction false} AsMapLookup(ts: seq<Track>)
    requires Ascending(ts)
    ensures forall t :: t in ts ==> t.id in AsMap(ts) && AsMap(ts)[t.id] == t
    decreases |ts|
  {
    if ts != [] {
      var n := |ts| - 1;
      var pre, last := ts[..n], ts[n];
      SnocSplit(ts);
      AscendingPrefix(ts, n);
      AsMapLookup(pre);
      AsMapSnoc(pre, last);
      forall t | t in ts ensures t.id in AsMap(ts) && AsMap(ts)[t.id] == t {
        if t != last {
          assert t in pre;
          AscendingMember(ts, t);
        }
      }
    }
  }

  lemma UpdateCommutes(m: map<int, Track>, k1: int, v1: Track, k2: int, v2: Track)
    requires k1 != k2
    ensures m[k1 := v1][k2 := v2] == m[k2 := v2][k1 := v1]
  {
  }

  lemma UpdateSnoc(ts: seq<Track>, p: nat, t: Track)
    requires p < |ts|
    ensures p < |ts| - 1 ==> ts[p := t] == ts[..|ts| - 1][p := t] + [ts[|ts| - 1]]
    ensures p == |ts| - 1 ==> ts[p := t] == ts[..|ts| - 1] + [t]
  {
  }

  lemma AsMapUpdateLast(ts: seq<Track>, t: Track)
    requires ts != [] && ts[|ts| - 1].id == t.id
    ensures AsMap(ts[|ts| - 1 := t]) == AsMap(ts)[t.id := t]
  {
    var n := |ts| - 1;
    var pre := ts[..n];
    SnocSplit(ts);
    AsMapSnoc(pre, ts[n]);
    UpdateSnoc(ts, n, t);
    AsMapSnoc(pre, t);
    var m := AsMap(pre);
    assert m[t.id := ts[n]][t.id := t] == m[t.id := t];
  }

  lemma {:induction false} AsMapUpdateSameId(ts: seq<Track>, p: nat, t: Track)
    requires Ascending(ts) && p < |ts| && ts[p].id == t.id
    ensures AsMap(ts[p := t]) == AsMap(ts)[t.id := t]
    decreases |ts|
  {
    var n := |ts| - 1;
    var pre, last := ts[..n], ts[n];
    SnocSplit(ts);
    AsMapSnoc(pre, last);
    UpdateSnoc(ts, p, t);
    if p == n {
      AsMapUpdateLast(ts, t);
    } else {
      AscendingPrefix(ts, n);
      AsMapUpdateSameId(pre, p, t);
      AsMapSnoc(pre[p := t], last);
      assert t.id != last.id;
      UpdateCommutes(AsMap(pre), t.id, t, last.id, last);
    }
  }

  // ---------------------------------------------------------------------------
  // Ageing
  // ---------------------------------------------------------------------------

  /** Every entry's ttl drops by one; entries whose ttl reaches 0 or below are deleted. */
  function Aged(ts: seq<Track>): (r: seq<Track>)
    ensures |r| <= |ts|
    ensures forall k :: 0 <= k < |r| ==> r[k].ttl > 0
    decreases |ts|
  {
    if ts == [] then []
    else
      var t := ts[|ts| - 1];
      Aged(ts[..|ts| - 1]) + (if t.ttl - 1 > 0 then [t.(ttl := t.ttl - 1)] else [])
  }

  /** The same step stated on the dictionary, independently of the order of the entries. */
  function AgedTable(m: map<int, Track>): map<int, Track>
  {
    map id | id in m && m[id].ttl - 1 > 0 :: m[id].(ttl := m[id].ttl - 1)
  }

  lemma AgedTableAdd(m: map<int, Track>, t: Track)
    requires t.id !in m
    ensures AgedTable(m[t.id := t]) ==
      if t.ttl - 1 > 0 then AgedTable(m)[t.id := t.(ttl := t.ttl - 1)] else AgedTable(m)
  {
  }

  lemma AgedSnoc(ts: seq<Track>)
    requires ts != []
    ensures var t := ts[|ts| - 1];
      Aged(ts) == Aged(ts[..|ts| - 1]) + (if t.ttl - 1 > 0 then [t.(ttl := t.ttl - 1)] else [])
  {
  }

  /** Ageing keeps only ids that were in the table. */
  lemma {:induction false} AgedIds(ts: seq<Track>)
    ensures forall t :: t in Aged(ts) ==> t.id in Ids(ts)
    decreases |ts|
  {
    if ts != [] {
      var n := |ts| - 1;
      AgedIds(ts[..n]);
      AgedSnoc(ts);
      assert ts == ts[..n] + [ts[n]];
      IdsSnoc(ts[..n], ts[n]);
    }
  }

  /** Ageing keeps the table in ascending id order. */
  lemma {:induction false} AgedAscending(ts: seq<Track>)
    requires Ascending(ts)
    ensures Ascending(Aged(ts))
    decreases |ts|
  {
    if ts != [] {
      var n := |ts| - 1;
      var pre, last := ts[..n], ts[n];
      AscendingPrefix(ts, n);
      AgedAscending(pre);
      AgedIds(pre);
      AgedSnoc(ts);
      if last.ttl - 1 > 0 {
        var a := Aged(pre);
        forall u | u in a ensures u.id < last.id {
          var v :| v in pre && v.id == u.id;
          AscendingMember(ts, v);
        }
        AscendingSnoc(a, last.(ttl := last.ttl - 1));
      }
    }
  }

  lemma AscendingSnoc(ts: seq<Track>, t: Track)
    requires Ascending(ts) && forall u :: u in ts ==> u.id < t.id
    ensures Ascending(ts + [t])
  {
    forall i, j | 0 <= i < j < |ts| + 1 ensures (ts + [t])[i].id < (ts + [t])[j].id {
      if j == |ts| { assert ts[i] in ts; }
    }
  }

  /** Ageing the ordered table is ageing the dictionary. */
  lemma {:induction false} AgedAsMap(ts: seq<Track>)
    requires Ascending(ts)
    ensures AsMap(Aged(ts)) == AgedTable(AsMap(ts))
    decreases |ts|
  {
    if ts != [] {
      var n := |ts| - 1;
      var pre, last := ts[..n], ts[n];
      AscendingPrefix(ts, n);
      AgedAsMap(pre);
      LastIdFresh(ts);
      AgedTableAdd(AsMap(pre), last);
      SnocSplit(ts);
      AsMapSnoc(pre, last);
      AgedSnoc(ts);
      var m := AsMap(pre);
      assert AsMap(ts) == m[last.id := last];
      if last.ttl - 1 > 0 {
        var a := last.(ttl := last.ttl - 1);
        assert Aged(ts) == Aged(pre) + [a];
        AsMapSnoc(Aged(pre), a);
        assert AsMap(Aged(ts)) == AgedTable(m)[last.id := a];
        assert AgedTable(m[last.id := last]) == AgedTable(m)[last.id := a];
      } else {
        assert Aged(ts) == Aged(pre);
        assert AgedTable(m[last.id := last]) == AgedTable(m);
      }
    }
  }

  lemma LastIdFresh(ts: seq<Track>)
    requires Ascending(ts) && ts != []
    ensures ts[|ts| - 1].id !in AsMap(ts[..|ts| - 1])
  {
    var pre := ts[..|ts| - 1];
    forall u | u in pre ensures u.id != ts[|ts| - 1].id {
      AscendingMember(ts, u);
    }
  }

  /** Ageing the ordered table is ageing the dictionary, and keeps the table ascending. */
  lemma AgedMeaning(ts: seq<Track>)
    requires Ascending(ts)
    ensures Ascending(Aged(ts))
    ensures forall t :: t in Aged(ts) ==> t.id in Ids(ts)
    ensures AsMap(Aged(ts)) == AgedTable(AsMap(ts))
  {
    AgedAscending(ts);
    AgedIds(ts);
    AgedAsMap(ts);
  }

  lemma AgedKeepsTable(ts: seq<Track>, nextId: int)
    requires TableOk(ts, nextId)
    ensures TableOk(Aged(ts), nextId)
  {
    AgedMeaning(ts);
  }

  // ---------------------------------------------------------------------------
  // Matching one detection
  // ---------------------------------------------------------------------------

  /**
   * The best-IoU scan over every live entry, in table order, keeping a
   * candidate only when it is strictly better: the IoU found and the position
   * of the winning entry (None when no entry overlaps the box at all).
   */
  function Best(ts: seq<Track>, box: Box): (r: (real, Option<nat>))
    ensures r.1.None? ==> r.0 == 0.0
    ensures r.1.Some? ==> r.1.value < |ts| && r.0 == IoU(box, ts[r.1.value].bbox) && r.0 > 0.0
    decreases |ts|
  {
    if ts == [] then (0.0, None)
    else
      var prev := Best(ts[..|ts| - 1], box);
      var v := IoU(box, ts[|ts| - 1].bbox);
      if v > prev.0 then (v, Some(|ts| - 1)) else prev
  }

  /** Position p holds the highest IoU with the box, and no earlier position reaches it. */
  ghost predicate FirstMaximum(ts: seq<Track>, box: Box, v: real, p: nat)
  {
    && p < |ts|
    && IoU(box, ts[p].bbox) == v
    && (forall j :: 0 <= j < |ts| ==> IoU(box, ts[j].bbox) <= v)
    && (forall j :: 0 <= j < p ==> IoU(box, ts[j].bbox) < v)
  }

  /** The scan finds the first entry of maximal IoU, and finds none exactly when nothing overlaps. */
  lemma {:induction false} BestIsFirstMaximum(ts: seq<Track>, box: Box)
    ensures Best(ts, box).1.None? <==> forall j :: 0 <= j < |ts| ==> IoU(box, ts[j].bbox) == 0.0
    ensures Best(ts, box).1.Some? ==> FirstMaximum(ts, box, Best(ts, box).0, Best(ts, box).1.value)
    decreases |ts|
  {
    if ts != [] {
      var n := |ts| - 1;
      BestIsFirstMaximum(ts[..n], box);
      assert forall j :: 0 <= j < n ==> ts[..n][j] == ts[j];
    }
  }

  /** Conversely, a first maximum with a positive IoU is what the scan returns. */
  lemma BestUnique(ts: seq<Track>, box: Box, v: real, p: nat)
    requires FirstMaximum(ts, box, v, p) && v > 0.0
    ensures Best(ts, box) == (v, Some(p))
  {
    BestIsFirstMaximum(ts, box);
    var (w, q) := Best(ts, box);
    assert q.Some?;
  }

  /** The state of one `update` call between detections. */
  datatype Round = Round(tracks: seq<Track>, nextId: int, claimed: set<int>, results: seq<TrackedDet>)

  /** The claimed entry at position p takes the detection's box, a full ttl, its conf and class. */
  function Claim(r: Round, p: nat, d: Det, maxTtl: int): Round
    requires p < |r.tracks|
  {
    var id := r.tracks[p].id;
    Round(r.tracks[p := Seeded(d, id, maxTtl)], r.nextId, r.claimed + {id}, r.results + [Emitted(d, id)])
  }

  /** A new entry under the next id, appended at the end of the table. */
  function Spawn(r: Round, d: Det, maxTtl: int): Round
  {
    var id := r.nextId;
    Round(r.tracks + [Seeded(d, id, maxTtl)], r.nextId + 1, r.claimed + {id}, r.results + [Emitted(d, id)])
  }

  /**
   * One detection: claim the best entry if it overlaps, reaches the threshold
   * and is not yet claimed in this call; otherwise spawn a fresh id.
   */
  function Step(r: Round, d: Det, iouThresh: real, maxTtl: int): (s: Round)
    ensures |s.results| == |r.results| + 1 && s.results[..|r.results|] == r.results
    ensures s.nextId == r.nextId || s.nextId == r.nextId + 1
    ensures s.claimed == r.claimed + {s.results[|r.results|].trackId}
  {
    var (v, p) := Best(r.tracks, BoxOf(d));
    if p.Some? && v >= iouThresh && r.tracks[p.value].id !in r.claimed then Claim(r, p.value, d, maxTtl)
    else Spawn(r, d, maxTtl)
  }

  /** The detections processed in input order. */
  function Fold(r: Round, dets: seq<Det>, iouThresh: real, maxTtl: int): (s: Round)
    ensures |s.results| == |r.results| + |dets| && s.results[..|r.results|] == r.results
    ensures r.nextId <= s.nextId <= r.nextId + |dets|
    decreases |dets|
  {
    if dets == [] then r
    else Step(Fold(r, dets[..|dets| - 1], iouThresh, maxTtl), dets[|dets| - 1], iouThresh, maxTtl)
  }

  /** A whole `update` call: age, then match every detection. */
  function Updated(ts: seq<Track>, nextId: int, iouThresh: real, maxTtl: int, dets: seq<Det>): (r: Round)
    ensures |r.results| == |dets|
    ensures nextId <= r.nextId <= nextId + |dets|
  {
    Fold(Round(Aged(ts), nextId, {}, []), dets, iouThresh, maxTtl)
  }

  // ---------------------------------------------------------------------------
  // What holds after every detection of a call
  // ---------------------------------------------------------------------------

  function ResultIds(rs: seq<TrackedDet>): set<int>
  {
    set t | t in rs :: t.trackId
  }

  lemma ResultIdsSnoc(rs: seq<TrackedDet>, e: TrackedDet)
    ensures ResultIds(rs + [e]) == ResultIds(rs) + {e.trackId}
  {
  }

  lemma ResultIdAt(rs: seq<TrackedDet>, k: nat)
    requires k < |rs|
    ensures rs[k].trackId in ResultIds(rs)
  {
  }

  /** One output per detection, carrying its fields, with pairwise distinct ids. */
  ghost predicate OutputOk(dets: seq<Det>, rs: seq<TrackedDet>)
  {
    && |rs| == |dets|
    && (forall k :: 0 <= k < |dets| ==> Carries(rs[k], dets[k]))
    && (forall k, l :: 0 <= k < l < |rs| ==> rs[k].trackId != rs[l].trackId)
  }

  /** Every output id is either an entry of the aged table or issued during this call. */
  ghost predicate OriginOk(base: seq<Track>, nextId0: int, r: Round)
  {
    forall k :: 0 <= k < |r.results| ==>
      r.results[k].trackId in Ids(base) || nextId0 <= r.results[k].trackId < r.nextId
  }

  /**
   * The table holds the aged entries plus the claimed ids; unclaimed entries
   * are as ageing left them, claimed ones hold their detection.
   */
  ghost predicate ContentOk(base: seq<Track>, maxTtl: int, dets: seq<Det>, r: Round)
  {
    && |r.results| == |dets|
    && r.claimed == ResultIds(r.results)
    && Ids(r.tracks) == Ids(base) + r.claimed
    && (forall id :: id in Ids(base) && id !in r.claimed ==> AsMap(r.tracks)[id] == AsMap(base)[id])
    && (forall k :: 0 <= k < |dets| ==> r.results[k].trackId in Ids(r.tracks))
    && (forall k :: 0 <= k < |dets| ==>
          AsMap(r.tracks)[r.results[k].trackId] == Seeded(dets[k], r.results[k].trackId, maxTtl))
  }

  /** What holds after the detections `dets` of a call whose aged table was `base`. */
  ghost predicate RoundOk(base: seq<Track>, nextId0: int, maxTtl: int, dets: seq<Det>, r: Round)
  {
    && TableOk(r.tracks, r.nextId)
    && nextId0 <= r.nextId
    && OutputOk(dets, r.results)
    && OriginOk(base, nextId0, r)
    && ContentOk(base, maxTtl, dets, r)
  }

  lemma OutputSnoc(dets: seq<Det>, rs: seq<TrackedDet>, d: Det, id: int)
    requires OutputOk(dets, rs) && id !in ResultIds(rs)
    ensures OutputOk(dets + [d], rs + [Emitted(d, id)])
  {
    var rs' := rs + [Emitted(d, id)];
    forall k, l | 0 <= k < l < |rs'| ensures rs'[k].trackId != rs'[l].trackId {
      if l == |rs| { ResultIdAt(rs, k); }
    }
  }

  lemma ClaimKeepsTable(r: Round, p: nat, d: Det, maxTtl: int)
    requires TableOk(r.tracks, r.nextId) && p < |r.tracks|
    ensures TableOk(Claim(r, p, d, maxTtl).tracks, r.nextId)
  {
    var ts' := Claim(r, p, d, maxTtl).tracks;
    forall t' | t' in ts' ensures 1 <= t'.id < r.nextId {
      var j :| 0 <= j < |ts'| && ts'[j] == t';
      assert r.tracks[j] in r.tracks;
    }
  }

  /** The outputs so far keep pointing at their entries when an unclaimed entry is claimed. */
  lemma ClaimKeepsOutputs(base: seq<Track>, maxTtl: int, dets: seq<Det>, r: Round, p: nat, d: Det)
    requires Ascending(r.tracks) && ContentOk(base, maxTtl, dets, r)
    requires p < |r.tracks| && r.tracks[p].id !in r.claimed
    ensures var r', dets' := Claim(r, p, d, maxTtl), dets + [d];
      forall k :: 0 <= k < |dets'| ==>
        r'.results[k].trackId in Ids(r'.tracks) &&
        AsMap(r'.tracks)[r'.results[k].trackId] == Seeded(dets'[k], r'.results[k].trackId, maxTtl)
  {
    var id := r.tracks[p].id;
    var t := Seeded(d, id, maxTtl);
    var r' := Claim(r, p, d, maxTtl);
    var dets' := dets + [d];
    var m, m' := AsMap(r.tracks), AsMap(r'.tracks);
    IdsUpdateSameId(r.tracks, p, t);
    AsMapUpdateSameId(r.tracks, p, t);
    assert m' == m[id := t];
    assert r.tracks[p] in r.tracks;
    forall k | 0 <= k < |dets'|
      ensures r'.results[k].trackId in Ids(r'.tracks) && m'[r'.results[k].trackId] == Seeded(dets'[k], r'.results[k].trackId, maxTtl)
    {
      if k < |dets| {
        ResultIdAt(r.results, k);
        assert r'.results[k] == r.results[k];
        assert r.results[k].trackId != id;
        assert m'[r.results[k].trackId] == m[r.results[k].trackId];
      }
    }
  }

  lemma ClaimKeepsContent(base: seq<Track>, maxTtl: int, dets: seq<Det>, r: Round, p: nat, d: Det)
    requires Ascending(r.tracks) && ContentOk(base, maxTtl, dets, r)
    requires p < |r.tracks| && r.tracks[p].id !in r.claimed
    ensures ContentOk(base, maxTtl, dets + [d], Claim(r, p, d, maxTtl))
  {
    var id := r.tracks[p].id;
    var t := Seeded(d, id, maxTtl);
    var r' := Claim(r, p, d, maxTtl);
    var m, m' := AsMap(r.tracks), AsMap(r'.tracks);
    IdsUpdateSameId(r.tracks, p, t);
    AsMapUpdateSameId(r.tracks, p, t);
    assert m' == m[id := t];
    ResultIdsSnoc(r.results, Emitted(d, id));
    assert r'.claimed == ResultIds(r'.results);
    assert r.tracks[p] in r.tracks;
    assert Ids(r'.tracks) == Ids(base) + r'.claimed;
    forall x | x in Ids(base) && x !in r'.claimed ensures m'[x] == AsMap(base)[x] {
    }
    ClaimKeepsOutputs(base, maxTtl, dets, r, p, d);
  }

  lemma ClaimKeepsRoundOk(base: seq<Track>, nextId0: int, maxTtl: int, dets: seq<Det>, r: Round, p: nat, d: Det)
    requires RoundOk(base, nextId0, maxTtl, dets, r)
    requires p < |r.tracks| && r.tracks[p].id !in r.claimed
    ensures RoundOk(base, nextId0, maxTtl, dets + [d], Claim(r, p, d, maxTtl))
  {
    assert r.tracks[p] in r.tracks;
    assert r.tracks[p].id in Ids(r.tracks);
    assert Ids(r.tracks) == Ids(base) + r.claimed;
    assert r.tracks[p].id in Ids(base);
    ClaimKeepsTable(r, p, d, maxTtl);
    OutputSnoc(dets, r.results, d, r.tracks[p].id);
    ClaimKeepsContent(base, maxTtl, dets, r, p, d);
    ClaimKeepsOrigin(base, nextId0, r, p, d, maxTtl);
  }

  lemma ClaimKeepsOrigin(base: seq<Track>, nextId0: int, r: Round, p: nat, d: Det, maxTtl: int)
    requires OriginOk(base, nextId0, r)
    requires p < |r.tracks| && r.tracks[p].id in Ids(base)
    ensures OriginOk(base, nextId0, Claim(r, p, d, maxTtl))
  {
    var r' := Claim(r, p, d, maxTtl);
    forall k | 0 <= k < |r'.results|
      ensures r'.results[k].trackId in Ids(base) || nextId0 <= r'.results[k].trackId < r'.nextId
    {
      if k < |r.results| { assert r'.results[k] == r.results[k]; }
    }
  }

  lemma SpawnKeepsTable(r: Round, d: Det, maxTtl: int)
    requires TableOk(r.tracks, r.nextId)
    ensures TableOk(Spawn(r, d, maxTtl).tracks, r.nextId + 1)
  {
    var ts' := Spawn(r, d, maxTtl).tracks;
    forall i, j | 0 <= i < j < |ts'| ensures ts'[i].id < ts'[j].id {
      if j == |r.tracks| { assert r.tracks[i] in r.tracks; }
    }
  }

  lemma SpawnKeepsContent(base: seq<Track>, maxTtl: int, dets: seq<Det>, r: Round, d: Det)
    requires ContentOk(base, maxTtl, dets, r)
    requires r.nextId !in Ids(r.tracks)
    ensures ContentOk(base, maxTtl, dets + [d], Spawn(r, d, maxTtl))
  {
    var id := r.nextId;
    var t := Seeded(d, id, maxTtl);
    var r' := Spawn(r, d, maxTtl);
    var dets' := dets + [d];
    IdsSnoc(r.tracks, t);
    AsMapSnoc(r.tracks, t);
    var m, m' := AsMap(r.tracks), AsMap(r'.tracks);
    assert m' == m[id := t];
    ResultIdsSnoc(r.results, Emitted(d, id));
    forall k | 0 <= k < |dets'|
      ensures r'.results[k].trackId in Ids(r'.tracks) && m'[r'.results[k].trackId] == Seeded(dets'[k], r'.results[k].trackId, maxTtl)
    {
      if k < |dets| {
        assert r'.results[k] == r.results[k];
        assert r.results[k].trackId in Ids(r.tracks);
      }
    }
  }

  lemma SpawnKeepsRoundOk(base: seq<Track>, nextId0: int, maxTtl: int, dets: seq<Det>, r: Round, d: Det)
    requires RoundOk(base, nextId0, maxTtl, dets, r)
    ensures RoundOk(base, nextId0, maxTtl, dets + [d], Spawn(r, d, maxTtl))
  {
    var id := r.nextId;
    assert id !in Ids(r.tracks);
    SpawnKeepsTable(r, d, maxTtl);
    OutputSnoc(dets, r.results, d, id);
    SpawnKeepsContent(base, maxTtl, dets, r, d);
  }

  lemma StepKeepsRoundOk(base: seq<Track>, nextId0: int, iouThresh: real, maxTtl: int, dets: seq<Det>, r: Round, d: Det)
    requires RoundOk(base, nextId0, maxTtl, dets, r)
    requires TableOk(base, nextId0)
    ensures RoundOk(base, nextId0, maxTtl, dets + [d], Step(r, d, iouThresh, maxTtl))
  {
    var (v, p) := Best(r.tracks, BoxOf(d));
    if p.Some? && v >= iouThresh && r.tracks[p.value].id !in r.claimed {
      ClaimKeepsRoundOk(base, nextId0, maxTtl, dets, r, p.value, d);
    } else {
      SpawnKeepsRoundOk(base, nextId0, maxTtl, dets, r, d);
    }
  }

  lemma StartOk(base: seq<Track>, nextId0: int, maxTtl: int)
    requires TableOk(base, nextId0)
    ensures RoundOk(base, nextId0, maxTtl, [], Round(base, nextId0, {}, []))
  {
    assert ResultIds([]) == {};
  }

  lemma StepOkAt(base: seq<Track>, nextId0: int, iouThresh: real, maxTtl: int, dets: seq<Det>, r: Round)
    requires TableOk(base, nextId0) && dets != []
    requires RoundOk(base, nextId0, maxTtl, dets[..|dets| - 1], r)
    ensures RoundOk(base, nextId0, maxTtl, dets, Step(r, dets[|dets| - 1], iouThresh, maxTtl))
  {
    var n := |dets| - 1;
    StepKeepsRoundOk(base, nextId0, iouThresh, maxTtl, dets[..n], r, dets[n]);
    SnocSplit(dets);
  }

  lemma {:induction false} FoldOk(base: seq<Track>, nextId0: int, iouThresh: real, maxTtl: int, dets: seq<Det>)
    requires TableOk(base, nextId0)
    ensures RoundOk(base, nextId0, maxTtl, dets, Fold(Round(base, nextId0, {}, []), dets, iouThresh, maxTtl))
    decreases |dets|
  {
    if dets == [] {
      StartOk(base, nextId0, maxTtl);
    } else {
      var r := Fold(Round(base, nextId0, {}, []), dets[..|dets| - 1], iouThresh, maxTtl);
      FoldOk(base, nextId0, iouThresh, maxTtl, dets[..|dets| - 1]);
      StepOkAt(base, nextId0, iouThresh, maxTtl, dets, r);
    }
  }

  // ---------------------------------------------------------------------------
  // What one `update` call does
  // ---------------------------------------------------------------------------

  lemma UpdatedOk(ts: seq<Track>, nextId: int, iouThresh: real, maxTtl: int, dets: seq<Det>)
    requires TableOk(ts, nextId)
    ensures TableOk(Aged(ts), nextId)
    ensures AsMap(Aged(ts)) == AgedTable(AsMap(ts))
    ensures Ids(Aged(ts)) <= Ids(ts)
    ensures RoundOk(Aged(ts), nextId, maxTtl, dets, Updated(ts, nextId, iouThresh, maxTtl, dets))
  {
    AgedMeaning(ts);
    AgedKeepsTable(ts, nextId);
    FoldOk(Aged(ts), nextId, iouThresh, maxTtl, dets);
  }

  /** The table invariant survives a call, and the id counter never goes back. */
  lemma UpdateKeepsTable(ts: seq<Track>, nextId: int, iouThresh: real, maxTtl: int, dets: seq<Det>)
    requires TableOk(ts, nextId)
    ensures var r := Updated(ts, nextId, iouThresh, maxTtl, dets);
      TableOk(r.tracks, r.nextId) && nextId <= r.nextId
  {
    UpdatedOk(ts, nextId, iouThresh, maxTtl, dets);
  }

  /** One output per detection, in input order, carrying that detection's box, conf and class. */
  lemma UpdateAligned(ts: seq<Track>, nextId: int, iouThresh: real, maxTtl: int, dets: seq<Det>)
    requires TableOk(ts, nextId)
    ensures var rs := Updated(ts, nextId, iouThresh, maxTtl, dets).results;
      |rs| == |dets| && forall k :: 0 <= k < |dets| ==> Carries(rs[k], dets[k])
  {
    UpdatedOk(ts, nextId, iouThresh, maxTtl, dets);
  }

  /** No id is handed out twice within one call. */
  lemma UpdateIdsDistinct(ts: seq<Track>, nextId: int, iouThresh: real, maxTtl: int, dets: seq<Det>)
    requires TableOk(ts, nextId)
    ensures var rs := Updated(ts, nextId, iouThresh, maxTtl, dets).results;
      forall k, l :: 0 <= k < l < |rs| ==> rs[k].trackId != rs[l].trackId
  {
    UpdatedOk(ts, nextId, iouThresh, maxTtl, dets);
  }

  /**
   * An output id is either an entry that survived ageing or a fresh id from
   * the counter, larger than every id issued before the call.
   */
  lemma UpdateIdOrigin(ts: seq<Track>, nextId: int, iouThresh: real, maxTtl: int, dets: seq<Det>)
    requires TableOk(ts, nextId)
    ensures var r := Updated(ts, nextId, iouThresh, maxTtl, dets);
      forall k :: 0 <= k < |r.results| ==>
        r.results[k].trackId in AgedTable(AsMap(ts)) || nextId <= r.results[k].trackId < r.nextId
  {
    UpdatedOk(ts, nextId, iouThresh, maxTtl, dets);
  }

  /**
   * The table after a call, as a dictionary: the entries that survived ageing
   * plus the ids output; an entry no detection claimed is exactly as ageing
   * left it; an entry output for detection k holds that detection's box, conf
   * and class with a full ttl.
   */
  lemma UpdateTable(ts: seq<Track>, nextId: int, iouThresh: real, maxTtl: int, dets: seq<Det>)
    requires TableOk(ts, nextId)
    ensures var r := Updated(ts, nextId, iouThresh, maxTtl, dets);
      var m, aged := AsMap(r.tracks), AgedTable(AsMap(ts));
      && |r.results| == |dets|
      && m.Keys == aged.Keys + ResultIds(r.results)
      && (forall id :: id in aged && id !in ResultIds(r.results) ==> m[id] == aged[id])
      && (forall k :: 0 <= k < |r.results| ==>
            m[r.results[k].trackId] == Seeded(dets[k], r.results[k].trackId, maxTtl))
  {
    UpdatedOk(ts, nextId, iouThresh, maxTtl, dets);
  }

  /** With no detections a call only ages the table. */
  lemma EmptyFrameOnlyAges(ts: seq<Track>, nextId: int, iouThresh: real, maxTtl: int)
    requires TableOk(ts, nextId)
    ensures var r := Updated(ts, nextId, iouThresh, maxTtl, []);
      r.results == [] && r.nextId == nextId && AsMap(r.tracks) == AgedTable(AsMap(ts))
  {
    AgedMeaning(ts);
  }

  /**
   * Position p may be claimed by a detection with this box: it is the first
   * entry of highest IoU, that IoU is positive and reaches the threshold, and
   * the entry is not yet claimed in this call.
   */
  ghost predicate Claimable(r: Round, box: Box, iouThresh: real, p: nat)
  {
    && p < |r.tracks|
    && FirstMaximum(r.tracks, box, IoU(box, r.tracks[p].bbox), p)
    && IoU(box, r.tracks[p].bbox) > 0.0
    && IoU(box, r.tracks[p].bbox) >= iouThresh
    && r.tracks[p].id !in r.claimed
  }

  /**
   * The matching rule: a detection reuses an entry exactly when that entry is
   * claimable, and spawns otherwise; in particular a detection whose best
   * entry is already claimed spawns, whatever the runner-up.
   */
  lemma StepRule(r: Round, d: Det, iouThresh: real, maxTtl: int)
    ensures forall p: nat :: Claimable(r, BoxOf(d), iouThresh, p) ==> Step(r, d, iouThresh, maxTtl) == Claim(r, p, d, maxTtl)
    ensures (forall p: nat :: !Claimable(r, BoxOf(d), iouThresh, p)) ==> Step(r, d, iouThresh, maxTtl) == Spawn(r, d, maxTtl)
  {
    var box := BoxOf(d);
    BestIsFirstMaximum(r.tracks, box);
    forall p: nat | Claimable(r, box, iouThresh, p) ensures Step(r, d, iouThresh, maxTtl) == Claim(r, p, d, maxTtl) {
      BestUnique(r.tracks, box, IoU(box, r.tracks[p].bbox), p);
    }
    var (v, q) := Best(r.tracks, box);
    if q.Some? && v >= iouThresh && r.tracks[q.value].id !in r.claimed {
      assert Claimable(r, box, iouThresh, q.value);
    }
  }

  // ---------------------------------------------------------------------------
  // Several calls in a row
  // ---------------------------------------------------------------------------

  /** The table and counter after one call per frame. */
  function Run(ts: seq<Track>, nextId: int, iouThresh: real, maxTtl: int, frames: seq<seq<Det>>): (seq<Track>, int)
    decreases |frames|
  {
    if frames == [] then (ts, nextId)
    else
      var r := Updated(ts, nextId, iouThresh, maxTtl, frames[0]);
      Run(r.tracks, r.nextId, iouThresh, maxTtl, frames[1..])
  }

  /** No detection of any of the frames is matched to the entry `id`. */
  ghost predicate NeverClaimed(ts: seq<Track>, nextId: int, iouThresh: real, maxTtl: int, frames: seq<seq<Det>>, id: int)
    decreases |frames|
  {
    frames != [] ==>
      var r := Updated(ts, nextId, iouThresh, maxTtl, frames[0]);
      id !in ResultIds(r.results) && NeverClaimed(r.tracks, r.nextId, iouThresh, maxTtl, frames[1..], id)
  }

  /** One call: an id already issued and not live is not live afterwards. */
  lemma EvictedStaysOut(ts: seq<Track>, nextId: int, iouThresh: real, maxTtl: int, dets: seq<Det>, id: int)
    requires TableOk(ts, nextId) && id < nextId && id !in Ids(ts)
    ensures var r := Updated(ts, nextId, iouThresh, maxTtl, dets);
      id < r.nextId && id !in Ids(r.tracks)
  {
    var r := Updated(ts, nextId, iouThresh, maxTtl, dets);
    UpdatedOk(ts, nextId, iouThresh, maxTtl, dets);
    forall k | 0 <= k < |r.results| ensures r.results[k].trackId != id {
    }
  }

  /** An id that has been issued and evicted never comes back, however many calls follow. */
  lemma {:induction false} EvictedNeverReturns(ts: seq<Track>, nextId: int, iouThresh: real, maxTtl: int, frames: seq<seq<Det>>, id: int)
    requires TableOk(ts, nextId) && id < nextId && id !in Ids(ts)
    ensures id !in Ids(Run(ts, nextId, iouThresh, maxTtl, frames).0)
    decreases |frames|
  {
    if frames != [] {
      var r := Updated(ts, nextId, iouThresh, maxTtl, frames[0]);
      EvictedStaysOut(ts, nextId, iouThresh, maxTtl, frames[0], id);
      UpdateKeepsTable(ts, nextId, iouThresh, maxTtl, frames[0]);
      EvictedNeverReturns(r.tracks, r.nextId, iouThresh, maxTtl, frames[1..], id);
    }
  }

  /** One call: an entry no detection claims loses one unit of ttl, or is deleted when that reaches 0. */
  lemma UnclaimedTrackAges(ts: seq<Track>, nextId: int, iouThresh: real, maxTtl: int, dets: seq<Det>, id: int)
    requires TableOk(ts, nextId) && id in AsMap(ts)
    requires id !in ResultIds(Updated(ts, nextId, iouThresh, maxTtl, dets).results)
    ensures var m, t := AsMap(Updated(ts, nextId, iouThresh, maxTtl, dets).tracks), AsMap(ts)[id];
      if t.ttl - 1 > 0 then id in m && m[id] == t.(ttl := t.ttl - 1) else id !in m
  {
    UpdateTable(ts, nextId, iouThresh, maxTtl, dets);
  }

  /** An entry with ttl t that no detection claims is gone after t further calls. */
  lemma {:induction false} UnclaimedTrackExpires(ts: seq<Track>, nextId: int, iouThresh: real, maxTtl: int, frames: seq<seq<Det>>, id: int)
    requires TableOk(ts, nextId) && id in AsMap(ts) && frames != [] && AsMap(ts)[id].ttl <= |frames|
    requires NeverClaimed(ts, nextId, iouThresh, maxTtl, frames, id)
    ensures id !in Ids(Run(ts, nextId, iouThresh, maxTtl, frames).0)
    decreases |frames|
  {
    var r := Updated(ts, nextId, iouThresh, maxTtl, frames[0]);
    var t := AsMap(ts)[id];
    assert id < nextId by {
      var u :| u in ts && u.id == id;
    }
    UnclaimedTrackAges(ts, nextId, iouThresh, maxTtl, frames[0], id);
    UpdateKeepsTable(ts, nextId, iouThresh, maxTtl, frames[0]);
    if t.ttl - 1 > 0 {
      assert frames[1..] != [];
      UnclaimedTrackExpires(r.tracks, r.nextId, iouThresh, maxTtl, frames[1..], id);
    } else {
      EvictedNeverReturns(r.tracks, r.nextId, iouThresh, maxTtl, frames[1..], id);
    }
  }

  // ---------------------------------------------------------------------------
  // The tracker object
  // ---------------------------------------------------------------------------

  lemma AgedPrefixSnoc(ts: seq<Track>, k: nat)
    requires k < |ts|
    ensures var t := ts[k];
      Aged(ts[..k + 1]) == Aged(ts[..k]) + (if t.ttl - 1 > 0 then [t.(ttl := t.ttl - 1)] else [])
  {
    assert ts[..k + 1][..k] == ts[..k];
  }

  lemma FoldPrefixSnoc(r: Round, dets: seq<Det>, i: nat, iouThresh: real, maxTtl: int)
    requires i < |dets|
    ensures Fold(r, dets[..i + 1], iouThresh, maxTtl) == Step(Fold(r, dets[..i], iouThresh, maxTtl), dets[i], iouThresh, maxTtl)
  {
    assert dets[..i + 1][..i] == dets[..i];
  }

  /** The best-IoU loop of `update`: the first entry of highest IoU with the box, if any overlaps. */
  method ScanBest(ts: seq<Track>, box: Box) returns (bestIou: real, best: Option<nat>)
    ensures (bestIou, best) == Best(ts, box)
    ensures best.None? <==> forall j :: 0 <= j < |ts| ==> IoU(box, ts[j].bbox) == 0.0
    ensures best.Some? ==> FirstMaximum(ts, box, bestIou, best.value)
  {
    bestIou, best := 0.0, None;
    for j := 0 to |ts|
      invariant (bestIou, best) == Best(ts[..j], box)
    {
      assert ts[..j + 1][..j] == ts[..j];
      var i := IoU(box, ts[j].bbox);
      if i > bestIou {
        bestIou, best := i, Some(j);
      }
    }
    assert ts[..|ts|] == ts;
    BestIsFirstMaximum(ts, box);
  }

  class SimpleTracker {
    const iouThresh: real
    const maxTtl: int
    var nextId: int
    /** The dictionary `track_id -> entry`, in insertion order. */
    var tracks: seq<Track>

    ghost predicate Valid()
      reads this
    {
      TableOk(tracks, nextId)
    }

    constructor (iouThresh: real := DefaultIouThresh, maxTtl: int := DefaultMaxTtl)
      ensures Valid()
      ensures this.iouThresh == iouThresh && this.maxTtl == maxTtl
      ensures nextId == 1 && tracks == []
    {
      this.iouThresh := iouThresh;
      this.maxTtl := maxTtl;
      nextId := 1;
      tracks := [];
    }

    /**
     * Age the table, then match every detection in input order; the new
     * table, counter and output are those of `Updated`, whose meaning the
     * lemmas above state.
     */
    method Update(dets: seq<Det>) returns (results: seq<TrackedDet>)
      requires Valid()
      modifies this
      ensures Valid()
      ensures var r := Updated(old(tracks), old(nextId), iouThresh, maxTtl, dets);
        tracks == r.tracks && nextId == r.nextId && results == r.results
    {
      var ts, n0 := tracks, nextId;
      var aged: seq<Track> := [];
      for k := 0 to |ts|
        invariant aged == Aged(ts[..k])
      {
        AgedPrefixSnoc(ts, k);
        var t := ts[k].(ttl := ts[k].ttl - 1);
        if t.ttl > 0 {
          aged := aged + [t];
        }
      }
      assert ts[..|ts|] == ts;

      var table, next := aged, n0;
      var claimed: set<int> := {};
      results := [];
      for i := 0 to |dets|
        invariant Round(table, next, claimed, results) == Fold(Round(aged, n0, {}, []), dets[..i], iouThresh, maxTtl)
      {
        FoldPrefixSnoc(Round(aged, n0, {}, []), dets, i, iouThresh, maxTtl);
        var d := dets[i];
        var bestIou, best := ScanBest(table, BoxOf(d));
        if best.Some? && bestIou >= iouThresh && table[best.value].id !in claimed {
          var id := table[best.value].id;
          table := table[best.value := Seeded(d, id, maxTtl)];
          claimed := claimed + {id};
          results := results + [Emitted(d, id)];
        } else {
          var id := next;
          next := next + 1;
          table := table + [Seeded(d, id, maxTtl)];
          claimed := claimed + {id};
          results := results + [Emitted(d, id)];
        }
      }
      assert dets[..|dets|] == dets;
      tracks, nextId := table, next;
      UpdateKeepsTable(ts, n0, iouThresh, maxTtl, dets);
    }
  }
}
