# video-pipeline core, modelled in Dafny

The model covers the per-frame core of a video analytics pipeline:

- a GStreamer frame source (`GstIngest`). It picks a pipeline description for an RTSP or file locator and opens the pipeline. It reads BGR frames through an appsink, watching the bus for ERROR and EOS, and releases its handles.
- two trackers:
  - the greedy IoU tracker (`SimpleTracking`). It has a table of tracks with a time-to-live and a monotone id counter.
  - the alignment layer of the DeepSORT wrapper (`DeepSortAlignment`). It converts boxes to ltwh, filters the library's tracks into candidates and maps each detection back to a track id by IoU.
- the NDJSON emitter (`JsonEmission`). It builds one record per frame and writes it as one line to a file or to standard output.
- the offline NDJSON analysis (`NdjsonAnalysis`). It counts frames, missing track ids and per-class occurrences, and collects the track ids seen overall and per class.

`Detections` holds the shared tuples: a detection `(x1, y1, x2, y2, conf, cls_id, cls_name)` and a tracked detection `(x1, y1, x2, y2, track_id, conf, cls_name)`. `Options` holds an `Option` type.

The stateful parts of the source are classes:
- `SimpleTracker`, with the track table and the id counter.
- `JsonEmitter`, with its file handle and a log of written lines.
- `GstSource`, with the pipeline, appsink and bus handles.

Each method is proved equal to a specification function, or states the whole new state. The properties the code promises are lemmas about those functions.

Some external effects are passed in as data: what GStreamer answers, what the DeepSORT library returns, the clock reading used for a missing capture time, and the parsed lines of an NDJSON file.

Four behaviours of the code are worth knowing, and the model keeps them:
- the emitted record has no `image_size` field. The image size only scales `bbox_norm`.
- the simple tracker does not fall back to a detection's next-best track when its best track is already claimed. It spawns a new track (`SimpleTracking.StepRule`).
- `_to_file_uri` is computed for a local file but never used. The file pipeline quotes the path as given.
- after `close`, the emitter writes further records to standard output.

## Model

| member | source | states |
|---|---|---|
| Detections.Untracked | ai/ingest/__main__.py:98 | Without a tracker, each detection is passed on with its box, conf and class and the id -1, one per detection and in order |
| SimpleTracking.IoU | ai/track/simple_tracker.py:5-17 | IoU is never negative, and it is 0 exactly when the overlap area is 0 |
| SimpleTracking.IoUAtMostOne | ai/track/simple_tracker.py:5-17 | IoU never exceeds 1 |
| SimpleTracking.IoUSymmetric | ai/track/simple_tracker.py:5-17 | IoU(a, b) equals IoU(b, a) |
| SimpleTracking.IoUSelf | ai/track/simple_tracker.py:5-17 | A box has IoU 1 with itself exactly when it has positive width and height |
| SimpleTracking.IoUZeroIffApart | ai/track/simple_tracker.py:8-13 | IoU is 0 exactly when the boxes' x ranges or y ranges do not overlap |
| SimpleTracking.AsMap | ai/track/simple_tracker.py:25 | The table read as the id-to-entry dictionary has exactly the table's ids as keys |
| SimpleTracking.AsMapLookup | ai/track/simple_tracker.py:24-25 | With distinct ids, the dictionary maps each id to that id's own entry |
| SimpleTracking.Aged | ai/track/simple_tracker.py:29-32 | The ageing step on the table: it never grows the table and leaves only entries with a positive ttl; its dictionary meaning is in AgedMeaning |
| SimpleTracking.AgedMeaning | ai/track/simple_tracker.py:29-32 | Ageing keeps the ids ascending and introduces no id; as a dictionary, it keeps exactly the entries whose ttl stays positive, each with its ttl lowered by one and nothing else changed |
| SimpleTracking.AgedKeepsTable | ai/track/simple_tracker.py:29-32 | Ageing keeps ids ascending and below the counter |
| SimpleTracking.Best | ai/track/simple_tracker.py:40-44 | The best-IoU scan: no position only with IoU 0, otherwise a position in the table whose IoU is the one reported and positive; which position it is, is stated in BestIsFirstMaximum |
| SimpleTracking.BestIsFirstMaximum | ai/track/simple_tracker.py:40-44 | The scan finds no track exactly when every IoU is 0; otherwise it finds the first track of highest IoU |
| SimpleTracking.BestUnique | ai/track/simple_tracker.py:40-44 | An overlapping first maximum is the track the scan returns |
| SimpleTracking.ScanBest | ai/track/simple_tracker.py:40-44 | The scanning loop returns the best IoU and position as the scan specification gives them |
| SimpleTracking.Step | ai/track/simple_tracker.py:46-60 | One detection matched or spawned: it appends exactly one result, keeps the earlier ones, raises the counter by at most one and marks the result's id as claimed; the choice is stated in StepRule |
| SimpleTracking.Fold | ai/track/simple_tracker.py:46-60 | The detections matched in input order: one result per detection after the earlier ones, and the counter raised by at most one per detection |
| SimpleTracking.Updated | ai/track/simple_tracker.py:27-62 | A whole update, ageing then matching: one result per detection and the counter raised by at most one per detection; its table is stated in UpdateTable |
| SimpleTracking.StepRule | ai/track/simple_tracker.py:46-60 | A detection claims a track exactly when that track is the first best, overlaps, reaches the threshold and is unclaimed in this call; otherwise it spawns a track under the next counter value |
| SimpleTracking.UpdateKeepsTable | ai/track/simple_tracker.py:27-62 | After a call, ids stay ascending and below the counter, and the counter never decreases |
| SimpleTracking.UpdateAligned | ai/track/simple_tracker.py:35-62 | There is one result per detection, in order, with that detection's box, conf and class |
| SimpleTracking.UpdateIdsDistinct | ai/track/simple_tracker.py:46-59 | No id appears twice among the results of one call |
| SimpleTracking.UpdateIdOrigin | ai/track/simple_tracker.py:46-58 | Each result id is either an entry that survived ageing or a fresh counter value issued in this call |
| SimpleTracking.UpdateTable | ai/track/simple_tracker.py:27-62 | The new table's keys are the aged keys plus the result ids; unclaimed entries are as ageing left them; each result's entry holds its detection's box, conf, class and a full ttl |
| SimpleTracking.EmptyFrameOnlyAges | ai/track/simple_tracker.py:27-62 | A frame with no detections only ages the table |
| SimpleTracking.EvictedNeverReturns | ai/track/simple_tracker.py:29-60 | An issued id that is no longer in the table never reappears, over any number of calls |
| SimpleTracking.UnclaimedTrackAges | ai/track/simple_tracker.py:29-32 | An entry no detection claims loses one unit of ttl, or is deleted when the ttl reaches 0 |
| SimpleTracking.UnclaimedTrackExpires | ai/track/simple_tracker.py:29-32 | An entry with ttl t that is never claimed is gone after t calls |
| SimpleTracking.SimpleTracker.constructor | ai/track/simple_tracker.py:20-25 | A new tracker keeps the threshold and ttl it is given (0.3 and 30 by default), has an empty table and the counter at 1 |
| SimpleTracking.SimpleTracker.Update | ai/track/simple_tracker.py:27-62 | The in-place ageing and matching loops leave the table, the counter and the results the update specification gives, and keep the table invariant |
| DeepSortAlignment.ToRawDet | ai/track/deepsort_tracker.py:51-54 | ltwh keeps the left and top corner; on each axis the extent reaches the far corner when the box is not flipped and is 0 when it is; conf and class pass through |
| DeepSortAlignment.ToRawDetRoundTrip | ai/track/deepsort_tracker.py:51-54 | For a box that is not flipped, converting back to corners gives the original box; a flipped side gets width or height 0 |
| DeepSortAlignment.ToRaw | ai/track/deepsort_tracker.py:50-54 | The conversion loop converts each detection, in order |
| DeepSortAlignment.Trunc | ai/track/deepsort_tracker.py:96 | int() of a float truncates toward zero |
| DeepSortAlignment.CandidateOf | ai/track/deepsort_tracker.py:85-100 | A track is skipped exactly when it reports itself unconfirmed or has no box; its box is the original one if present, else the predicted one; the id defaults to -1; the name is the track's class when present and non-empty, else "object"; the conf is the track's when present and non-zero, else 1.0 |
| DeepSortAlignment.Filtered | ai/track/deepsort_tracker.py:84-100 | The candidate list in track order: no longer than the track list, every candidate named; which tracks yield candidates is stated in FilteredMembers |
| DeepSortAlignment.FilteredMembers | ai/track/deepsort_tracker.py:85-100 | A value is a candidate exactly when some track that was not skipped yields it |
| DeepSortAlignment.Candidates | ai/track/deepsort_tracker.py:84-100 | The filtering loop produces exactly the candidates, in track order |
| DeepSortAlignment.DsIoU | ai/track/deepsort_tracker.py:60-77 | The nested iou: never negative; its agreement with the simple tracker's IoU is in DsIoUAgrees and its bounds in DsIoUBounds |
| DeepSortAlignment.DsIoUAgrees | ai/track/deepsort_tracker.py:60-77 | On integer boxes, the clamped IoU equals the simple tracker's IoU |
| DeepSortAlignment.DsIoUBounds | ai/track/deepsort_tracker.py:60-77 | The clamped IoU lies in [0, 1], is symmetric, and is 0 exactly when the boxes do not overlap |
| DeepSortAlignment.BestIndex | ai/track/deepsort_tracker.py:105-114 | The best-IoU scan over the candidates: no position only with IoU 0, otherwise a candidate position whose IoU is the one reported and positive; which position it is, is stated in BestIndexIsFirstBest |
| DeepSortAlignment.MatchOf | ai/track/deepsort_tracker.py:105-114 | The kept best: the ("object", 1.0) default with IoU 0 exactly when nothing overlaps, otherwise the IoU, id, name and conf of one candidate |
| DeepSortAlignment.Accepted | ai/track/deepsort_tracker.py:116-118 | Definition: a best match is used only with IoU at least 0.5 and a positive id; its effect is stated in AlignIdRule and AlignNameRule |
| DeepSortAlignment.BestIndexIsFirstBest | ai/track/deepsort_tracker.py:105-114 | The scan finds no candidate exactly when nothing overlaps; otherwise it finds the first candidate of highest IoU |
| DeepSortAlignment.BestIndexUnique | ai/track/deepsort_tracker.py:105-114 | An overlapping first best is what the scan returns |
| DeepSortAlignment.SearchBest | ai/track/deepsort_tracker.py:106-114 | The scanning loop returns the winner's IoU, id, class and conf, or the defaults (-1, "object", 1.0) |
| DeepSortAlignment.AlignOne | ai/track/deepsort_tracker.py:115-127 | The output keeps the detection's box and conf and its non-empty class name; the id is -1 or positive; AlignIdRule and AlignNameRule give the id and the name fallback |
| DeepSortAlignment.AlignIdRule | ai/track/deepsort_tracker.py:116-118 | A detection takes the first best candidate's id exactly when the IoU is at least 0.5 and the id is positive; with no overlap its id is -1 |
| DeepSortAlignment.AlignNameRule | ai/track/deepsort_tracker.py:116-125 | A detection with an empty class name takes the first best candidate's name when its id is accepted, and "object" when it is not or when nothing overlaps |
| DeepSortAlignment.AlignedNamed | ai/track/deepsort_tracker.py:98 | When the candidates come from the filter, every output class name is non-empty |
| DeepSortAlignment.SharedIdExample | ai/track/deepsort_tracker.py:102-118 | Two detections in one frame can take the same track id, because the alignment keeps no claim set |
| DeepSortAlignment.SameBoxSameId | ai/track/deepsort_tracker.py:109-118 | Two detections with the same box always get the same id, since no candidate is marked as taken |
| DeepSortAlignment.Update | ai/track/deepsort_tracker.py:48-128 | The input to the library is the ltwh conversion; there is one aligned output per detection, in order, as the alignment rule gives it |
| JsonEmission.NatToString | ai/emit/json_emitter.py:61 | The decimal text of an index is non-empty, all digits, and has no leading zero |
| JsonEmission.IntToString | ai/emit/json_emitter.py:61 | `str()` of the frame index: non-empty, and starting with a minus sign exactly when the index is negative |
| JsonEmission.NatToStringInjective | ai/emit/json_emitter.py:61 | Distinct indices have distinct decimal texts |
| JsonEmission.ParseNatToString | ai/emit/json_emitter.py:61 | Reading the decimal text back gives the number |
| JsonEmission.DetId | ai/emit/json_emitter.py:61 | Definition: the frame index, a hyphen, and the position; that it determines the position is stated in DetIdInjective |
| JsonEmission.DetIdInjective | ai/emit/json_emitter.py:61 | Within a frame, `"{frame_index}-{i}"` determines i |
| JsonEmission.RecordDetIdsDistinct | ai/emit/json_emitter.py:54-91 | Detection ids within one record are pairwise distinct |
| JsonEmission.Half | ai/emit/json_emitter.py:72 | Python `// 2`: the floor of half, so twice the result is at most the number and less than it by at most one |
| JsonEmission.Centroid | ai/emit/json_emitter.py:72 | The centroid is the floored half of each coordinate sum, also for negative sums |
| JsonEmission.Normalized | ai/emit/json_emitter.py:66-71 | The normalised box times the frame size, floored at 1, gives back x1, y1, the width and the height |
| JsonEmission.NormalizedExample | ai/emit/json_emitter.py:66-71 | Values for a 100 by 200 frame, and for a 0 by 0 frame that divides by 1 |
| JsonEmission.EntryOf | ai/emit/json_emitter.py:60-74 | An entry carries the detection's id text, class, class id, conf, box, normalised box, centroid and the given track id |
| JsonEmission.BuildRecord | ai/emit/json_emitter.py:36-100 | One entry per detection with its fields; track ids are copied only from a tracked list of the same length, otherwise they are null; the capture time falls back to the clock when missing or empty; the other fields pass through |
| JsonEmission.JsonEmitter.constructor | ai/emit/json_emitter.py:13-20 | A file is opened only for a path that is non-empty and not "-" |
| JsonEmission.JsonEmitter.Close | ai/emit/json_emitter.py:22-25 | After close no file is open, a file is closed only if it was open, and nothing is written |
| JsonEmission.JsonEmitter.WriteLine | ai/emit/json_emitter.py:27-34 | A line goes to the open file, or to standard output when none is open |
| JsonEmission.JsonEmitter.EmitDetection | ai/emit/json_emitter.py:36-101 | Exactly one line is written, and it holds the built record |
| JsonEmission.CloseTwiceThenEmit | ai/emit/json_emitter.py:22-34 | Closing twice closes the file once, and a later record goes to standard output |
| GstIngest.ToFileUri | ai/ingest/gst_source.py:14-19 | The URI is "file:///" followed by the path with every backslash made a slash, and contains no backslash after the scheme |
| GstIngest.ReplaceIdempotent | ai/ingest/gst_source.py:18 | Replacing backslashes a second time changes nothing |
| GstIngest.BuildPipelineDesc | ai/ingest/gst_source.py:36-60 | The description is empty exactly for a non-RTSP path that does not exist; RTSP gets the rtspsrc pipeline and a file the filesrc pipeline, each quoting the path and ending in the appsink |
| GstIngest.FromSample | ai/ingest/gst_source.py:132-148 | A sample gives an h by w by 3 frame when its buffer maps, and a failed read otherwise |
| GstIngest.PollOutcome | ai/ingest/gst_source.py:103-120 | The polling loop's outcome: ok exactly when there is a frame, and ok only when some attempt pulled a sample whose buffer maps; which attempt decides is stated in PendingFails and SampleWins |
| GstIngest.PendingFails | ai/ingest/gst_source.py:103-120 | An ERROR or EOS pending before any sample arrives fails the read |
| GstIngest.SampleWins | ai/ingest/gst_source.py:110-120 | The first sample pulled with no ERROR or EOS before it decides the read |
| GstIngest.ReadOutcome | ai/ingest/gst_source.py:94-148 | A read succeeds exactly when it yields a frame |
| GstIngest.GstSource.constructor | ai/ingest/gst_source.py:30-34 | A new source holds no handles |
| GstIngest.GstSource.Open | ai/ingest/gst_source.py:62-92 | Open fails on an empty description, a non-pipeline, a missing sink, or a first ERROR or EOS message, and succeeds on a state change or a timeout; the handles set before a failure stay set; success leaves the source ready |
| GstIngest.GstSource.Read | ai/ingest/gst_source.py:94-148 | An unready source fails without touching the library; otherwise the polling loop gives the read outcome, and ok holds exactly when there is a frame |
| GstIngest.GstSource.Release | ai/ingest/gst_source.py:150-155 | The pipeline is set to NULL only if present; all three handles are cleared, so a second release changes nothing more |
| GstIngest.MapSample | ai/ingest/gst_source.py:133-148 | Mapping the sample gives the frame or the failure that FromSample gives |
| GstIngest.MissingFile | ai/ingest/gst_source.py:47-49 | For a non-RTSP path that does not exist, open and read both fail and release leaves everything cleared |
| NdjsonAnalysis.IsBlank | scripts/analyze_ndjson.py:14-15 | Definition: a line is skipped when it consists only of the characters `str.strip()` removes |
| NdjsonAnalysis.Count | scripts/analyze_ndjson.py:19-29 | One detection counted: frames unchanged, missing raised by at most one, and no id, counted class or class set lost; the totals are in AnalyzedCounts, AnalyzedClassCounts and AnalyzedClassIds |
| NdjsonAnalysis.CountAll | scripts/analyze_ndjson.py:19-29 | A detection list counted in order: frames unchanged, missing raised by at most the list's length, and nothing counted lost |
| NdjsonAnalysis.Analyzed | scripts/analyze_ndjson.py:13-29 | The tallies after the lines: at most one frame per line; the rest is stated in AnalyzedCounts, AnalyzedClassCounts, AnalyzedClassIds and AnalyzedFlat |
| NdjsonAnalysis.AnalyzedCounts | scripts/analyze_ndjson.py:13-27 | frames counts the non-blank lines; missing counts the detections without a track id; the id set holds exactly the track ids seen |
| NdjsonAnalysis.AnalyzedClassCounts | scripts/analyze_ndjson.py:21-23 | Each class is counted once per detection of that class, tracked or not, and is a key exactly when it occurs |
| NdjsonAnalysis.AnalyzedClassIds | scripts/analyze_ndjson.py:26-29 | A class's id set holds exactly the ids of detections with that class and a track id, and the class has a set only when such a detection exists |
| NdjsonAnalysis.ClassIdsWithinIds | scripts/analyze_ndjson.py:26-29 | Every per-class id set is contained in the overall id set |
| NdjsonAnalysis.AnalyzedFlat | scripts/analyze_ndjson.py:13-29 | The line-by-line tallies equal counting the detections of all non-blank lines from scratch |
| NdjsonAnalysis.CountAllAppend | scripts/analyze_ndjson.py:19-29 | Counting two lists of detections in turn is counting their concatenation |
| NdjsonAnalysis.CountDetections | scripts/analyze_ndjson.py:19-29 | The inner loop updates the tallies as counting the detections in order does |
| NdjsonAnalysis.Analyze | scripts/analyze_ndjson.py:6-29 | The loop over the lines gives the specified tallies |

## Left out

- Floating point: IoU, confidences and `bbox_norm` are exact reals, so float rounding is not modelled.
- Exceptions are not modelled:
  - `Gst.parse_launch` raising on a bad description;
  - `int()` of a track id that is not numeric;
  - `reshape` of a buffer whose size does not match the caps;
  - `json.loads` of a malformed line;
  - failure to open the output file.
- GStreamer is not modelled. What it answers to open and read is an environment value. A read with a non-blocking pull gets a finite script of poll-and-pull attempts.
- GstIngest.GstSource.Read: requires that the attempt script, when used, holds an ERROR or EOS or a sample. Against a library that never answers, the source loops forever, and the model does not cover that case.
- `bus.add_signal_watch` and the 5-second and 2-second timeouts are not modelled. A timeout appears only as a missing message or a missing sample.
- The pixel data of a frame is left out. A frame is its shape.
- `os.path.abspath` is left out. `GstIngest.ToFileUri` takes a path that is already absolute, and the existence of a file is an input.
- The DeepSORT library's own tracking (Kalman filter, appearance embedder, cascade matching) is left out. The tracks returned by `update_tracks` are an input.
- A DeepSORT track id is modelled as an integer, although the library may hand back a string that `int()` accepts.
- DeepSortAlignment.Update: the detection confidence is always present, so the `tconf` fallback on line 127 is never taken and is not modelled. The winner's confidence is therefore unused.
- The class name is modelled as a string, so `str(cls_name)` is the identity.
- JSON text is not modelled, neither `json.dumps` nor `ensure_ascii`. A written line is the record value itself.
- The record's `source` is modelled as a dictionary of strings. The code passes it through unchanged, whatever the types of its values, and the model does not capture values of other JSON types.
- Flushing is not modelled.
- The clock reading `_utc_now_iso()` is a parameter (`now`).
- In the analysis, the file reading is left out: opening, decoding with `errors='ignore'` and splitting into lines. Its input is the lines with the detections each one parses to. A track id is modelled as an integer.
- The analysis `print`s its report, and that output is left out. The model covers only the tallies.
- Python's `str.strip()` is modelled by its set of whitespace characters, so a line is blank when it consists only of those.
