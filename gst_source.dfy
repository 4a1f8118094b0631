/**
 * The GStreamer frame source: the choice of pipeline description for a
 * locator, the file URI helper, and the open / read / release life cycle of
 * the three handles (pipeline, appsink, bus). GStreamer itself is an
 * environment: each call receives, as data, what the library would answer.
 */
module GstIngest {
  import opened Options

  // ---------------------------------------------------------------------------
  // Locators
  // ---------------------------------------------------------------------------

  /** Every backslash replaced by a forward slash, everything else kept. */
  function ReplaceBackslashes(s: string): (r: string)
    ensures |r| == |s|
    ensures forall i :: 0 <= i < |s| ==> r[i] == (if s[i] == '\\' then '/' else s[i])
    decreases |s|
  {
    if s == [] then []
    else
      var c := s[|s| - 1];
      ReplaceBackslashes(s[..|s| - 1]) + [if c == '\\' then '/' else c]
  }

  const FileScheme: string := "file:///"

  /**
   * The file URI of an absolute path (the caller makes the path absolute):
   * the scheme, then the path with every backslash turned into a slash.
   */
  function ToFileUri(absPath: string): (u: string)
    ensures |u| == |FileScheme| + |absPath| && u[..|FileScheme|] == FileScheme
    ensures forall i :: 0 <= i < |absPath| ==> u[|FileScheme| + i] == (if absPath[i] == '\\' then '/' else absPath[i])
    ensures forall i :: |FileScheme| <= i < |u| ==> u[i] != '\\'
  {
    FileScheme + ReplaceBackslashes(absPath)
  }

  /** Converting a second time changes nothing in the path part. */
  lemma ReplaceIdempotent(s: string)
    ensures ReplaceBackslashes(ReplaceBackslashes(s)) == ReplaceBackslashes(s)
  {
    var r := ReplaceBackslashes(s);
    var rr := ReplaceBackslashes(r);
    assert forall i :: 0 <= i < |r| ==> rr[i] == r[i];
  }

  const RtspPrefix: string := "rtsp://"

  predicate IsRtsp(path: string)
  {
    StartsWith(path, RtspPrefix)
  }

  /** The appsink every description ends in: unsynchronised, keeping only the newest buffer. */
  const AppsinkTail: string := "appsink name=sink sync=false drop=true max-buffers=1 emit-signals=false"

  const RtspHead: string := "rtspsrc location=\""
  const RtspBody: string := " latency=200 drop-on-late=true ! rtph264depay ! h264parse ! avdec_h264 ! videoconvert ! video/x-raw,format=BGR ! "
  const FileHead: string := "filesrc location=\""
  const FileBody: string := " ! qtdemux name=d d.video_0 ! queue ! h264parse ! avdec_h264 ! videoconvert ! video/x-raw,format=BGR ! "

  predicate StartsWith(s: string, p: string)
  {
    |p| <= |s| && s[..|p|] == p
  }

  predicate EndsWith(s: string, p: string)
  {
    |p| <= |s| && s[|s| - |p|..] == p
  }

  lemma ConcatEnds(a: string, b: string, c: string)
    ensures StartsWith(a + b + c, a) && EndsWith(a + b + c, c)
  {
    var d := a + b + c;
    assert d[..|a|] == a;
    assert d[|d| - |c|..] == c;
  }

  /**
   * The pipeline description for a locator. `fileExists` is what the file
   * system says of the path. An RTSP locator always gets the network
   * pipeline; any other locator gets the file pipeline when the file exists
   * and the empty description otherwise. The path is quoted as given.
   */
  function BuildPipelineDesc(path: string, fileExists: bool): (desc: string)
    ensures desc == "" <==> !IsRtsp(path) && !fileExists
    ensures IsRtsp(path) ==> StartsWith(desc, RtspHead + path + "\"")
    ensures !IsRtsp(path) && fileExists ==> StartsWith(desc, FileHead + path + "\"")
    ensures desc != "" ==> EndsWith(desc, AppsinkTail)
  {
    if IsRtsp(path) then
      var head := RtspHead + path + "\"";
      ConcatEnds(head, RtspBody, AppsinkTail);
      head + RtspBody + AppsinkTail
    else if !fileExists then ""
    else
      var head := FileHead + path + "\"";
      ConcatEnds(head, FileBody, AppsinkTail);
      head + FileBody + AppsinkTail
  }

  // ---------------------------------------------------------------------------
  // What GStreamer answers
  // ---------------------------------------------------------------------------

  /** An object handed out by the library. */
  datatype Handle = Handle(id: nat)

  /** The bus messages `open` waits for. */
  datatype Message = Error | Eos | StateChanged

  /** State changes asked of the pipeline. */
  datatype PipelineState = Playing | Null

  /**
   * The library's answers during `open`: whether the path exists, the object
   * the description parses to and whether it is a pipeline, the element
   * named "sink" if any, the bus, and the first message within 5 seconds
   * (None on timeout).
   */
  datatype OpenEnv = OpenEnv(
    pathExists: bool,
    parsed: Handle,
    isPipeline: bool,
    sink: Option<Handle>,
    bus: Handle,
    firstMessage: Option<Message>)

  /** A pulled sample: the width and height in its caps, and whether mapping its buffer succeeds. */
  datatype Sample = Sample(width: int, height: int, mapOk: bool)

  /** One poll-then-pull step: an ERROR or EOS pending on the bus, and what the 2-second pull returned. */
  datatype Attempt = Attempt(pending: bool, pulled: Option<Sample>)

  /**
   * The library's answers during `read`. With a non-blocking pull, one
   * attempt per pull; without it, the two quick polls and the blocking pull.
   */
  datatype ReadEnv =
    | TryPull(attempts: seq<Attempt>)
    | Blocking(firstPending: bool, secondPending: bool, blockPulled: Option<Sample>)

  /** An attempt that ends the polling loop: an ERROR or EOS, or a sample. */
  predicate Decisive(a: Attempt)
  {
    a.pending || a.pulled.Some?
  }

  /** A BGR frame: height rows of width pixels of three bytes. */
  datatype Frame = Frame(height: int, width: int, channels: int)

  /** A sample becomes an h by w by 3 frame when its buffer maps, and a failed read otherwise. */
  function FromSample(s: Sample): (r: (bool, Option<Frame>))
    ensures r.0 <==> s.mapOk
    ensures r.1.Some? <==> r.0
    ensures r.0 ==> r.1.value == Frame(s.height, s.width, 3)
  {
    if s.mapOk then (true, Some(Frame(s.height, s.width, 3))) else (false, None)
  }

  /** The outcome of the polling loop: the first decisive attempt settles it, an ERROR or EOS winning over a sample. */
  function PollOutcome(attempts: seq<Attempt>): (r: (bool, Option<Frame>))
    ensures r.1.Some? <==> r.0
    ensures r.0 ==> exists k :: 0 <= k < |attempts| && attempts[k].pulled.Some? && attempts[k].pulled.value.mapOk
    decreases |attempts|
  {
    if attempts == [] then (false, None)
    else if attempts[0].pending then (false, None)
    else if attempts[0].pulled.Some? then FromSample(attempts[0].pulled.value)
    else PollOutcome(attempts[1..])
  }

  /** An ERROR or EOS pending before any sample arrived fails the read. */
  lemma {:induction false} PendingFails(attempts: seq<Attempt>, k: nat)
    requires k < |attempts| && attempts[k].pending
    requires forall j :: 0 <= j < k ==> attempts[j].pulled.None?
    ensures PollOutcome(attempts) == (false, None)
    decreases k
  {
    if k > 0 && !attempts[0].pending {
      PendingFails(attempts[1..], k - 1);
    }
  }

  /** A sample pulled with no ERROR or EOS before it is the frame read. */
  lemma {:induction false} SampleWins(attempts: seq<Attempt>, k: nat)
    requires k < |attempts| && !attempts[k].pending && attempts[k].pulled.Some?
    requires forall j :: 0 <= j < k ==> !Decisive(attempts[j])
    ensures PollOutcome(attempts) == FromSample(attempts[k].pulled.value)
    decreases k
  {
    if k > 0 {
      SampleWins(attempts[1..], k - 1);
    }
  }

  /** The outcome of a guarded read against a given environment. */
  function ReadOutcome(env: ReadEnv): (r: (bool, Option<Frame>))
    ensures r.1.Some? <==> r.0
  {
    match env
    case TryPull(attempts) => PollOutcomeShape(attempts); PollOutcome(attempts)
    case Blocking(first, second, pulled) =>
      if first || second || pulled.None? then (false, None) else FromSample(pulled.value)
  }

  lemma {:induction false} PollOutcomeShape(attempts: seq<Attempt>)
    ensures PollOutcome(attempts).1.Some? <==> PollOutcome(attempts).0
    decreases |attempts|
  {
    if attempts != [] && !attempts[0].pending && attempts[0].pulled.None? {
      PollOutcomeShape(attempts[1..]);
    }
  }

  // ---------------------------------------------------------------------------
  // The source object
  // ---------------------------------------------------------------------------

  class GstSource {
    const path: string
    var pipeline: Option<Handle>
    var appsink: Option<Handle>
    var bus: Option<Handle>
    /** The state changes asked of the pipeline so far. */
    var requested: seq<PipelineState>

    predicate Ready()
      reads this
    {
      pipeline.Some? && appsink.Some? && bus.Some?
    }

    constructor (path: string)
      ensures this.path == path
      ensures pipeline.None? && appsink.None? && bus.None? && requested == []
    {
      this.path := path;
      pipeline, appsink, bus := None, None, None;
      requested := [];
    }

    /**
     * Fails on an empty description, on a parse result that is not a
     * pipeline, on a missing sink, or when the first message is ERROR or EOS;
     * succeeds on STATE_CHANGED or on timeout. A failure part-way leaves the
     * handles set so far in place.
     */
    method Open(env: OpenEnv) returns (ok: bool)
      modifies this
      ensures ok <==> (BuildPipelineDesc(path, env.pathExists) != "" && env.isPipeline && env.sink.Some? &&
                       env.firstMessage != Some(Error) && env.firstMessage != Some(Eos))
      ensures BuildPipelineDesc(path, env.pathExists) == "" ==>
        pipeline == old(pipeline) && appsink == old(appsink) && bus == old(bus) && requested == old(requested)
      ensures BuildPipelineDesc(path, env.pathExists) != "" ==> pipeline == Some(env.parsed)
      ensures BuildPipelineDesc(path, env.pathExists) != "" && env.isPipeline && env.sink.Some? ==>
        appsink == env.sink && bus == Some(env.bus) && requested == old(requested) + [Playing]
      ensures BuildPipelineDesc(path, env.pathExists) != "" && !(env.isPipeline && env.sink.Some?) ==>
        appsink == old(appsink) && bus == old(bus) && requested == old(requested)
      ensures ok ==> Ready()
    {
      var desc := BuildPipelineDesc(path, env.pathExists);
      if desc == "" {
        return false;
      }
      pipeline := Some(env.parsed);
      if !env.isPipeline {
        return false;
      }
      if env.sink.None? {
        return false;
      }
      appsink := env.sink;
      bus := Some(env.bus);
      requested := requested + [Playing];
      var msg := env.firstMessage;
      if msg == Some(Error) {
        return false;
      }
      if msg == Some(Eos) {
        return false;
      }
      return true;
    }

    /**
     * Unready handles give (false, None). Otherwise the bus is polled before
     * every pull and any pending ERROR or EOS gives (false, None); the
     * non-blocking pull is retried until a sample comes. The environment
     * must settle the retry loop: with a library that never answers, the
     * source waits forever.
     */
    method Read(env: ReadEnv) returns (ok: bool, frame: Option<Frame>)
      requires Ready() && env.TryPull? ==> exists k :: 0 <= k < |env.attempts| && Decisive(env.attempts[k])
      ensures !Ready() ==> !ok && frame.None?
      ensures Ready() ==> (ok, frame) == ReadOutcome(env)
      ensures ok <==> frame.Some?
    {
      if !Ready() {
        return false, None;
      }
      match env
      case TryPull(attempts) =>
        ghost var k :| 0 <= k < |attempts| && Decisive(attempts[k]);
        if attempts[0].pending {
          return false, None;
        }
        var sample := attempts[0].pulled;
        var i := 1;
        while sample.None?
          invariant 1 <= i <= |attempts|
          invariant i <= k + 1
          invariant forall j :: 0 <= j < i ==> !attempts[j].pending
          invariant forall j :: 0 <= j < i - 1 ==> attempts[j].pulled.None?
          invariant sample == attempts[i - 1].pulled
          invariant PollOutcome(attempts) == PollOutcome(attempts[i - 1..])
          decreases k + 1 - i
        {
          if attempts[i].pending {
            PollSkip(attempts, i);
            return false, None;
          }
          sample := attempts[i].pulled;
          PollSkip(attempts, i);
          i := i + 1;
        }
        ok, frame := MapSample(sample.value);
      case Blocking(first, second, pulled) =>
        if first {
          return false, None;
        }
        if second {
          return false, None;
        }
        if pulled.None? {
          return false, None;
        }
        ok, frame := MapSample(pulled.value);
    }

    /** Stops the pipeline if there is one, then clears all three handles; safe to repeat. */
    method Release()
      modifies this
      ensures pipeline.None? && appsink.None? && bus.None?
      ensures requested == old(requested) + (if old(pipeline).Some? then [Null] else [])
    {
      if pipeline.Some? {
        requested := requested + [Null];
      }
      pipeline, appsink, bus := None, None, None;
    }
  }

  /** Skipping an attempt that settled nothing does not change the outcome. */
  lemma PollSkip(attempts: seq<Attempt>, i: nat)
    requires 1 <= i < |attempts| && !Decisive(attempts[i - 1])
    ensures PollOutcome(attempts[i - 1..]) == PollOutcome(attempts[i..])
  {
    assert attempts[i - 1..][1..] == attempts[i..];
  }

  /** Mapping the sample's buffer into a frame of the size its caps give. */
  method MapSample(s: Sample) returns (ok: bool, frame: Option<Frame>)
    ensures (ok, frame) == FromSample(s)
  {
    if !s.mapOk {
      return false, None;
    }
    return true, Some(Frame(s.height, s.width, 3));
  }

  /**
   * A local path that does not exist: open fails before touching any handle,
   * read then fails without consulting the library, and release leaves
   * everything cleared.
   */
  method MissingFile(path: string, openEnv: OpenEnv, readEnv: ReadEnv) returns (openOk: bool, readOk: bool, cleared: bool)
    requires !IsRtsp(path) && !openEnv.pathExists
    ensures !openOk && !readOk && cleared
  {
    var src := new GstSource(path);
    openOk := src.Open(openEnv);
    var frame;
    readOk, frame := src.Read(readEnv);
    src.Release();
    src.Release();
    cleared := src.pipeline.None? && src.appsink.None? && src.bus.None? && src.requested == [];
  }
}
