/** The two frame-ingestion loops of the streaming router, each as a method
    that consumes a finite sequence of abstract inputs observed in order.
    The video capture, the image codecs and the classifier are inputs: a read
    yields a frame (its JPEG bytes), the end of the stream, or an exception; a
    received message carries the text, whether its payload decoded to an
    image, the classifier's reply and the flags the loop looks at. Clock
    readings are integers. */
module Ingestion {
  import opened Wrappers
  import opened Text
  import opened StreamHelpers

  /** A frame, as the JPEG bytes kept for the MJPEG view. */
  type Jpeg = seq<byte>

  // ---------------------------------------------------------------------
  // Pull loop: `process_video_stream_from_url`
  // ---------------------------------------------------------------------

  /** What `cap.read()` gave. */
  datatype ReadResult = Frame(jpeg: Jpeg) | EndOfStream | ReadRaised(message: string)

  /** One turn of the loop: the `live` flag seen by the loop test, the read,
      the clock reading after it, the number of subscribers at that moment
      and the `closing` flag seen at the end of the turn. */
  datatype Tick = Tick(live: bool, read: ReadResult, at: int, subscribers: nat, closing: bool)

  /** Why the loop stopped. */
  datatype PullEnd = NotLive | ReadFailed | ClosingSeen | Crashed(message: string)

  /** A detection task started for frame number `frame` at time `at`. */
  datatype Dispatch = Dispatch(frame: nat, at: int)

  /** A turn after which the loop goes on. */
  predicate Continues(t: Tick) {
    t.live && t.read.Frame? && !t.closing
  }

  /** The sampling gate: someone is subscribed and the interval has passed
      since the last dispatch. */
  predicate Gate(t: Tick, last: int, interval: int) {
    t.subscribers > 0 && t.at - last >= interval
  }

  /** `last_detection_time` after the frames of `ts`: 0 before any dispatch. */
  ghost function LastDispatch(ts: seq<Tick>, interval: int): int {
    if ts == [] then 0
    else
      var prev := LastDispatch(ts[..|ts| - 1], interval);
      var t := ts[|ts| - 1];
      if t.read.Frame? && Gate(t, prev, interval) then t.at else prev
  }

  /** The turn that ends the loop, or `|ticks|` when every turn goes on. */
  function FirstStop(ticks: seq<Tick>): (k: nat)
    ensures k <= |ticks|
    ensures forall i :: 0 <= i < k ==> Continues(ticks[i])
    ensures k < |ticks| ==> !Continues(ticks[k])
  {
    if ticks == [] || !Continues(ticks[0]) then 0
    else 1 + FirstStop(ticks[1..])
  }

  /** The reason the loop gives for stopping at turn `k`. Running out of
      turns is the capture reporting no further frame. */
  function EndAt(ticks: seq<Tick>, k: nat): PullEnd
    requires k <= |ticks|
  {
    if k == |ticks| then ReadFailed
    else if !ticks[k].live then NotLive
    else match ticks[k].read
      case EndOfStream => ReadFailed
      case ReadRaised(m) => Crashed(m)
      case Frame(_) => ClosingSeen
  }

  lemma FirstStopIs(ticks: seq<Tick>, k: nat)
    requires k <= |ticks|
    requires forall i :: 0 <= i < k ==> Continues(ticks[i])
    requires k < |ticks| ==> !Continues(ticks[k])
    ensures FirstStop(ticks) == k
  {
  }

  /** The detections the loop dispatches over the frames `ts`, in order. */
  ghost function Dispatches(ts: seq<Tick>, interval: int): seq<Dispatch> {
    if ts == [] then []
    else
      var init := ts[..|ts| - 1];
      var t := ts[|ts| - 1];
      var prior := Dispatches(init, interval);
      if t.read.Frame? && Gate(t, LastDispatch(init, interval), interval)
      then prior + [Dispatch(|ts|, t.at)] else prior
  }

  /** What the dispatch list means: frame numbers are in range and strictly
      increasing, each carries its frame's clock reading, and a frame is
      dispatched exactly when the gate was open for it. */
  ghost predicate DispatchFacts(ts: seq<Tick>, interval: int, ds: seq<Dispatch>) {
    && (forall d :: 0 <= d < |ds| ==> 1 <= ds[d].frame <= |ts| && ds[d].at == ts[ds[d].frame - 1].at)
    && (forall a, b :: 0 <= a < b < |ds| ==> ds[a].frame < ds[b].frame)
    && (forall j :: 0 <= j < |ts| && ts[j].read.Frame? ==>
          (Dispatch(j + 1, ts[j].at) in ds <==> Gate(ts[j], LastDispatch(ts[..j], interval), interval)))
  }

  lemma {:induction false} DispatchesMeaning(ts: seq<Tick>, interval: int)
    ensures DispatchFacts(ts, interval, Dispatches(ts, interval))
  {
    if ts != [] {
      var init := ts[..|ts| - 1];
      DispatchesMeaning(init, interval);
      var ds := Dispatches(ts, interval);
      var prior := Dispatches(init, interval);
      forall j | 0 <= j < |ts| && ts[j].read.Frame?
        ensures Dispatch(j + 1, ts[j].at) in ds <==> Gate(ts[j], LastDispatch(ts[..j], interval), interval)
      {
        if j < |init| {
          assert init[j] == ts[j] && init[..j] == ts[..j];
          assert Dispatch(j + 1, ts[j].at) in ds <==> Dispatch(j + 1, ts[j].at) in prior;
        } else {
          assert ts[..j] == init;
          assert Dispatch(j + 1, ts[j].at) !in prior;
        }
      }
    }
  }

  /** The main loop of the URL stream task. Every successful read is counted,
      written to the recording and kept as the latest frame; a detection is
      dispatched for it when the gate opens, and the gate time moves on. */
  method PullLoop(ticks: seq<Tick>, interval: int)
    returns (frameCount: nat, written: seq<Jpeg>, latest: Option<Jpeg>,
             dispatched: seq<Dispatch>, end: PullEnd)
    ensures frameCount == |written| <= |ticks|
    ensures forall j :: 0 <= j < |written| ==> ticks[j].live && ticks[j].read == Frame(written[j])
    ensures var k := FirstStop(ticks);
            |written| == (if k < |ticks| && ticks[k].live && ticks[k].read.Frame? then k + 1 else k)
            && end == EndAt(ticks, k)
    ensures latest == if written == [] then None else Some(written[|written| - 1])
    ensures dispatched == Dispatches(ticks[..|written|], interval)
  {
    frameCount, written, latest, dispatched, end := 0, [], None, [], ReadFailed;
    var last := 0;
    var i := 0;
    while i < |ticks|
      invariant 0 <= i <= |ticks|
      invariant forall j :: 0 <= j < i ==> Continues(ticks[j])
      invariant frameCount == |written| == i
      invariant forall j :: 0 <= j < i ==> ticks[j].live && ticks[j].read == Frame(written[j])
      invariant latest == if written == [] then None else Some(written[|written| - 1])
      invariant last == LastDispatch(ticks[..i], interval)
      invariant dispatched == Dispatches(ticks[..i], interval)
    {
      var t := ticks[i];
      if !t.live || !t.read.Frame? {
        end := if !t.live then NotLive else if t.read.EndOfStream? then ReadFailed else Crashed(t.read.message);
        break;
      }
      frameCount := frameCount + 1;
      written := written + [t.read.jpeg];
      latest := Some(t.read.jpeg);
      assert ticks[..i + 1][..i] == ticks[..i];
      if Gate(t, last, interval) {
        last := t.at;
        dispatched := dispatched + [Dispatch(frameCount, t.at)];
      }
      if t.closing {
        end := ClosingSeen;
        FirstStopIs(ticks, i);
        i := i + 1;
        break;
      }
      i := i + 1;
    }
    if end != ClosingSeen {
      FirstStopIs(ticks, i);
    }
  }

  /** The gate time never moves back when the interval is not negative. */
  lemma {:induction false} LastDispatchGrows(ts: seq<Tick>, n: nat, interval: int)
    requires interval >= 0 && n <= |ts|
    ensures LastDispatch(ts[..n], interval) <= LastDispatch(ts, interval)
    decreases |ts|
  {
    if n < |ts| {
      var init := ts[..|ts| - 1];
      assert init[..n] == ts[..n];
      LastDispatchGrows(init, n, interval);
    } else {
      assert ts[..n] == ts;
    }
  }

  /** Two detections dispatched by the pull loop are at least `interval`
      apart in time (for a non-negative interval). */
  lemma DispatchSpacing(ts: seq<Tick>, interval: int, a: nat, b: nat)
    requires interval >= 0 && a < b < |ts|
    requires ts[a].read.Frame? && Gate(ts[a], LastDispatch(ts[..a], interval), interval)
    requires Gate(ts[b], LastDispatch(ts[..b], interval), interval)
    ensures ts[b].at - ts[a].at >= interval
  {
    assert ts[..a + 1][..a] == ts[..a];
    assert LastDispatch(ts[..a + 1], interval) == ts[a].at;
    assert ts[..b][..a + 1] == ts[..a + 1];
    LastDispatchGrows(ts[..b], a + 1, interval);
  }

  /** `last_detection_time` starts at 0: until the first dispatch, a frame
      with a subscriber is sampled exactly when its clock reading is at least
      the interval. */
  lemma {:induction false} FirstDispatchFromZero(ts: seq<Tick>, interval: int, j: nat)
    requires j < |ts|
    requires forall i :: 0 <= i < j ==> !(ts[i].read.Frame? && Gate(ts[i], 0, interval))
    ensures LastDispatch(ts[..j], interval) == 0
    ensures Gate(ts[j], LastDispatch(ts[..j], interval), interval) <==>
              ts[j].subscribers > 0 && ts[j].at >= interval
  {
    if j > 0 {
      assert ts[..j][..j - 1] == ts[..j - 1];
      FirstDispatchFromZero(ts, interval, j - 1);
    }
  }

  // ---------------------------------------------------------------------
  // Push loop: `websocket_endpoint`
  // ---------------------------------------------------------------------

  /** Seconds between two classifier calls in the push loop. */
  const CheckSeconds := 5

  /** How broadcasting a verdict went: every send succeeded; a send raised an
      exception that the loop body's generic handler swallows; or a send
      raised `WebSocketDisconnect`, which the loop body re-raises. */
  datatype Announcement = Delivered | Raised | SubscriberGone

  /** One received text message: the text, the image its base64 part decodes
      to (none when decoding fails), the clock after decoding, the
      classifier's reply, how broadcasting the verdict went, the `closing`
      flag and whether the recorder could be created at this frame. */
  datatype Incoming = Incoming(text: string, image: Option<Jpeg>, at: int, reply: Option<string>,
                               broadcast: Announcement, closing: bool, writerOk: bool)

  /** What became of a message. `BroadcastFailed` skips the frame;
      `DisconnectRaised` ends the loop through the endpoint's
      `WebSocketDisconnect` handler, as a client leaving does. */
  datatype Fate = NoComma | Undecodable | BroadcastFailed | DisconnectRaised | Stopped | WriterFailed | Written

  /** The fates after which the loop takes no further message. */
  predicate Ends(f: Fate) {
    f == Stopped || f == DisconnectRaised
  }

  /** One message's record: whether the classifier was consulted, the reply
      it gave (whose normalised verdict is then broadcast), and the message's
      fate. */
  datatype Step = Step(checked: bool, reply: Option<string>, fate: Fate)

  /** Why the push loop ended: a `WebSocketDisconnect` (the client went
      away, so the input ran out, or a broadcast raised it), or the
      server-side `closing` flag was seen. */
  datatype PushEnd = Disconnected | ClosedByServer

  /** `"," in data`: for a one-character needle, substring search is
      membership. */
  predicate HasComma(m: Incoming) {
    ',' in m.text
  }

  predicate Decodes(m: Incoming) {
    HasComma(m) && m.image.Some?
  }

  /** What the push loop does with message `m`, given `last_checked` and
      whether the recorder is already open: each clause names one branch. */
  ghost predicate StepFacts(m: Incoming, lastChecked: int, writerOpen: bool, s: Step) {
    && (s.fate == NoComma <==> !HasComma(m))
    && (s.fate == Undecodable <==> HasComma(m) && m.image.None?)
    && (s.checked <==> Decodes(m) && m.at - lastChecked >= CheckSeconds)
    && s.reply == (if s.checked then m.reply else None)
    && (s.fate == BroadcastFailed <==> s.reply.Some? && m.broadcast == Raised)
    && (s.fate == DisconnectRaised <==> s.reply.Some? && m.broadcast == SubscriberGone)
    && (s.fate == Stopped <==> Decodes(m) && (s.reply.None? || m.broadcast == Delivered) && m.closing)
    && (s.fate == WriterFailed <==>
          Decodes(m) && (s.reply.None? || m.broadcast == Delivered) && !m.closing && !writerOpen && !m.writerOk)
  }

  /** The decision the loop body takes for one message. */
  function StepOf(m: Incoming, lastChecked: int, writerOpen: bool): Step
  {
    if !HasComma(m) then Step(false, None, NoComma)
    else if m.image.None? then Step(false, None, Undecodable)
    else
      var checked := m.at - lastChecked >= CheckSeconds;
      var reply := if checked then m.reply else None;
      var fate :=
        if reply.Some? && m.broadcast == Raised then BroadcastFailed
        else if reply.Some? && m.broadcast == SubscriberGone then DisconnectRaised
        else if m.closing then Stopped
        else if !writerOpen && !m.writerOk then WriterFailed
        else Written;
      Step(checked, reply, fate)
  }

  /** The verdict broadcast for a step: the classifier's reply, normalised. */
  function Announced(s: Step): Option<string> {
    if s.reply.Some? then Some(NormaliseVerdict(s.reply.value)) else None
  }

  /** The decision follows the branches of the loop body. */
  lemma StepOfMeaning(m: Incoming, lastChecked: int, writerOpen: bool)
    ensures StepFacts(m, lastChecked, writerOpen, StepOf(m, lastChecked, writerOpen))
  {
  }

  /** The loop's variables after it has taken every message of a sequence. */
  datatype PushState = PushState(steps: seq<Step>, lastChecked: int, writerOpen: bool, written: seq<Jpeg>)

  /** The loop variables after one more message. */
  function Advance(p: PushState, m: Incoming): PushState {
    var s := StepOf(m, p.lastChecked, p.writerOpen);
    PushState(p.steps + [s],
              if s.checked then m.at else p.lastChecked,
              p.writerOpen || s.fate == Written,
              if s.fate == Written && m.image.Some? then p.written + [m.image.value] else p.written)
  }

  /** The push loop's variables after the first `n` messages of `ms`, from
      `last_checked == start` and no recorder. */
  ghost function Replay(start: int, ms: seq<Incoming>, n: nat): PushState
    requires n <= |ms|
  {
    if n == 0 then PushState([], start, false, [])
    else Advance(Replay(start, ms, n - 1), ms[n - 1])
  }

  /** What each recorded step means, branch by branch. */
  lemma ReplayMeaning(start: int, ms: seq<Incoming>, n: nat)
    requires n <= |ms|
    ensures |Replay(start, ms, n).steps| == n
    ensures forall j {:trigger Replay(start, ms, n).steps[j]} :: 0 <= j < n ==>
              StepFacts(ms[j], Replay(start, ms, j).lastChecked, Replay(start, ms, j).writerOpen,
                        Replay(start, ms, n).steps[j])
  {
    ReplaySteps(start, ms, n);
    forall j | 0 <= j < n
      ensures StepFacts(ms[j], Replay(start, ms, j).lastChecked, Replay(start, ms, j).writerOpen,
                        Replay(start, ms, n).steps[j])
    {
      StepOfMeaning(ms[j], Replay(start, ms, j).lastChecked, Replay(start, ms, j).writerOpen);
    }
  }

  /** Step `j` of a replay is the decision taken in the state left by the
      messages before it. */
  lemma {:induction false} ReplaySteps(start: int, ms: seq<Incoming>, n: nat)
    requires n <= |ms|
    ensures |Replay(start, ms, n).steps| == n
    ensures forall j {:trigger Replay(start, ms, n).steps[j]} :: 0 <= j < n ==>
              Replay(start, ms, n).steps[j]
              == StepOf(ms[j], Replay(start, ms, j).lastChecked, Replay(start, ms, j).writerOpen)
  {
    if n > 0 {
      ReplaySteps(start, ms, n - 1);
      var p := Replay(start, ms, n - 1);
      assert Replay(start, ms, n).steps == p.steps + [StepOf(ms[n - 1], p.lastChecked, p.writerOpen)];
    }
  }

  /** The recorder is open exactly when some frame has been written. */
  lemma {:induction false} ReplayWriterOpen(start: int, ms: seq<Incoming>, n: nat)
    requires n <= |ms|
    ensures Replay(start, ms, n).writerOpen <==> Replay(start, ms, n).written != []
    ensures Replay(start, ms, n).written != [] <==>
              exists j :: 0 <= j < |Replay(start, ms, n).steps| && Replay(start, ms, n).steps[j].fate == Written
  {
    if n > 0 {
      ReplayWriterOpen(start, ms, n - 1);
      var p := Replay(start, ms, n - 1);
      var s := StepOf(ms[n - 1], p.lastChecked, p.writerOpen);
      var r := Replay(start, ms, n);
      ReplaySteps(start, ms, n - 1);
      assert r.steps == p.steps + [s];
      if s.fate == Written {
        assert r.steps[n - 1] == s;
      } else {
        assert forall j :: 0 <= j < |r.steps| && r.steps[j].fate == Written ==> j < |p.steps| && p.steps[j] == r.steps[j];
      }
    }
  }

  /** `steps` and `written` are what the push loop made of the first
      `|steps|` messages of `msgs`, and no step before the last one ended
      the loop. */
  ghost predicate PushRan(start: int, msgs: seq<Incoming>, steps: seq<Step>, written: seq<Jpeg>) {
    && |steps| <= |msgs|
    && steps == Replay(start, msgs, |steps|).steps
    && written == Replay(start, msgs, |steps|).written
    && forall j :: 0 <= j < |steps| - 1 ==> !Ends(steps[j].fate)
  }

  /** The receive loop of the WebSocket endpoint. Every message is counted
      before it is looked at; a message without a comma, or whose payload does
      not decode, is skipped; when five seconds have passed since the last
      check the classifier is consulted and a verdict announced; a failed
      announcement skips the frame, unless it raised `WebSocketDisconnect`,
      which ends the loop; the `closing` flag ends the loop before
      the frame is written; the recorder is created at the first frame that
      gets that far, and a failure to create it skips only that frame. */
  method PushLoop(msgs: seq<Incoming>, start: int)
    returns (frameCount: nat, steps: seq<Step>, written: seq<Jpeg>, latest: Option<Jpeg>, end: PushEnd)
    ensures frameCount == |steps| && PushRan(start, msgs, steps, written)
    ensures end == ClosedByServer <==> steps != [] && steps[|steps| - 1].fate == Stopped
    ensures |steps| < |msgs| ==> steps != [] && Ends(steps[|steps| - 1].fate)
    ensures latest == if written == [] then None else Some(written[|written| - 1])
  {
    frameCount, steps, written, latest, end := 0, [], [], None, Disconnected;
    var lastChecked := start;
    var writerOpen := false;
    var i := 0;
    while i < |msgs|
      invariant 0 <= i <= |msgs|
      invariant frameCount == |steps| == i
      invariant PushState(steps, lastChecked, writerOpen, written) == Replay(start, msgs, i)
      invariant forall j :: 0 <= j < i ==> !Ends(steps[j].fate)
      invariant latest == if written == [] then None else Some(written[|written| - 1])
    {
      var m := msgs[i];
      frameCount := frameCount + 1;
      var s := StepOf(m, lastChecked, writerOpen);
      if s.checked {
        lastChecked := m.at;
      }
      if s.fate == Written {
        writerOpen := true;
        written := written + [m.image.value];
        latest := Some(m.image.value);
      }
      steps := steps + [s];
      i := i + 1;
      if Ends(s.fate) {
        end := if s.fate == Stopped then ClosedByServer else Disconnected;
        break;
      }
    }
  }

  /** `last_checked` never moves back. */
  lemma {:induction false} LastCheckedGrows(start: int, ms: seq<Incoming>, a: nat, n: nat)
    requires a <= n <= |ms|
    ensures Replay(start, ms, a).lastChecked <= Replay(start, ms, n).lastChecked
    decreases n
  {
    if a < n {
      LastCheckedGrows(start, ms, a, n - 1);
    }
  }

  /** Two classifier calls of the push loop are at least five seconds apart. */
  lemma CheckSpacing(start: int, ms: seq<Incoming>, a: nat, b: nat)
    requires a < b < |ms|
    requires StepOf(ms[a], Replay(start, ms, a).lastChecked, Replay(start, ms, a).writerOpen).checked
    requires StepOf(ms[b], Replay(start, ms, b).lastChecked, Replay(start, ms, b).writerOpen).checked
    ensures ms[b].at - ms[a].at >= CheckSeconds
  {
    CheckedStamps(start, ms, a);
    LastCheckedGrows(start, ms, a + 1, b);
  }

  /** A message that consults the classifier becomes the new `last_checked`. */
  lemma CheckedStamps(start: int, ms: seq<Incoming>, a: nat)
    requires a < |ms|
    requires StepOf(ms[a], Replay(start, ms, a).lastChecked, Replay(start, ms, a).writerOpen).checked
    ensures Replay(start, ms, a + 1).lastChecked == ms[a].at
  {
    var p := Replay(start, ms, a);
    assert Replay(start, ms, a + 1) == Advance(p, ms[a]);
  }

  /** A message seen while the stream is closing is never written, and a
      recorder failure is a property of that message only: the same message
      would have been written had the recorder been created. */
  lemma ClosingAndWriterRetry(m: Incoming, lastChecked: int, writerOpen: bool)
    ensures m.closing ==> StepOf(m, lastChecked, writerOpen).fate != Written
    ensures StepOf(m, lastChecked, writerOpen).fate == WriterFailed ==>
              StepOf(m.(writerOk := true), lastChecked, writerOpen).fate == Written
  {
  }
}
