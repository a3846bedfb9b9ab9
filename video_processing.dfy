/** The whole-video smoking verdict: sample one frame every five seconds,
    classify each sample, smooth the per-frame labels with a trailing window
    of five, and answer "Yes" when a strict majority of windows is positive;
    plus the in-memory job table that the upload endpoint and its background
    worker share. */
module VideoProcessing {
  import opened Wrappers
  import opened Text
  import opened Http

  datatype Label = Yes | No

  /** Why a job ends up "failed". */
  datatype VideoError =
    | CouldNotOpen        // the capture did not open (HTTP 400 raised inside the worker)
    | ZeroFrameInterval   // `frame_count % frame_interval` with a zero interval
    | UploadFailed        // reading or saving the upload raised

  const WindowSize: nat := 5

  /** Seconds between two samples. */
  const SampleSeconds: nat := 5

  /** The frame rate assumed when the capture reports none. */
  const FallbackFps: nat := 30

  function Abs(k: int): nat {
    if k < 0 then -k else k
  }

  /** Python's `int(x)` on a float: truncation toward zero. */
  function Trunc(x: real): (n: int)
    ensures x >= 0.0 ==> n as real <= x < n as real + 1.0
    ensures x < 0.0 ==> n as real - 1.0 < x <= n as real
  {
    if x >= 0.0 then x.Floor else -((-x).Floor)
  }

  /** `int(fps * 5)`, where a missing or zero rate counts as 30 fps. */
  function FrameInterval(fps: Option<real>): (k: int)
    ensures fps == None || fps == Some(0.0) ==> k == FallbackFps * SampleSeconds
    ensures fps.Some? && fps.value > 0.0 ==> k as real <= fps.value * 5.0 < k as real + 1.0
    ensures k == 0 <==> fps.Some? && fps.value != 0.0 && -0.2 < fps.value < 0.2
  {
    match fps
    case None => FallbackFps * SampleSeconds
    case Some(f) => if f == 0.0 then FallbackFps * SampleSeconds else Trunc(f * 5.0)
  }

  /** `s` holds the frames at positions 0, a, 2a, … of `frames`, and no more. */
  ghost predicate IsSampleOf<F>(s: seq<F>, frames: seq<F>, a: nat)
    requires a > 0
  {
    && |frames| <= |s| * a < |frames| + a
    && forall j :: 0 <= j < |s| ==> j * a < |frames| && s[j] == frames[j * a]
  }

  lemma MulLeCancel(x: int, y: int, a: int)
    requires a > 0 && x * a <= y * a
    ensures x <= y
  {
  }

  /** Euclidean division is unique. */
  lemma DivModUnique(i: int, d: int, q: int, r: int)
    requires d > 0 && i == d * q + r && 0 <= r < d
    ensures i / d == q && i % d == r
  {
    var q', r' := i / d, i % d;
    assert d * (q - q') == r' - r;
    if q > q' {
      MulLeCancel(1, q - q', d);
    } else if q < q' {
      MulLeCancel(1, q' - q, d);
    }
  }

  lemma ModAbs(i: int, k: int)
    requires k != 0
    ensures i % k == i % Abs(k)
  {
    if k < 0 {
      DivModUnique(i, -k, -(i / k), i % k);
    }
  }

  /** One step of the sampling count: `count` is sampled exactly when it is
      the next multiple of `a`. */
  lemma SampleStep(count: nat, m: nat, a: nat)
    requires a > 0 && count <= m * a < count + a
    ensures count % a == 0 ==> m * a == count && count / a == m
    ensures count % a != 0 ==> count + 1 <= m * a
  {
    var q := count / a;
    assert count == q * a + count % a;
    if count % a == 0 {
      MulLeCancel(q, m, a);
      if m > q {
        MulMono(q + 1, m, a);
      }
    } else if m * a == count {
      DivModUnique(count, a, m, 0);
    }
  }

  lemma MulMono(x: int, y: int, a: int)
    requires x <= y && a >= 0
    ensures x * a <= y * a
  {
  }

  /** Two samplings of the same video at the same interval agree. */
  lemma {:induction false} SampleUnique<F>(s1: seq<F>, s2: seq<F>, frames: seq<F>, a: nat)
    requires a > 0 && IsSampleOf(s1, frames, a) && IsSampleOf(s2, frames, a)
    ensures s1 == s2
  {
    MulLeCancel(|s1|, |s2| + 1, a);
    MulLeCancel(|s2|, |s1| + 1, a);
  }

  /** `sampled` holds the frames at positions 0, a, 2a, … below `count`. */
  ghost predicate SampledUpTo<F>(sampled: seq<F>, frames: seq<F>, count: nat, a: nat)
    requires a > 0
  {
    && count <= |frames|
    && count <= |sampled| * a < count + a
    && forall j :: 0 <= j < |sampled| ==> j * a < count && sampled[j] == frames[j * a]
  }

  /** One turn of the sampling loop keeps `SampledUpTo`. */
  lemma SampleNext<F>(sampled: seq<F>, frames: seq<F>, count: nat, k: int)
    requires k != 0 && SampledUpTo(sampled, frames, count, Abs(k)) && count < |frames|
    ensures count % k == 0 ==> SampledUpTo(sampled + [frames[count]], frames, count + 1, Abs(k))
    ensures count % k != 0 ==> SampledUpTo(sampled, frames, count + 1, Abs(k))
  {
    var a := Abs(k);
    ModAbs(count, k);
    SampleStep(count, |sampled|, a);
    if count % k == 0 {
      var s' := sampled + [frames[count]];
      forall j | 0 <= j < |s'| ensures j * a < count + 1 && s'[j] == frames[j * a] {
        if j == |sampled| {
          assert j * a == count;
        } else {
          assert s'[j] == sampled[j];
        }
      }
    }
  }

  /** A finished sampling holds every frame whose position `k` divides. */
  lemma SampleCovers<F>(sampled: seq<F>, frames: seq<F>, k: int, i: int)
    requires k != 0 && IsSampleOf(sampled, frames, Abs(k))
    requires 0 <= i < |frames| && i % k == 0
    ensures i / Abs(k) < |sampled| && sampled[i / Abs(k)] == frames[i]
  {
    var a := Abs(k);
    ModAbs(i, k);
    var q := i / a;
    assert i == q * a;
    if q >= |sampled| {
      MulMono(|sampled|, q, a);
    }
  }

  /** The sampling loop: keep frame `i` when `i % frame_interval == 0`. A zero
      interval raises on the first frame; a negative one keeps the multiples
      of its absolute value, as Python's `%` does. */
  method SampleFrames<F>(frames: seq<F>, k: int) returns (r: Result<seq<F>, VideoError>)
    ensures r.Failure? <==> k == 0 && frames != []
    ensures r.Failure? ==> r.error == ZeroFrameInterval
    ensures r.Success? ==> (r.value == [] <==> frames == [])
    ensures r.Success? && k != 0 ==> IsSampleOf(r.value, frames, Abs(k))
    ensures r.Success? && k != 0 ==>
              forall i :: 0 <= i < |frames| && i % k == 0 ==>
                i / Abs(k) < |r.value| && r.value[i / Abs(k)] == frames[i]
  {
    if frames == [] {
      return Success([]);
    }
    if k == 0 {
      return Failure(ZeroFrameInterval);
    }
    var sampled: seq<F> := [];
    var count := 0;
    while count < |frames|
      invariant SampledUpTo(sampled, frames, count, Abs(k))
    {
      SampleNext(sampled, frames, count, k);
      if count % k == 0 {
        sampled := sampled + [frames[count]];
      }
      count := count + 1;
    }
    forall i | 0 <= i < |frames| && i % k == 0
      ensures i / Abs(k) < |sampled| && sampled[i / Abs(k)] == frames[i]
    {
      SampleCovers(sampled, frames, k, i);
    }
    return Success(sampled);
  }

  /** A classifier reply as a frame label: "Yes" when the reply contains
      "yes" once stripped and lower-cased. The source's extra test that the
      reply is non-empty never changes the outcome. */
  function FrameLabel(result: Option<string>): Label {
    if result.Some? && result.value != [] && Contains(Lower(Strip(result.value)), "yes") then Yes
    else No
  }

  /** A frame is labelled "Yes" exactly when the classifier answered and its
      stripped, lower-cased reply contains "yes". */
  lemma FrameLabelMeaning(result: Option<string>)
    ensures FrameLabel(result) == Yes <==> result.Some? && Contains(Lower(Strip(result.value)), "yes")
  {
    if result.Some? && result.value == [] {
      assert Lower(Strip(result.value)) == [];
      EmptyContainsNothing("yes");
    }
  }

  /** The normalisation loop over the gathered classifier replies. */
  method NormaliseLabels(results: seq<Option<string>>) returns (labels: seq<Label>)
    ensures |labels| == |results|
    ensures forall i :: 0 <= i < |results| ==> labels[i] == FrameLabel(results[i])
  {
    labels := [];
    for i := 0 to |results|
      invariant |labels| == i
      invariant forall j :: 0 <= j < i ==> labels[j] == FrameLabel(results[j])
    {
      labels := labels + [FrameLabel(results[i])];
    }
  }

  /** `labels.count("Yes")` */
  function CountYes(ls: seq<Label>): nat {
    if ls == [] then 0
    else CountYes(ls[..|ls| - 1]) + (if ls[|ls| - 1] == Yes then 1 else 0)
  }

  /** The count is at most the length, zero exactly when no label is "Yes",
      and full exactly when every label is. */
  lemma {:induction false} CountYesBounds(ls: seq<Label>)
    ensures CountYes(ls) <= |ls|
    ensures CountYes(ls) == 0 <==> Yes !in ls
    ensures CountYes(ls) == |ls| <==> forall i :: 0 <= i < |ls| ==> ls[i] == Yes
  {
    if ls != [] {
      var init := ls[..|ls| - 1];
      CountYesBounds(init);
      assert ls == init + [ls[|ls| - 1]];
    }
  }

  lemma {:induction false} CountYesConcat(a: seq<Label>, b: seq<Label>)
    ensures CountYes(a + b) == CountYes(a) + CountYes(b)
    decreases |b|
  {
    if b == [] {
      assert a + b == a;
    } else {
      var init := b[..|b| - 1];
      assert (a + b)[..|a + b| - 1] == a + init;
      CountYesConcat(a, init);
    }
  }

  /** A window's label: "Yes" when more than half of its five labels are
      "Yes", that is, at least three of them. */
  function WindowLabel(w: seq<Label>): (l: Label)
    requires |w| == WindowSize
    ensures l == Yes <==> CountYes(w) >= 3
  {
    if 2 * CountYes(w) > WindowSize then Yes else No
  }

  /** The labels of the windows `labels[j..j + 5]`, one per position, the
      last one ending at the last label. */
  function Windows(labels: seq<Label>): seq<Label>
    decreases |labels|
  {
    if |labels| < WindowSize then []
    else Windows(labels[..|labels| - 1]) + [WindowLabel(labels[|labels| - WindowSize..])]
  }

  /** One window per position at which five labels fit. */
  lemma {:induction false} WindowsLength(labels: seq<Label>)
    ensures |Windows(labels)| == if |labels| < WindowSize then 0 else |labels| - WindowSize + 1
    decreases |labels|
  {
    if |labels| >= WindowSize {
      WindowsLength(labels[..|labels| - 1]);
    }
  }

  /** Window `j` is the label of `labels[j..j + 5]`. */
  lemma {:induction false} WindowAt(labels: seq<Label>, j: int)
    requires WindowSize <= |labels| && 0 <= j <= |labels| - WindowSize
    ensures |Windows(labels)| == |labels| - WindowSize + 1
    ensures Windows(labels)[j] == WindowLabel(labels[j..j + WindowSize])
    decreases |labels|
  {
    var n := |labels|;
    var init := labels[..n - 1];
    var earlier := Windows(init);
    var last := WindowLabel(labels[n - WindowSize..n]);
    WindowsLength(init);
    WindowsUnfold(labels);
    assert Windows(labels) == earlier + [last];
    if j < n - WindowSize {
      assert Windows(labels)[j] == earlier[j];
      WindowAt(init, j);
      PrefixSlice(labels, n - 1, j, j + WindowSize);
    } else {
      assert Windows(labels)[j] == last;
    }
  }

  /** Every window at once: one per position, each the label of the five
      labels from that position. */
  lemma WindowsPointwise(labels: seq<Label>)
    ensures |Windows(labels)| == if |labels| < WindowSize then 0 else |labels| - WindowSize + 1
    ensures forall j :: 0 <= j < |Windows(labels)| ==> Windows(labels)[j] == WindowLabel(labels[j..j + WindowSize])
  {
    WindowsLength(labels);
    forall j | 0 <= j < |Windows(labels)| ensures Windows(labels)[j] == WindowLabel(labels[j..j + WindowSize]) {
      WindowAt(labels, j);
    }
  }

  /** Unfolding `Windows` once: the windows of all but the last label, then
      the window ending at the last label. */
  lemma WindowsUnfold(labels: seq<Label>)
    requires |labels| >= WindowSize
    ensures Windows(labels) == Windows(labels[..|labels| - 1]) + [WindowLabel(labels[|labels| - WindowSize..|labels|])]
  {
    assert labels[|labels| - WindowSize..] == labels[|labels| - WindowSize..|labels|];
  }

  /** A slice of a prefix is the same slice of the whole. */
  lemma PrefixSlice<T>(s: seq<T>, m: int, lo: int, hi: int)
    requires 0 <= lo <= hi <= m <= |s|
    ensures s[..m][lo..hi] == s[lo..hi]
  {
  }

  /** When every label is `l`, so is every window. */
  lemma {:induction false} UniformWindows(labels: seq<Label>, l: Label)
    requires forall i :: 0 <= i < |labels| ==> labels[i] == l
    ensures forall j :: 0 <= j < |Windows(labels)| ==> Windows(labels)[j] == l
    decreases |labels|
  {
    if |labels| >= WindowSize {
      var init := labels[..|labels| - 1];
      var w := labels[|labels| - WindowSize..];
      UniformWindows(init, l);
      CountYesBounds(w);
      assert forall i :: 0 <= i < |w| ==> w[i] == l;
      if l == No {
        assert Yes !in w;
      }
      WindowsUnfold(labels);
    }
  }

  /** The start of the trailing window after `i` labels. */
  function WindowStart(i: nat): nat {
    if i < WindowSize then 0 else i - WindowSize
  }

  /** Receiving label `i` moves the trailing window on by one: the label is
      appended, and the oldest one drops out once five are held. */
  lemma SlideStep(labels: seq<Label>, i: nat)
    requires i < |labels|
    ensures labels[WindowStart(i + 1)..i + 1]
            == (if i - WindowStart(i) == WindowSize then labels[WindowStart(i)..i][1..] else labels[WindowStart(i)..i])
               + [labels[i]]
  {
  }

  /** One more label adds one window exactly when five labels are then
      held. */
  lemma WindowsStep(labels: seq<Label>, i: nat)
    requires i < |labels|
    ensures Windows(labels[..i + 1])
            == if i + 1 < WindowSize then Windows(labels[..i])
               else Windows(labels[..i]) + [WindowLabel(labels[WindowStart(i + 1)..i + 1])]
  {
    var read := labels[..i + 1];
    assert read[..i] == labels[..i];
    if i + 1 >= WindowSize {
      assert read[|read| - WindowSize..] == labels[WindowStart(i + 1)..i + 1];
    }
  }

  /** The trailing window: a `deque(maxlen=5)` that receives every label in
      turn and yields one window label each time it is full. */
  method SlidingWindows(labels: seq<Label>) returns (windows: seq<Label>)
    ensures |windows| == if |labels| < WindowSize then 0 else |labels| - WindowSize + 1
    ensures forall j :: 0 <= j < |windows| ==> windows[j] == WindowLabel(labels[j..j + WindowSize])
    ensures windows == Windows(labels)
  {
    var window: seq<Label> := [];
    windows := [];
    for i := 0 to |labels|
      invariant window == labels[WindowStart(i)..i]
      invariant windows == Windows(labels[..i])
    {
      SlideStep(labels, i);
      WindowsStep(labels, i);
      if |window| == WindowSize {
        window := window[1..] + [labels[i]];
      } else {
        window := window + [labels[i]];
      }
      if |window| == WindowSize {
        windows := windows + [WindowLabel(window)];
      }
    }
    assert labels[..|labels|] == labels;
    WindowsPointwise(labels);
  }

  /** The final vote: "Yes" when strictly more than half of the windows are
      "Yes"; a tie, and an empty list, give "No". */
  function Majority(ws: seq<Label>): (l: Label)
    ensures l == Yes <==> 2 * CountYes(ws) > |ws|
  {
    if ws == [] then No
    else if 2 * CountYes(ws) > |ws| then Yes else No
  }

  /** The verdict over the normalised frame labels. */
  function Aggregate(labels: seq<Label>): (v: Label)
    ensures |labels| < WindowSize ==> (v == Yes <==> Yes in labels)
    ensures |labels| >= WindowSize ==>
              (v == Yes <==> 2 * CountYes(Windows(labels)) > |labels| - WindowSize + 1)
  {
    if |labels| < WindowSize then (if Yes in labels then Yes else No)
    else
      WindowsLength(labels);
      Majority(Windows(labels))
  }

  /** `b` says "Yes" wherever `a` does. */
  ghost predicate Dominates(a: seq<Label>, b: seq<Label>) {
    |a| == |b| && forall i :: 0 <= i < |a| && a[i] == Yes ==> b[i] == Yes
  }

  lemma {:induction false} CountYesMonotone(a: seq<Label>, b: seq<Label>)
    requires Dominates(a, b)
    ensures CountYes(a) <= CountYes(b)
  {
    if a != [] {
      CountYesMonotone(a[..|a| - 1], b[..|b| - 1]);
    }
  }

  lemma {:induction false} WindowsMonotone(a: seq<Label>, b: seq<Label>)
    requires Dominates(a, b)
    ensures Dominates(Windows(a), Windows(b))
    decreases |a|
  {
    WindowsLength(a);
    WindowsLength(b);
    if |a| >= WindowSize {
      var n := |a|;
      var wa, wb := a[n - WindowSize..], b[n - WindowSize..];
      assert Dominates(a[..n - 1], b[..n - 1]);
      WindowsMonotone(a[..n - 1], b[..n - 1]);
      assert Dominates(wa, wb);
      CountYesMonotone(wa, wb);
      WindowsUnfold(a);
      WindowsUnfold(b);
      DominatesSnoc(Windows(a[..n - 1]), Windows(b[..n - 1]), WindowLabel(wa), WindowLabel(wb));
    }
  }

  lemma DominatesSnoc(a: seq<Label>, b: seq<Label>, x: Label, y: Label)
    requires Dominates(a, b) && (x == Yes ==> y == Yes)
    ensures Dominates(a + [x], b + [y])
  {
  }

  /** Turning "No" frame labels into "Yes" never turns a "Yes" verdict into
      "No". */
  lemma AggregateMonotone(a: seq<Label>, b: seq<Label>)
    requires Dominates(a, b)
    ensures Aggregate(a) == Yes ==> Aggregate(b) == Yes
  {
    if |a| >= WindowSize {
      WindowsMonotone(a, b);
      CountYesMonotone(Windows(a), Windows(b));
    } else if Aggregate(a) == Yes {
      var i :| 0 <= i < |a| && a[i] == Yes;
      assert b[i] == Yes;
    }
  }

  /** A slice holds no more "Yes" labels than the whole. */
  lemma {:induction false} SliceCountYes(labels: seq<Label>, lo: int, hi: int)
    requires 0 <= lo <= hi <= |labels|
    ensures CountYes(labels[lo..hi]) <= CountYes(labels)
  {
    var pre, mid, post := labels[..lo], labels[lo..hi], labels[hi..];
    assert labels[..hi] == pre + mid;
    assert labels == labels[..hi] + post;
    CountYesConcat(labels[..hi], post);
    CountYesConcat(pre, mid);
  }

  /** With five or more samples, a "Yes" verdict needs at least three "Yes"
      frames: some window must hold three. */
  lemma PositiveVerdictNeedsThreeYes(labels: seq<Label>)
    requires |labels| >= WindowSize && Aggregate(labels) == Yes
    ensures CountYes(labels) >= 3
  {
    var ws := Windows(labels);
    WindowsLength(labels);
    CountYesBounds(ws);
    var j :| 0 <= j < |ws| && ws[j] == Yes;
    WindowAt(labels, j);
    SliceCountYes(labels, j, j + WindowSize);
  }

  /** No "Yes" frame gives "No"; only "Yes" frames, at least one, give "Yes". */
  lemma UniformLabels(labels: seq<Label>)
    ensures Yes !in labels ==> Aggregate(labels) == No
    ensures labels != [] && No !in labels ==> Aggregate(labels) == Yes
  {
    if |labels| >= WindowSize {
      var ws := Windows(labels);
      WindowsLength(labels);
      if Yes !in labels {
        UniformWindows(labels, No);
        assert Yes !in ws;
        CountYesBounds(ws);
      }
      if No !in labels {
        UniformWindows(labels, Yes);
        CountYesBounds(ws);
      }
    } else if labels != [] && No !in labels {
      assert labels[0] == Yes;
    }
  }

  /** Worked case: fewer than five samples fall back to "any Yes", and no
      samples give "No". */
  lemma ShortRunVerdicts()
    ensures Aggregate([Yes, No, Yes]) == Yes
    ensures Aggregate([No, No, No, No]) == No
    ensures Aggregate([]) == No
  {
    assert [Yes, No, Yes][0] == Yes;
  }

  /** Worked case: seven "No" samples make three negative windows. */
  lemma SevenNegativeSamples()
    ensures Windows([No, No, No, No, No, No, No]) == [No, No, No]
    ensures Aggregate([No, No, No, No, No, No, No]) == No
  {
    var seven := [No, No, No, No, No, No, No];
    WindowsLength(seven);
    UniformWindows(seven, No);
    UniformLabels(seven);
  }

  /** Worked case: one positive and one negative window tie, and a tie is
      "No". */
  lemma TiedWindows()
    ensures Windows([Yes, Yes, Yes, No, No, No]) == [Yes, No]
    ensures Aggregate([Yes, Yes, Yes, No, No, No]) == No
  {
    var six := [Yes, Yes, Yes, No, No, No];
    assert six[0..5] == [Yes, Yes, Yes, No, No];
    assert six[1..6] == [Yes, Yes, No, No, No];
    CountYesConcat([Yes, Yes, Yes], [No, No]);
    CountYesConcat([Yes, Yes], [No, No, No]);
    CountYesBounds([Yes, Yes, Yes]);
    CountYesBounds([Yes, Yes]);
    CountYesBounds([No, No]);
    CountYesBounds([No, No, No]);
    assert [Yes, Yes, Yes] + [No, No] == six[0..5];
    assert [Yes, Yes] + [No, No, No] == six[1..6];
    WindowAt(six, 0);
    WindowAt(six, 1);
  }

  /** The labels of the sampled frames, classified one by one. */
  function LabelsOf<F>(sampled: seq<F>, classify: F -> Option<string>): seq<Label> {
    seq(|sampled|, i requires 0 <= i < |sampled| => FrameLabel(classify(sampled[i])))
  }

  /** What a detection run can end with: a capture that does not open
      fails; otherwise the run fails, on a zero interval, exactly when the
      video has frames and the interval is zero; an empty video is "No"; any
      other verdict is the aggregate of the labels of the sampled frames. */
  ghost predicate Detected<F(!new)>(isOpen: bool, fps: Option<real>, frames: seq<F>, classify: F -> Option<string>,
                              r: Result<Label, VideoError>)
  {
    && (!isOpen ==> r == Failure(CouldNotOpen))
    && (isOpen ==> (r.Failure? <==> FrameInterval(fps) == 0 && frames != []))
    && (isOpen && r.Failure? ==> r.error == ZeroFrameInterval)
    && (isOpen && frames == [] ==> r == Success(No))
    && (r.Success? && frames != [] ==>
          exists s :: IsSampleOf(s, frames, Abs(FrameInterval(fps))) && r.value == Aggregate(LabelsOf(s, classify)))
  }

  /** `process_video_smoking_detection`: open, sample, classify, normalise,
      smooth and vote. The capture is given by whether it isOpen, its reported
      frame rate and the frames it reads; the classifier by its reply to each
      frame (None when the call fails). */
  method DetectSmoking<F(!new)>(isOpen: bool, fps: Option<real>, frames: seq<F>, classify: F -> Option<string>)
    returns (r: Result<Label, VideoError>)
    ensures Detected(isOpen, fps, frames, classify, r)
  {
    if !isOpen {
      return Failure(CouldNotOpen);
    }
    var k := FrameInterval(fps);
    var sampling := SampleFrames(frames, k);
    if sampling.Failure? {
      return Failure(sampling.error);
    }
    var sampled := sampling.value;
    if sampled == [] {
      return Success(No);
    }
    var replies := seq(|sampled|, i requires 0 <= i < |sampled| => classify(sampled[i]));
    var labels := NormaliseLabels(replies);
    assert labels == LabelsOf(sampled, classify);
    if |labels| < WindowSize {
      return Success(if Yes in labels then Yes else No);
    }
    var windows := SlidingWindows(labels);
    assert windows != [];
    var positive := CountYes(windows);
    return Success(if 2 * positive > |windows| then Yes else No);
  }

  /** A record of the job table. */
  datatype Job = Processing | Completed(verdict: Label) | Failed(error: VideoError)

  /** The record the worker writes for the outcome of a detection. */
  function Resolve(outcome: Result<Label, VideoError>): (job: Job)
    ensures job != Processing
    ensures job.Completed? <==> outcome.Success?
    ensures outcome.Success? ==> job.verdict == outcome.value
    ensures outcome.Failure? ==> job.error == outcome.error
  {
    match outcome
    case Success(v) => Completed(v)
    case Failure(e) => Failed(e)
  }

  /** `job_results`: job id to record. */
  class JobStore {
    var jobs: map<string, Job>

    constructor ()
      ensures jobs == map[]
    {
      jobs := map[];
    }

    /** `detect_smoking_in_video`: record the new job as processing, then, if
        the upload could not be saved, as failed (and answer 500). */
    method Submit(id: string, saved: bool) returns (r: Result<string, VideoError>)
      modifies this
      ensures jobs == old(jobs)[id := if saved then Processing else Failed(UploadFailed)]
      ensures r == if saved then Success(id) else Failure(UploadFailed)
    {
      jobs := jobs[id := Processing];
      if !saved {
        jobs := jobs[id := Failed(UploadFailed)];
        return Failure(UploadFailed);
      }
      return Success(id);
    }

    /** `process_video_and_store_result`: run the detection and write its
        terminal record, leaving every other job alone. */
    method Run<F(!new)>(id: string, isOpen: bool, fps: Option<real>, frames: seq<F>, classify: F -> Option<string>)
      returns (outcome: Result<Label, VideoError>)
      modifies this
      ensures jobs == old(jobs)[id := Resolve(outcome)]
      ensures Detected(isOpen, fps, frames, classify, outcome)
    {
      outcome := DetectSmoking(isOpen, fps, frames, classify);
      jobs := jobs[id := Resolve(outcome)];
    }

    /** `get_detection_result`: the record, or 404 for an unknown id. */
    method Get(id: string) returns (r: Result<Job, HttpError>)
      ensures id !in jobs ==> r == Failure(NotFound)
      ensures id in jobs ==> r == Success(jobs[id])
    {
      if id !in jobs {
        return Failure(NotFound);
      }
      return Success(jobs[id]);
    }
  }

  /** A submitted job reads "processing" until its worker has run, and then
      holds exactly the terminal record for the detection outcome. */
  method JobLifecycle<F(!new)>(id: string, isOpen: bool, fps: Option<real>, frames: seq<F>, classify: F -> Option<string>)
    returns (before: Result<Job, HttpError>, after: Result<Job, HttpError>, outcome: Result<Label, VideoError>)
    ensures before == Success(Processing)
    ensures after == Success(Resolve(outcome)) && after.value != Processing
    ensures Detected(isOpen, fps, frames, classify, outcome)
  {
    var store := new JobStore();
    var submitted := store.Submit(id, true);
    before := store.Get(id);
    outcome := store.Run(id, isOpen, fps, frames, classify);
    after := store.Get(id);
  }
}
