# Smoking detection service: a Dafny model of its core

The service detects smoking in video with a vision-language classifier. This
project models two routers.

- **Batch video verdict** (`routers/video_processing.py`):
  - An uploaded video is sampled one frame every five seconds.
  - Each sample is classified and labelled "Yes" or "No".
  - The labels are smoothed with a trailing window of five.
  - The answer is "Yes" when a strict majority of windows is positive.
  - Uploads become jobs in an in-memory table that moves from "processing"
    to "completed" or "failed".
- **Live streams** (`routers/streaming.py`). A stream is a session in a
  registry keyed by a generated id. It is fed in one of two ways:
  - by a client that pushes frames over a WebSocket (the push loop);
  - by a server task that pulls frames from a URL (the pull loop).

  Subscribers get verdicts through a connection manager. Endpoints create,
  close, start, query and broadcast to streams. The latest frame of each
  stream is also served as an MJPEG part stream.

The Dafny modules follow this structure:

| module | file | what it holds |
|---|---|---|
| `Wrappers`, `Http` | `wrappers.dfy` | `Option`, `Result` and the HTTP errors 404, 400 and 500 |
| `Text` | `text.dfy` | Python's `strip`, `lower`, `in` and `replace` on strings |
| `VideoProcessing` | `video_processing.dfy` | the batch pipeline and the `JobStore` class (`job_results`) |
| `Connections` | `connections.dfy` | the `ConnectionManager` class and its pure specification |
| `StreamHelpers` | `stream_helpers.dfy` | verdict normalisation, URL classification and MJPEG framing |
| `Sessions` | `sessions.dfy` | a session record as a value, and the endpoint decisions on it |
| `Ingestion` | `ingestion.dfy` | the pull loop and the push loop, as methods over input sequences |
| `Sequencer` | `sequencer.dfy` | the ordered result sender (`ResultQueue`) and its corrected use |
| `Registry` | `registry.dfy` | the `StreamServer` class: the session registry, `last_frames` and the manager, updated by each endpoint |

How the state is modelled:

- Code that mutates state is a class whose methods are specified against
  pure functions. `job_results` becomes `JobStore`, `active_connections`
  becomes `ConnectionManager`, and the result queue becomes `ResultQueue`.
  `stream_sessions`, `last_frames` and the manager together become
  `StreamServer`.
- Each loop of the source is a method with a loop, proved against a
  recursive specification function: `SampleFrames`, `NormaliseLabels`,
  `SlidingWindows`, `BroadcastJson`, `PullLoop`, `PushLoop` and `Flush`.
- The capture, the image codecs, the classifier, the HLS page resolver,
  `uuid4` and `time.time()` are all parameters.
  - A capture is the sequence of its reads.
  - A classifier is its reply to each frame, or `None`.
  - Clock readings are integers.

Three behaviours of the code that the model keeps as they are:

- `broadcast_json` sends to the sockets in order and stops at the first one
  whose send raises. The remaining sockets get nothing, and the failed socket
  stays registered.
- `start_stream` sets `live` on any session that is not live, so it reopens
  a closed stream.
- The push loop ends on `closing` without unregistering its socket.

## Model

| member | source | states |
|---|---|---|
| Text.TrimStartMeaning | routers/streaming.py:479 | `lstrip` removes exactly the leading whitespace: the result is a suffix, the removed part is all whitespace, and the result does not start with whitespace |
| Text.TrimEndMeaning | routers/streaming.py:479 | `rstrip` removes exactly the trailing whitespace, the mirror image of the above |
| Text.StripSlice | routers/streaming.py:479 | `strip()` returns a contiguous slice of its input with only whitespace on either side of it |
| Text.StripEnds | routers/streaming.py:479 | a stripped string neither starts nor ends with whitespace, and it is empty exactly when the input was all whitespace |
| Text.Lower | routers/streaming.py:479 | `lower()` keeps the length and lowers each character independently |
| Text.ContainsIff | routers/streaming.py:481 | `p in s` holds exactly when `p` occurs at some position of `s` |
| Text.RemoveAll | routers/streaming.py:527 | `replace(p, '')` never lengthens the string |
| Text.RemoveAllAbsent | routers/streaming.py:527 | `replace(p, '')` leaves a string without `p` unchanged |
| Text.ContainsNeedsRoom | routers/streaming.py:527 | a string contains `p` only if it is at least as long as `p` |
| Text.RemoveAllShrinks | routers/streaming.py:527 | when `p` occurs, `replace(p, '')` shortens the string by at least `len(p)` |
| Text.KeptBefore | routers/streaming.py:527 | the characters before the first occurrence of `p` are kept, in order, in front of the removal over the rest |
| Text.RemoveAllLeftmost | routers/streaming.py:527 | the leftmost occurrence of `p` is removed, everything before it is kept, and the removal continues right after it |
| StreamHelpers.NormaliseVerdictMeaning | routers/streaming.py:479-486 | the verdict is "Yes" if and only if the stripped, lower-cased reply contains "yes"; "No" if and only if it contains "no" but not "yes"; otherwise it is the stripped reply |
| StreamHelpers.PageUrl | routers/streaming.py:527 | a non-`blob:` URL is passed to the resolver unchanged, and the page URL is shorter than the input exactly when the input starts with `blob:` |
| StreamHelpers.BlobPrefixDropped | routers/streaming.py:527 | for `blob:` followed by an address that does not mention `blob:` again, the page URL is that address |
| StreamHelpers.EveryBlobDropped | routers/streaming.py:527 | `replace` removes every `blob:`, not only the scheme: a `blob:` URL that mentions `blob:` once more loses both occurrences |
| StreamHelpers.ActualUrl | routers/streaming.py:524-530 | the capture opens a URL other than the given one only when that URL needed resolving and the resolver, asked about its page URL, returned that other URL; a non-empty answer for the page URL is always used |
| StreamHelpers.OtherSchemesOpenedAsGiven | routers/streaming.py:524 | an address that is neither `blob:` nor http(s), such as rtsp, is opened as given, whatever the resolver would answer |
| StreamHelpers.BlobAddressResolved | routers/streaming.py:524-530 | a `blob:` URL whose address does not mention `blob:` again is resolved by asking about that address; a non-empty answer is opened, and otherwise the `blob:` URL itself |
| StreamHelpers.BoundaryLineSpellsBoundary | routers/streaming.py:1313-1325 | each part's first line is `--`, then the boundary declared in the media type, then CRLF |
| StreamHelpers.MjpegPart | routers/streaming.py:1313-1314 | a part is the frame plus a fixed header and a CRLF |
| StreamHelpers.MjpegRoundTrip | routers/streaming.py:1313-1314 | parsing a part gives back exactly the JPEG bytes it framed |
| StreamHelpers.PartOpensWithBoundary | routers/streaming.py:1313 | every part opens with the boundary line |
| VideoProcessing.Trunc | routers/video_processing.py:43 | `int()` truncates toward zero, within one unit of the real value |
| VideoProcessing.FrameInterval | routers/video_processing.py:39-43 | a missing or zero rate gives 150 frames; a positive rate gives the floor of five seconds' worth of frames; the interval is zero exactly for a non-zero rate strictly between -0.2 and 0.2 |
| VideoProcessing.SampleNext | routers/video_processing.py:52-55 | one turn of the sampling loop keeps "the samples so far are frames 0, a, 2a, … below the counter" |
| VideoProcessing.SampleCovers | routers/video_processing.py:52-53 | every frame whose position the interval divides is among the samples, at its quotient |
| VideoProcessing.SampleUnique | routers/video_processing.py:47-55 | the sampling of a video at a given interval is unique |
| VideoProcessing.SampleFrames | routers/video_processing.py:47-55 | the loop fails (a Python `ZeroDivisionError`) exactly for a zero interval on a non-empty video; otherwise it keeps frames 0, abs(k), 2·abs(k), … and nothing else, including for a negative interval, as Python's `%` does |
| VideoProcessing.FrameLabelMeaning | routers/video_processing.py:73-77 | a reply is labelled "Yes" exactly when there is one and its stripped, lower-cased form contains "yes"; the extra non-empty test makes no difference |
| VideoProcessing.NormaliseLabels | routers/video_processing.py:72-77 | the loop labels every reply in order |
| VideoProcessing.CountYesBounds | routers/video_processing.py:102 | `count("Yes")` is at most the length; it is zero exactly when no label is "Yes" and full exactly when all are |
| VideoProcessing.CountYesConcat | routers/video_processing.py:102 | the count adds up over concatenation |
| VideoProcessing.WindowLabel | routers/video_processing.py:91-96 | a window of five is "Yes" exactly when it holds at least three "Yes" labels (`yes_count / 5 > 0.5`) |
| VideoProcessing.WindowsLength | routers/video_processing.py:88-96 | there is one window per position at which five labels fit |
| VideoProcessing.WindowAt | routers/video_processing.py:88-96 | window `j` is the label of `labels[j..j+5]` |
| VideoProcessing.WindowsPointwise | routers/video_processing.py:88-96 | every window at once: one per position at which five labels fit, each the label of the five labels from that position |
| VideoProcessing.UniformWindows | routers/video_processing.py:88-96 | when every frame label is the same, every window carries that label |
| VideoProcessing.SlidingWindows | routers/video_processing.py:84-96 | the deque loop yields, in order, exactly one label per full trailing window |
| VideoProcessing.Majority | routers/video_processing.py:98-106 | the final vote is "Yes" exactly when more than half of the windows are "Yes"; a tie or no windows gives "No" |
| VideoProcessing.Aggregate | routers/video_processing.py:80-106 | fewer than five labels give "any Yes"; otherwise a strict majority of positive windows |
| VideoProcessing.CountYesMonotone | routers/video_processing.py:91-93 | more "Yes" labels position by position never lowers the count |
| VideoProcessing.SliceCountYes | routers/video_processing.py:91 | a slice holds no more "Yes" labels than the whole |
| VideoProcessing.WindowsMonotone | routers/video_processing.py:88-96 | turning frame labels to "Yes" never turns a window to "No" |
| VideoProcessing.AggregateMonotone | routers/video_processing.py:80-106 | turning frame labels to "Yes" never turns a "Yes" verdict to "No" |
| VideoProcessing.PositiveVerdictNeedsThreeYes | routers/video_processing.py:88-106 | with five or more samples, a "Yes" verdict needs at least three "Yes" frames |
| VideoProcessing.UniformLabels | routers/video_processing.py:80-106 | no "Yes" frame gives "No"; only "Yes" frames, at least one, give "Yes" |
| VideoProcessing.ShortRunVerdicts | routers/video_processing.py:80-82 | worked cases of the short-video rule |
| VideoProcessing.SevenNegativeSamples | routers/video_processing.py:84-106 | seven "No" samples make three negative windows and a "No" verdict |
| VideoProcessing.TiedWindows | routers/video_processing.py:101-106 | one positive and one negative window tie, and a tie is "No" |
| VideoProcessing.DetectSmoking | routers/video_processing.py:21-106 | a capture that does not open fails; otherwise the run fails exactly for a zero interval on a non-empty video; an empty video gives "No"; any other verdict is the aggregate of the labels of the sampling at the interval |
| VideoProcessing.Resolve | routers/video_processing.py:113-117 | the worker's record is terminal: completed with the verdict on success, failed with the error otherwise |
| VideoProcessing.JobStore.constructor | routers/video_processing.py:18 | the job table starts empty |
| VideoProcessing.JobStore.Submit | routers/video_processing.py:134-153 | the job is recorded as processing, or as failed when the upload could not be saved (answered with 500); no other job changes |
| VideoProcessing.JobStore.Run | routers/video_processing.py:109-117 | the worker runs the detection on the job's video and writes exactly the terminal record of its outcome: "failed" with the open error or the zero-interval error in the cases `DetectSmoking` fails, otherwise "completed" with the aggregate of the sampled labels; no other job changes |
| VideoProcessing.JobStore.Get | routers/video_processing.py:161-165 | an unknown job is a 404; a known one returns its record |
| VideoProcessing.JobLifecycle | routers/video_processing.py:134-165 | a submitted job reads "processing" until its worker has run, and then reads the terminal record of the detection outcome on its video |
| Connections.RemoveFirst | routers/streaming.py:150 | `list.remove` takes away exactly one occurrence |
| Connections.RemoveFirstAt | routers/streaming.py:150 | `list.remove(x)` cuts the list at the first occurrence of `x`: what precedes it and what follows it stay, in order |
| Connections.ConnectAddsOne | routers/streaming.py:131-133 | connecting adds exactly one registration for the token, touches no other stream and keeps every listed token non-empty |
| Connections.DisconnectRemovesOne | routers/streaming.py:149-154 | disconnecting removes one registration when there is one and otherwise changes nothing; it touches no other stream and drops a token whose list becomes empty |
| Connections.DisconnectCutsFirst | routers/streaming.py:149-154 | the registration removed is the socket's first one: the sockets registered before and after it stay, in order |
| Connections.ConnectThenDisconnect | routers/streaming.py:122-154 | a socket that connects and then disconnects leaves the registry as it found it |
| Connections.Reached | routers/streaming.py:167-169 | a broadcast reaches a prefix of the registered sockets, all of them clean, and stops at a broken one |
| Connections.ReachedAll | routers/streaming.py:167-169 | a broadcast reaches every socket exactly when none is broken |
| Connections.ReachedPrefix | routers/streaming.py:167-169 | clean sockets up to the first broken one are exactly what a broadcast reaches |
| Connections.ConnectionManager.constructor | routers/streaming.py:117-120 | the registry starts empty |
| Connections.ConnectionManager.Connect | routers/streaming.py:122-133 | the registry becomes `Connected(old, ws, token)` and keeps its invariant |
| Connections.ConnectionManager.Disconnect | routers/streaming.py:135-157 | the registry becomes `Disconnected(old, ws, token)` and keeps its invariant |
| Connections.ConnectionManager.Count | routers/streaming.py:1647 | no socket is registered exactly when the token is not listed |
| Connections.ConnectionManager.BroadcastJson | routers/streaming.py:159-169 | the sockets reached are `Reached(listed, broken)`, and the call raises exactly when a registered socket is broken |
| Sessions.NewTokenSession | routers/streaming.py:940-944 | a requested token's session is live at once, not closing, and has no status, URL or error |
| Sessions.NewUrlSession | routers/streaming.py:864-872 | a URL session is live, initializing and of type url_stream, and records the URL and interval |
| Sessions.CloseCheckCases | routers/streaming.py:1141-1153 | a close short-circuits with "closing" exactly for a closing session and with "closed" for one that is not live; otherwise it proceeds |
| Sessions.CloseTwice | routers/streaming.py:1141-1184 | a second close during the grace sleep answers "closing"; one after the close answers "closed"; the close writes only `live`, `closing` and `closed_at` |
| Sessions.StartIdempotent | routers/streaming.py:1211-1220 | start leaves a live session alone and makes any other live; a second start answers "already active" |
| Sessions.StartAfterClose | routers/streaming.py:1182-1220 | a closed stream can be started again, and then accepts WebSockets |
| Sessions.BroadcastGuard | routers/streaming.py:1044-1049 | a broadcast is 404 for an unknown id, 400 for a session that is not live, and goes ahead otherwise |
| Sessions.BroadcastAndAcceptAgree | routers/streaming.py:1458-1462 | a WebSocket is refused with code 4000 exactly when a broadcast would be refused |
| Sessions.StatusOf | routers/streaming.py:367-382 | the status query is a 404 exactly for an unknown id |
| Sessions.StatusNamesDistinct | routers/streaming.py:374 | the four status strings are distinct |
| Sessions.FreshReports | routers/streaming.py:372-382 | a token stream reports "unknown" and "websocket"; a fresh URL stream reports "initializing" and "url_stream" |
| Sessions.EndedReportsStopped | routers/streaming.py:739-742 | an ended URL stream reports "stopped", never "error", and still carries its error |
| Ingestion.FirstStop | routers/streaming.py:635-640 | the loop runs exactly up to the first turn that is not live, whose read fails, or that sees `closing` |
| Ingestion.DispatchesMeaning | routers/streaming.py:656-663 | detections carry increasing frame numbers and their frame's time; a frame is dispatched exactly when someone is subscribed and the interval has passed since the last dispatch |
| Ingestion.PullLoop | routers/streaming.py:634-718 | each frame read is counted and written, and the latest is kept; the loop stops at the first stopping turn, for the reason it gives; the dispatches are those of the frames read |
| Ingestion.LastDispatchGrows | routers/streaming.py:659-660 | the gate time never moves back |
| Ingestion.DispatchSpacing | routers/streaming.py:659-660 | two dispatches are at least `detection_interval` seconds apart |
| Ingestion.FirstDispatchFromZero | routers/streaming.py:518 | the gate time starts at 0, so the first detection needs a subscriber and a clock reading of at least the interval |
| Ingestion.StepOfMeaning | routers/streaming.py:1500-1630 | branch by branch, the fate of a message: no comma, undecodable, classified only after five seconds, an announcement whose failure is swallowed, an announcement that raises `WebSocketDisconnect` and ends the loop, stopped by `closing`, recorder failure, or written |
| Ingestion.ReplaySteps | routers/streaming.py:1491-1625 | step `j` is the decision taken in the state left by the messages before it |
| Ingestion.ReplayMeaning | routers/streaming.py:1491-1625 | every recorded step satisfies the branch facts in the state before it |
| Ingestion.ReplayWriterOpen | routers/streaming.py:1560-1610 | the recorder is open exactly when some frame has been written |
| Ingestion.PushLoop | routers/streaming.py:1491-1640 | every message taken is counted; the steps and frames written are the replay of the messages taken; no step before the last ends the loop; the loop ends on `closing` exactly when the last step stopped, and it leaves messages untaken only when the last step was a `closing` stop or an announcement that raised `WebSocketDisconnect` |
| Ingestion.CheckedStamps | routers/streaming.py:1527-1528 | a classified message becomes the new `last_checked` |
| Ingestion.LastCheckedGrows | routers/streaming.py:1527-1528 | `last_checked` never moves back |
| Ingestion.CheckSpacing | routers/streaming.py:1527-1528 | two classifier calls of the push loop are at least five seconds apart |
| Ingestion.ClosingAndWriterRetry | routers/streaming.py:1555-1587 | a message seen while closing is never written; a recorder failure skips only that frame |
| Sequencer.DrainMeaning | routers/streaming.py:612-627 | the sender sends the payloads under `next`, `next+1`, … in order, and stops at the first missing key |
| Sequencer.ResultQueue.constructor | routers/streaming.py:597-601 | the queue starts empty with `next_frame == 1` |
| Sequencer.ResultQueue.Insert | routers/streaming.py:598 | storing a payload changes only that key |
| Sequencer.ResultQueue.Step | routers/streaming.py:612-627 | one sender turn pops and sends the next key's payload and advances, or waits with nothing changed |
| Sequencer.ResultQueue.Flush | routers/streaming.py:606-629 | sender turns until the next key is missing send `Drain(old)`; the sent keys leave the queue and `next_frame` moves past them |
| Sequencer.CompletionOrderSortedIff | routers/streaming.py:670-709 | as written, with dispatched frame numbers increasing, subscribers get frame numbers in increasing order exactly when the classifier calls return in dispatch order |
| Sequencer.CompletionOrderIsNotFrameOrder | routers/streaming.py:702 | frame 151 can reach subscribers before frame 1 |
| Sequencer.FrameKeyedQueueStalls | routers/streaming.py:613-627 | a queue keyed by frame number with `next_frame += 1` never sends frame 151 after frame 1 |
| Sequencer.CompleteSlot | routers/streaming.py:612-627 | storing the entry of a finished dispatch slot and flushing sends the next run of entries in slot order and keeps the queue's invariants |
| Sequencer.PresentConcat | routers/streaming.py:612-627 | what the sender sends from two runs of entries is what it sends from each, one after the other |
| Sequencer.PresentOutcomes | routers/streaming.py:685-706 | the frames sent for the first `n` slots are exactly the frames of those slots whose detection gave a verdict; a task that got no reply or raised sends nothing |
| Sequencer.OrderedDelivery | routers/streaming.py:604-629 | corrected: each finished task stores its verdict, or a skip marker when it gave none, under its dispatch slot. In any completion order the sender moves past a prefix of the slots, every one of them finished, and stops exactly at the first slot that has not; subscribers get the verdicts of that prefix in dispatch order; once every task has finished, the prefix is every slot |
| Sequencer.OrderedDeliveryIsSorted | routers/streaming.py:599 | corrected: with dispatched frame numbers increasing, the frame numbers that reach subscribers strictly increase, skipped slots included |
| Registry.StreamServer.constructor | routers/streaming.py:97-101 | the registry, the frame store and the manager start empty |
| Registry.StreamServer.RequestStreamToken | routers/streaming.py:929-956 | only the new id's session is added, live |
| Registry.StreamServer.OpenStreamFromUrl | routers/streaming.py:849-892 | only the new id's URL session is added, before its task runs |
| Registry.StreamServer.BeginClose | routers/streaming.py:1135-1156 | a close is 404 for an unknown id; the short-circuits change nothing; otherwise only `closing` is set |
| Registry.StreamServer.FinishClose | routers/streaming.py:1161-1194 | after the sleep, the session is not live and not closing and carries the closing time; a session deleted meanwhile is not recreated |
| Registry.StreamServer.StartStream | routers/streaming.py:1206-1230 | start is 404 for an unknown id; otherwise it replies by `live` and leaves the session live |
| Registry.StreamServer.BroadcastToStream | routers/streaming.py:1044-1079 | after the guards, the payload reaches the sockets up to the first broken one; a raise is a 500; otherwise the reply is the socket count |
| Registry.StreamServer.GetStreamStatus | routers/streaming.py:363-382 | the status is a 404 exactly for an unknown id, and otherwise the report of its session |
| Registry.StreamServer.VideoPollOf | routers/streaming.py:1304-1321 | the generator stops exactly when the session is gone, yields exactly when a frame is stored, and the part parses back to that frame |
| Registry.StreamServer.GetVideoStream | routers/streaming.py:1296-1326 | the video endpoint is a 404 exactly for an unknown id |
| Registry.StreamServer.WebSocketSession | routers/streaming.py:1448-1673 | a refused socket (code 4000) changes nothing. An accepted one runs the push loop over its messages, with no ending step before the last, and stores its latest frame. A closing stop keeps the socket registered. A client leaving, or an announcement raising `WebSocketDisconnect`, unregisters it, and the last one deletes the session and its frame |
| Registry.StreamServer.Serve | routers/streaming.py:1473-1640 | the socket is registered, the push loop runs over the messages with no ending step before the last, stopping early only on a `closing` stop or an announcement raising `WebSocketDisconnect`, and its latest written frame is stored |
| Registry.StreamServer.ClientGone | routers/streaming.py:1639-1673 | one registration is dropped; the session and its frame are deleted exactly when none is left |
| Registry.StreamServer.RunUrlStream | routers/streaming.py:504-742 | an absent session makes the task fail with no change. A capture that does not open records the URL it tried. Otherwise the loop runs up to the first stopping turn; the frames written are exactly the frames read before it, plus that turn's own frame when the stop is a `closing` seen after a live read; every frame read replaces the stored one, and a raise records its message. Every run ends not live with status "stopped" |

## Left out

- The capture, image decoding and encoding, the classifier and the HLS page resolver are external. They are inputs: a read result, an optional decoded image, an optional reply, and a resolver function from a page URL to an optional stream URL.
- The bytes of a re-encoded frame are not modelled: the frame written and stored is the decoded input frame.
- Failures of `imencode` or of `video_writer.write` are not modelled. The writer file, the display window and the `video_writer`, `video_path` and `display_window_name` session keys are not modelled either.
- Time is an integer parameter, not a float clock.
- Generated ids (`uuid4`) are parameters.
- Concurrency is not modelled:
  - Each endpoint is one atomic step on the shared state.
  - `close_stream` is two steps, before and after its two-second sleep, so a concurrent second close can be expressed.
  - Interleavings of the pull task, the push loop, the sender task and the endpoints are not explored.
- Ingestion.PushLoop: the `closing` flag and how the announcement went (delivered, failed and swallowed, or raising `WebSocketDisconnect`) are per-message inputs. They are not tied to the session record or to the manager's sockets.
- Ingestion.PullLoop:
  - The `live` flag and the subscriber count are per-turn inputs.
  - Running out of turns is treated as the capture reporting no further frame.
  - The frame-rate and size queries of the writer are not modelled.
- The notice broadcast to subscribers when a URL capture fails to open is not modelled. Its failure is swallowed and changes no state.
- The lifetime of the sender task and its lock are not modelled, and neither is the `detection_queues` entry that outlives the task.
- Text.Lower: `str.lower` is modelled on ASCII letters only. Python lowers every cased Unicode character.
- `list_active_streams`, `websocket_info`, the frontend routes and the photo endpoint's upload handling are outside this model. The photo endpoint's verdict normalisation is the same function as the loops'.
- A `None` detection interval is not modelled; the interval is an integer.
- VideoProcessing.FrameInterval: a NaN or infinite frame rate is not modelled. The rate and `fps * 5` are exact reals, not doubles, so where the double product rounds up to an integer (1.4 * 5 is 7.0 in Python, exactly 6.999… for the nearest double to 1.4) the model's interval can be one below Python's.
- VideoProcessing.JobStore.Submit: the temporary file and its deletion are not modelled, and the upload is reduced to whether it could be saved.

## Findings

| source | as written | input that shows it | evidently intended | confidence | as-written member | corrected member |
|---|---|---|---|---|---|---|
| routers/streaming.py:702 | each detection task broadcasts its verdict itself when its classifier call returns; nothing stores results in the ordering queue, so its sender never sends anything | frames 1 and 151 dispatched, and the call for 151 returns first: subscribers see 151 before 1 | verdicts reach subscribers in frame order through the queue drained by `send_ordered_results` | not executed | Sequencer.CompletionOrderIsNotFrameOrder | Sequencer.OrderedDelivery |
| routers/streaming.py:613-627 | the queue is keyed by frame number and `next_frame` advances by one, but a frame is dispatched only when the time gate has opened and someone is subscribed, so dispatched frame numbers have gaps | results stored under frames 1 and 151: the sender sends frame 1, then waits for key 2 forever | the queue is keyed by dispatch order (1, 2, 3, …), and a task that gets no verdict or raises stores a skip marker, so once every task has finished every verdict is sent, in dispatch order | not executed | Sequencer.FrameKeyedQueueStalls | Sequencer.OrderedDelivery |
