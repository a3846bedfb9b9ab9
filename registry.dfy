/** The streaming router's shared state and its endpoints: the session
    registry (`stream_sessions`), the latest JPEG per stream (`last_frames`)
    and the connection manager, updated in place by each endpoint taken as
    one atomic step. Generated stream ids and clock readings are
    parameters; the capture, the codecs and the classifier are the abstract
    inputs of the two ingestion loops. */
module Registry {
  import opened Wrappers
  import opened Http
  import opened Connections
  import opened Sessions
  import opened StreamHelpers
  import opened Ingestion

  /** What the MJPEG generator does on one turn: stop because the session
      is gone, wait because no frame is stored yet, or yield one part. */
  datatype VideoPoll = StreamGone | NoFrameYet | Part(bytes: seq<byte>)

  /** How a WebSocket connection ended. */
  datatype SocketOutcome =
    | Rejected(code: int)
    | ClientLeft(lastSubscriber: bool)
    | StoppedByClose

  /** The reply of `close_stream`'s second half: the closing time. */
  datatype CloseDone = ClosedAt(at: int)

  /** `last_frames` after a loop that wrote `written` for `token`: each
      written frame replaced the stored one, so the last one is kept. */
  function LatestStored(frames: map<string, Jpeg>, token: string, written: seq<Jpeg>): map<string, Jpeg> {
    if written == [] then frames else frames[token := written[|written| - 1]]
  }

  /** A second write to the same key hides the first. */
  lemma Overwrite(m: map<string, Session>, k: string, a: Session, b: Session)
    ensures m[k := a][k := b] == m[k := b]
  {
  }

  /** Deleting a stream's stored frame forgets whatever its loop wrote. */
  lemma ForgetStored(frames: map<string, Jpeg>, token: string, written: seq<Jpeg>)
    ensures LatestStored(frames, token, written) - {token} == frames - {token}
  {
    var stored := LatestStored(frames, token, written);
    assert forall t :: t in stored - {token} <==> t in frames - {token};
  }

  class StreamServer {
    var sessions: map<string, Session>
    var lastFrames: map<string, Jpeg>
    const manager: ConnectionManager

    ghost predicate Valid()
      reads this, manager
    {
      manager.Valid()
    }

    constructor()
      ensures Valid() && fresh(manager)
      ensures sessions == map[] && lastFrames == map[] && manager.active == map[]
    {
      sessions := map[];
      lastFrames := map[];
      manager := new ConnectionManager();
    }

    function Lookup(id: string): Option<Session>
      reads this
    {
      if id in sessions then Some(sessions[id]) else None
    }

    /** `request_stream_token`: the new id's session is live at once. */
    method RequestStreamToken(id: string, now: int)
      modifies this
      ensures sessions == old(sessions)[id := NewTokenSession(now)]
      ensures lastFrames == old(lastFrames)
    {
      sessions := sessions[id := NewTokenSession(now)];
    }

    /** `open_stream_from_url`: the session is stored before the stream task
        (`RunUrlStream`) starts. */
    method OpenStreamFromUrl(id: string, url: string, interval: int, now: int)
      modifies this
      ensures sessions == old(sessions)[id := NewUrlSession(now, url, interval)]
      ensures lastFrames == old(lastFrames)
    {
      sessions := sessions[id := NewUrlSession(now, url, interval)];
    }

    /** `close_stream` up to its grace sleep: 404 for an unknown id, the two
        short-circuits without any change, otherwise the session is marked
        closing. */
    method BeginClose(token: string) returns (r: Result<CloseStart, HttpError>)
      modifies this
      ensures token !in old(sessions) ==> r == Failure(NotFound) && sessions == old(sessions)
      ensures token in old(sessions) ==> r == Success(CloseCheck(old(sessions)[token]))
      ensures token in old(sessions) && r == Success(ClosingStarted) ==>
                sessions == old(sessions)[token := BeganClose(old(sessions)[token])]
      ensures r != Success(ClosingStarted) ==> sessions == old(sessions)
      ensures lastFrames == old(lastFrames)
    {
      if token !in sessions {
        return Failure(NotFound);
      }
      var s := sessions[token];
      r := Success(CloseCheck(s));
      if r == Success(ClosingStarted) {
        sessions := sessions[token := BeganClose(s)];
      }
    }

    /** `close_stream` after its grace sleep. The endpoint holds the session
        record itself, so when the session was deleted meanwhile the update
        goes nowhere, and the reply is the same. */
    method FinishClose(token: string, now: int) returns (r: CloseDone)
      modifies this
      ensures r == ClosedAt(now)
      ensures token in old(sessions) ==> sessions == old(sessions)[token := FinishedClose(old(sessions)[token], now)]
      ensures token !in old(sessions) ==> sessions == old(sessions)
      ensures lastFrames == old(lastFrames)
    {
      if token in sessions {
        sessions := sessions[token := FinishedClose(sessions[token], now)];
      }
      r := ClosedAt(now);
    }

    /** `start_stream`: 404 for an unknown id; a live session is left as it
        is; any other is made live. */
    method StartStream(token: string) returns (r: Result<StartReply, HttpError>)
      modifies this
      ensures token !in old(sessions) ==> r == Failure(NotFound) && sessions == old(sessions)
      ensures token in old(sessions) ==>
                r == Success(StartCheck(old(sessions)[token]))
                && sessions == old(sessions)[token := Started(old(sessions)[token])]
      ensures lastFrames == old(lastFrames)
    {
      if token !in sessions {
        return Failure(NotFound);
      }
      var s := sessions[token];
      r := Success(StartCheck(s));
      if !s.live {
        sessions := sessions[token := Started(s)];
      } else {
        assert Started(s) == s;
        assert sessions[token := s] == sessions;
      }
    }

    /** `broadcast_to_stream`: the guards, then the send to the stream's
        sockets; a send that raises becomes a 500, otherwise the reply is
        the number of registered sockets. `broken` are the sockets whose
        send raises. */
    method BroadcastToStream(token: string, broken: set<Channel>)
      returns (r: Result<nat, HttpError>, sent: seq<Channel>)
      requires Valid()
      ensures BroadcastGuard(Lookup(token)).Success? ==>
                sent == Reached(Listed(manager.active, token), broken)
                && (r == Failure(ServerError) <==> exists c :: c in Listed(manager.active, token) && c in broken)
                && (r.Success? ==> r.value == |Listed(manager.active, token)| && sent == Listed(manager.active, token))
      ensures BroadcastGuard(Lookup(token)).Failure? ==> r == Failure(BroadcastGuard(Lookup(token)).error) && sent == []
    {
      var guard := BroadcastGuard(Lookup(token));
      if guard.Failure? {
        return Failure(guard.error), [];
      }
      var raised;
      sent, raised := manager.BroadcastJson(token, broken);
      if raised {
        r := Failure(ServerError);
      } else {
        ReachedAll(Listed(manager.active, token), broken);
        r := Success(manager.Count(token));
      }
    }

    /** `get_stream_status`. */
    function GetStreamStatus(token: string): (r: Result<StatusReport, HttpError>)
      reads this
      ensures r.Failure? <==> token !in sessions
      ensures r.Success? ==> r.value == Report(token, sessions[token])
    {
      StatusOf(token, Lookup(token))
    }

    /** One turn of the MJPEG generator of `get_video_stream`. */
    function VideoPollOf(token: string): (p: VideoPoll)
      reads this
      ensures p == StreamGone <==> token !in sessions
      ensures p.Part? <==> token in sessions && token in lastFrames
      ensures p.Part? ==> ParseMjpegPart(p.bytes) == Some(lastFrames[token])
    {
      if token !in sessions then StreamGone
      else if token in lastFrames then
        MjpegRoundTrip(lastFrames[token]);
        Part(MjpegPart(lastFrames[token]))
      else NoFrameYet
    }

    /** `get_video_stream`: 404 for an unknown id, otherwise the stream,
        whose first turn is shown. */
    function GetVideoStream(token: string): (r: Result<VideoPoll, HttpError>)
      reads this
      ensures r == Failure(NotFound) <==> token !in sessions
      ensures r.Success? ==> r.value != StreamGone
    {
      if token !in sessions then Failure(NotFound) else Success(VideoPollOf(token))
    }

    /** `websocket_endpoint` for socket `ws` sending `msgs`, the push loop's
        clock starting at `start`. A refused connection changes nothing.
        An accepted one is registered and runs the push loop, whose latest
        written frame replaces the stored one. When the client leaves, its
        registration is dropped, and with the last one the session and its
        frame are deleted; the same happens when a verdict broadcast raises
        `WebSocketDisconnect`. When the loop stops on `closing`, the socket
        stays registered. */
    method WebSocketSession(ws: Channel, token: string, msgs: seq<Incoming>, start: int)
      returns (outcome: SocketOutcome, steps: seq<Step>, written: seq<Jpeg>)
      requires Valid()
      modifies this, manager
      ensures Valid()
      ensures !Accepts(old(Lookup(token))) ==>
                outcome == Rejected(RejectCode) && steps == [] && sessions == old(sessions)
                && lastFrames == old(lastFrames) && manager.active == old(manager.active)
      ensures Accepts(old(Lookup(token))) ==>
                PushRan(start, msgs, steps, written)
                && (outcome == StoppedByClose <==> steps != [] && steps[|steps| - 1].fate == Fate.Stopped)
                && (outcome.ClientLeft? || outcome == StoppedByClose)
                && (|steps| < |msgs| ==> steps != [] && Ends(steps[|steps| - 1].fate))
      ensures outcome == StoppedByClose ==>
                manager.active == Connected(old(manager.active), ws, token) && sessions == old(sessions)
                && lastFrames == LatestStored(old(lastFrames), token, written)
      ensures outcome.ClientLeft? ==>
                manager.active == Connections.Disconnected(Connected(old(manager.active), ws, token), ws, token)
                && (outcome.lastSubscriber <==> token !in manager.active)
                && (outcome.lastSubscriber ==>
                      sessions == old(sessions) - {token} && lastFrames == old(lastFrames) - {token})
                && (!outcome.lastSubscriber ==>
                      sessions == old(sessions) && lastFrames == LatestStored(old(lastFrames), token, written))
    {
      if !Accepts(Lookup(token)) {
        return Rejected(RejectCode), [], [];
      }
      var end;
      end, steps, written := Serve(ws, token, msgs, start);
      if end == ClosedByServer {
        return StoppedByClose, steps, written;
      }
      ForgetStored(old(lastFrames), token, written);
      var last := ClientGone(ws, token);
      outcome := ClientLeft(last);
    }

    /** An accepted WebSocket: the socket is registered and the push loop
        runs over `msgs`; its latest written frame replaces the stored one. */
    method Serve(ws: Channel, token: string, msgs: seq<Incoming>, start: int)
      returns (end: PushEnd, steps: seq<Step>, written: seq<Jpeg>)
      requires Valid()
      modifies this, manager
      ensures Valid()
      ensures manager.active == Connected(old(manager.active), ws, token)
      ensures sessions == old(sessions) && lastFrames == LatestStored(old(lastFrames), token, written)
      ensures PushRan(start, msgs, steps, written)
      ensures end == ClosedByServer <==> steps != [] && steps[|steps| - 1].fate == Fate.Stopped
      ensures |steps| < |msgs| ==> steps != [] && Ends(steps[|steps| - 1].fate)
    {
      manager.Connect(ws, token);
      var frameCount, latest;
      frameCount, steps, written, latest, end := PushLoop(msgs, start);
      if latest.Some? {
        lastFrames := lastFrames[token := latest.value];
      }
    }

    /** The `WebSocketDisconnect` handler: the socket's registration is
        dropped, and when it was the stream's last one, the session and its
        stored frame are deleted. */
    method ClientGone(ws: Channel, token: string) returns (last: bool)
      requires Valid()
      modifies this, manager
      ensures Valid()
      ensures manager.active == Connections.Disconnected(old(manager.active), ws, token)
      ensures last <==> token !in manager.active
      ensures last ==> sessions == old(sessions) - {token} && lastFrames == old(lastFrames) - {token}
      ensures !last ==> sessions == old(sessions) && lastFrames == old(lastFrames)
    {
      manager.Disconnect(ws, token);
      last := manager.Count(token) == 0;
      if last {
        sessions := sessions - {token};
        lastFrames := lastFrames - {token};
      }
    }

    /** The task `process_video_stream_from_url` for session `id`: the URL is
        resolved (`resolve` is the page resolver), the capture
        opens or not, and the pull loop consumes `ticks`. A session that is
        gone makes the task fail on its first write, with no change. A
        capture that does not open records the error; a loop that raises
        records the message; either way the task ends with the session not
        live and status "stopped". Every frame read replaces the stored
        frame. */
    method RunUrlStream(id: string, url: string, interval: int, resolve: string -> Option<string>,
                        opens: bool, ticks: seq<Tick>)
      returns (ran: bool, written: seq<Jpeg>, dispatched: seq<Dispatch>, end: PullEnd)
      modifies this
      ensures id !in old(sessions) ==> !ran && sessions == old(sessions) && lastFrames == old(lastFrames)
      ensures id in old(sessions) && !opens ==>
                ran && written == []
                && sessions == old(sessions)[id := Ended(old(sessions)[id], Some(OpenFailed(ActualUrl(url, resolve))))]
                && lastFrames == old(lastFrames)
      ensures id in old(sessions) && opens ==>
                ran && end == EndAt(ticks, FirstStop(ticks)) && |written| <= |ticks|
                && |written| == (if FirstStop(ticks) < |ticks| && ticks[FirstStop(ticks)].live
                                    && ticks[FirstStop(ticks)].read.Frame?
                                 then FirstStop(ticks) + 1 else FirstStop(ticks))
                && dispatched == Dispatches(ticks[..|written|], interval)
                && (forall j :: 0 <= j < |written| ==> ticks[j].live && ticks[j].read == Frame(written[j]))
                && sessions == old(sessions)[id := Ended(old(sessions)[id],
                                                         if end.Crashed? then Some(Crash(end.message)) else None)]
                && lastFrames == LatestStored(old(lastFrames), id, written)
      ensures ran ==> id in sessions && !sessions[id].live && sessions[id].status == Some(Status.Stopped)
    {
      written, dispatched, end := [], [], ReadFailed;
      if id !in sessions {
        return false, written, dispatched, end;
      }
      ran := true;
      var actualUrl := ActualUrl(url, resolve);
      if !opens {
        sessions := sessions[id := Ended(sessions[id], Some(OpenFailed(actualUrl)))];
        return;
      }
      ghost var before := sessions[id];
      ghost var registry := sessions;
      sessions := sessions[id := sessions[id].(status := Some(Streaming))];
      var frameCount, latest;
      frameCount, written, latest, dispatched, end := PullLoop(ticks, interval);
      if latest.Some? {
        lastFrames := lastFrames[id := latest.value];
      }
      var failure := if end.Crashed? then Some(Crash(end.message)) else None;
      assert Ended(sessions[id], failure) == Ended(before, failure);
      Overwrite(registry, id, sessions[id], Ended(before, failure));
      sessions := sessions[id := Ended(sessions[id], failure)];
    }
  }
}
