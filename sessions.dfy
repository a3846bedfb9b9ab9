/** One entry of the stream session registry (`stream_sessions`) as a value,
    and the decisions the HTTP and WebSocket endpoints take on it. A
    session made by `request_stream_token` holds only `live`, `closing` and
    `created_at`; one made by `open_stream_from_url` also holds the URL, the
    detection interval, a status and its type. Keys a session lacks are
    `None` here, and the status report fills in the same defaults as the
    endpoint. Clock readings are integers. */
module Sessions {
  import opened Wrappers
  import opened Http

  /** The `status` values a URL stream goes through. */
  datatype Status = Initializing | Streaming | Errored | Stopped

  /** Why a URL stream failed: the capture did not open (the error names the
      URL it tried), or the task raised with this message. */
  datatype StreamError = OpenFailed(triedUrl: string) | Crash(message: string)

  datatype Session = Session(
    live: bool,
    closing: bool,
    createdAt: int,
    closedAt: Option<int>,
    urlStream: bool,
    status: Option<Status>,
    url: Option<string>,
    interval: Option<int>,
    error: Option<StreamError>)

  /** The record `request_stream_token` stores: live at once. */
  function NewTokenSession(now: int): (s: Session)
    ensures s.live && !s.closing && s.createdAt == now
    ensures !s.urlStream && s.status == None && s.url == None && s.error == None && s.closedAt == None
  {
    Session(true, false, now, None, false, None, None, None, None)
  }

  /** The record `open_stream_from_url` stores before its task starts. */
  function NewUrlSession(now: int, url: string, interval: int): (s: Session)
    ensures s.live && !s.closing && s.createdAt == now
    ensures s.urlStream && s.status == Some(Initializing) && s.url == Some(url) && s.interval == Some(interval)
    ensures s.error == None && s.closedAt == None
  {
    Session(true, false, now, None, true, Some(Initializing), Some(url), Some(interval), None)
  }

  // ---------------------------------------------------------------------
  // close_stream
  // ---------------------------------------------------------------------

  /** The first half of `close_stream`, up to its grace sleep. */
  datatype CloseStart = AlreadyClosing | AlreadyClosed | ClosingStarted

  /** The short-circuits of `close_stream`: a closing session is reported as
      closing, a session that is not live as closed; otherwise the close
      goes ahead. */
  function CloseCheck(s: Session): CloseStart {
    if s.closing then AlreadyClosing
    else if !s.live then AlreadyClosed
    else ClosingStarted
  }

  /** The session once the close has begun. */
  function BeganClose(s: Session): Session {
    s.(closing := true)
  }

  /** The session once the close has finished: no longer live, no longer
      closing, and stamped with the closing time. */
  function FinishedClose(s: Session, now: int): Session {
    s.(live := false, closing := false, closedAt := Some(now))
  }

  /** The outcomes of `close_stream`, both directions: the close goes ahead
      exactly for a live session that is not closing. */
  lemma CloseCheckCases(s: Session)
    ensures CloseCheck(s) == AlreadyClosing <==> s.closing
    ensures CloseCheck(s) == AlreadyClosed <==> !s.closing && !s.live
    ensures CloseCheck(s) == ClosingStarted <==> !s.closing && s.live
  {
  }

  /** A second close that arrives while the first is sleeping is answered
      "already closing"; a close after a finished close is answered "already
      closed"; and the finished session keeps everything but the three
      fields the close writes. */
  lemma CloseTwice(s: Session, now: int)
    requires CloseCheck(s) == ClosingStarted
    ensures CloseCheck(BeganClose(s)) == AlreadyClosing
    ensures CloseCheck(FinishedClose(BeganClose(s), now)) == AlreadyClosed
    ensures FinishedClose(BeganClose(s), now) == s.(live := false, closedAt := Some(now))
  {
  }

  // ---------------------------------------------------------------------
  // start_stream
  // ---------------------------------------------------------------------

  datatype StartReply = AlreadyActive | StartedNow

  function StartCheck(s: Session): StartReply {
    if s.live then AlreadyActive else StartedNow
  }

  /** `start_stream` sets `live` and nothing else, so it reopens a closed
      session too. */
  function Started(s: Session): Session {
    s.(live := true)
  }

  /** Starting leaves a live session unchanged and makes any other session
      live, after which a second start is answered "already active". */
  lemma StartIdempotent(s: Session)
    ensures StartCheck(s) == AlreadyActive <==> s.live
    ensures s.live ==> Started(s) == s
    ensures Started(s).live && StartCheck(Started(s)) == AlreadyActive
    ensures Started(Started(s)) == Started(s)
  {
  }

  /** A finished close can be undone by `start_stream`: the session is live
      again and a WebSocket is accepted for it. */
  lemma StartAfterClose(s: Session, now: int)
    requires CloseCheck(s) == ClosingStarted
    ensures StartCheck(FinishedClose(BeganClose(s), now)) == StartedNow
    ensures Accepts(Some(Started(FinishedClose(BeganClose(s), now))))
  {
  }

  // ---------------------------------------------------------------------
  // Guards
  // ---------------------------------------------------------------------

  /** `broadcast_to_stream`: 404 for an unknown id, 400 for a session that
      is not live, otherwise the send goes ahead. */
  function BroadcastGuard(s: Option<Session>): (r: Result<(), HttpError>)
    ensures r == Failure(NotFound) <==> s.None?
    ensures r == Failure(NotActive) <==> s.Some? && !s.value.live
    ensures r.Success? <==> s.Some? && s.value.live
  {
    if s.None? then Failure(NotFound)
    else if !s.value.live then Failure(NotActive)
    else Success(())
  }

  /** The WebSocket close code sent when a connection is refused. */
  const RejectCode := 4000

  /** `websocket_endpoint` keeps a connection exactly for a known, live
      session; otherwise it closes it with code 4000. */
  predicate Accepts(s: Option<Session>) {
    s.Some? && s.value.live
  }

  /** The guards of broadcasting and of accepting a WebSocket agree: a
      connection is refused exactly when a broadcast would fail. */
  lemma BroadcastAndAcceptAgree(s: Option<Session>)
    ensures Accepts(s) <==> BroadcastGuard(s).Success?
  {
  }

  // ---------------------------------------------------------------------
  // get_stream_status
  // ---------------------------------------------------------------------

  datatype StatusReport = StatusReport(
    streamId: string,
    status: string,
    live: bool,
    closing: bool,
    error: Option<StreamError>,
    url: Option<string>,
    createdAt: int,
    kind: string)

  function StatusName(s: Status): string {
    match s
    case Initializing => "initializing"
    case Streaming => "streaming"
    case Errored => "error"
    case Stopped => "stopped"
  }

  /** The status endpoint's body, with "unknown" for a session without a
      status and "websocket" for one without a type. */
  function Report(id: string, s: Session): StatusReport {
    StatusReport(id, if s.status.Some? then StatusName(s.status.value) else "unknown",
                 s.live, s.closing, s.error, s.url, s.createdAt,
                 if s.urlStream then "url_stream" else "websocket")
  }

  /** `get_stream_status`: 404 for an unknown id, otherwise the report. */
  function StatusOf(id: string, s: Option<Session>): (r: Result<StatusReport, HttpError>)
    ensures r.Failure? <==> s.None?
    ensures r.Failure? ==> r.error == NotFound
  {
    if s.None? then Failure(NotFound) else Success(Report(id, s.value))
  }

  /** Status names are distinct, so the report tells the statuses apart. */
  lemma StatusNamesDistinct(a: Status, b: Status)
    ensures StatusName(a) == StatusName(b) <==> a == b
  {
  }

  /** A token stream reports status "unknown" and type "websocket"; a fresh
      URL stream reports "initializing" and "url_stream". */
  lemma FreshReports(id: string, now: int, url: string, interval: int)
    ensures Report(id, NewTokenSession(now)).status == "unknown"
    ensures Report(id, NewTokenSession(now)).kind == "websocket"
    ensures Report(id, NewUrlSession(now, url, interval)).status == "initializing"
    ensures Report(id, NewUrlSession(now, url, interval)).kind == "url_stream"
    ensures Report(id, NewTokenSession(now)).live && Report(id, NewUrlSession(now, url, interval)).live
  {
  }

  // ---------------------------------------------------------------------
  // End of a URL stream task
  // ---------------------------------------------------------------------

  /** The session after the URL stream task has ended: the `finally` block
      makes it not live with status "stopped" whatever came before, and an
      error recorded on the way (`failure`) stays in `error`. */
  function Ended(s: Session, failure: Option<StreamError>): Session {
    s.(live := false, status := Some(Stopped), error := if failure.Some? then failure else s.error)
  }

  /** An ended stream reports "stopped", not "error", even when it failed;
      the failure is still in the report's error field. */
  lemma EndedReportsStopped(id: string, s: Session, failure: Option<StreamError>)
    ensures Report(id, Ended(s, failure)).status == "stopped"
    ensures !Report(id, Ended(s, failure)).live
    ensures failure.Some? ==> Report(id, Ended(s, failure)).error == failure
    ensures failure.None? ==> Report(id, Ended(s, failure)).error == s.error
    ensures Report(id, Ended(s, failure)).status != StatusName(Errored)
  {
  }
}
