/** The camera reader and what it tells the control service: `internal/camera/broadcaster.go`. */
module Camera {
  import opened Basics
  import opened Framing
  import opened Control

  /** What became of the request for a session. */
  datatype Session =
    | NoRequest(error: string)
    | NoResponse(error: string)
    | Answered(status: int, contentType: ContentType, parts: seq<Part>, ending: Ending)

  datatype ContentType = Unparsable(error: string) | Parsed(boundary: string)

  /** A part that was read, or one whose reading failed. */
  datatype Part = Whole(frame: Frame) | Broken(error: string)

  /** What the reader finds after the parts. */
  datatype Ending = EndOfStream | Failed(error: string)

  const BAD_STATUS := "bad camera response status"
  const BAD_CONTENT_TYPE := "parse content type"
  const NO_BOUNDARY := "missing mjpeg boundary in content type"
  const CLOSED := "camera stream closed"

  /** A success status and a content type with a boundary. */
  predicate Streams(s: Session) {
    && s.Answered? && 200 <= s.status < 300
    && s.contentType.Parsed? && s.contentType.boundary != ""
  }

  /** The frames of the parts up to the first that fails; empty ones are skipped. */
  function Frames(parts: seq<Part>): seq<Frame> {
    if parts == [] || parts[0].Broken? then []
    else (if parts[0].frame == [] then [] else [parts[0].frame]) + Frames(parts[1..])
  }

  /** What the reader complains of: the first part that fails, or what comes after them all. */
  function PartsError(parts: seq<Part>, ending: Ending): string {
    if parts == [] then (if ending.EndOfStream? then CLOSED else ending.error)
    else if parts[0].Broken? then parts[0].error
    else PartsError(parts[1..], ending)
  }

  function SessionError(s: Session): string {
    if !s.Answered? then s.error
    else if s.status < 200 || s.status >= 300 then BAD_STATUS
    else if s.contentType.Unparsable? then BAD_CONTENT_TYPE + s.contentType.error
    else if s.contentType.boundary == "" then NO_BOUNDARY
    else PartsError(s.parts, s.ending)
  }

  function SessionFrames(s: Session): seq<Frame> {
    if Streams(s) then Frames(s.parts) else []
  }

  function AllFrames(sessions: seq<Session>): seq<Frame> {
    if sessions == [] then [] else
      AllFrames(sessions[..|sessions| - 1]) + SessionFrames(sessions[|sessions| - 1])
  }

  /** What the service is told: each session that streams comes and goes. */
  function AllNotices(sessions: seq<Session>): seq<bool> {
    if sessions == [] then [] else
      AllNotices(sessions[..|sessions| - 1]) + SessionNotices(sessions[|sessions| - 1])
  }

  function SessionNotices(s: Session): seq<bool> {
    if Streams(s) then [true, false] else []
  }

  /** Before the first notice the camera counts as disconnected. */
  predicate LastNotice(notices: seq<bool>) {
    notices != [] && notices[|notices| - 1]
  }

  /** True, false, true, and so on. */
  predicate Alternates(notices: seq<bool>) {
    (notices != [] ==> notices[0]) && forall i :: 0 < i < |notices| ==> notices[i] != notices[i - 1]
  }

  lemma OnePart(published: seq<Frame>, parts: seq<Part>, i: nat, ending: Ending)
    requires i < |parts| && parts[i].Whole?
    ensures var now := if parts[i].frame == [] then published else published + [parts[i].frame];
            published + Frames(parts[i..]) == now + Frames(parts[i + 1..])
    ensures PartsError(parts[i..], ending) == PartsError(parts[i + 1..], ending)
  {
    assert parts[i..][0] == parts[i] && parts[i..][1..] == parts[i + 1..];
  }

  /** `n` parts were read before one failed or the stream ended. */
  predicate Readable(parts: seq<Part>, n: nat) {
    n <= |parts| && (forall i :: 0 <= i < n ==> parts[i].Whole?) && (n < |parts| ==> parts[n].Broken?)
  }

  predicate Empty(part: Part) {
    part.Whole? && part.frame == []
  }

  /** How many of the first `n` parts are not empty. */
  function NonEmpty(parts: seq<Part>, n: nat): nat
    requires n <= |parts|
  {
    if n == 0 then 0 else NonEmpty(parts, n - 1) + if Empty(parts[n - 1]) then 0 else 1
  }

  lemma {:induction false} FramesBefore(parts: seq<Part>, ending: Ending, n: nat) returns (before: seq<Frame>)
    requires n <= |parts| && forall i :: 0 <= i < n ==> parts[i].Whole?
    ensures |before| == NonEmpty(parts, n) && Frames(parts) == before + Frames(parts[n..])
    ensures PartsError(parts, ending) == PartsError(parts[n..], ending)
  {
    if n == 0 {
      before := [];
      assert parts[0..] == parts;
    } else {
      before := FramesBefore(parts, ending, n - 1);
      OnePart(before, parts, n - 1, ending);
      if !Empty(parts[n - 1]) { before := before + [parts[n - 1].frame]; }
    }
  }

  /**
   Part by part: the frames published are the non-empty parts before the first that fails, one each and in
   order, and the session's error is that part's, or what ended the stream.
   */
  lemma PartsPublished(parts: seq<Part>, ending: Ending, n: nat)
    requires Readable(parts, n)
    ensures |Frames(parts)| == NonEmpty(parts, n)
    ensures forall i :: 0 <= i < n && !Empty(parts[i]) ==>
              NonEmpty(parts, i) < |Frames(parts)| && Frames(parts)[NonEmpty(parts, i)] == parts[i].frame
    ensures PartsError(parts, ending) ==
            if n < |parts| then parts[n].error
            else if ending.EndOfStream? then "camera stream closed" else ending.error
  {
    var all := FramesBefore(parts, ending, n);
    assert Frames(parts[n..]) == [];
    forall i | 0 <= i < n && !Empty(parts[i])
      ensures NonEmpty(parts, i) < |Frames(parts)| && Frames(parts)[NonEmpty(parts, i)] == parts[i].frame
    {
      var before := FramesBefore(parts, ending, i);
      assert parts[i..][0] == parts[i];
      assert Frames(parts[i..])[0] == parts[i].frame;
    }
  }

  /** Nothing is published unless the camera answers with a stream. */
  lemma StreamsOnly(s: Session)
    ensures SessionFrames(s) ==
            if s.Answered? && 200 <= s.status <= 299 && s.contentType.Parsed? && s.contentType.boundary != ""
            then Frames(s.parts) else []
  {
  }

  lemma SessionsSnoc(sessions: seq<Session>, i: nat)
    requires i < |sessions|
    ensures AllFrames(sessions[..i + 1]) == AllFrames(sessions[..i]) + SessionFrames(sessions[i])
    ensures AllNotices(sessions[..i + 1]) == AllNotices(sessions[..i]) + SessionNotices(sessions[i])
  {
    assert sessions[..i + 1][..i] == sessions[..i];
  }

  class Broadcaster {
    const service: Service
    var frame: Frame
    var frameSeq: nat
    var connected: bool
    var lastError: string
    var viewersCount: nat
    ghost var published: seq<Frame>
    ghost var notices: seq<bool>  // what the service was told, in order
    ghost var inside: set<nat>    // the viewers in `ServeHTTP`

    /** The service was told true, false, true and so on, and last told what holds now; every viewer is counted. */
    ghost predicate Valid()
      reads this, service
    {
      && frameSeq == |published| % TWO_64
      && frame == (if published == [] then [] else published[|published| - 1])
      && Alternates(notices) && (connected <==> LastNotice(notices))
      && (service.state.cameraConnected <==> connected)
      && viewersCount == |inside|
    }

    constructor (service: Service)
      requires !service.state.cameraConnected
      ensures Valid() && this.service == service
      ensures !connected && published == [] && notices == [] && inside == {}
    {
      this.service := service;
      frame, frameSeq, connected, lastError, viewersCount := [], 0, false, "", 0;
      published, notices, inside := [], [], {};
    }

    method Notify(now: bool)
      requires frameSeq == |published| % TWO_64 && frame == (if published == [] then [] else published[|published| - 1])
      requires Alternates(notices) && connected == now && LastNotice(notices) != now && viewersCount == |inside|
      modifies service`state, this`notices
      ensures Valid() && notices == old(notices) + [now]
      ensures service.state == old(service.state).(cameraConnected := now)
    {
      var _ := service.SetCameraConnected(now);
      notices := notices + [now];
    }

    method PublishFrame(f: Frame)
      requires Valid()
      modifies this`frame, this`frameSeq, this`connected, this`lastError, this`published, this`notices, service`state
      ensures Valid() && connected && frame == f && published == old(published) + [f] && lastError == ""
      ensures notices == old(notices) + if old(connected) then [] else [true]
      ensures service.state == old(service.state).(cameraConnected := true)
    {
      var wasConnected := connected;
      frame := f;
      frameSeq := (frameSeq + 1) % TWO_64;
      connected := true;
      lastError := "";
      published := published + [f];
      if !wasConnected { Notify(true); }
    }

    method SetConnected()
      requires Valid()
      modifies this`connected, this`lastError, this`notices, service`state
      ensures Valid() && connected && lastError == ""
      ensures notices == old(notices) + if old(connected) then [] else [true]
      ensures service.state == old(service.state).(cameraConnected := true)
    {
      var wasConnected := connected;
      connected := true;
      lastError := "";
      if !wasConnected { Notify(true); }
    }

    method SetDisconnected(reason: string)
      requires Valid()
      modifies this`connected, this`lastError, this`notices, service`state
      ensures Valid() && !connected && lastError == reason
      ensures notices == old(notices) + if old(connected) then [false] else []
      ensures service.state == old(service.state).(cameraConnected := false)
    {
      var wasConnected := connected;
      connected := false;
      lastError := reason;
      if wasConnected { Notify(false); }
    }

    method AddViewer(ghost v: nat)
      requires Valid() && v !in inside
      modifies this`viewersCount, this`inside
      ensures Valid() && inside == old(inside) + {v}
    {
      inside := inside + {v};
      viewersCount := viewersCount + 1;
    }

    method RemoveViewer(ghost v: nat)
      requires Valid() && v in inside
      modifies this`viewersCount, this`inside
      ensures Valid() && inside == old(inside) - {v}
    {
      inside := inside - {v};
      if viewersCount > 0 { viewersCount := viewersCount - 1; }
    }

    /** One session. Every way out of it is an error: a closed stream is one too. */
    method ReadStream(session: Session) returns (err: Option<string>)
      requires Valid() && !connected
      modifies this, service`state
      ensures Valid() && inside == old(inside) && (connected <==> Streams(session))
      ensures err.Some? && err.value == SessionError(session)
      ensures published == old(published) + SessionFrames(session)
      ensures notices == old(notices) + if Streams(session) then [true] else []
      ensures service.state == old(service.state).(cameraConnected := Streams(session))
    {
      if session.NoRequest? || session.NoResponse? { return Some(session.error); }
      if session.status < 200 || session.status >= 300 { return Some(BAD_STATUS); }
      if session.contentType.Unparsable? { return Some(BAD_CONTENT_TYPE + session.contentType.error); }
      if session.contentType.boundary == "" { return Some(NO_BOUNDARY); }
      SetConnected();
      var i := 0;
      while true
        invariant 0 <= i <= |session.parts|
        invariant Valid() && connected && inside == old(inside) && notices == old(notices) + [true]
        invariant published + Frames(session.parts[i..]) == old(published) + Frames(session.parts)
        invariant PartsError(session.parts[i..], session.ending) == PartsError(session.parts, session.ending)
        invariant service.state == old(service.state).(cameraConnected := true)
        decreases |session.parts| - i
      {
        if i == |session.parts| {
          if session.ending.EndOfStream? { return Some(CLOSED); }
          return Some(session.ending.error);
        }
        var part := session.parts[i];
        if part.Broken? { return Some(part.error); }
        OnePart(published, session.parts, i, session.ending);
        i := i + 1;
        if part.frame == [] { continue; }
        PublishFrame(part.frame);
      }
    }

    /** One turn of the reader: a session, and the disconnection if it ends in an error. */
    method RunSession(session: Session)
      requires Valid() && !connected
      modifies this, service`state
      ensures Valid() && !connected && inside == old(inside) && lastError == SessionError(session)
      ensures published == old(published) + SessionFrames(session)
      ensures notices == old(notices) + SessionNotices(session)
      ensures service.state == old(service.state).(cameraConnected := false)
    {
      var err := ReadStream(session);
      if err.Some? { SetDisconnected(err.value); }
    }

    /**
     The reader's life: session after session, until it is cancelled, during the pause after the last
     session or when it comes round again.
     */
    method Run(sessions: seq<Session>, cancelledInPause: bool)
      requires Valid() && !connected
      modifies this, service`state
      ensures Valid() && !connected && !service.state.cameraConnected && inside == old(inside)
      ensures published == old(published) + AllFrames(sessions)
      ensures notices == old(notices) + AllNotices(sessions)
      ensures service.state == old(service.state).(cameraConnected := false)
    {
      ghost var start, told := published, notices;
      var i := 0;
      while i < |sessions|
        invariant 0 <= i <= |sessions|
        invariant Valid() && !connected && inside == old(inside)
        invariant published == start + AllFrames(sessions[..i])
        invariant notices == told + AllNotices(sessions[..i])
        invariant service.state == old(service.state).(cameraConnected := false)
      {
        ghost var frames, said := AllFrames(sessions[..i]), AllNotices(sessions[..i]);
        Append(start, frames, SessionFrames(sessions[i]));
        Append(told, said, SessionNotices(sessions[i]));
        SessionsSnoc(sessions, i);
        RunSession(sessions[i]);
        i := i + 1;
        if i == |sessions| && cancelledInPause {
          WholeScript(sessions, i);
          return;
        }
      }
      WholeScript(sessions, i);
      SetDisconnected("context canceled");
    }
  }

  lemma Append<T>(a: seq<T>, b: seq<T>, c: seq<T>)
    ensures a + b + c == a + (b + c)
  {
  }

  lemma WholeScript(sessions: seq<Session>, i: nat)
    requires i == |sessions|
    ensures AllFrames(sessions[..i]) == AllFrames(sessions) && AllNotices(sessions[..i]) == AllNotices(sessions)
  {
    assert sessions[..i] == sessions;
  }
}
