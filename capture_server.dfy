/** The capture session of the server and the two registers the polling
    client reads. A GET of /api/trigger-capture resets the registers, asks
    every connected browser for a frame (or, with none connected, asks every
    browser that connects in the next five seconds) and waits up to thirty
    seconds; each frame a browser sends is saved, classified and written to
    the registers. All handlers run to completion on one event loop, so the
    server is a sequential state machine: each method below is one event. */
module CaptureServer {
  import opened Wrappers
  import opened ImageStore
  import opened Classifier

  type ClientId = string

  /** A trigger request in flight, by its position in the list of triggers. */
  type SessionId = nat

  const TimeoutMessage := "Capture timeout - no image received within 30 seconds"
  const CaptureFailedMessage := "Failed to capture image"
  const NoImageMessage := "No image available"

  datatype RegisterStatus = Pending | Succeeded

  /** latestClassification, without its timestamp. */
  datatype Register = Register(status: RegisterStatus, classification: string, imagePath: Option<string>)

  const PendingRegister := Register(Pending, "", None)

  /** latestCapturedImage when it is not null. */
  datatype CapturedImage = CapturedImage(timestamp: string, filename: string, path: string)

  /** What a socket emission carries, by receiver. */
  datatype Emission =
    | StartCapture(client: ClientId)
    | StartCaptureToAll
    | ProcessingResult(client: ClientId, result: ClassifierResult)

  /** How a capture promise settles. */
  datatype Outcome = Resolved(result: ClassifierResult) | Failed(message: string)

  datatype ImageSummary = ImageSummary(filename: string, timestamp: string)

  datatype CaptureData = CaptureData(classification: string, image: Option<ImageSummary>)

  /** The JSON bodies the trigger endpoint answers with, without timestamps. */
  datatype ReplyBody =
    | Captured(classification: string, data: CaptureData)
    | CaptureFailed(message: string, error: string)
    | NotInitialized

  datatype Reply = Reply(code: nat, body: ReplyBody)

  /** One trigger request: the reply once its promise has settled, whether
      its 30-second timer is still armed, and whether its 5-second window for
      newly connecting browsers is still open. */
  datatype Session = Session(reply: Option<Reply>, timerArmed: bool, windowOpen: bool)

  /** A classification started by an image handler and not finished yet. */
  datatype Job = Job(session: SessionId, client: ClientId, path: string)

  datatype TriggerOutcome = Started(session: SessionId) | Answered(reply: Reply)

  /** What the latest-image endpoint answers. */
  datatype ImageReply = ImageFound(content: Content) | ImageMissing(code: nat, message: string)

  predicate NoDuplicates(cs: seq<ClientId>)
  {
    forall i, j :: 0 <= i < j < |cs| ==> cs[i] != cs[j]
  }

  function Summary(img: Option<CapturedImage>): Option<ImageSummary>
  {
    match img
    case None => None
    case Some(i) => Some(ImageSummary(i.filename, i.timestamp))
  }

  /** The answer to a trigger request whose promise settled with o while the
      image register held img. */
  function ReplyFor(o: Outcome, img: Option<CapturedImage>): (r: Reply)
    ensures o.Resolved? ==>
      && r.code == 200 && r.body.Captured?
      && r.body.classification == r.body.data.classification == Name(o.result.classification)
      && (r.body.data.image.None? <==> img.None?)
      && (img.Some? ==> r.body.data.image == Some(ImageSummary(img.value.filename, img.value.timestamp)))
    ensures o.Failed? ==> r.code == 500 && r.body == CaptureFailed(CaptureFailedMessage, o.message)
  {
    match o
    case Resolved(result) =>
      Reply(200, Captured(Name(result.classification), CaptureData(Name(result.classification), Summary(img))))
    case Failed(message) =>
      Reply(500, CaptureFailed(CaptureFailedMessage, message))
  }

  /** resolve or reject of session s: it takes effect only on a promise that
      has not settled yet. */
  function Settle(ss: seq<Session>, s: SessionId, o: Outcome, img: Option<CapturedImage>): (r: seq<Session>)
    requires s < |ss|
    ensures |r| == |ss|
    ensures forall t :: 0 <= t < |ss| && t != s ==> r[t] == ss[t]
    ensures ss[s].reply.Some? ==> r[s] == ss[s]
    ensures ss[s].reply.None? ==> r[s] == ss[s].(reply := Some(ReplyFor(o, img)))
  {
    if ss[s].reply.Some? then ss else ss[s := ss[s].(reply := Some(ReplyFor(o, img)))]
  }

  /** clearTimeout of session s. */
  function Disarm(ss: seq<Session>, s: SessionId): (r: seq<Session>)
    requires s < |ss|
    ensures |r| == |ss| && !r[s].timerArmed
    ensures forall t :: 0 <= t < |ss| && t != s ==> r[t] == ss[t]
    ensures r[s].reply == ss[s].reply && r[s].windowOpen == ss[s].windowOpen
  {
    ss[s := ss[s].(timerArmed := false)]
  }

  /** `result.data.classification || "mix"`. */
  function OrMix(classification: string): (r: string)
    ensures r != ""
    ensures classification == "" ==> r == "mix"
    ensures classification != "" ==> r == classification
  {
    if classification == "" then "mix" else classification
  }

  /** One start_capture to each socket of cs, in order. */
  function StartSignals(cs: seq<ClientId>): (r: seq<Emission>)
    ensures |r| == |cs|
    ensures forall k :: 0 <= k < |cs| ==> r[k] == StartCapture(cs[k])
  {
    if cs == [] then [] else StartSignals(cs[..|cs| - 1]) + [StartCapture(cs[|cs| - 1])]
  }

  /** The once-listeners of session s on the sockets of cs. */
  function ListenersFor(cs: seq<ClientId>, s: SessionId): set<(ClientId, SessionId)>
  {
    set c | c in cs :: (c, s)
  }

  lemma ListenersForSnoc(cs: seq<ClientId>, c: ClientId, s: SessionId)
    ensures ListenersFor(cs + [c], s) == ListenersFor(cs, s) + {(c, s)}
  {
    assert forall d :: d in cs + [c] <==> d in cs || d == c;
  }

  /** The sessions whose window for newly connecting browsers is open. */
  function OpenWindows(ss: seq<Session>): set<SessionId>
  {
    set s: SessionId | s < |ss| && ss[s].windowOpen
  }

  function Repeat(e: Emission, n: nat): (r: seq<Emission>)
    ensures |r| == n
    ensures forall k :: 0 <= k < n ==> r[k] == e
  {
    if n == 0 then [] else [e] + Repeat(e, n - 1)
  }

  /** No promise that had settled settles again, and no trigger is
      forgotten. */
  predicate SettledKept(before: seq<Session>, after: seq<Session>)
  {
    && |before| <= |after|
    && forall s :: 0 <= s < |before| && before[s].reply.Some? ==> after[s].reply == before[s].reply
  }

  /** A promise settles once: a second resolve or reject changes nothing. */
  lemma SettleOnce(ss: seq<Session>, s: SessionId, o1: Outcome, i1: Option<CapturedImage>,
                   o2: Outcome, i2: Option<CapturedImage>)
    requires s < |ss|
    ensures Settle(Settle(ss, s, o1, i1), s, o2, i2) == Settle(ss, s, o1, i1)
    ensures Settle(Settle(ss, s, o1, i1), s, o2, i2)[s].reply.Some?
  {
  }

  predicate IsCategoryName(s: string)
  {
    s == "recycle" || s == "waste" || s == "mix"
  }

  lemma {:induction false} EachSocketSignalledOnce(cs: seq<ClientId>, c: ClientId)
    requires NoDuplicates(cs) && c in cs
    ensures multiset(StartSignals(cs))[StartCapture(c)] == 1
    decreases |cs|
  {
    var last := cs[|cs| - 1];
    var init := cs[..|cs| - 1];
    assert StartSignals(cs) == StartSignals(init) + [StartCapture(last)];
    if c == last {
      assert c !in init;
      assert StartCapture(c) !in StartSignals(init);
    } else {
      assert c in init;
      EachSocketSignalledOnce(init, c);
    }
  }

  /** The invariant of the server state: listeners belong to connected
      sockets and to existing triggers; an armed timer belongs to a pending
      promise; a classification in flight belongs to a trigger whose timer
      was cleared and to a written file; the image register names a written
      file after its colon-free timestamp; the classification register is
      either the pending reset or a category of a written file. */
  predicate Consistent(connected: seq<ClientId>, listeners: set<(ClientId, SessionId)>, sessions: seq<Session>,
                       jobs: seq<Job>, uploads: map<string, Content>, img: Option<CapturedImage>, reg: Register)
  {
    && NoDuplicates(connected)
    && (forall p :: p in listeners ==> p.0 in connected && p.1 < |sessions|)
    && (forall s :: 0 <= s < |sessions| && sessions[s].timerArmed ==> sessions[s].reply.None?)
    && (forall k :: 0 <= k < |jobs| ==>
          jobs[k].session < |sessions| && !sessions[jobs[k].session].timerArmed && jobs[k].path in uploads)
    && (img.Some? ==>
          && img.value.filename == CaptureFilename(img.value.timestamp) && ':' !in img.value.timestamp
          && img.value.path == UploadPath(img.value.filename) && img.value.path in uploads)
    && (reg.status == Pending ==> reg == PendingRegister)
    && (reg.status == Succeeded ==>
          IsCategoryName(reg.classification) && reg.imagePath.Some? && reg.imagePath.value in uploads)
  }

  /** A trigger keeps the invariant. */
  lemma TriggerConsistent(connected: seq<ClientId>, listeners: set<(ClientId, SessionId)>, sessions: seq<Session>,
                          jobs: seq<Job>, uploads: map<string, Content>, img: Option<CapturedImage>, reg: Register)
    requires Consistent(connected, listeners, sessions, jobs, uploads, img, reg)
    ensures Consistent(connected, listeners + ListenersFor(connected, |sessions|),
                       sessions + [Session(None, true, |connected| == 0)], jobs, uploads, None, PendingRegister)
  {
  }

  /** A delivered image that is written keeps the invariant. */
  lemma ImageWrittenConsistent(connected: seq<ClientId>, listeners: set<(ClientId, SessionId)>, sessions: seq<Session>,
                               jobs: seq<Job>, uploads: map<string, Content>, img: Option<CapturedImage>, reg: Register,
                               c: ClientId, s: SessionId, iso: string, content: Content)
    requires Consistent(connected, listeners, sessions, jobs, uploads, img, reg)
    requires (c, s) in listeners
    ensures s < |sessions|
    ensures var name := CaptureFilename(ReplaceColons(iso));
      Consistent(connected, listeners - {(c, s)}, Disarm(sessions, s), jobs + [Job(s, c, UploadPath(name))],
                 uploads[UploadPath(name) := content], Some(CapturedImage(ReplaceColons(iso), name, UploadPath(name))), reg)
  {
    CaptureFilenameHasNoColon(iso);
  }

  /** A delivered image that is refused keeps the invariant. */
  lemma ImageRefusedConsistent(connected: seq<ClientId>, listeners: set<(ClientId, SessionId)>, sessions: seq<Session>,
                               jobs: seq<Job>, uploads: map<string, Content>, img: Option<CapturedImage>, reg: Register,
                               c: ClientId, s: SessionId, o: Outcome)
    requires Consistent(connected, listeners, sessions, jobs, uploads, img, reg)
    requires (c, s) in listeners
    ensures s < |sessions|
    ensures Consistent(connected, listeners - {(c, s)}, Settle(Disarm(sessions, s), s, o, img), jobs, uploads, img, reg)
  {
  }

  /** A finished classification keeps the invariant. */
  lemma CompletionConsistent(connected: seq<ClientId>, listeners: set<(ClientId, SessionId)>, sessions: seq<Session>,
                             jobs: seq<Job>, uploads: map<string, Content>, img: Option<CapturedImage>, reg: Register,
                             k: nat, result: ClassifierResult)
    requires Consistent(connected, listeners, sessions, jobs, uploads, img, reg)
    requires k < |jobs|
    ensures jobs[k].session < |sessions|
    ensures Consistent(connected, listeners, Settle(sessions, jobs[k].session, Resolved(result), img),
                       jobs[..k] + jobs[k + 1..], uploads, img,
                       Register(Succeeded, OrMix(Name(result.classification)), Some(jobs[k].path)))
  {
    var rest := jobs[..k] + jobs[k + 1..];
    forall i | 0 <= i < |rest| ensures rest[i] in jobs {
      if i < k {
        assert rest[i] == jobs[i];
      } else {
        assert rest[i] == jobs[i + 1];
      }
    }
  }

  class Server {
    /** globalSocketIO is set. */
    var channelReady: bool
    var latestClassification: Register
    var latestCapturedImage: Option<CapturedImage>
    /** The ids of the connected sockets, in connection order. */
    var connected: seq<ClientId>
    /** The image_captured once-listeners still registered: socket and
        trigger. */
    var listeners: set<(ClientId, SessionId)>
    var sessions: seq<Session>
    var jobs: seq<Job>
    /** The uploads directory: file path to what was written there. */
    var uploads: map<string, Content>
    var outbox: seq<Emission>

    predicate Valid()
      reads this
    {
      Consistent(connected, listeners, sessions, jobs, uploads, latestCapturedImage, latestClassification)
    }

    /** The registers as the server starts: pending, no image, no channel. */
    constructor ()
      ensures Valid()
      ensures !channelReady
      ensures latestClassification == PendingRegister && latestCapturedImage.None?
      ensures connected == [] && listeners == {} && sessions == [] && jobs == []
      ensures uploads == map[] && outbox == []
    {
      channelReady := false;
      latestClassification := PendingRegister;
      latestCapturedImage := None;
      connected := [];
      listeners := {};
      sessions := [];
      jobs := [];
      uploads := map[];
      outbox := [];
    }

    /** globalSocketIO = io. */
    method InitChannel()
      requires Valid()
      modifies this
      ensures Valid()
      ensures channelReady
      ensures latestClassification == old(latestClassification) && latestCapturedImage == old(latestCapturedImage)
      ensures connected == old(connected) && listeners == old(listeners) && sessions == old(sessions)
      ensures jobs == old(jobs) && uploads == old(uploads) && outbox == old(outbox)
    {
      channelReady := true;
    }

    /** GET /api/trigger-capture. Without a channel the request is answered
        at once with a 500 and nothing changes. Otherwise both registers are
        reset before anything is sent, a new session with an armed timer is
        opened, and every connected socket gets one once-listener and one
        start_capture; with no socket connected, start_capture goes to all
        and the session's window for newcomers opens. */
    method Trigger() returns (r: TriggerOutcome)
      requires Valid()
      modifies this
      ensures Valid()
      ensures !old(channelReady) ==> r == Answered(Reply(500, NotInitialized)) && unchanged(this)
      ensures old(channelReady) ==>
        && r == Started(|old(sessions)|)
        && latestClassification == PendingRegister && latestCapturedImage.None?
        && sessions == old(sessions) + [Session(None, true, |old(connected)| == 0)]
        && listeners == old(listeners) + ListenersFor(old(connected), |old(sessions)|)
        && outbox == old(outbox) +
             (if |old(connected)| > 0 then StartSignals(old(connected)) else [StartCaptureToAll])
        && channelReady && connected == old(connected) && jobs == old(jobs) && uploads == old(uploads)
      ensures SettledKept(old(sessions), sessions)
    {
      if !channelReady {
        return Answered(Reply(500, NotInitialized));
      }
      latestClassification := PendingRegister;
      latestCapturedImage := None;
      var s := |sessions|;
      var sockets := connected;
      sessions := sessions + [Session(None, true, |sockets| == 0)];
      if |sockets| > 0 {
        AskEachSocket(sockets, s);
      } else {
        outbox := outbox + [StartCaptureToAll];
      }
      TriggerConsistent(old(connected), old(listeners), old(sessions), old(jobs), old(uploads),
                        old(latestCapturedImage), old(latestClassification));
      r := Started(s);
    }

    /** The forEach over the connected sockets: one once-listener of
        session s and one start_capture per socket, in order. */
    method AskEachSocket(sockets: seq<ClientId>, s: SessionId)
      modifies this
      ensures listeners == old(listeners) + ListenersFor(sockets, s)
      ensures outbox == old(outbox) + StartSignals(sockets)
      ensures channelReady == old(channelReady) && connected == old(connected) && sessions == old(sessions)
      ensures jobs == old(jobs) && uploads == old(uploads)
      ensures latestClassification == old(latestClassification) && latestCapturedImage == old(latestCapturedImage)
    {
      var registered, sent := {}, [];
      var i := 0;
      while i < |sockets|
        invariant 0 <= i <= |sockets|
        invariant registered == ListenersFor(sockets[..i], s)
        invariant sent == StartSignals(sockets[..i])
        modifies {}
      {
        ListenersForSnoc(sockets[..i], sockets[i], s);
        assert sockets[..i + 1] == sockets[..i] + [sockets[i]];
        registered := registered + {(sockets[i], s)};
        sent := sent + [StartCapture(sockets[i])];
        i := i + 1;
      }
      assert sockets[..i] == sockets;
      listeners := listeners + registered;
      outbox := outbox + sent;
    }

    /** A socket connects: every session whose window is open registers a
        once-listener on it and sends it start_capture. */
    method Connect(c: ClientId)
      requires Valid() && c !in connected
      modifies this
      ensures Valid()
      ensures connected == old(connected) + [c]
      ensures listeners == old(listeners) + (set s | s in OpenWindows(sessions) :: (c, s))
      ensures outbox == old(outbox) + Repeat(StartCapture(c), |OpenWindows(sessions)|)
      ensures channelReady == old(channelReady) && sessions == old(sessions) && jobs == old(jobs)
      ensures latestClassification == old(latestClassification) && latestCapturedImage == old(latestCapturedImage)
      ensures uploads == old(uploads)
    {
      var windows := OpenWindows(sessions);
      connected := connected + [c];
      listeners := listeners + (set s | s in windows :: (c, s));
      outbox := outbox + Repeat(StartCapture(c), |windows|);
    }

    /** A socket disconnects; its listeners go with it. */
    method Disconnect(c: ClientId)
      requires Valid()
      modifies this
      ensures Valid()
      ensures c !in connected
      ensures forall d :: d in connected <==> d in old(connected) && d != c
      ensures connected == RemoveClient(old(connected), c)
      ensures listeners == set p | p in old(listeners) && p.0 != c
      ensures channelReady == old(channelReady) && sessions == old(sessions) && jobs == old(jobs)
      ensures latestClassification == old(latestClassification) && latestCapturedImage == old(latestCapturedImage)
      ensures uploads == old(uploads) && outbox == old(outbox)
    {
      var remaining := RemoveClient(connected, c);
      connected := remaining;
      listeners := set p | p in listeners && p.0 != c;
    }

    /** The five seconds after a trigger that found no socket are over: the
        connection handler is removed. */
    method WindowCloses(s: SessionId)
      requires Valid() && s < |sessions| && sessions[s].windowOpen
      modifies this
      ensures Valid()
      ensures sessions == old(sessions)[s := old(sessions)[s].(windowOpen := false)]
      ensures channelReady == old(channelReady) && connected == old(connected) && listeners == old(listeners)
      ensures jobs == old(jobs) && uploads == old(uploads) && outbox == old(outbox)
      ensures latestClassification == old(latestClassification) && latestCapturedImage == old(latestCapturedImage)
      ensures SettledKept(old(sessions), sessions)
    {
      sessions := sessions[s := sessions[s].(windowOpen := false)];
    }

    /** The 30-second timer of session s fires: it can only be armed while
        the promise is pending, so the request is answered with the timeout
        error. The once-listeners stay registered. */
    method TimerFires(s: SessionId)
      requires Valid() && s < |sessions| && sessions[s].timerArmed
      modifies this
      ensures Valid()
      ensures old(sessions)[s].reply.None?
      ensures sessions == old(sessions)[s := Session(Some(Reply(500, CaptureFailed(CaptureFailedMessage, TimeoutMessage))),
                                                     false, old(sessions)[s].windowOpen)]
      ensures channelReady == old(channelReady) && connected == old(connected) && listeners == old(listeners)
      ensures jobs == old(jobs) && uploads == old(uploads) && outbox == old(outbox)
      ensures latestClassification == old(latestClassification) && latestCapturedImage == old(latestCapturedImage)
      ensures SettledKept(old(sessions), sessions)
    {
      sessions := Settle(Disarm(sessions, s), s, Failed(TimeoutMessage), latestCapturedImage);
    }

    /** Client c's once-listener for session s receives a data URI, at the
        moment the clock reads iso. The listener is used up and the session's
        timer cleared, whether or not the promise has settled. A URI the
        pattern rejects rejects the promise with "Invalid base64 string";
        otherwise the file is written, the image register set and a
        classification started. */
    method ImageCaptured(c: ClientId, s: SessionId, dataUri: string, iso: string)
      requires Valid() && (c, s) in listeners
      modifies this
      ensures Valid()
      ensures listeners == old(listeners) - {(c, s)}
      ensures s < |sessions| && !sessions[s].timerArmed
      ensures SaveImage(dataUri).Thrown? ==>
        && sessions == Settle(Disarm(old(sessions), s), s, Failed(InvalidBase64Message), old(latestCapturedImage))
        && latestCapturedImage == old(latestCapturedImage) && jobs == old(jobs) && uploads == old(uploads)
      ensures SaveImage(dataUri).Written? ==>
        var name := CaptureFilename(ReplaceColons(iso));
        && latestCapturedImage == Some(CapturedImage(ReplaceColons(iso), name, UploadPath(name)))
        && uploads == old(uploads)[UploadPath(name) := SaveImage(dataUri).content]
        && jobs == old(jobs) + [Job(s, c, UploadPath(name))]
        && sessions == Disarm(old(sessions), s)
      ensures channelReady == old(channelReady) && connected == old(connected) && outbox == old(outbox)
      ensures latestClassification == old(latestClassification)
      ensures SettledKept(old(sessions), sessions)
    {
      var timestamp := ReplaceColons(iso);
      var filename := CaptureFilename(timestamp);
      var path := UploadPath(filename);
      match SaveImage(dataUri)
      case Thrown(message) =>
        ImageRefusedConsistent(connected, listeners, sessions, jobs, uploads, latestCapturedImage,
                               latestClassification, c, s, Failed(message));
        listeners := listeners - {(c, s)};
        sessions := Settle(Disarm(sessions, s), s, Failed(message), latestCapturedImage);
      case Written(content) =>
        ImageWrittenConsistent(connected, listeners, sessions, jobs, uploads, latestCapturedImage,
                               latestClassification, c, s, iso, content);
        listeners := listeners - {(c, s)};
        sessions := Disarm(sessions, s);
        uploads := uploads[path := content];
        latestCapturedImage := Some(CapturedImage(timestamp, filename, path));
        jobs := jobs + [Job(s, c, path)];
    }

    /** The k-th classification in flight completes with the outcomes of its
        model calls. The classification register is overwritten whether or
        not the session has settled; the result goes to the socket that sent
        the image if it is still connected; the session resolves unless it
        already settled, answering with the image register as it is now. */
    method ClassificationCompletes(k: nat, first: Exchange, retry: Exchange)
      requires Valid() && k < |jobs|
      modifies this
      ensures Valid()
      ensures var job := old(jobs)[k];
        var result := Classify(first, retry);
        && latestClassification == Register(Succeeded, Name(result.classification), Some(job.path))
        && outbox == old(outbox) + (if job.client in connected then [ProcessingResult(job.client, result)] else [])
        && sessions == Settle(old(sessions), job.session, Resolved(result), latestCapturedImage)
        && jobs == old(jobs)[..k] + old(jobs)[k + 1..]
      ensures channelReady == old(channelReady) && connected == old(connected) && listeners == old(listeners)
      ensures latestCapturedImage == old(latestCapturedImage) && uploads == old(uploads)
      ensures SettledKept(old(sessions), sessions)
    {
      var job := jobs[k];
      var result := Classify(first, retry);
      CompletionConsistent(connected, listeners, sessions, jobs, uploads, latestCapturedImage,
                           latestClassification, k, result);
      latestClassification := Register(Succeeded, OrMix(Name(result.classification)), Some(job.path));
      if job.client in connected {
        outbox := outbox + [ProcessingResult(job.client, result)];
      }
      sessions := Settle(sessions, job.session, Resolved(result), latestCapturedImage);
      jobs := jobs[..k] + jobs[k + 1..];
    }

    /** GET /api/classification-result. */
    method Poll() returns (r: Register)
      requires Valid()
      ensures r == latestClassification
      ensures r.status == Pending ==> r.classification == "" && r.imagePath.None?
      ensures r.status == Succeeded ==> IsCategoryName(r.classification)
    {
      r := latestClassification;
    }

    /** GET /api/latest-image: the stored file of the latest capture, or a
        404. */
    method LatestImage() returns (r: ImageReply)
      requires Valid()
      ensures latestCapturedImage.None? ==> r == ImageMissing(404, NoImageMessage)
      ensures latestCapturedImage.Some? ==> r == ImageFound(uploads[latestCapturedImage.value.path])
    {
      match latestCapturedImage
      case None =>
        r := ImageMissing(404, NoImageMessage);
      case Some(img) =>
        r := ImageFound(uploads[img.path]);
    }
  }

  function RemoveClient(cs: seq<ClientId>, c: ClientId): (r: seq<ClientId>)
    requires NoDuplicates(cs)
    ensures NoDuplicates(r)
    ensures forall d :: d in r <==> d in cs && d != c
  {
    if cs == [] then []
    else
      var rest := RemoveClient(cs[1..], c);
      assert cs[0] !in cs[1..] by {
        forall j | 0 <= j < |cs[1..]| ensures cs[1..][j] != cs[0] {
          assert cs[1..][j] == cs[j + 1];
        }
      }
      if cs[0] == c then rest
      else
        assert forall j :: 0 <= j < |rest| ==> rest[j] != cs[0];
        [cs[0]] + rest
  }

  lemma TailNoDuplicates(cs: seq<ClientId>)
    requires NoDuplicates(cs) && cs != []
    ensures NoDuplicates(cs[1..]) && cs[0] !in cs[1..]
  {
    var tail := cs[1..];
    forall j | 0 <= j < |tail| ensures tail[j] != cs[0] {
      assert tail[j] == cs[j + 1];
    }
  }

  /** Removing a socket that is not connected changes nothing. */
  lemma {:induction false} RemoveAbsentClient(cs: seq<ClientId>, c: ClientId)
    requires NoDuplicates(cs) && c !in cs
    ensures RemoveClient(cs, c) == cs
    decreases |cs|
  {
    if cs != [] {
      TailNoDuplicates(cs);
      RemoveAbsentClient(cs[1..], c);
      assert cs == [cs[0]] + cs[1..];
    }
  }

  lemma RemoveKeptClient(cs: seq<ClientId>, c: ClientId)
    requires NoDuplicates(cs) && cs != [] && cs[0] != c
    ensures NoDuplicates(cs[1..]) && RemoveClient(cs, c) == [cs[0]] + RemoveClient(cs[1..], c)
  {
    TailNoDuplicates(cs);
  }

  lemma ConsSplit(x: ClientId, tail: seq<ClientId>, k: nat)
    requires k < |tail|
    ensures [x] + (tail[..k] + tail[k + 1..]) == ([x] + tail)[..k + 1] + ([x] + tail)[k + 2..]
  {
    assert ([x] + tail)[..k + 1] == [x] + tail[..k];
    assert ([x] + tail)[k + 2..] == tail[k + 1..];
  }

  lemma RemoveLaterClient(cs: seq<ClientId>, c: ClientId, k: nat)
    requires NoDuplicates(cs) && cs != [] && cs[0] != c && k < |cs[1..]|
    requires NoDuplicates(cs[1..]) && RemoveClient(cs[1..], c) == cs[1..][..k] + cs[1..][k + 1..]
    ensures RemoveClient(cs, c) == cs[..k + 1] + cs[k + 2..]
  {
    RemoveKeptClient(cs, c);
    ConsSplit(cs[0], cs[1..], k);
    assert [cs[0]] + cs[1..] == cs;
  }

  /** Removing a socket keeps the others in their order: nothing changes
      when it is not connected, and otherwise exactly its one entry goes. */
  lemma {:induction false} RemoveClientKeepsOrder(cs: seq<ClientId>, c: ClientId)
    requires NoDuplicates(cs)
    ensures c !in cs ==> RemoveClient(cs, c) == cs
    ensures c in cs ==> exists k :: 0 <= k < |cs| && cs[k] == c && RemoveClient(cs, c) == cs[..k] + cs[k + 1..]
    decreases |cs|
  {
    if c !in cs {
      RemoveAbsentClient(cs, c);
    } else if cs[0] == c {
      TailNoDuplicates(cs);
      RemoveAbsentClient(cs[1..], c);
      assert RemoveClient(cs, c) == cs[..0] + cs[1..];
    } else {
      TailNoDuplicates(cs);
      assert c in cs[1..] by {
        var i :| 0 <= i < |cs| && cs[i] == c;
        assert cs[1..][i - 1] == c;
      }
      RemoveClientKeepsOrder(cs[1..], c);
      var k :| 0 <= k < |cs[1..]| && cs[1..][k] == c && RemoveClient(cs[1..], c) == cs[1..][..k] + cs[1..][k + 1..];
      RemoveLaterClient(cs, c, k);
      assert cs[k + 1] == c;
    }
  }

  /** A running server with the sockets a and then b connected (b may be
      a again, giving one socket). */
  method Connected(a: ClientId, b: ClientId) returns (server: Server)
    ensures fresh(server) && server.Valid() && server.channelReady
    ensures server.connected == (if a == b then [a] else [a, b])
    ensures server.sessions == [] && server.jobs == []
  {
    server := new Server();
    server.InitChannel();
    server.Connect(a);
    if a != b {
      server.Connect(b);
    }
  }

  /** One socket connected, a trigger sent to it, and its timer fired. */
  method OneSocketTimedOut(c: ClientId) returns (server: Server)
    ensures fresh(server) && server.Valid()
    ensures |server.sessions| == 1
    ensures server.sessions[0].reply == Some(Reply(500, CaptureFailed(CaptureFailedMessage, TimeoutMessage)))
    ensures (c, 0) in server.listeners && server.jobs == []
  {
    server := Connected(c, c);
    var t := server.Trigger();
    assert c in [c];
    assert server.sessions == [Session(None, true, false)];
    server.TimerFires(0);
  }

  /** One socket, a trigger, the timer fires, and only then the frame comes
      in: the request has already been answered with the timeout, yet the
      late frame is stored and its classification becomes the register the
      polling client reads. */
  method LateImageAfterTimeout(c: ClientId, dataUri: string, iso: string, first: Exchange, retry: Exchange)
    returns (reply: Option<Reply>, register: Register, image: Option<CapturedImage>)
    requires SaveImage(dataUri).Written?
    ensures reply == Some(Reply(500, CaptureFailed(CaptureFailedMessage, TimeoutMessage)))
    ensures var name := CaptureFilename(ReplaceColons(iso));
      && image == Some(CapturedImage(ReplaceColons(iso), name, UploadPath(name)))
      && register == Register(Succeeded, Name(Classify(first, retry).classification), Some(UploadPath(name)))
  {
    var server := OneSocketTimedOut(c);
    server.ImageCaptured(c, 0, dataUri, iso);
    server.ClassificationCompletes(0, first, retry);
    reply := server.sessions[0].reply;
    register := server.latestClassification;
    image := server.latestCapturedImage;
  }

  /** Two sockets connected and one trigger sent to both. */
  method TwoSocketsTriggered(a: ClientId, b: ClientId) returns (server: Server)
    requires a != b
    ensures fresh(server) && server.Valid()
    ensures server.sessions == [Session(None, true, false)] && server.jobs == []
    ensures (a, 0) in server.listeners && (b, 0) in server.listeners
  {
    server := Connected(a, b);
    var t := server.Trigger();
    assert a in [a, b] && b in [a, b];
  }

  /** Two sockets, one trigger, and both frames in before either
      classification finishes. */
  method TwoFramesIn(a: ClientId, b: ClientId, uriA: string, isoA: string, uriB: string, isoB: string)
    returns (server: Server)
    requires a != b
    requires SaveImage(uriA).Written? && SaveImage(uriB).Written?
    ensures fresh(server) && server.Valid()
    ensures var nameA, nameB := CaptureFilename(ReplaceColons(isoA)), CaptureFilename(ReplaceColons(isoB));
      && server.sessions == [Session(None, false, false)]
      && server.jobs == [Job(0, a, UploadPath(nameA)), Job(0, b, UploadPath(nameB))]
      && server.latestCapturedImage == Some(CapturedImage(ReplaceColons(isoB), nameB, UploadPath(nameB)))
  {
    server := TwoSocketsTriggered(a, b);
    server.ImageCaptured(a, 0, uriA, isoA);
    server.ImageCaptured(b, 0, uriB, isoB);
  }

  /** Two sockets both answer one trigger. Client a's classification
      finishes first and answers the request, but by then client b's frame
      has replaced the image register, so the reply pairs a's category with
      b's image; b's classification then overwrites the classification
      register although its resolve does nothing. */
  method SecondClientOverwrites(a: ClientId, b: ClientId, uriA: string, isoA: string, uriB: string, isoB: string,
                                firstA: Exchange, retryA: Exchange, firstB: Exchange, retryB: Exchange)
    returns (reply: Option<Reply>, register: Register)
    requires a != b
    requires SaveImage(uriA).Written? && SaveImage(uriB).Written?
    ensures var nameB := CaptureFilename(ReplaceColons(isoB));
      var ca := Name(Classify(firstA, retryA).classification);
      && reply == Some(Reply(200, Captured(ca, CaptureData(ca, Some(ImageSummary(nameB, ReplaceColons(isoB)))))))
      && register == Register(Succeeded, Name(Classify(firstB, retryB).classification), Some(UploadPath(nameB)))
  {
    var server := TwoFramesIn(a, b, uriA, isoA, uriB, isoB);
    var imageB := server.latestCapturedImage;
    server.ClassificationCompletes(0, firstA, retryA);
    assert server.sessions[0].reply == Some(ReplyFor(Resolved(Classify(firstA, retryA)), imageB));
    server.ClassificationCompletes(0, firstB, retryB);
    reply := server.sessions[0].reply;
    register := server.latestClassification;
  }
}
