/**
 The agent's job protocol (src/agent/channel.rs) as a transition system: the control
 connection with its handshake and job table, one worker and one supervisor task per
 job, one blocking producer per extraction, and the single extraction permit that
 outlives connections. Every `select!` arm, spawn, cancel and panic is one step.
 */
module AgentJobs {
  import opened Common

  const MAX_ACTIVE_JOBS: nat := 16

  // ----- the control connection

  datatype ServerMessage =
    | Hello(pcap: bool)
    | PcapRequest(id: string, token: string, inverted: bool) // `inverted`: start after end
    | Cancel(id: string, token: string)
    | Unknown
    | Undecodable

  datatype ControlState = AwaitingHello | Ready(pcap: bool)

  /** `ControlState::accept`; `None` ends the connection. */
  function Accept(c: ControlState, m: ServerMessage): Option<ControlState> {
    match m
    case Undecodable => None
    case Hello(pcap) => if c.AwaitingHello? then Some(Ready(pcap)) else None
    case Unknown => Some(c)
    case PcapRequest(_, _, _) => if c.Ready? && c.pcap then Some(c) else None
    case Cancel(_, _) => if c.Ready? then Some(c) else None
  }

  /** A table entry: the job's token and which job it is. */
  datatype Entry = Entry(token: string, job: nat)

  type Table = map<string, Entry>

  datatype StartJob = Started | Duplicate | Conflict | AtCapacity

  function Start(t: Table, id: string, token: string): StartJob {
    if id in t then (if t[id].token == token then Duplicate else Conflict)
    else if |t| >= MAX_ACTIVE_JOBS then AtCapacity
    else Started
  }

  /** The effect of a message on the connection. */
  datatype Effect = Fatal | Nothing | Starts(id: string, token: string, inverted: bool) | Cancels(job: nat)

  function Handle(c: ControlState, t: Table, m: ServerMessage): Effect {
    if Accept(c, m).None? then
      Fatal
    else
      match m
      case PcapRequest(id, token, inverted) =>
        (match Start(t, id, token)
         case Started => Starts(id, token, inverted)
         case Duplicate => Nothing
         case Conflict => Fatal
         case AtCapacity => Fatal)
      case Cancel(id, token) => if id in t && t[id].token == token then Cancels(t[id].job) else Nothing
      case _ => Nothing
  }

  // ----- results

  /** How the blocking producer ended. */
  datatype Fetched = Ok(packets: nat, truncated: bool)
                     | NoCandidates | NoneMatched | BadFormat | IoFailed | ProducerPanicked

  datatype Code = Complete | Cancelled | Error | NoCandidateFiles | NoMatch

  datatype Upload = NoUpload | UploadComplete | UploadFailed

  datatype Result = Result(code: Code, upload: Upload)

  /** `terminal_from_fetch` */
  function TerminalFromFetch(f: Fetched, cancelled: bool, upload: Upload, uploadError: bool): Result {
    if cancelled then Result(Cancelled, upload)
    else if uploadError then Result(Error, upload)
    else match f
      case Ok(_, _) => Result(Complete, upload)
      case NoCandidates => Result(NoCandidateFiles, upload)
      case NoneMatched => Result(NoMatch, upload)
      case BadFormat => Result(Error, upload)
      case IoFailed => Result(Error, upload)
      case ProducerPanicked => Result(Error, upload)
  }

  // ----- one job

  datatype Phase =
    | Waiting                                       // for the extraction permit
    | Holding                                       // the permit, producer not yet launched
    | Fetching                                      // for the first chunk
    | Uploading(accepted: bool)                     // `accepted`: the upload has succeeded
    | Stopping(upload: Upload, uploadError: bool)   // for a producer told to stop
    | Finished(result: Result)                      // the worker returned
    | WorkerPanicked
    | Settled(result: Result)                       // entry removed, result to be sent
    | Sent(result: Result, delivered: bool)         // handed to the connection, or discarded with it

  datatype Producer = NotStarted | Running | Exited(fetched: Fetched)

  /** `cancelled` is the job's token, `stopped` the producer's child token; `bytes`
      says that the producer has written something. */
  datatype Job = Job(conn: nat, id: string, token: string, inverted: bool, cancelled: bool,
                     phase: Phase, producer: Producer, stopped: bool, bytes: bool)
  {
    predicate InTable() { !phase.Settled? && !phase.Sent? }
    predicate HoldsPermit() { phase.Holding? || producer.Running? }
  }

  datatype WorkerAction =
    | RejectInverted | CancelWaiting | Acquire | CancelHolding | Spawn
    | FirstChunk | NoChunk | CancelFetching | CancelUploading | UploadOk | UploadFails
    | UploadEnds | StopEnds | Panic
    | Chunk | Exit(fetched: Fetched)
    | Settle | Send(delivered: bool)

  /** What `fetch` guarantees about its result (proved in PcapExtract): an empty result
      has written nothing, and a normal one that wrote nothing was truncated or told
      to stop. */
  predicate Consistent(f: Fetched, bytes: bool, stopped: bool) {
    && (f.NoCandidates? || f.NoneMatched? || f.BadFormat? ==> !bytes)
    && (f.Ok? && !bytes ==> f.packets == 0 && (f.truncated || stopped))
  }

  /** The steps of a job's worker, producer and supervisor. `free` says whether the
      permit is available; the second component whether the job now holds it. */
  function Work(j: Job, free: bool, a: WorkerAction): Option<Job> {
    match a
    case RejectInverted =>
      if j.phase.Waiting? && j.inverted then Some(j.(phase := Finished(Result(Error, NoUpload)))) else None
    case CancelWaiting =>
      if j.phase.Waiting? && !j.inverted && j.cancelled
      then Some(j.(phase := Finished(Result(Cancelled, NoUpload)))) else None
    case Acquire =>
      if j.phase.Waiting? && !j.inverted && free then Some(j.(phase := Holding)) else None
    case CancelHolding =>
      if j.phase.Holding? && j.cancelled then Some(j.(phase := Finished(Result(Cancelled, NoUpload)))) else None
    case Spawn =>
      if j.phase.Holding? then Some(j.(phase := Fetching, producer := Running)) else None
    case FirstChunk =>
      if j.phase.Fetching? && j.bytes then Some(j.(phase := Uploading(false))) else None
    case NoChunk =>
      if j.phase.Fetching? && j.producer.Exited? && !j.bytes
      then Some(j.(phase := Finished(TerminalFromFetch(j.producer.fetched, j.cancelled, NoUpload, false)))) else None
    case CancelFetching =>
      if j.phase.Fetching? && j.cancelled then Some(j.(phase := Stopping(NoUpload, false), stopped := true)) else None
    case CancelUploading =>
      if j.phase.Uploading? && j.cancelled
      then Some(j.(phase := Stopping(UploadFailed, false), stopped := true)) else None
    case UploadOk =>
      if j.phase == Uploading(false) then Some(j.(phase := Uploading(true))) else None
    case UploadFails =>
      if j.phase == Uploading(false) then Some(j.(phase := Stopping(UploadFailed, true), stopped := true)) else None
    case UploadEnds =>
      if j.phase == Uploading(true) && j.producer.Exited?
      then Some(j.(phase := Finished(TerminalFromFetch(j.producer.fetched, j.cancelled,
           UploadComplete, false)))) else None
    case StopEnds =>
      if j.phase.Stopping? && j.producer.Exited?
      then Some(j.(phase := Finished(TerminalFromFetch(j.producer.fetched, j.cancelled,
           j.phase.upload, j.phase.uploadError))))
      else None
    case Panic =>
      if j.phase.Waiting? || j.phase.Holding? || j.phase.Fetching? || j.phase.Uploading? || j.phase.Stopping?
      then Some(j.(phase := WorkerPanicked)) else None
    case Chunk =>
      if j.producer.Running? then Some(j.(bytes := true)) else None
    case Exit(f) =>
      if j.producer.Running? && Consistent(f, j.bytes, j.cancelled || j.stopped)
      then Some(j.(producer := Exited(f))) else None
    case Settle =>
      if j.phase.Finished? then Some(j.(phase := Settled(j.phase.result)))
      else if j.phase.WorkerPanicked? && !j.producer.Running? then Some(j.(phase := Settled(Result(Error, NoUpload))))
      else None
    case Send(delivered) =>
      if j.phase.Settled? then Some(j.(phase := Sent(j.phase.result, delivered))) else None
  }

  // ----- the whole agent

  /** A job's result written to a connection. */
  datatype Delivery = Delivery(conn: nat, job: nat)

  /** `jobs` are all jobs ever started, `live` the current connection, `tables` the job
      table of every connection so far, `wire` the results written to connections. */
  datatype Agent = Agent(jobs: seq<Job>, tables: seq<Table>, live: bool, control: ControlState,
                         permit: Option<nat>, wire: seq<Delivery>)

  datatype Action =
    | Connect
    | Receive(m: ServerMessage)
    | Disconnect
    | Run(job: nat, a: WorkerAction)

  function CancelAll(jobs: seq<Job>, conn: nat): seq<Job> {
    seq(|jobs|, i requires 0 <= i < |jobs| =>
      if jobs[i].conn == conn && jobs[i].InTable() then jobs[i].(cancelled := true) else jobs[i])
  }

  /** The end of a connection cancels the jobs in its table. */
  function Disconnected(s: Agent): Agent
    requires |s.tables| > 0
  {
    s.(live := false, jobs := CancelAll(s.jobs, |s.tables| - 1))
  }

  function Step(s: Agent, a: Action): Option<Agent> {
    match a
    case Connect =>
      if s.live then None else Some(s.(live := true, control := AwaitingHello, tables := s.tables + [map[]]))
    case Disconnect =>
      if s.live && |s.tables| > 0 then Some(Disconnected(s)) else None
    case Receive(m) =>
      if s.live && |s.tables| > 0 then Some(Received(s, m)) else None
    case Run(u, w) =>
      if u < |s.jobs| then
        match Work(s.jobs[u], s.permit.None?, w)
        case None => None
        case Some(j) =>
          if s.jobs[u].conn >= |s.tables| then None
          else if !Delivers(w) then Some(Ran(s, u, j))
          else if s.live && s.jobs[u].conn == |s.tables| - 1 then Some(Delivered(Ran(s, u, j), u))
          else None
      else None
  }

  predicate Delivers(w: WorkerAction) { w.Send? && w.delivered }

  /** A connection takes the results of its own jobs only, and only while it lasts. */
  function Delivered(s: Agent, u: nat): Agent
    requires u < |s.jobs|
  {
    s.(wire := s.wire + [Delivery(s.jobs[u].conn, u)])
  }

  function Received(s: Agent, m: ServerMessage): Agent
    requires |s.tables| > 0
  {
    var c := |s.tables| - 1;
    match Handle(s.control, s.tables[c], m)
    case Fatal => Disconnected(s)
    case Nothing => s.(control := if Accept(s.control, m).Some? then Accept(s.control, m).value else s.control)
    case Starts(id, token, inverted) =>
      s.(jobs := s.jobs + [Job(c, id, token, inverted, false, Waiting, NotStarted, false, false)],
         tables := s.tables[c := s.tables[c][id := Entry(token, |s.jobs|)]])
    case Cancels(u) =>
      if u < |s.jobs| then s.(jobs := s.jobs[u := s.jobs[u].(cancelled := true)]) else s
  }

  /** Job `u` becomes `j`: the permit follows, and a settling job leaves its table. */
  function Ran(s: Agent, u: nat, j: Job): Agent
    requires u < |s.jobs| && s.jobs[u].conn < |s.tables|
  {
    var c := s.jobs[u].conn;
    s.(jobs := s.jobs[u := j],
       permit := if j.HoldsPermit() then Some(u) else if s.permit == Some(u) then None else s.permit,
       tables := if s.jobs[u].InTable() && !j.InTable() then s.tables[c := s.tables[c] - {s.jobs[u].id}] else s.tables)
  }

  // ----- invariants

  /** The result a job reports is the right one. */
  predicate ResultOk(j: Job, r: Result) {
    && (r.code == Cancelled ==> j.cancelled)
    && (r.code == NoMatch || r.code == NoCandidateFiles ==> r.upload == NoUpload && !j.bytes)
    && (r.code == NoMatch ==> j.producer == Exited(NoneMatched))
    && (r.code == NoCandidateFiles ==> j.producer == Exited(NoCandidates))
    && (r.code == Complete ==>
          j.producer.Exited? && j.producer.fetched.Ok? && r.upload == if j.bytes then UploadComplete else NoUpload)
    && (r.code == Complete && r.upload == NoUpload ==> j.producer.fetched.truncated && j.producer.fetched.packets == 0)
    && (r.upload == UploadComplete ==> j.bytes)
  }

  /** What holds of each job on its own. */
  predicate JobOk(j: Job) {
    && (j.phase.Waiting? || j.phase.Holding? ==> j.producer.NotStarted?)
    && (j.phase.Fetching? || j.phase.Uploading? || j.phase.Stopping? ==> !j.producer.NotStarted?)
    && (j.phase.Waiting? || j.phase.Holding? || j.phase.Fetching? || j.phase.Uploading? ==> !j.stopped)
    && (j.phase.Uploading? || (j.phase.Stopping? && j.phase.upload != NoUpload) ==> j.bytes)
    && (j.phase.Stopping? ==> (j.phase.upload == NoUpload ==> j.cancelled) && (!j.phase.uploadError ==> j.cancelled))
    && (j.phase.Stopping? ==> j.phase.upload != UploadComplete)
    && (j.producer.NotStarted? ==> !j.bytes)
    && (j.producer.Exited? ==> Consistent(j.producer.fetched, j.bytes, j.cancelled || j.stopped))
    && (j.phase.Finished? || j.phase.Settled? || j.phase.Sent? ==> !j.producer.Running? && ResultOk(j, j.phase.result))
  }

  /** The job's table entry is the job's own, for as long as its supervisor has not
      settled it. */
  ghost predicate TablesOk(s: Agent) {
    && (forall u :: 0 <= u < |s.jobs| ==> s.jobs[u].conn < |s.tables|)
    && (forall u :: 0 <= u < |s.jobs| && s.jobs[u].InTable() ==>
          s.jobs[u].id in s.tables[s.jobs[u].conn]
          && s.tables[s.jobs[u].conn][s.jobs[u].id] == Entry(s.jobs[u].token, u))
    && (forall c, id :: 0 <= c < |s.tables| && id in s.tables[c] ==> Owned(s, c, id))
    && (forall c :: 0 <= c < |s.tables| ==> |s.tables[c]| <= MAX_ACTIVE_JOBS)
  }

  predicate Owned(s: Agent, c: nat, id: string)
    requires c < |s.tables| && id in s.tables[c]
  {
    var e := s.tables[c][id];
    e.job < |s.jobs| && s.jobs[e.job].conn == c && s.jobs[e.job].id == id && s.jobs[e.job].InTable()
  }

  /** The permit is held exactly by the one job that is about to run or is running a
      producer. */
  ghost predicate PermitOk(s: Agent) {
    forall u :: 0 <= u < |s.jobs| ==> (s.jobs[u].HoldsPermit() <==> s.permit == Some(u))
  }

  /** Only the live connection has jobs that nobody cancelled. */
  ghost predicate CancelOk(s: Agent) {
    forall u :: 0 <= u < |s.jobs| && s.jobs[u].InTable() && !s.jobs[u].cancelled ==>
      s.live && s.jobs[u].conn == |s.tables| - 1
  }

  ghost predicate JobsOk(s: Agent) {
    forall u :: 0 <= u < |s.jobs| ==> JobOk(s.jobs[u])
  }

  ghost predicate Inv(s: Agent) {
    JobsOk(s) && TablesOk(s) && PermitOk(s) && CancelOk(s) && (s.live ==> |s.tables| > 0)
    && (s.permit.Some? ==> s.permit.value < |s.jobs|)
  }

  const INITIAL: Agent := Agent([], [], false, AwaitingHello, None, [])

  /** A job's own step keeps what holds of it, and what it shares with the table. */
  lemma WorkOk(j: Job, free: bool, a: WorkerAction)
    requires JobOk(j) && Work(j, free, a).Some?
    ensures var k := Work(j, free, a).value;
      && JobOk(k) && k.conn == j.conn && k.id == j.id && k.token == j.token && k.cancelled == j.cancelled
      && (k.InTable() ==> j.InTable())
      && (k.HoldsPermit() ==> j.HoldsPermit() || free)
  {
  }

  lemma RanInv(s: Agent, u: nat, w: WorkerAction)
    requires Inv(s) && u < |s.jobs| && Work(s.jobs[u], s.permit.None?, w).Some?
    ensures Inv(Ran(s, u, Work(s.jobs[u], s.permit.None?, w).value))
  {
    hide Work, JobOk;
    ConnInRange(s, u);
    var i := s.jobs[u];
    WorkOk(i, s.permit.None?, w);
    var j := Work(i, s.permit.None?, w).value;
    hide TablesOk, PermitOk, CancelOk, JobsOk, Ran;
    TablesAfterRan(s, u, j);
    PermitAfterRan(s, u, j);
    RestAfterRan(s, u, j);
  }

  lemma PermitAfterRan(s: Agent, u: nat, j: Job)
    requires PermitOk(s) && u < |s.jobs| && s.jobs[u].conn < |s.tables|
    requires j.HoldsPermit() ==> s.jobs[u].HoldsPermit() || s.permit.None?
    requires s.permit.Some? ==> s.permit.value < |s.jobs|
    ensures PermitOk(Ran(s, u, j))
    ensures var t := Ran(s, u, j); t.permit.Some? ==> t.permit.value < |t.jobs|
  {
  }

  lemma RestAfterRan(s: Agent, u: nat, j: Job)
    requires JobsOk(s) && CancelOk(s) && u < |s.jobs| && s.jobs[u].conn < |s.tables| && JobOk(j)
    requires j.conn == s.jobs[u].conn && j.cancelled == s.jobs[u].cancelled && (j.InTable() ==> s.jobs[u].InTable())
    ensures JobsOk(Ran(s, u, j)) && CancelOk(Ran(s, u, j))
    ensures Ran(s, u, j).live == s.live && |Ran(s, u, j).tables| == |s.tables|
  {
    hide JobOk;
  }

  lemma ConnInRange(s: Agent, u: nat)
    requires TablesOk(s) && u < |s.jobs|
    ensures s.jobs[u].conn < |s.tables|
  {
  }

  lemma TablesAfterRan(s: Agent, u: nat, j: Job)
    requires TablesOk(s) && u < |s.jobs|
    requires j.conn == s.jobs[u].conn && j.id == s.jobs[u].id && j.token == s.jobs[u].token
    requires j.InTable() ==> s.jobs[u].InTable()
    ensures TablesOk(Ran(s, u, j))
  {
    var t := Ran(s, u, j);
    var c := j.conn;
    forall d, id | 0 <= d < |t.tables| && id in t.tables[d] ensures Owned(t, d, id) {
      assert Owned(s, d, id);
    }
    forall d | 0 <= d < |t.tables| ensures |t.tables[d]| <= MAX_ACTIVE_JOBS {
      if d == c && s.jobs[u].InTable() && !j.InTable() {
        RemovedSize(s.tables[c], j.id);
      }
    }
  }

  lemma RemovedSize(t: Table, id: string)
    ensures |t - {id}| <= |t|
  {
    assert (t - {id}).Keys <= t.Keys;
    SubsetSize((t - {id}).Keys, t.Keys);
  }

  lemma CancelledJobOk(j: Job)
    requires JobOk(j)
    ensures JobOk(j.(cancelled := true))
  {
  }

  lemma DisconnectedInv(s: Agent)
    requires Inv(s) && |s.tables| > 0
    ensures Inv(Disconnected(s))
  {
    hide JobOk;
    var t := Disconnected(s);
    forall u | 0 <= u < |t.jobs| ensures JobOk(t.jobs[u]) {
      CancelledJobOk(s.jobs[u]);
    }
    forall d, id | 0 <= d < |t.tables| && id in t.tables[d] ensures Owned(t, d, id) {
      assert Owned(s, d, id);
    }
  }

  function StartOn(s: Agent, c: nat, j: Job): Agent
    requires c < |s.tables|
  {
    s.(jobs := s.jobs + [j], tables := s.tables[c := s.tables[c][j.id := Entry(j.token, |s.jobs|)]])
  }

  lemma TablesAfterStart(s: Agent, c: nat, j: Job)
    requires TablesOk(s) && c < |s.tables| && j.conn == c && j.InTable()
    requires j.id !in s.tables[c] && |s.tables[c]| < MAX_ACTIVE_JOBS
    ensures TablesOk(StartOn(s, c, j))
  {
    var t := StartOn(s, c, j);
    forall d, i | 0 <= d < |t.tables| && i in t.tables[d] ensures Owned(t, d, i) {
      if d != c || i != j.id {
        assert Owned(s, d, i);
      }
    }
    forall u | 0 <= u < |t.jobs| && t.jobs[u].InTable()
      ensures t.jobs[u].id in t.tables[t.jobs[u].conn]
        && t.tables[t.jobs[u].conn][t.jobs[u].id] == Entry(t.jobs[u].token, u)
    {
      if u < |s.jobs| {
        assert t.jobs[u] == s.jobs[u] && s.jobs[u].id in s.tables[s.jobs[u].conn];
      }
    }
  }

  lemma StartedInv(s: Agent, j: Job)
    requires Inv(s) && s.live && Start(s.tables[|s.tables| - 1], j.id, j.token).Started?
    requires j == Job(|s.tables| - 1, j.id, j.token, j.inverted, false, Waiting, NotStarted, false, false)
    ensures Inv(StartOn(s, |s.tables| - 1, j))
  {
    hide JobOk, TablesOk;
    TablesAfterStart(s, |s.tables| - 1, j);
    NewJobOk(j);
  }

  lemma NewJobOk(j: Job)
    requires j.phase.Waiting? && j.producer.NotStarted? && !j.stopped && !j.bytes
    ensures JobOk(j)
  {
  }

  lemma ReceivedInv(s: Agent, m: ServerMessage)
    requires Inv(s) && s.live
    ensures Inv(Received(s, m))
  {
    hide JobOk, Accept, Inv, Disconnected;
    LiveHasTable(s);
    var c := |s.tables| - 1;
    match Handle(s.control, s.tables[c], m)
    case Fatal => DisconnectedInv(s);
    case Nothing => ControlInv(s, Received(s, m).control);
    case Starts(id, token, inverted) =>
      StartedInv(s, Job(c, id, token, inverted, false, Waiting, NotStarted, false, false));
    case Cancels(u) =>
      if u < |s.jobs| {
        CancelOneInv(s, u);
      }
  }

  lemma ControlInv(s: Agent, control: ControlState)
    requires Inv(s)
    ensures Inv(s.(control := control))
  {
    hide JobOk;
    assert forall d, id :: 0 <= d < |s.tables| && id in s.tables[d] && Owned(s, d, id) ==>
      Owned(s.(control := control), d, id);
  }

  function CancelOne(s: Agent, u: nat): Agent
    requires u < |s.jobs|
  {
    s.(jobs := s.jobs[u := s.jobs[u].(cancelled := true)])
  }

  lemma CancelOneTables(s: Agent, u: nat)
    requires TablesOk(s) && u < |s.jobs|
    ensures TablesOk(CancelOne(s, u))
  {
    var t := CancelOne(s, u);
    assert forall v :: 0 <= v < |s.jobs| ==>
      t.jobs[v].InTable() == s.jobs[v].InTable() && t.jobs[v].conn == s.jobs[v].conn
                                             && t.jobs[v].id == s.jobs[v].id && t.jobs[v].token == s.jobs[v].token;
    assert forall d, id :: 0 <= d < |s.tables| && id in s.tables[d] && Owned(s, d, id) ==> Owned(t, d, id);
  }

  lemma CancelOneInv(s: Agent, u: nat)
    requires Inv(s) && u < |s.jobs|
    ensures Inv(CancelOne(s, u))
  {
    hide JobOk, TablesOk;
    CancelOneTables(s, u);
    CancelledJobOk(s.jobs[u]);
  }

  lemma ConnectInv(s: Agent)
    requires Inv(s) && !s.live
    ensures Inv(s.(live := true, control := AwaitingHello, tables := s.tables + [map[]]))
  {
    hide JobOk;
    var t := s.(live := true, control := AwaitingHello, tables := s.tables + [map[]]);
    forall d, id | 0 <= d < |t.tables| && id in t.tables[d] ensures Owned(t, d, id) {
      assert Owned(s, d, id);
    }
    assert TablesOk(t);
  }

  /** Every step keeps the invariant, whatever the interleaving. */
  lemma StepInv(s: Agent, a: Action)
    requires Inv(s) && Step(s, a).Some?
    ensures Inv(Step(s, a).value)
  {
    hide Inv, Work, Received, Disconnected, Ran;
    LiveHasTable(s);
    match a
    case Connect => ConnectInv(s);
    case Disconnect => DisconnectedInv(s);
    case Receive(m) => ReceivedInv(s, m);
    case Run(u, w) =>
      RanInv(s, u, w);
      WireIsApart(Ran(s, u, Work(s.jobs[u], s.permit.None?, w).value), Step(s, a).value.wire);
  }

  lemma WireIsApart(s: Agent, wire: seq<Delivery>)
    requires Inv(s)
    ensures Inv(s.(wire := wire))
  {
    hide JobOk;
    var t := s.(wire := wire);
    assert forall d, id :: 0 <= d < |s.tables| && id in s.tables[d] && Owned(s, d, id) ==> Owned(t, d, id);
  }

  lemma LiveHasTable(s: Agent)
    requires Inv(s)
    ensures s.live ==> |s.tables| > 0
  {
  }

  // ----- whole runs

  ghost predicate IsRun(states: seq<Agent>, acts: seq<Action>) {
    && |states| == |acts| + 1 && states[0] == INITIAL
    && forall k :: 0 <= k < |acts| ==> Step(states[k], acts[k]) == Some(states[k + 1])
  }

  lemma {:induction false} Reachable(states: seq<Agent>, acts: seq<Action>, k: nat)
    requires IsRun(states, acts) && k < |states|
    ensures Inv(states[k])
    decreases k
  {
    hide Step;
    if k == 0 {
      InitialInv();
    } else {
      hide Inv;
      Reachable(states, acts, k - 1);
      assert Step(states[k - 1], acts[k - 1]) == Some(states[k - 1 + 1]);
      StepInv(states[k - 1], acts[k - 1]);
    }
  }

  lemma InitialInv()
    ensures Inv(INITIAL)
  {
  }

  predicate Runs(s: Agent, u: nat) {
    u < |s.jobs| && s.jobs[u].producer.Running?
  }

  /** Job `u` was accepted as `id` on connection `c` and is not settled yet. */
  predicate Unsettled(s: Agent, c: nat, id: string, u: nat) {
    u < |s.jobs| && s.jobs[u].conn == c && s.jobs[u].id == id && s.jobs[u].InTable()
  }

  /** At any moment of any run at most one blocking producer runs, across all
      connections; and a job whose result is settled has none. */
  lemma AtMostOneProducer(states: seq<Agent>, acts: seq<Action>, k: nat)
    requires IsRun(states, acts) && k < |states|
    ensures forall u, v :: Runs(states[k], u) && Runs(states[k], v) ==> u == v
    ensures forall u :: 0 <= u < |states[k].jobs| && !states[k].jobs[u].InTable() ==>
      !states[k].jobs[u].producer.Running?
  {
    hide IsRun;
    Reachable(states, acts, k);
    var s := states[k];
    forall u: nat, v: nat | Runs(s, u) && Runs(s, v) ensures u == v {
      assert s.jobs[u].HoldsPermit() && s.jobs[v].HoldsPermit();
    }
    forall u | 0 <= u < |s.jobs| && !s.jobs[u].InTable() ensures !s.jobs[u].producer.Running? {
      assert JobOk(s.jobs[u]);
    }
  }

  /** Table entries and unsettled supervisors correspond one to one, at most 16 per
      connection, and every job that its connection's end left behind is cancelled. */
  lemma TablesAreTheUnsettledJobs(states: seq<Agent>, acts: seq<Action>, k: nat)
    requires IsRun(states, acts) && k < |states|
    ensures var s := states[k];
      forall c, id :: 0 <= c < |s.tables| ==>
        (id in s.tables[c] <==> exists u :: Unsettled(s, c, id, u))
    ensures forall c, id, u, v :: Unsettled(states[k], c, id, u) && Unsettled(states[k], c, id, v) ==> u == v
    ensures forall c :: 0 <= c < |states[k].tables| ==> |states[k].tables[c]| <= MAX_ACTIVE_JOBS
    ensures var s := states[k];
      forall u :: 0 <= u < |s.jobs| && s.jobs[u].InTable() && !(s.live && s.jobs[u].conn == |s.tables| - 1) ==>
        s.jobs[u].cancelled
  {
    hide IsRun;
    Reachable(states, acts, k);
    var s := states[k];
    forall c, id | 0 <= c < |s.tables|
      ensures id in s.tables[c] <==> exists u :: Unsettled(s, c, id, u)
    {
      if id in s.tables[c] {
        assert Owned(s, c, id) && Unsettled(s, c, id, s.tables[c][id].job);
      }
    }
  }

  /** A job's result, once there, is never replaced or lost: one terminal per job. */
  predicate HasResult(j: Job, r: Result) {
    (j.phase.Settled? || j.phase.Sent?) && j.phase.result == r
  }

  lemma StepKeepsResults(s: Agent, a: Action, u: nat, r: Result)
    requires Step(s, a).Some? && u < |s.jobs| && HasResult(s.jobs[u], r)
    ensures u < |Step(s, a).value.jobs| && HasResult(Step(s, a).value.jobs[u], r)
    ensures s.jobs[u].phase.Sent? ==> Step(s, a).value.jobs[u].phase.Sent?
  {
  }

  lemma {:induction false} OneResultPerJob(states: seq<Agent>, acts: seq<Action>, k: nat, l: nat, u: nat, r: Result)
    requires IsRun(states, acts) && k <= l < |states|
    requires u < |states[k].jobs| && HasResult(states[k].jobs[u], r)
    ensures u < |states[l].jobs| && HasResult(states[l].jobs[u], r)
    ensures states[k].jobs[u].phase.Sent? ==> states[l].jobs[u].phase.Sent?
    decreases l - k
  {
    hide Step, HasResult;
    if k < l {
      assert Step(states[k], acts[k]) == Some(states[k + 1]);
      StepKeepsResults(states[k], acts[k], u, r);
      OneResultPerJob(states, acts, k + 1, l, u, r);
    }
  }

  /** Every reported result classifies the job correctly: NoMatch and NoCandidateFiles
      mean nothing was written or uploaded, a Complete without an upload means a
      truncated extraction without a packet, and Cancelled is reported only for a job
      that the server or its connection's end cancelled. */
  lemma ResultsAreRight(states: seq<Agent>, acts: seq<Action>, k: nat, u: nat, r: Result)
    requires IsRun(states, acts) && k < |states|
    requires u < |states[k].jobs| && HasResult(states[k].jobs[u], r)
    ensures ResultOk(states[k].jobs[u], r)
  {
    hide IsRun, ResultOk;
    Reachable(states, acts, k);
    assert JobOk(states[k].jobs[u]);
  }

  predicate IsCancelled(s: Agent, u: nat) {
    u < |s.jobs| && s.jobs[u].cancelled
  }

  /** A job becomes cancelled only by the server's message with the job's own token or
      by the end of its connection. */
  lemma OnlyServerOrDisconnectCancels(s: Agent, a: Action, u: nat)
    requires TablesOk(s) && Step(s, a).Some? && u < |s.jobs|
    requires !s.jobs[u].cancelled && IsCancelled(Step(s, a).value, u)
    ensures
      || a.Disconnect?
      || (a.Receive? && Handle(s.control, s.tables[|s.tables| - 1], a.m).Fatal?)
      || a == Receive(Cancel(s.jobs[u].id, s.jobs[u].token))
    ensures s.jobs[u].conn == |s.tables| - 1
  {
    hide Work, JobOk, Handle, Received, TablesOk;
    match a
    case Connect =>
    case Disconnect =>
    case Run(v, w) =>
      WorkKeepsCancelled(s.jobs[v], s.permit.None?, w);
    case Receive(m) =>
      ReceiveCancels(s, m, u);
  }

  lemma WorkKeepsCancelled(j: Job, free: bool, a: WorkerAction)
    requires Work(j, free, a).Some?
    ensures Work(j, free, a).value.cancelled == j.cancelled
  {
  }

  lemma CancelsMeans(c: ControlState, t: Table, m: ServerMessage)
    requires Handle(c, t, m).Cancels?
    ensures m.Cancel? && m.id in t && t[m.id] == Entry(m.token, Handle(c, t, m).job)
  {
  }

  lemma ReceiveCancels(s: Agent, m: ServerMessage, u: nat)
    requires |s.tables| > 0 && TablesOk(s)
    requires u < |s.jobs| && !s.jobs[u].cancelled && IsCancelled(Received(s, m), u)
    ensures Handle(s.control, s.tables[|s.tables| - 1], m).Fatal? || m == Cancel(s.jobs[u].id, s.jobs[u].token)
    ensures s.jobs[u].conn == |s.tables| - 1
  {
    var c := |s.tables| - 1;
    hide Handle, Accept, TablesOk;
    match Handle(s.control, s.tables[c], m)
    case Fatal =>
    case Nothing =>
    case Starts(id, token, inverted) =>
    case Cancels(v) =>
      CancelsMeans(s.control, s.tables[c], m);
      EntryMeans(s, c, m.id);
  }

  lemma EntryMeans(s: Agent, c: nat, id: string)
    requires TablesOk(s) && c < |s.tables| && id in s.tables[c]
    ensures var e := s.tables[c][id];
      e.job < |s.jobs| && s.jobs[e.job].conn == c && s.jobs[e.job].id == id && s.jobs[e.job].token == e.token
      && s.jobs[e.job].InTable()
  {
    assert Owned(s, c, id);
  }

  // ----- where results go

  predicate WrittenOn(s: Agent, d: Delivery) {
    d.job < |s.jobs| && s.jobs[d.job].phase.Sent? && s.jobs[d.job].phase.delivered && s.jobs[d.job].conn == d.conn
  }

  ghost predicate WireOk(s: Agent) {
    && (forall i :: 0 <= i < |s.wire| ==> WrittenOn(s, s.wire[i]))
    && (forall i, j :: 0 <= i < j < |s.wire| ==> s.wire[i].job != s.wire[j].job)
    && (forall u :: 0 <= u < |s.jobs| && s.jobs[u].phase.Sent? && s.jobs[u].phase.delivered ==>
          Delivery(s.jobs[u].conn, u) in s.wire)
  }

  /** A job's phase once sent, and its connection, stay. */
  lemma StepKeepsSent(s: Agent, a: Action, u: nat)
    requires Step(s, a).Some? && u < |s.jobs|
    ensures var t := Step(s, a).value;
      && u < |t.jobs| && t.jobs[u].conn == s.jobs[u].conn
      && (s.jobs[u].phase.Sent? ==> t.jobs[u].phase == s.jobs[u].phase)
      && (t.jobs[u].phase.Sent? && t.jobs[u].phase.delivered && !s.jobs[u].phase.Sent? ==> a == Run(u, Send(true)))
  {
    hide Work, Handle, Accept;
    if a.Run? && a.job < |s.jobs| {
      WorkKeepsSent(s.jobs[a.job], s.permit.None?, a.a);
    }
  }

  lemma WorkKeepsSent(j: Job, free: bool, a: WorkerAction)
    requires Work(j, free, a).Some?
    ensures var k := Work(j, free, a).value;
      && k.conn == j.conn && (j.phase.Sent? ==> k.phase == j.phase)
      && (k.phase.Sent? && k.phase.delivered && !j.phase.Sent? ==> a == Send(true))
  {
  }

  lemma StepAddsUnsent(s: Agent, a: Action, u: nat)
    requires Step(s, a).Some? && |s.jobs| <= u < |Step(s, a).value.jobs|
    ensures !Step(s, a).value.jobs[u].phase.Sent?
  {
  }

  lemma StepWrites(s: Agent, a: Action)
    requires Step(s, a).Some?
    ensures var t := Step(s, a).value;
      if a.Run? && Delivers(a.a)
      then s.live && a.job < |s.jobs| && s.jobs[a.job].phase.Settled? && s.jobs[a.job].conn == |s.tables| - 1
           && |t.jobs| == |s.jobs| && t.jobs[a.job].phase == Sent(s.jobs[a.job].phase.result, true)
           && t.wire == s.wire + [Delivery(s.jobs[a.job].conn, a.job)]
      else t.wire == s.wire
  {
  }

  lemma StepWire(s: Agent, a: Action)
    requires WireOk(s) && Step(s, a).Some?
    ensures WireOk(Step(s, a).value)
  {
    hide Step;
    var t := Step(s, a).value;
    StepWrites(s, a);
    forall u | 0 <= u < |s.jobs|
      ensures u < |t.jobs| && t.jobs[u].conn == s.jobs[u].conn
      ensures s.jobs[u].phase.Sent? ==> t.jobs[u].phase == s.jobs[u].phase
      ensures t.jobs[u].phase.Sent? && t.jobs[u].phase.delivered && !s.jobs[u].phase.Sent? ==> a == Run(u, Send(true))
    {
      StepKeepsSent(s, a, u);
    }
    forall u | |s.jobs| <= u < |t.jobs| ensures !t.jobs[u].phase.Sent? {
      StepAddsUnsent(s, a, u);
    }
    forall i | 0 <= i < |t.wire| ensures WrittenOn(t, t.wire[i]) {
      if i < |s.wire| {
        assert WrittenOn(s, s.wire[i]);
      }
    }
    forall i, j | 0 <= i < j < |t.wire| ensures t.wire[i].job != t.wire[j].job {
      assert WrittenOn(s, s.wire[i]);
    }
  }

  /** In every run, the results written to a connection are those of its own jobs, each
      written once, and a result not written is discarded, never written elsewhere. */
  lemma {:induction false} ResultsReachTheirConnection(states: seq<Agent>, acts: seq<Action>, k: nat)
    requires IsRun(states, acts) && k < |states|
    ensures WireOk(states[k])
    decreases k
  {
    hide Step, WireOk;
    if k == 0 {
      assert WireOk(INITIAL) by {
        EmptyWire();
      }
    } else {
      ResultsReachTheirConnection(states, acts, k - 1);
      assert Step(states[k - 1], acts[k - 1]) == Some(states[k - 1 + 1]);
      StepWire(states[k - 1], acts[k - 1]);
    }
  }

  lemma EmptyWire()
    ensures WireOk(INITIAL)
  {
  }

  // ----- every job gets its result

  const MAX_STEPS: nat := 9

  /** How many steps of its own a job can still take, writing chunks aside. */
  function Rank(j: Job): (r: nat)
    ensures r <= MAX_STEPS && (r == 0 ==> j.phase.Sent?)
  {
    (match j.phase
     case Waiting => 8
     case Holding => 7
     case Fetching => 6
     case Uploading(accepted) => if accepted then 4 else 5
     case Stopping(_, _) => 3
     case Finished(_) => 2
     case WorkerPanicked => 2
     case Settled(_) => 1
     case Sent(_, _) => 0) + if j.producer.Exited? then 0 else 1
  }

  lemma WorkLowersRank(j: Job, free: bool, a: WorkerAction)
    requires JobOk(j) && Work(j, free, a).Some?
    ensures Rank(Work(j, free, a).value) + (if a.Chunk? then 0 else 1) <= Rank(j)
  {
  }

  predicate Moves(a: Action, u: nat) {
    a.Run? && a.job == u && !a.a.Chunk?
  }

  /** The steps that a run gives job `u` between two moments, writing chunks aside. */
  function OwnSteps(acts: seq<Action>, u: nat, k: nat, l: nat): nat
    requires k <= l <= |acts|
    decreases l - k
  {
    if k == l then 0 else (if Moves(acts[k], u) then 1 else 0) + OwnSteps(acts, u, k + 1, l)
  }

  lemma StepLowersRank(s: Agent, a: Action, u: nat)
    requires JobsOk(s) && Step(s, a).Some? && u < |s.jobs|
    ensures u < |Step(s, a).value.jobs|
    ensures Rank(Step(s, a).value.jobs[u]) + (if Moves(a, u) then 1 else 0) <= Rank(s.jobs[u])
  {
    hide Work, Handle, Accept, JobOk;
    if a.Run? && a.job < |s.jobs| {
      WorkLowersRank(s.jobs[a.job], s.permit.None?, a.a);
    }
  }

  /** A job can be given only so many steps, and once it has had them all its result is
      sent, whatever else happens meanwhile. */
  lemma {:induction false} StepsAreBounded(states: seq<Agent>, acts: seq<Action>, k: nat, l: nat, u: nat)
    requires IsRun(states, acts) && k <= l < |states| && u < |states[k].jobs|
    ensures u < |states[l].jobs| && Rank(states[l].jobs[u]) + OwnSteps(acts, u, k, l) <= Rank(states[k].jobs[u])
    ensures OwnSteps(acts, u, k, l) <= MAX_STEPS
    ensures OwnSteps(acts, u, k, l) == Rank(states[k].jobs[u]) ==> states[l].jobs[u].phase.Sent?
    decreases l - k
  {
    hide Step, Rank, Moves, JobOk;
    if k < l {
      Reachable(states, acts, k);
      assert Step(states[k], acts[k]) == Some(states[k + 1]);
      StepLowersRank(states[k], acts[k], u);
      StepsAreBounded(states, acts, k + 1, l, u);
    }
  }

  /** Unless it waits for the permit another job holds, one of a job's own steps is
      possible, up to the sending of its result. */
  lemma EveryJobCanMove(j: Job, free: bool) returns (a: WorkerAction)
    requires JobOk(j) && !j.phase.Sent?
    requires j.phase.Waiting? ==> free || j.cancelled || j.inverted
    ensures Work(j, free, a).Some? && !a.Chunk? && !Delivers(a)
  {
    match j.phase
    case Waiting => a := if j.inverted then RejectInverted else if free then Acquire else CancelWaiting;
    case Holding => a := Spawn;
    case Fetching =>
      a := if j.producer.Running? then Exit(IoFailed) else if j.bytes then FirstChunk else NoChunk;
    case Uploading(accepted) =>
      a := if !accepted then UploadFails else if j.producer.Running? then Exit(IoFailed) else UploadEnds;
    case Stopping(upload, uploadError) => a := if j.producer.Running? then Exit(IoFailed) else StopEnds;
    case Finished(r) => a := Settle;
    case WorkerPanicked => a := if j.producer.Running? then Exit(IoFailed) else Settle;
    case Settled(r) => a := Send(false);
  }

  ghost predicate Still(s: Agent) {
    forall a: Action :: a.Run? && !a.a.Chunk? ==> Step(s, a).None?
  }

  predicate IsSent(s: Agent, u: nat) {
    u < |s.jobs| && s.jobs[u].phase.Sent?
  }

  /** In a reachable state no job can be given a step exactly if every job's result is
      sent. With the bound on steps, a run that goes on giving steps to jobs that can take
      one sends exactly one result for every job. */
  lemma StillIffAllSent(states: seq<Agent>, acts: seq<Action>, k: nat)
    requires IsRun(states, acts) && k < |states|
    ensures Still(states[k]) <==> forall u :: 0 <= u < |states[k].jobs| ==> IsSent(states[k], u)
  {
    var s := states[k];
    Reachable(states, acts, k);
    hide IsRun, Work, JobOk;
    if u: nat :| u < |s.jobs| && !IsSent(s, u) {
      var v := WhoCanMove(s, u);
      var w := EveryJobCanMove(s.jobs[v], s.permit.None?);
      assert Step(s, Run(v, w)).Some?;
    } else {
      forall a: Action | a.Run? && !a.a.Chunk? ensures Step(s, a).None? {
        if a.job < |s.jobs| {
          assert IsSent(s, a.job);
          SentIsOver(s.jobs[a.job], s.permit.None?, a.a);
        }
      }
    }
  }

  /** The job itself, or the one that holds the permit it waits for. */
  lemma WhoCanMove(s: Agent, u: nat) returns (v: nat)
    requires Inv(s) && u < |s.jobs| && !s.jobs[u].phase.Sent?
    ensures v < |s.jobs| && JobOk(s.jobs[v]) && !s.jobs[v].phase.Sent? && s.jobs[v].conn < |s.tables|
    ensures s.jobs[v].phase.Waiting? ==> s.permit.None?
  {
    v := if s.permit.Some? && s.jobs[u].phase.Waiting? then s.permit.value else u;
    assert JobOk(s.jobs[v]);
  }

  lemma SentIsOver(j: Job, free: bool, a: WorkerAction)
    requires j.phase.Sent? && !a.Chunk? && JobOk(j)
    ensures Work(j, free, a).None?
  {
  }

  // ----- the connection object

  datatype MessageOutcome = Continue | Break

  function CancelledOn(s: Agent, c: nat): set<nat> {
    set u | 0 <= u < |s.jobs| && s.jobs[u].conn == c && s.jobs[u].cancelled
  }

  /** What a message does to the latest connection. */
  lemma WhatAMessageDoes(s: Agent, m: ServerMessage)
    requires TablesOk(s) && s.live && |s.tables| > 0
    ensures var c, t := |s.tables| - 1, Received(s, m);
      var e := Handle(s.control, s.tables[c], m);
      && |t.tables| == |s.tables|
      && t.tables[c] == (if e.Starts? then s.tables[c][e.id := Entry(e.token, |s.jobs|)] else s.tables[c])
      && (if e.Fatal? then t.control == s.control else Some(t.control) == Accept(s.control, m))
      && (e.Fatal? ==> t == Disconnected(s))
      && (!e.Fatal? ==> CancelledOn(t, c) == CancelledOn(s, c) + if e.Cancels? then {e.job} else {})
  {
    hide TablesOk, CancelledOn, Handle, Accept;
    var c, t := |s.tables| - 1, Received(s, m);
    WhatIsAccepted(s.control, s.tables[c], m);
    match Handle(s.control, s.tables[c], m)
    case Fatal =>
    case Nothing => SameCancelled(s, t, c);
    case Starts(id, token, inverted) => SameCancelled(s, t, c);
    case Cancels(u) =>
      CancelsMeans(s.control, s.tables[c], m);
      EntryMeans(s, c, m.id);
      OneMoreCancelled(s, u, c);
  }

  lemma WhatIsAccepted(c: ControlState, t: Table, m: ServerMessage)
    ensures !Handle(c, t, m).Fatal? ==> Accept(c, m).Some?
    ensures Handle(c, t, m).Starts? || Handle(c, t, m).Cancels? ==> Accept(c, m) == Some(c)
  {
  }

  lemma SameCancelled(s: Agent, t: Agent, c: nat)
    requires |s.jobs| <= |t.jobs| && forall u :: 0 <= u < |s.jobs| ==> t.jobs[u] == s.jobs[u]
    requires forall u :: |s.jobs| <= u < |t.jobs| ==> !t.jobs[u].cancelled
    ensures CancelledOn(t, c) == CancelledOn(s, c)
  {
  }

  lemma OneMoreCancelled(s: Agent, u: nat, c: nat)
    requires u < |s.jobs| && s.jobs[u].conn == c
    ensures CancelledOn(CancelOne(s, u), c) == CancelledOn(s, c) + {u}
  {
  }

  /** The jobs in a table. */
  function Listed(t: Table): set<nat> {
    set id | id in t :: t[id].job
  }

  lemma WhatTheEndDoes(s: Agent)
    requires TablesOk(s) && |s.tables| > 0
    ensures var c := |s.tables| - 1;
      CancelledOn(Disconnected(s), c) == CancelledOn(s, c) + Listed(s.tables[c])
  {
    hide TablesOk, CancelledOn, Disconnected, Listed;
    OnlyListedAreCancelled(s);
    ListedAreCancelled(s);
  }

  lemma OnlyListedAreCancelled(s: Agent)
    requires TablesOk(s) && |s.tables| > 0
    ensures var c := |s.tables| - 1;
      CancelledOn(Disconnected(s), c) <= CancelledOn(s, c) + Listed(s.tables[c])
  {
    hide TablesOk, CancelledOn, Disconnected;
    var c := |s.tables| - 1;
    forall u | u in CancelledOn(Disconnected(s), c) ensures u in CancelledOn(s, c) + Listed(s.tables[c]) {
      CancelledAtTheEnd(s, u);
    }
  }

  lemma ListedAreCancelled(s: Agent)
    requires TablesOk(s) && |s.tables| > 0
    ensures var c := |s.tables| - 1;
      CancelledOn(s, c) + Listed(s.tables[c]) <= CancelledOn(Disconnected(s), c)
  {
    hide TablesOk, CancelledOn, Disconnected;
    var c := |s.tables| - 1;
    forall u | u in CancelledOn(s, c) + Listed(s.tables[c]) ensures u in CancelledOn(Disconnected(s), c) {
      CancelledAtTheEnd(s, u);
    }
  }

  lemma CancelledAtTheEnd(s: Agent, u: nat)
    requires TablesOk(s) && |s.tables| > 0
    ensures var c := |s.tables| - 1;
      u in CancelledOn(Disconnected(s), c) <==>
        u in CancelledOn(s, c) || exists id :: id in s.tables[c] && s.tables[c][id].job == u
  {
    hide TablesOk;
    var c, t := |s.tables| - 1, Disconnected(s);
    if id :| id in s.tables[c] && s.tables[c][id].job == u {
      EntryMeans(s, c, id);
    }
    if u < |s.jobs| && s.jobs[u].conn == c && s.jobs[u].InTable() {
      OwnEntry(s, u);
    }
  }

  lemma OwnEntry(s: Agent, u: nat)
    requires TablesOk(s) && u < |s.jobs| && s.jobs[u].InTable() && s.jobs[u].conn < |s.tables|
    ensures s.jobs[u].id in s.tables[s.jobs[u].conn]
    ensures s.tables[s.jobs[u].conn][s.jobs[u].id] == Entry(s.jobs[u].token, u)
  {
  }

  lemma WhatSettlingDoes(s: Agent, u: nat, j: Job)
    requires |s.tables| > 0 && u < |s.jobs| && s.jobs[u].conn == |s.tables| - 1 && s.jobs[u].InTable()
    requires !j.InTable() && j.conn == s.jobs[u].conn && j.cancelled == s.jobs[u].cancelled
    ensures var c, t := |s.tables| - 1, Ran(s, u, j);
      && |t.tables| == |s.tables| && t.tables[c] == s.tables[c] - {s.jobs[u].id} && t.control == s.control
      && CancelledOn(t, c) == CancelledOn(s, c)
  {
    assert Ran(s, u, j).jobs == s.jobs[u := j];
  }

  lemma JobOfInv(s: Agent, u: nat)
    requires Inv(s) && u < |s.jobs|
    ensures JobOk(s.jobs[u])
  {
  }

  lemma TablesOfInv(s: Agent)
    requires Inv(s)
    ensures TablesOk(s)
  {
  }

  /** One connection: its handshake state and its job table. */
  class Connection {
    var control: ControlState
    var jobs: Table
    var cancelled: set<nat>

    /** The object stands for the latest connection of the agent `s`. */
    ghost predicate Represents(s: Agent)
      reads this
    {
      && Inv(s) && |s.tables| > 0
      && jobs == s.tables[|s.tables| - 1] && control == s.control && cancelled == CancelledOn(s, |s.tables| - 1)
    }

    constructor ()
      ensures control.AwaitingHello? && jobs == map[] && cancelled == {}
    {
      control, jobs, cancelled := AwaitingHello, map[], {};
    }

    /** `ControlState::accept` */
    method AcceptMessage(m: ServerMessage) returns (ok: bool)
      modifies this`control
      ensures ok == Accept(old(control), m).Some?
      ensures control == if ok then Accept(old(control), m).value else old(control)
    {
      match (control, m) {
        case (_, Undecodable) => ok := false;
        case (AwaitingHello, Hello(pcap)) =>
          control := Ready(pcap);
          ok := true;
        case (Ready(_), Hello(_)) => ok := false;
        case (_, Unknown) => ok := true;
        case (AwaitingHello, _) => ok := false;
        case (Ready(false), PcapRequest(_, _, _)) => ok := false;
        case (Ready(_), _) => ok := true;
      }
    }

    /** `start_job`: `job` is the identity of the job that a start would create. */
    method TryStart(id: string, token: string, job: nat) returns (r: StartJob)
      modifies this`jobs
      ensures r == Start(old(jobs), id, token)
      ensures id !in old(jobs) ==> (r.AtCapacity? <==> |old(jobs)| >= 16)
      ensures jobs == if r.Started? then old(jobs)[id := Entry(token, job)] else old(jobs)
    {
      if id in jobs {
        return if jobs[id].token == token then Duplicate else Conflict;
      }
      if |jobs| >= MAX_ACTIVE_JOBS {
        return AtCapacity;
      }
      jobs := jobs[id := Entry(token, job)];
      return Started;
    }

    /** `handle_message`, tied to the message step of the transition system. */
    method HandleMessage(m: ServerMessage, job: nat) returns (outcome: MessageOutcome, effect: Effect)
      modifies this
      ensures effect == Handle(old(control), old(jobs), m)
      ensures outcome == if effect.Fatal? then Break else Continue
      ensures if effect.Fatal? then control == old(control) else Some(control) == Accept(old(control), m)
      ensures jobs == if effect.Starts? then old(jobs)[effect.id := Entry(effect.token, job)] else old(jobs)
      ensures cancelled == if effect.Cancels? then old(cancelled) + {effect.job} else old(cancelled)
    {
      var accepted := AcceptMessage(m);
      if !accepted {
        return Break, Fatal;
      }
      match m {
        case PcapRequest(id, token, inverted) =>
          var r := TryStart(id, token, job);
          match r {
            case Started => return Continue, Starts(id, token, inverted);
            case Duplicate => return Continue, Nothing;
            case Conflict => return Break, Fatal;
            case AtCapacity => return Break, Fatal;
          }
        case Cancel(id, token) =>
          if id in jobs && jobs[id].token == token {
            cancelled := cancelled + {jobs[id].job};
            return Continue, Cancels(jobs[id].job);
          }
          return Continue, Nothing;
        case _ =>
          return Continue, Nothing;
      }
    }

    /** A message, and the end of the connection if it is a fatal one: what the protocol's
        step makes of the agent. */
    method Receive(m: ServerMessage, job: nat, ghost s: Agent) returns (outcome: MessageOutcome)
      requires Represents(s) && s.live && job == |s.jobs|
      modifies this
      ensures Represents(Received(s, m))
      ensures outcome.Break? <==> Handle(s.control, s.tables[|s.tables| - 1], m).Fatal?
    {
      hide Handle, Accept, Inv, TablesOk, CancelledOn, Received, Disconnected;
      ReceivedInv(s, m);
      TablesOfInv(s);
      WhatAMessageDoes(s, m);
      var effect;
      outcome, effect := HandleMessage(m, job);
      if outcome == Break {
        End(s);
      }
    }

    /** The supervisor's removal of a settled job: by id and token, which is the job's own
        entry. */
    method Settle(ghost s: Agent, ghost u: nat, ghost j: Job, id: string, token: string)
      requires Represents(s) && u < |s.jobs| && s.jobs[u].conn == |s.tables| - 1 && s.jobs[u].InTable()
      requires id == s.jobs[u].id && token == s.jobs[u].token
      requires j.phase.Settled? && Work(s.jobs[u], s.permit.None?, WorkerAction.Settle) == Some(j)
      modifies this`jobs
      ensures Represents(Ran(s, u, j))
    {
      hide Work, Ran, TablesOk, CancelledOn, PermitOk, CancelOk, JobOk;
      JobOfInv(s, u);
      hide JobsOk;
      WorkOk(s.jobs[u], s.permit.None?, WorkerAction.Settle);
      RanInv(s, u, WorkerAction.Settle);
      OwnEntry(s, u);
      WhatSettlingDoes(s, u, j);
      hide Inv;
      if id in jobs && jobs[id].token == token {
        jobs := jobs - {id};
      }
    }

    /** The end of the connection cancels every job in the table. */
    method End(ghost s: Agent)
      requires Represents(s)
      modifies this`cancelled
      ensures Represents(Disconnected(s))
    {
      hide Inv, TablesOk, CancelledOn;
      TablesOfInv(s);
      DisconnectedInv(s);
      WhatTheEndDoes(s);
      cancelled := cancelled + Listed(jobs);
    }
  }
}
