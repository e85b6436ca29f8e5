/**
 Which result a job reports (src/agent/channel.rs), said of the history of the run and not
 through the function that maps an extraction's end to a result: what the job had been
 through when its worker finished decides the code and the upload status, both ways.
 */
module AgentResults {
  import opened Common
  import opened AgentJobs

  /** The steps that job `u` has taken in the first `n` actions of a run. */
  function Past(acts: seq<Action>, u: nat, n: nat): set<WorkerAction>
    requires n <= |acts|
  {
    if n == 0 then {}
    else Past(acts, u, n - 1) + if acts[n - 1].Run? && acts[n - 1].job == u then {acts[n - 1].a} else {}
  }

  /** The steps that finish a worker. */
  predicate Ends(w: WorkerAction) {
    w in {RejectInverted, CancelWaiting, CancelHolding, NoChunk, UploadEnds, StopEnds, Panic}
  }

  /** The worker of job `u` finishes with the m-th action. */
  predicate Finishes(acts: seq<Action>, u: nat, m: nat) {
    m < |acts| && acts[m].Run? && acts[m].job == u && Ends(acts[m].a)
  }

  predicate Over(j: Job) {
    j.phase.Finished? || j.phase.WorkerPanicked? || j.phase.Settled? || j.phase.Sent?
  }

  // ----- the right result

  /** No panic, no inverted request, not cancelled, and no upload has failed. */
  predicate Clean(b: Job, past: set<WorkerAction>, w: WorkerAction) {
    w != Panic && !b.inverted && !b.cancelled && UploadFails !in past
  }

  predicate ProducerFailed(b: Job) {
    b.producer == Exited(BadFormat) || b.producer == Exited(IoFailed) || b.producer == Exited(ProducerPanicked)
  }

  /** What is reported of a job that was `b`, and had taken the steps `past`, when its worker
      finished with the step `w`. */
  predicate RightResult(b: Job, past: set<WorkerAction>, w: WorkerAction, r: Result) {
    && (r.code == Complete <==> Clean(b, past, w) && b.producer.Exited? && b.producer.fetched.Ok?)
    && (r.code == NoMatch <==> Clean(b, past, w) && b.producer == Exited(NoneMatched))
    && (r.code == NoCandidateFiles <==> Clean(b, past, w) && b.producer == Exited(NoCandidates))
    && (r.code == Cancelled <==> w != Panic && !b.inverted && b.cancelled)
    && (r.code == Error <==>
          || w == Panic
          || b.inverted
          || (!b.cancelled && (UploadFails in past || ProducerFailed(b))))
    && (r.upload == UploadComplete <==> w != Panic && UploadOk in past && CancelUploading !in past)
    && (r.upload == NoUpload <==> w == Panic || FirstChunk !in past)
  }

  // ----- what a phase says of the past

  predicate PastOk(j: Job, past: set<WorkerAction>) {
    && (j.phase.Waiting? || j.phase.Holding? || j.phase.Fetching? ==>
          FirstChunk !in past && UploadOk !in past && UploadFails !in past && CancelUploading !in past)
    && (j.phase.Uploading? ==>
          && FirstChunk in past && UploadFails !in past && CancelUploading !in past
          && (UploadOk in past <==> j.phase.accepted))
    && (j.phase.Stopping? ==>
          && (UploadFails in past <==> j.phase.uploadError)
          && (UploadOk in past ==> CancelUploading in past)
          && j.phase.upload == if FirstChunk in past then UploadFailed else NoUpload)
    && (j.phase.Waiting? || !j.inverted)
  }

  /** The result that a job is bound to report. */
  function ResultOf(j: Job): Result
    requires Over(j)
  {
    match j.phase
    case Finished(r) => r
    case Settled(r) => r
    case Sent(r, _) => r
    case _ => Result(Error, NoUpload)
  }

  lemma WorkOn(j: Job, free: bool, w: WorkerAction, past: set<WorkerAction>)
    requires !Over(j) && JobOk(j) && PastOk(j, past) && Work(j, free, w).Some?
    ensures var k := Work(j, free, w).value;
      && (Over(k) <==> Ends(w))
      && (Ends(w) ==> RightResult(j, past, w, ResultOf(k)))
      && (!Ends(w) ==> PastOk(k, past + {w}))
  {
  }

  /** Over is over: the result stays, and the worker has no step left to finish with. */
  lemma WorkAfter(j: Job, free: bool, w: WorkerAction)
    requires Over(j) && Work(j, free, w).Some?
    ensures var k := Work(j, free, w).value; Over(k) && ResultOf(k) == ResultOf(j)
    ensures !Ends(w)
  {
  }

  lemma CancelledLater(j: Job, past: set<WorkerAction>)
    ensures var k := j.(cancelled := true);
      && Over(k) == Over(j) && (PastOk(j, past) ==> PastOk(k, past))
      && (Over(j) ==> ResultOf(k) == ResultOf(j))
  {
  }

  /** What a step does to job `u`: its own step, or at most its cancellation. */
  lemma StepOn(s: Agent, a: Action, u: nat)
    requires Step(s, a).Some?
    ensures var t := Step(s, a).value;
      && |s.jobs| <= |t.jobs| <= |s.jobs| + 1
      && (u < |s.jobs| && a.Run? && a.job == u ==>
            Work(s.jobs[u], s.permit.None?, a.a) == Option.Some(t.jobs[u]))
      && (u < |s.jobs| && !(a.Run? && a.job == u) ==>
            t.jobs[u] == s.jobs[u] || t.jobs[u] == s.jobs[u].(cancelled := true))
      && (a.Run? ==> a.job < |s.jobs| && |t.jobs| == |s.jobs|)
      && (u == |s.jobs| < |t.jobs| ==> t.jobs[u].phase.Waiting?)
  {
    hide Work, Handle, Accept;
  }

  // ----- along a run

  /** Job `u` after `k` actions: not begun, under way, or finished at one moment `m`, and
      with the result that its history called for then. */
  ghost predicate Traced(states: seq<Agent>, acts: seq<Action>, u: nat, k: nat)
    requires IsRun(states, acts) && k < |states|
  {
    var jobs, past := states[k].jobs, Past(acts, u, k);
    if u >= |jobs| then
      past == {}
    else if !Over(jobs[u]) then
      PastOk(jobs[u], past) && forall m :: 0 <= m < k ==> !Finishes(acts, u, m)
    else
      exists m :: 0 <= m < k && Finished(states, acts, u, k, m)
  }

  ghost predicate Finished(states: seq<Agent>, acts: seq<Action>, u: nat, k: nat, m: nat)
    requires IsRun(states, acts) && k < |states| && u < |states[k].jobs| && Over(states[k].jobs[u]) && m < k
  {
    && Finishes(acts, u, m) && u < |states[m].jobs|
    && RightResult(states[m].jobs[u], Past(acts, u, m), acts[m].a, ResultOf(states[k].jobs[u]))
    && forall n :: 0 <= n < k && n != m ==> !Finishes(acts, u, n)
  }

  lemma PastNext(acts: seq<Action>, u: nat, k: nat)
    requires k < |acts|
    ensures var past := Past(acts, u, k);
      Past(acts, u, k + 1) == if acts[k].Run? && acts[k].job == u then past + {acts[k].a} else past
  {
    assert Past(acts, u, k) + {} == Past(acts, u, k);
  }

  lemma TraceOn(states: seq<Agent>, acts: seq<Action>, u: nat, k: nat)
    requires IsRun(states, acts) && k < |acts| && Traced(states, acts, u, k)
    ensures Traced(states, acts, u, k + 1)
  {
    hide Step, Work, JobOk, PastOk, RightResult, Past, ResultOf, Over, Ends, Inv;
    var s, t, past := states[k], states[k + 1], Past(acts, u, k);
    RunsOn(states, acts, k);
    StepOn(s, acts[k], u);
    PastNext(acts, u, k);
    if u < |s.jobs| {
      Reachable(states, acts, k);
      JobOfInv(s, u);
      CancelledLater(s.jobs[u], past);
      if Over(s.jobs[u]) {
        var m :| 0 <= m < k && Finished(states, acts, u, k, m);
        if acts[k].Run? && acts[k].job == u {
          WorkAfter(s.jobs[u], s.permit.None?, acts[k].a);
        }
        assert Finished(states, acts, u, k + 1, m);
      } else if acts[k].Run? && acts[k].job == u {
        WorkOn(s.jobs[u], s.permit.None?, acts[k].a, past);
        if Ends(acts[k].a) {
          assert Finished(states, acts, u, k + 1, k);
        }
      }
    } else if u < |t.jobs| {
      NotBegun(t.jobs[u], past);
      NothingFinished(acts, u, k + 1);
    }
  }

  lemma RunsOn(states: seq<Agent>, acts: seq<Action>, k: nat)
    requires IsRun(states, acts) && k < |acts|
    ensures k + 1 < |states| && Step(states[k], acts[k]) == Option.Some(states[k + 1])
  {
  }

  lemma NotBegun(j: Job, past: set<WorkerAction>)
    requires j.phase.Waiting? && past == {}
    ensures !Over(j) && PastOk(j, past)
  {
  }

  lemma {:induction false} NothingFinished(acts: seq<Action>, u: nat, k: nat)
    requires k <= |acts| && Past(acts, u, k) == {}
    ensures forall m :: 0 <= m < k ==> !Finishes(acts, u, m)
  {
    if k > 0 {
      PastNext(acts, u, k - 1);
      NothingFinished(acts, u, k - 1);
    }
  }

  lemma {:induction false} Trace(states: seq<Agent>, acts: seq<Action>, u: nat, k: nat)
    requires IsRun(states, acts) && k < |states|
    ensures Traced(states, acts, u, k)
    decreases k
  {
    hide Traced, Step;
    if k == 0 {
      Untouched(states, acts, u);
    } else {
      Trace(states, acts, u, k - 1);
      TraceOn(states, acts, u, k - 1);
    }
  }

  lemma Untouched(states: seq<Agent>, acts: seq<Action>, u: nat)
    requires IsRun(states, acts)
    ensures Traced(states, acts, u, 0)
  {
    hide Step;
  }

  /** Every result of every run is the right one: its job's worker finished before, at one
      moment only, and what the job was and had been through at that moment decides the code
      and the upload status, each exactly. */
  lemma ResultIsDecided(states: seq<Agent>, acts: seq<Action>, u: nat, k: nat, r: Result) returns (m: nat)
    requires IsRun(states, acts) && k < |states| && u < |states[k].jobs| && HasResult(states[k].jobs[u], r)
    ensures m < k && Finishes(acts, u, m) && u < |states[m].jobs|
    ensures forall n :: 0 <= n < k && Finishes(acts, u, n) ==> n == m
    ensures RightResult(states[m].jobs[u], Past(acts, u, m), acts[m].a, r)
  {
    hide IsRun, RightResult, Past;
    Trace(states, acts, u, k);
    m :| 0 <= m < k && Finished(states, acts, u, k, m);
  }

  lemma StepKeepsCancelled(s: Agent, a: Action, u: nat)
    requires Step(s, a).Some? && IsCancelled(s, u)
    ensures IsCancelled(Step(s, a).value, u)
  {
    hide Step, Work;
    StepOn(s, a, u);
    if a.Run? && a.job == u {
      WorkKeepsCancelled(s.jobs[u], s.permit.None?, a.a);
    }
  }

  lemma {:induction false} StaysCancelled(states: seq<Agent>, acts: seq<Action>, u: nat, k: nat, l: nat)
    requires IsRun(states, acts) && k <= l < |states| && IsCancelled(states[k], u)
    ensures IsCancelled(states[l], u)
    decreases l - k
  {
    hide Step, IsCancelled;
    if k < l {
      RunsOn(states, acts, k);
      StepKeepsCancelled(states[k], acts[k], u);
      StaysCancelled(states, acts, u, k + 1, l);
    }
  }

  lemma WorkKeepsInverted(j: Job, free: bool, w: WorkerAction)
    requires Work(j, free, w).Some?
    ensures Work(j, free, w).value.inverted == j.inverted
  {
  }

  lemma {:induction false} StaysInverted(states: seq<Agent>, acts: seq<Action>, u: nat, k: nat, l: nat)
    requires IsRun(states, acts) && k <= l < |states| && u < |states[k].jobs|
    ensures u < |states[l].jobs| && states[l].jobs[u].inverted == states[k].jobs[u].inverted
    decreases l - k
  {
    hide Step, Work;
    if k < l {
      RunsOn(states, acts, k);
      StepOn(states[k], acts[k], u);
      if acts[k].Run? && acts[k].job == u {
        WorkKeepsInverted(states[k].jobs[u], states[k].permit.None?, acts[k].a);
      }
      StaysInverted(states, acts, u, k + 1, l);
    }
  }

  /** A job that is cancelled before its worker finishes is reported cancelled, unless the
      worker panicked or the request was inverted; and then it is reported an error. */
  lemma CancelledInTimeIsReported(states: seq<Agent>, acts: seq<Action>, u: nat, i: nat, k: nat, r: Result)
    requires IsRun(states, acts) && i <= k < |states| && u < |states[k].jobs| && HasResult(states[k].jobs[u], r)
    requires IsCancelled(states[i], u) && !Over(states[i].jobs[u])
    ensures r.code == if states[k].jobs[u].inverted || Run(u, Panic) in acts[..k] then Error else Cancelled
  {
    hide Past, Step, HasResult;
    var m := ResultIsDecided(states, acts, u, k, r);
    Trace(states, acts, u, i);
    assert i <= m;
    StaysCancelled(states, acts, u, i, m);
    StaysInverted(states, acts, u, m, k);
    if Run(u, Panic) in acts[..k] {
      var n :| 0 <= n < k && acts[n] == Run(u, Panic);
      assert Finishes(acts, u, n);
    }
  }

  // ----- every result is reached

  /** The job after these steps of its own, while the permit is to be had. */
  function Works(j: Job, steps: seq<WorkerAction>): Option<Job>
    decreases |steps|
  {
    if steps == [] then
      Option.Some(j)
    else
      match Work(j, true, steps[0])
      case None => Option.None
      case Some(k) => Works(k, steps[1..])
  }

  /** The steps can be taken and lead to this result. */
  predicate Reports(j: Job, steps: seq<WorkerAction>, code: Code, upload: Upload) {
    var k := Works(j, steps);
    k.Some? && k.value.phase == Settled(Result(code, upload))
  }

  lemma {:induction false} WorksOn(j: Job, a: seq<WorkerAction>, b: seq<WorkerAction>)
    ensures Works(j, a + b) == if Works(j, a).Some? then Works(Works(j, a).value, b) else Option.None
    decreases |a|
  {
    hide Work;
    if a == [] {
      assert a + b == b;
    } else {
      Onward(a, b);
      if Work(j, true, a[0]).Some? {
        WorksOn(Work(j, true, a[0]).value, a[1..], b);
      }
    }
  }

  /** A job that has just been started, neither inverted nor cancelled. */
  predicate Fresh(j: Job) {
    && j.phase.Waiting? && j.producer.NotStarted? && !j.stopped && !j.bytes
    && !j.inverted && !j.cancelled
  }

  const LAUNCH: seq<WorkerAction> := [Acquire, Spawn]
  const UPLOAD: seq<WorkerAction> := [Chunk, FirstChunk]

  lemma OneStep(j: Job, a: WorkerAction)
    ensures Works(j, [a]) == Work(j, true, a)
  {
    hide Work;
    assert [a][1..] == [];
  }

  lemma TwoSteps(j: Job, a: WorkerAction, b: WorkerAction)
    ensures Works(j, [a, b]) == if Work(j, true, a).Some? then Work(Work(j, true, a).value, true, b) else Option.None
  {
    hide Work;
    OneStep(j, a);
    assert [a, b][1..] == [b];
    if Work(j, true, a).Some? {
      OneStep(Work(j, true, a).value, b);
    }
  }

  /** The job while its extraction runs, and while its upload does. */
  lemma Launched(j: Job)
    requires j.phase.Waiting? && !j.inverted
    ensures Works(j, LAUNCH) == Option.Some(j.(phase := Fetching, producer := Running))
    ensures Works(j, LAUNCH + UPLOAD) == Option.Some(j.(phase := Uploading(false), producer := Running, bytes := true))
  {
    hide Works;
    TwoSteps(j, Acquire, Spawn);
    WorksOn(j, LAUNCH, UPLOAD);
    TwoSteps(j.(phase := Fetching, producer := Running), Chunk, FirstChunk);
  }

  /** From an intermediate state two more steps, and two more. */
  lemma ThenFour(j: Job, before: seq<WorkerAction>, a: WorkerAction, b: WorkerAction, c: WorkerAction, d: WorkerAction)
    requires Works(j, before).Some?
    requires Works(Works(j, before).value, [a, b]).Some?
    ensures Works(j, before + [a, b] + [c, d]) == Works(Works(Works(j, before).value, [a, b]).value, [c, d])
  {
    hide Works;
    WorksOn(j, before, [a, b]);
    WorksOn(j, before + [a, b], [c, d]);
  }

  /** How a job comes to each of its results. An extraction that ends well and is uploaded is
      complete; one that wrote nothing reports what the extraction ended with; a failed
      upload is an error however the extraction ends. */
  lemma UploadedIsReported(j: Job, f: Fetched)
    requires Fresh(j)
    ensures f.Ok? ==> Reports(j, LAUNCH + UPLOAD + [UploadOk, Exit(f)] + [UploadEnds, Settle], Complete, UploadComplete)
    ensures f.Ok? || f == IoFailed || f == ProducerPanicked ==>
      Reports(j, LAUNCH + UPLOAD + [UploadFails, Exit(f)] + [StopEnds, Settle], Error, UploadFailed)
  {
    hide Works;
    if f.Ok? || f == IoFailed || f == ProducerPanicked {
      Launched(j);
      var k := j.(phase := Uploading(false), producer := Running, bytes := true);
      if f.Ok? {
        TwoSteps(k, UploadOk, Exit(f));
        ThenFour(j, LAUNCH + UPLOAD, UploadOk, Exit(f), UploadEnds, Settle);
        TwoSteps(k.(phase := Uploading(true), producer := Exited(f)), UploadEnds, Settle);
      }
      TwoSteps(k, UploadFails, Exit(f));
      ThenFour(j, LAUNCH + UPLOAD, UploadFails, Exit(f), StopEnds, Settle);
      TwoSteps(k.(phase := Stopping(UploadFailed, true), stopped := true, producer := Exited(f)), StopEnds, Settle);
    }
  }

  lemma NothingWrittenIsReported(j: Job, f: Fetched)
    requires Fresh(j) && (f.Ok? ==> f == Fetched.Ok(0, true))
    ensures Reports(j, LAUNCH + [Exit(f), NoChunk] + [Settle], match f
                    case Ok(_, _) => Complete
                    case NoneMatched => NoMatch
                    case NoCandidates => NoCandidateFiles
                    case _ => Error, NoUpload)
  {
    hide Works;
    Launched(j);
    var k := j.(phase := Fetching, producer := Running);
    TwoSteps(k, Exit(f), NoChunk);
    WorksOn(j, LAUNCH, [Exit(f), NoChunk]);
    WorksOn(j, LAUNCH + [Exit(f), NoChunk], [Settle]);
    OneStep(Works(k, [Exit(f), NoChunk]).value, Settle);
  }

  /** Cancelled at any point before its end, a job can come to its result at once, but for
      the producer that it has to wait for. */
  lemma CancelledIsReported(j: Job, f: Fetched)
    requires Fresh(j.(cancelled := false)) && j.cancelled && (f.Ok? || f == IoFailed || f == ProducerPanicked)
    ensures Reports(j, [CancelWaiting, Settle], Cancelled, NoUpload)
    ensures Reports(j, [Acquire, CancelHolding] + [Settle], Cancelled, NoUpload)
    ensures Reports(j, LAUNCH + [CancelFetching, Exit(Fetched.Ok(0, false))] + [StopEnds, Settle], Cancelled, NoUpload)
    ensures Reports(j, LAUNCH + UPLOAD + [CancelUploading, Exit(f)] + [StopEnds, Settle], Cancelled, UploadFailed)
    ensures Reports(j.(inverted := true), [RejectInverted, Settle], Error, NoUpload)
  {
    hide Works;
    TwoSteps(j, CancelWaiting, Settle);
    TwoSteps(j, Acquire, CancelHolding);
    WorksOn(j, [Acquire, CancelHolding], [Settle]);
    OneStep(Works(j, [Acquire, CancelHolding]).value, Settle);
    Launched(j);
    var k := j.(phase := Fetching, producer := Running);
    var nothing := Fetched.Ok(0, false);
    TwoSteps(k, CancelFetching, Exit(nothing));
    ThenFour(j, LAUNCH, CancelFetching, Exit(nothing), StopEnds, Settle);
    TwoSteps(k.(phase := Stopping(NoUpload, false), stopped := true, producer := Exited(nothing)), StopEnds, Settle);
    var l := j.(phase := Uploading(false), producer := Running, bytes := true);
    TwoSteps(l, CancelUploading, Exit(f));
    ThenFour(j, LAUNCH + UPLOAD, CancelUploading, Exit(f), StopEnds, Settle);
    TwoSteps(l.(phase := Stopping(UploadFailed, false), stopped := true, producer := Exited(f)), StopEnds, Settle);
    TwoSteps(j.(inverted := true), RejectInverted, Settle);
  }

  /** A worker may panic in any of its phases, and the job's result is then an error; what its
      upload was is not known. */
  lemma PanicIsReported(j: Job)
    requires !Over(j) && !j.producer.Running?
    ensures Reports(j, [Panic, Settle], Error, NoUpload)
  {
    TwoSteps(j, Panic, Settle);
  }

  /** While its connection lasts, a settled job's result can be written to it. */
  lemma ResultCanBeDelivered(s: Agent, u: nat)
    requires s.live && u < |s.jobs| && s.jobs[u].phase.Settled? && s.jobs[u].conn == |s.tables| - 1
    ensures var next := Step(s, Run(u, Send(true)));
      && next.Some? && next.value.wire == s.wire + [Delivery(s.jobs[u].conn, u)]
      && u < |next.value.jobs| && next.value.jobs[u].phase == Sent(s.jobs[u].phase.result, true)
  {
  }
}
