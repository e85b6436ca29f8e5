/**
 An upload from end to end (src/agent/channel.rs): the blocking producer fetches into the
 chunking writer while the HTTP client polls the body at the other end of the channel.
 */
module AgentUpload {
  import opened Common
  import opened Output
  import F = PcapFetch
  import X = PcapExtract
  import M = PcapMerge
  import W = PcapWanted
  import J = AgentJobs

  // ----- the producer

  function AsFetched(o: X.Outcome): J.Fetched {
    match o
    case Done(stats) => J.Ok(stats.packets, stats.truncated)
    case NoCandidateFiles => J.NoCandidates
    case NoMatch(_) => J.NoneMatched
    case FormatError => J.BadFormat
    case IoError => J.IoFailed
  }

  /** The result of an extraction whose output never failed, from what it was asked for, the
      files, and what stopped it: it is good if it was stopped or anything was wanted, and
      otherwise says whose fault it is that nothing was. */
  ghost predicate EndsAs(req: F.Request, groups: seq<seq<F.SpoolFile>>, stop: Option<F.Stop>, f: J.Fetched) {
    var begun, files := !W.FlowDoesNotCompile(req), Flatten(groups);
    var nothing := stop.None? && W.NothingWanted(req, groups);
    && (f.Ok? <==> begun && !nothing)
    && (f.BadFormat? <==> !begun || (nothing && W.ExpressionNowhereCompiles(req, groups)))
    && (f.NoCandidates? <==> begun && nothing && !W.SomeCapture(files))
    && (f.NoneMatched? <==>
          begun && nothing && W.SomeCapture(files) && !W.ExpressionNowhereCompiles(req, groups))
  }

  /** A good result counts the packets, and says whether the deadline or the cap cut any off. */
  predicate Counts(f: J.Fetched, sent: nat, all: nat, stop: Option<F.Stop>) {
    f.Ok? ==> f.packets == sent && f.truncated == (stop == Some(F.Deadline) || (stop.None? && sent < all))
  }

  /** The closure run by `spawn_blocking`: the fetch, the final flush, and the end of the
      writer. The result is an I/O error exactly if a write or flush has failed, unless the
      descriptor limit was met, and otherwise the one that the request and the files call
      for; if it is a good one, what was sent is exactly what the fetch emitted; and whatever
      happened, what was sent is a beginning of the unlimited run. */
  method Produce(req: F.Request, groups: seq<seq<F.SpoolFile>>, clock: nat -> F.Tick, out: Sink)
    returns (f: J.Fetched, ghost sent: nat, ghost looks: nat)
    requires out.upload && out.Valid() && out.accepted == []
    modifies out, out.tx
    ensures out.tx.Valid() && out.tx.dropped
    ensures out.failed ==> f.IoFailed? && (out.tx.closed || |out.tx.queue| == 8)
    ensures f.IoFailed? ==> out.failed || !F.Openable(groups)
    ensures !f.IoFailed? ==> EndsAs(req, groups, F.StoppedBy(clock, looks), f)
    ensures sent <= |F.Full(req, groups)| && Counts(f, sent, |F.Full(req, groups)|, F.StoppedBy(clock, looks))
    ensures f.Ok? ==> Flatten(out.tx.sent) == X.Bytes(F.Full(req, groups), sent)
    ensures J.Consistent(f, out.tx.sent != [], F.StoppedBy(clock, looks) == Some(F.Cancelled))
    ensures X.BeginsRun(F.Full(req, groups), Flatten(out.tx.sent))
  {
    hide F.Full, X.EmptyReport, X.Bytes, Flatten, Sink.Valid, Sink.Linked, Channel.Valid, F.Openable, W.NothingWanted,
         W.SomeCapture, W.ExpressionNowhereCompiles, F.TallyGroups;
    var r: X.Outcome;
    r, sent, looks := X.Fetch(req, groups, clock, out);
    ghost var full := F.Full(req, groups);
    f := AsFetched(r);
    if !r.IoError? && !W.FlowDoesNotCompile(req) {
      W.WhatAFetchReports(req, groups, clock, r, sent, looks, out.accepted);
    }
    if r.Done? {
      var flushed := out.Flush();
      if !flushed {
        f := J.IoFailed;
      }
    }
    NothingSent(full, sent);
    if out.Valid() {
      ValidIsLinked(out);
    }
    WhatWasSent(out, full, if r.IoError? then LongEnough(full, out.accepted) else sent);
    out.tx.DropSender();
  }

  /** What was sent by a sound output that has accepted a beginning of the run. */
  lemma WhatWasSent(out: Sink, full: seq<M.Tagged>, n: nat)
    requires out.upload && out.Linked() && n <= |full| && out.accepted <= X.Bytes(full, n)
    ensures out.tx.Valid() && X.BeginsRun(full, Flatten(out.tx.sent))
    ensures out.failed ==> out.tx.closed || |out.tx.queue| == 8
    ensures out.Valid() && out.accepted == [] ==> out.tx.sent == []
    ensures out.Valid() && out.accepted != [] ==> out.tx.sent != []
  {
    hide X.Bytes;
    assert Flatten(out.tx.sent) <= X.Bytes(full, n);
    if out.tx.sent != [] {
      assert out.tx.sent[0] in out.tx.sent;
      assert Flatten(out.tx.sent) == out.tx.sent[0] + Flatten(out.tx.sent[1..]);
    }
  }

  ghost function LongEnough(full: seq<M.Tagged>, b: seq<byte>): (n: nat)
    requires X.BeginsRun(full, b)
    ensures n <= |full| && b <= X.Bytes(full, n)
  {
    var n :| 0 <= n <= |full| && b <= X.Bytes(full, n);
    n
  }

  lemma NothingSent(full: seq<M.Tagged>, n: nat)
    requires n <= |full|
    ensures X.Bytes(full, n) == [] <==> n == 0
  {
    hide X.Bytes;
    assert X.Bytes(full, 0) == [] by {
      NoBytes(full);
    }
    if n > 0 {
      X.BytesMonotone(full, 0, n);
    }
  }

  lemma NoBytes(full: seq<M.Tagged>)
    ensures X.Bytes(full, 0) == []
  {
  }

  // ----- the whole upload

  /** An upload under any interleaving of producer and body polls: they strike whenever the
      writer turns to the channel, which is all that the two sides share, and after the
      writer is gone. If the fetch ends well and the body is polled to its end, the body is
      byte for byte what the fetch emitted; it is polled to its end unless the receiving
      side is cancelled or gone; and the body after any poll is a beginning of the final
      one and of the unlimited run. */
  method Upload(req: F.Request, groups: seq<seq<F.SpoolFile>>, clock: nat -> F.Tick, out: Sink)
    returns (f: J.Fetched, ghost sent: nat, ghost looks: nat)
    requires out.upload && out.Valid() && out.accepted == []
    modifies out, out.tx
    ensures out.failed ==> f.IoFailed?
    ensures f.IoFailed? ==> out.failed || !F.Openable(groups)
    ensures !f.IoFailed? ==> EndsAs(req, groups, F.StoppedBy(clock, looks), f)
    ensures sent <= |F.Full(req, groups)| && Counts(f, sent, |F.Full(req, groups)|, F.StoppedBy(clock, looks))
    ensures J.Consistent(f, out.tx.sent != [], F.StoppedBy(clock, looks) == Some(F.Cancelled))
    ensures f.Ok? && out.tx.complete ==>
      out.tx.body == X.Bytes(F.Full(req, groups), sent) && out.tx.bytes == |out.tx.body|
    ensures f.Ok? && sent > 0 && !out.tx.cancel && !out.tx.closed ==> out.tx.complete
    ensures f.Ok? ==> out.tx.body <= X.Bytes(F.Full(req, groups), sent)
    ensures forall i :: 0 <= i < |out.tx.bodies| ==> out.tx.bodies[i] <= out.tx.body
    ensures X.BeginsRun(F.Full(req, groups), out.tx.body)
  {
    hide F.Full, X.Bytes, Flatten, EndsAs, F.Openable, Counts;
    f, sent, looks := Produce(req, groups, clock, out);
    ghost var full := F.Full(req, groups);
    var tx := out.tx;
    NothingSent(full, sent);
    FlattenNothing<byte>();
    tx.RunOut();
    ghost var n := LongEnough(full, Flatten(tx.sent));
    assert tx.body <= X.Bytes(full, n);
  }

  lemma FlattenNothing<T>()
    ensures Flatten<T>([]) == []
  {
  }
}
