/**
 What a fetch writes to. In an upload (src/agent/channel.rs) that is the chunking writer,
 behind it a bounded channel, and at the other end the stream that is the HTTP body, which
 the other threads poll whenever they like.
 */
module Output {
  import opened Common

  const CHUNK_SIZE: nat := 64 * 1024
  const UPLOAD_CHANNEL_CAPACITY: nat := 8

  datatype Attempt = Queued | NoRoom | ReceiverGone

  datatype Poll = Pending | Chunk(data: seq<byte>) | End | Aborted

  /** The `mpsc` channel and the owner of its receiving end: `run_job` until it has the
      first chunk, `UploadBodyStream` from then on. */
  class Channel {
    var queue: seq<seq<byte>>
    /** The receiver is gone; the sender is gone. */
    var closed: bool
    var dropped: bool
    /** `UploadBodyStream`, once there is one. */
    var streaming: bool
    var first: Option<seq<byte>>
    var cancel: bool
    var bytes: nat
    var stopped: bool
    ghost var sent: seq<seq<byte>>
    ghost var received: seq<seq<byte>>
    /** The HTTP body so far, what it was after every poll, and whether the stream ended
        without being cancelled. */
    ghost var body: seq<byte>
    ghost var bodies: seq<seq<byte>>
    ghost var complete: bool

    ghost predicate Valid()
      reads this
    {
      && sent == received + queue && |queue| <= UPLOAD_CHANNEL_CAPACITY
      && (forall c :: c in sent ==> 0 < |c| <= CHUNK_SIZE)
      && bytes == |body|
      && Flatten(received) == body + (if first.Some? then first.value else [])
      && (first.Some? ==> 0 < |first.value| <= CHUNK_SIZE)
      && (!streaming ==> received == [] && first.None? && !stopped)
      && (forall i :: 0 <= i < |bodies| ==> bodies[i] <= body)
      && (stopped ==> complete || cancel)
      && (complete ==> stopped && dropped && first.None? && queue == [])
    }

    constructor ()
      ensures Valid() && sent == [] && bodies == [] && !closed && !dropped && !cancel && !streaming
    {
      queue, closed, dropped, streaming, first, cancel, bytes, stopped
        := [], false, false, false, None, false, 0, false;
      sent, received, body, bodies, complete := [], [], [], [], false;
    }

    /** `try_send`, while the sender is there. */
    method TrySend(chunk: seq<byte>) returns (a: Attempt)
      requires Valid() && !dropped && 0 < |chunk| <= CHUNK_SIZE
      modifies this`queue, this`sent
      ensures Valid()
      ensures a == if closed then ReceiverGone else if |old(queue)| == 8 then NoRoom else Queued
      ensures a.NoRoom? ==> queue == old(queue)
      ensures sent == if a.Queued? then old(sent) + [chunk] else old(sent)
    {
      if closed {
        return ReceiverGone;
      }
      if |queue| == UPLOAD_CHANNEL_CAPACITY {
        return NoRoom;
      }
      Regroup(received, queue, [chunk]);
      queue, sent := queue + [chunk], sent + [chunk];
      return Queued;
    }

    /** The writer is dropped: nothing is sent any more. */
    method DropSender()
      requires Valid()
      modifies this`dropped
      ensures Valid() && dropped
    {
      dropped := true;
    }

    /** `run_job` gets the first chunk and makes the stream; without one there is no
        upload. */
    method ReceiveFirst() returns (p: Poll)
      requires Valid() && !streaming
      modifies this`streaming, this`first, this`queue, this`received
      ensures Valid() && streaming == (old(queue) != []) == p.Chunk?
      ensures p.End? ==> dropped && sent == []
      ensures p.Pending? ==> !dropped
      ensures !p.Aborted?
    {
      if queue != [] {
        TakeChunk();
        return Chunk(first.value);
      }
      return if dropped then End else Pending;
    }

    method TakeChunk()
      requires Valid() && queue != [] && first.None? && !stopped
      modifies this`streaming, this`first, this`queue, this`received
      ensures Valid() && streaming && first == Some(old(queue)[0]) && queue == old(queue)[1..]
    {
      var chunk := queue[0];
      assert chunk in sent;
      FlattenSnoc(received, chunk);
      assert queue == [chunk] + queue[1..];
      Regroup(received, [chunk], queue[1..]);
      NothingMore(body);
      received, queue, first, streaming := received + [chunk], queue[1..], Some(chunk), true;
    }

    /** `poll_next`: chunks come out in the order sent, and the stream ends normally only
        after the sender is gone and the channel is drained. */
    method PollNext() returns (p: Poll)
      requires Valid() && streaming
      modifies this`first, this`bytes, this`stopped, this`body, this`bodies, this`complete, this`queue, this`received,
               this`streaming
      ensures Valid() && streaming
      ensures body == old(body) + (if p.Chunk? then p.data else []) && bodies == old(bodies) + [body]
      ensures p.Chunk? ==> !old(stopped) && !cancel && 0 < |p.data| <= CHUNK_SIZE
      ensures p.Chunk? ==> |queue| + (if first.Some? then 1 else 0) < |old(queue)| + (if old(first).Some? then 1 else 0)
      ensures p.Aborted? <==> !old(stopped) && cancel
      ensures p.Pending? <==> !old(stopped) && !cancel && old(first).None? && old(queue) == [] && !dropped
      ensures old(stopped) ==> p.End?
      ensures stopped <==> p.End? || p.Aborted?
      ensures p.End? && !old(stopped) ==> complete
    {
      hide Flatten;
      NothingMore(body);
      if stopped {
        p := End;
      } else if cancel {
        stopped := true;
        p := Aborted;
      } else {
        p := NextChunk();
      }
      bodies := bodies + [body];
    }

    /** The next chunk, the end, or nothing yet. */
    method NextChunk() returns (p: Poll)
      requires Valid() && streaming && !stopped && !cancel
      modifies this`first, this`bytes, this`stopped, this`body, this`complete, this`queue, this`received, this`streaming
      ensures Valid() && streaming && !p.Aborted?
      ensures body == old(body) + if p.Chunk? then p.data else []
      ensures p.Chunk? ==> 0 < |p.data| <= CHUNK_SIZE
      ensures p.Chunk? ==> |queue| + (if first.Some? then 1 else 0) < |old(queue)| + (if old(first).Some? then 1 else 0)
      ensures p.Pending? <==> old(first).None? && old(queue) == [] && !dropped
      ensures stopped <==> p.End?
      ensures p.End? ==> complete
    {
      hide Flatten;
      NothingMore(body);
      if first.None? && queue != [] {
        TakeChunk();
      }
      if first.Some? {
        p := Chunk(first.value);
        Deliver();
      } else if dropped {
        stopped, complete := true, true;
        p := End;
      } else {
        p := Pending;
      }
    }

    /** The chunk at hand becomes part of the body. */
    method Deliver()
      requires Valid() && streaming && !stopped && first.Some?
      modifies this`first, this`bytes, this`body
      ensures Valid() && first.None? && body == old(body) + old(first).value
    {
      hide Flatten;
      NothingMore(body + first.value);
      assert forall i :: 0 <= i < |bodies| ==> bodies[i] <= body + first.value;
      body, bytes, first := body + first.value, bytes + |first.value|, None;
    }

    /** A stream that ended normally was everything that was sent. */
    lemma CompleteBody()
      requires Valid()
      ensures complete ==> body == Flatten(sent)
      ensures body <= Flatten(sent)
    {
      FlattenConcat(received, queue);
      NothingMore(received);
      NothingMore(body);
      if first.Some? {
        Regroup(body, first.value, Flatten(queue));
      }
    }

    /** The other threads run for a while: they receive, poll, cancel or go away. */
    method Elsewhere()
      requires Valid()
      modifies this
      ensures Valid() && sent == old(sent) && dropped == old(dropped) && old(bodies) <= bodies
    {
      hide Flatten;
      var steps: nat := *;
      while steps > 0
        invariant Valid() && sent == old(sent) && dropped == old(dropped) && old(bodies) <= bodies
      {
        steps := steps - 1;
        if closed {
          return;
        } else if * {
          closed := true;
        } else if * {
          cancel := true;
        } else if streaming {
          var _ := PollNext();
        } else {
          var _ := ReceiveFirst();
        }
      }
    }

    /** The rest of what the receiving side does once the sender is gone: it may be
        cancelled or go away at any point, and otherwise polls to the end. */
    method RunOut()
      requires Valid() && dropped
      modifies this
      ensures Valid() && sent == old(sent) && old(bodies) <= bodies
      ensures body <= Flatten(sent) && (complete ==> body == Flatten(sent))
      ensures sent != [] && !cancel && !closed ==> complete
    {
      hide Flatten;
      Elsewhere();
      if !cancel && !closed {
        var p := Chunk([]);
        if !streaming {
          p := ReceiveFirst();
        }
        if !p.End? {
          PollToEnd();
        }
      }
      CompleteBody();
    }

    /** Polled on and on after the sender is gone, an uncancelled stream ends normally. */
    method PollToEnd()
      requires Valid() && dropped && streaming && !cancel
      modifies this
      ensures Valid() && complete && body == Flatten(sent)
      ensures sent == old(sent) && dropped && !cancel && closed == old(closed) && old(bodies) <= bodies
    {
      while !stopped
        invariant Valid() && dropped && streaming && !cancel
        invariant sent == old(sent) && closed == old(closed) && old(bodies) <= bodies
        decreases !stopped, |queue| + if first.Some? then 1 else 0
      {
        var _ := PollNext();
      }
      CompleteBody();
    }
  }

  /** The `dyn Write` of a fetch. With `upload` it is `ChannelWriter`; without, any other,
      of which it is known that a write may accept only some prefix of the bytes and fail,
      unless the writer is `reliable`. */
  class Sink {
    const upload: bool
    const reliable: bool
    const tx: Channel
    var buffer: seq<byte>
    var firstSent: bool
    /** The output of any other writer; of `ChannelWriter`, all that was written to it. */
    var accepted: seq<byte>
    /** Some write or flush has failed. */
    ghost var failed: bool

    /** What was sent is part of what was accepted, also after a failure; and an upload
        fails only with the receiver gone or the channel full. */
    ghost predicate Linked()
      reads this, tx
    {
      && tx.Valid() && (upload ==> Flatten(tx.sent) <= accepted)
      && (failed ==> !reliable) && (failed && upload ==> tx.closed || |tx.queue| == 8)
    }

    /** What was sent and what is buffered are together what was accepted, and the first
        bytes accepted have been sent. */
    ghost predicate Valid()
      reads this, tx
    {
      && tx.Valid() && !failed
      && (upload ==>
            && !tx.dropped && !reliable
            && |buffer| < CHUNK_SIZE && accepted == Flatten(tx.sent) + buffer
            && firstSent == (tx.sent != [])
            && (!firstSent ==> buffer == []))
    }

    constructor (reliable: bool)
      ensures Valid() && accepted == [] && this.reliable == reliable && !upload && fresh(tx)
    {
      this.reliable, upload, buffer, firstSent, accepted := reliable, false, [], false, [];
      failed := false;
      tx := new Channel();
    }

    constructor Upload(tx: Channel)
      requires tx.Valid() && tx.sent == [] && !tx.dropped
      ensures Valid() && accepted == [] && upload && this.tx == tx
    {
      this.reliable, upload, buffer, firstSent, accepted := false, true, [], false, [];
      failed := false;
      this.tx := tx;
    }

    /** `write_all` */
    method WriteAll(b: seq<byte>) returns (ok: bool)
      requires Valid()
      modifies this, tx
      ensures reliable ==> ok
      ensures failed == !ok
      ensures ok ==> Valid() && accepted == old(accepted) + b
      ensures !ok ==> Linked() && old(accepted) <= accepted <= old(accepted) + b
    {
      if upload {
        ok := Write(b);
      } else {
        ok := reliable;
        if !ok {
          ok := *;
        }
        var k: nat :| k <= |b| && (ok ==> k == |b|);
        accepted, failed := accepted + b[..k], !ok;
      }
    }

    method Flush() returns (ok: bool)
      requires Valid()
      modifies this, tx
      ensures reliable ==> ok
      ensures failed == !ok
      ensures accepted == old(accepted)
      ensures ok ==> Valid() && (upload ==> buffer == [] && Flatten(tx.sent) == accepted)
      ensures !ok ==> Linked()
    {
      if upload {
        hide Flatten;
        ghost var chunk, before := buffer, tx.sent;
        ok := Push();
        FlattenSnoc(before, chunk);
        NothingMore(Flatten(before));
        NothingMore(accepted);
      } else {
        ok := reliable;
        if !ok {
          ok := *;
        }
      }
      failed := !ok;
    }

    /** `push`: hand the buffer to the channel, waiting while it is full; a closed channel,
        a cancellation or a stall drop the chunk and fail the write: it fails only with the
        receiver gone or the channel full. */
    method Push() returns (ok: bool)
      requires tx.Valid() && !tx.dropped && |buffer| <= CHUNK_SIZE
      modifies this`buffer, this`firstSent, tx
      ensures tx.Valid() && !tx.dropped && buffer == []
      ensures ok ==> tx.sent == if old(buffer) == [] then old(tx.sent) else old(tx.sent) + [old(buffer)]
      ensures ok ==> firstSent == (old(firstSent) || old(buffer) != [])
      ensures !ok ==> tx.sent == old(tx.sent) && old(buffer) != []
      ensures !ok ==> tx.closed || |tx.queue| == 8
    {
      if buffer == [] {
        return true;
      }
      var chunk := buffer;
      buffer := [];
      var patience: nat := *;
      while true
        invariant tx.Valid() && !tx.dropped && tx.sent == old(tx.sent) && buffer == [] && firstSent == old(firstSent)
        decreases patience
      {
        tx.Elsewhere();
        var a := tx.TrySend(chunk);
        match a {
          case Queued =>
            firstSent := true;
            return true;
          case ReceiverGone =>
            return false;
          case NoRoom =>
            if patience == 0 {
              return false;
            }
            patience := patience - 1;
        }
      }
    }

    /** `write`: a success accepts all of `data`, and the very first bytes are in the
        channel before it returns. */
    method Write(data: seq<byte>) returns (ok: bool)
      requires Valid() && upload
      modifies this, tx
      ensures ok ==> Valid() && accepted == old(accepted) + data
      ensures ok && !old(firstSent) && data != [] ==> firstSent && tx.sent[0] <= data
      ensures ok && old(firstSent) ==> firstSent
      ensures !ok ==> Linked() && old(accepted) <= accepted <= old(accepted) + data
      ensures failed == !ok
      ensures !ok ==> tx.closed || |tx.queue| == 8
    {
      hide Flatten, Channel.Valid;
      var remaining := data;
      ghost var done: seq<byte> := [];
      NothingMore(accepted);
      while remaining != []
        invariant tx.Valid() && !tx.dropped && |buffer| < CHUNK_SIZE && data == done + remaining
        invariant accepted == old(accepted) + done == Flatten(tx.sent) + buffer
        invariant firstSent == (tx.sent != []) && (old(firstSent) ==> firstSent)
        invariant !failed
        invariant !firstSent ==> done == [] && buffer == []
        invariant firstSent && !old(firstSent) ==> tx.sent[0] <= data
        decreases |remaining|
      {
        var available := CHUNK_SIZE - |buffer|;
        var take := if available <= |remaining| then available else |remaining|;
        ghost var piece := remaining[..take];
        Moved(old(accepted), Flatten(tx.sent), buffer, done, piece, remaining[take..]);
        assert piece + remaining[take..] == remaining;
        buffer, accepted := buffer + remaining[..take], accepted + remaining[..take];
        done, remaining := done + piece, remaining[take..];
        if !firstSent || |buffer| == CHUNK_SIZE {
          ghost var chunk, chunks := buffer, tx.sent;
          var pushed := Push();
          if !pushed {
            failed := true;
            return false;
          }
          FlattenSnoc(chunks, chunk);
          NothingMore(Flatten(tx.sent));
        }
      }
      NothingMore(done);
      ok := true;
    }
  }

  lemma ValidIsLinked(out: Sink)
    requires out.Valid()
    ensures out.Linked() && !out.failed
  {
  }

  lemma ReliableNeverFails(out: Sink)
    requires out.Linked() && out.reliable
    ensures !out.failed
  {
  }

  /** Moving a piece of the input into the buffer. */
  lemma Moved(before: seq<byte>, sent: seq<byte>, buffer: seq<byte>, done: seq<byte>, piece: seq<byte>, rest: seq<byte>)
    requires before + done == sent + buffer
    ensures (before + done) + piece == before + (done + piece) == sent + (buffer + piece)
    ensures done + (piece + rest) == (done + piece) + rest
  {
    Regroup(before, done, piece);
    Regroup(sent, buffer, piece);
    Regroup(done, piece, rest);
  }
}
