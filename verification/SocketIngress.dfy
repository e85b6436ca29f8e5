/**
 The EVE socket input (src/eve/socket.rs): newline framing of a stream whose reads may
 be interrupted at any point, and the queue bounded in records and in bytes.
 */
module SocketIngress {
  import opened Common

  const MAX_RECORD_SIZE: nat := 8 * 1024 * 1024
  const RECORD_CAPACITY: nat := 4096
  const BYTE_CAPACITY: nat := 16 * 1024 * 1024
  const NEWLINE: byte := 10

  type Bytes = seq<byte>

  // ----- what the framing should be

  /** Where the first record of a stream ends: after its newline, or at the end. */
  function FirstLength(s: Bytes): (n: nat)
    ensures n <= |s| && (s != [] ==> n > 0)
    ensures forall i :: 0 <= i < n - 1 ==> s[i] != NEWLINE
    ensures 0 < n < |s| ==> s[n - 1] == NEWLINE
  {
    if s == [] then 0 else if s[0] == NEWLINE then 1 else 1 + FirstLength(s[1..])
  }

  /** The newline split of a stream, each record with its newline, up to the first
      record that is too long. */
  function Records(s: Bytes): seq<Bytes>
    decreases |s|
  {
    if s == [] then []
    else
      var n := FirstLength(s);
      if n > MAX_RECORD_SIZE then [] else [s[..n]] + Records(s[n..])
  }

  lemma {:induction false} FirstLengthIs(s: Bytes, n: nat)
    requires 0 < n <= |s| && (forall i :: 0 <= i < n - 1 ==> s[i] != NEWLINE)
    requires n < |s| ==> s[n - 1] == NEWLINE
    ensures FirstLength(s) == n
    decreases n
  {
    if n > 1 {
      assert s[0] != NEWLINE;
      FirstLengthIs(s[1..], n - 1);
    }
  }

  /** Without a newline in its first `n` bytes, a stream's first record is no shorter. */
  lemma {:induction false} FirstLengthBeyond(s: Bytes, n: nat)
    requires n <= |s| && forall i :: 0 <= i < n ==> s[i] != NEWLINE
    ensures FirstLength(s) >= n
    decreases n
  {
    if n > 0 {
      FirstLengthBeyond(s[1..], n - 1);
    }
  }

  lemma TooLong(s: Bytes, n: nat)
    requires MAX_RECORD_SIZE < n <= |s| && forall i :: 0 <= i < n ==> s[i] != NEWLINE
    ensures Records(s) == []
  {
    FirstLengthBeyond(s, n);
  }

  /** The record in `buffer` is the first one of what follows. */
  lemma OneRecord(buffer: Bytes, rest: Bytes)
    requires buffer != [] && (forall i :: 0 <= i < |buffer| - 1 ==> buffer[i] != NEWLINE)
    requires rest != [] ==> buffer[|buffer| - 1] == NEWLINE
    ensures Records(buffer + rest) == if |buffer| > MAX_RECORD_SIZE then [] else [buffer] + Records(rest)
  {
    var s := buffer + rest;
    FirstLengthIs(s, |buffer|);
    assert s[..|buffer|] == buffer && s[|buffer|..] == rest;
  }

  /** A stream cut into records, by what they are: pieces of it in order, each at most as
      long as the limit and with no newline before its last byte, each but the stream's
      very end closed by a newline; and together the whole stream unless what follows
      them is a record over the limit. */
  predicate IsSplit(s: Bytes, records: seq<Bytes>) {
    && Flatten(records) <= s
    && (forall r <- records :: IsRecord(r))
    && (forall i :: 0 <= i < |records| && (i < |records| - 1 || Flatten(records) != s) ==> EndsInNewline(records[i]))
    && (Flatten(records) != s <==> FirstLength(s[|Flatten(records)|..]) > 8 * 1024 * 1024)
  }

  lemma {:induction false} RecordsAreTheSplit(s: Bytes)
    ensures IsSplit(s, Records(s))
    decreases |s|
  {
    hide IsSplit;
    if s == [] || FirstLength(s) > MAX_RECORD_SIZE {
      NothingSplit(s);
    } else {
      var n := FirstLength(s);
      RecordsAreTheSplit(s[n..]);
      assert s == s[..n] + s[n..];
      SplitStep(s[..n], s[n..], Records(s[n..]));
    }
  }

  lemma NothingSplit(s: Bytes)
    requires s == [] || FirstLength(s) > MAX_RECORD_SIZE
    ensures IsSplit(s, [])
  {
    assert s[0..] == s;
  }

  lemma SplitStep(r: Bytes, rest: Bytes, records: seq<Bytes>)
    requires IsSplit(rest, records) && IsRecord(r) && (rest != [] ==> EndsInNewline(r))
    ensures IsSplit(r + rest, [r] + records)
  {
    hide FirstLength, IsRecord, EndsInNewline;
    var all, done := [r] + records, Flatten(records);
    assert all[1..] == records && Flatten(all) == r + done;
    assert (r + rest)[|r + done|..] == rest[|done|..];
    assert rest[..|done|] == done;
    assert r + rest == (r + done) + rest[|done|..];
    assert forall x <- all :: x == r || x in records;
    assert r + done != r + rest <==> done != rest by {
      assert (r + rest)[|r|..] == rest && (r + done)[|r|..] == done;
    }
    forall i | 0 <= i < |all| && (i < |all| - 1 || Flatten(all) != r + rest)
      ensures EndsInNewline(all[i])
    {
      if i == 0 {
        assert rest != [] by {
          if rest == [] {
            assert done == [] && records != [];
            assert Flatten(records) == records[0] + Flatten(records[1..]);
            RecordNotEmpty(records[0]);
          }
        }
      } else {
        assert all[i] == records[i - 1];
      }
    }
  }

  lemma RecordNotEmpty(r: Bytes)
    requires IsRecord(r)
    ensures r != []
  {
  }

  predicate IsRecord(r: Bytes) {
    0 < |r| <= 8 * 1024 * 1024 && forall i :: 0 <= i < |r| - 1 ==> r[i] != 10
  }

  predicate EndsInNewline(r: Bytes) {
    r != [] && r[|r| - 1] == 10
  }

  // ----- the queue

  datatype Entry = Entry(record: nat, bytes: Bytes)

  datatype Fate = Queued | Dropped

  predicate Blank(bytes: Bytes) {
    forall b <- bytes :: b in {9, 10, 12, 13, 32}
  }

  lemma BlankMeans(bytes: Bytes)
    ensures Blank(bytes) <==> forall b <- bytes :: b == 9 || b == 10 || b == 12 || b == 13 || b == 32
  {
  }

  /** What is worth queueing of the records read so far, numbered from 1 as they come. */
  function Numbered(records: seq<Bytes>): seq<Entry> {
    if records == [] then []
    else
      var n := |records| - 1;
      Numbered(records[..n]) + if Blank(records[n]) then [] else [Entry(n + 1, records[n])]
  }

  /** A record is offered exactly if it has a byte that is no ASCII white space, and under its
      number; in the order of the records. */
  lemma {:induction false} NumberedIff(records: seq<Bytes>, e: Entry)
    ensures e in Numbered(records) <==>
      && 0 < e.record <= |records| && e.bytes == records[e.record - 1]
      && exists b <- e.bytes :: b != 9 && b != 10 && b != 12 && b != 13 && b != 32
    ensures forall i, j :: 0 <= i < j < |Numbered(records)| ==>
      Numbered(records)[i].record < Numbered(records)[j].record
    ensures forall x <- Numbered(records) :: x.record <= |records|
  {
    hide Blank;
    if records != [] {
      var n := |records| - 1;
      NumberedIff(records[..n], e);
      BlankMeans(records[n]);
    }
  }

  function Weight(entries: seq<Entry>): nat {
    if entries == [] then 0 else |entries[0].bytes| + Weight(entries[1..])
  }

  lemma NoWeight()
    ensures Weight([]) == 0
  {
  }

  lemma {:induction false} WeightSnoc(entries: seq<Entry>, e: Entry)
    ensures Weight(entries + [e]) == Weight(entries) + |e.bytes|
  {
    if entries != [] {
      WeightSnoc(entries[1..], e);
      assert (entries + [e])[1..] == entries[1..] + [e];
    }
  }

  function Kept(offered: seq<Entry>, fates: seq<Fate>): seq<Entry>
    requires |offered| == |fates|
  {
    if offered == [] then []
    else
      var n := |offered| - 1;
      Kept(offered[..n], fates[..n]) + if fates[n].Queued? then [offered[n]] else []
  }

  function Drops(fates: seq<Fate>): nat {
    if fates == [] then 0
    else Drops(fates[..|fates| - 1]) + if fates[|fates| - 1].Dropped? then 1 else 0
  }

  lemma KeptSnoc(offered: seq<Entry>, fates: seq<Fate>, e: Entry, f: Fate)
    requires |offered| == |fates|
    ensures Kept(offered + [e], fates + [f]) == Kept(offered, fates) + if f.Queued? then [e] else []
    ensures Drops(fates + [f]) == Drops(fates) + if f.Dropped? then 1 else 0
  {
    assert (offered + [e])[..|offered|] == offered && (fates + [f])[..|fates|] == fates;
  }

  /** `at` picks places of a sequence of length `n`, from left to right. */
  ghost predicate Places(at: seq<nat>, n: nat) {
    (forall i :: 0 <= i < |at| ==> at[i] < n) && (forall i, j :: 0 <= i < j < |at| ==> at[i] < at[j])
  }

  ghost predicate PickedAt(part: seq<Entry>, whole: seq<Entry>, at: seq<nat>) {
    Places(at, |whole|) && |part| == |at| && forall i :: 0 <= i < |at| ==> part[i] == whole[at[i]]
  }

  ghost predicate InOrderOf(part: seq<Entry>, whole: seq<Entry>) {
    exists at :: PickedAt(part, whole, at)
  }

  lemma {:induction false} KeptIsInOrder(offered: seq<Entry>, fates: seq<Fate>) returns (at: seq<nat>)
    requires |offered| == |fates|
    ensures PickedAt(Kept(offered, fates), offered, at)
  {
    if offered == [] {
      at := [];
    } else {
      var n := |offered| - 1;
      at := KeptIsInOrder(offered[..n], fates[..n]);
      PickedSnoc(Kept(offered[..n], fates[..n]), offered, at, fates[n].Queued?);
      if fates[n].Queued? {
        at := at + [n];
      }
    }
  }

  lemma PickedSnoc(part: seq<Entry>, whole: seq<Entry>, at: seq<nat>, picked: bool)
    requires whole != [] && PickedAt(part, whole[..|whole| - 1], at)
    ensures if picked then PickedAt(part + [whole[|whole| - 1]], whole, at + [|whole| - 1])
            else PickedAt(part, whole, at)
  {
  }

  /** The two halves of the socket task and what they share: the byte budget, the queue,
      the record the processor has taken and not yet finished, and the counters. */
  class Ingress {
    var free: nat
    var queue: seq<Entry>
    var inFlight: seq<Entry>
    var closed: bool
    var drops: nat
    var errors: nat
    /** What was offered, blank records and those met by a closed queue left out, and
        what became of each; and what the processor has finished with. */
    ghost var offered: seq<Entry>
    ghost var fates: seq<Fate>
    ghost var processed: seq<Entry>

    ghost predicate Valid()
      reads this
    {
      && |queue| <= RECORD_CAPACITY && |inFlight| <= 1
      && free + Weight(queue) + Weight(inFlight) == BYTE_CAPACITY
      && |offered| == |fates| && drops == Drops(fates)
      && |offered| == |Kept(offered, fates)| + drops
      && (if closed then queue == [] && inFlight == [] && processed <= Kept(offered, fates)
          else Kept(offered, fates) == processed + inFlight + queue)
    }

    constructor ()
      ensures Valid() && !closed && drops == 0 && errors == 0 && free == 16 * 1024 * 1024
      ensures offered == [] && processed == [] && queue == [] && inFlight == []
    {
      free, queue, inFlight, closed, drops, errors := BYTE_CAPACITY, [], [], false, 0, 0;
      offered, fates, processed := [], [], [];
    }

    /** A blank record is let go. Any other is queued if the byte budget and the queue
        have room for it, and counted as one drop if not; a closed queue refuses it. */
    method Enqueue(record: nat, bytes: Bytes) returns (open: bool)
      requires Valid() && |bytes| <= MAX_RECORD_SIZE
      modifies this
      ensures Valid()
      ensures Blank(bytes) <==> forall b <- bytes :: b == 9 || b == 10 || b == 12 || b == 13 || b == 32
      ensures open <==> Blank(bytes) || !old(closed)
      ensures inFlight == old(inFlight) && closed == old(closed) && errors == old(errors)
      ensures processed == old(processed)
      ensures Blank(bytes) || old(closed) ==>
        offered == old(offered) && fates == old(fates) && queue == old(queue)
        && free == old(free) && drops == old(drops)
      ensures !Blank(bytes) && !old(closed) ==>
        var e := Entry(record, bytes);
        var fits := |bytes| <= old(free) && |old(queue)| < 4096;
        && offered == old(offered) + [e]
        && fates == old(fates) + [if fits then Queued else Dropped]
        && queue == old(queue) + (if fits then [e] else [])
        && free == old(free) - (if fits then |bytes| else 0)
        && drops == old(drops) + (if fits then 0 else 1)
    {
      BlankMeans(bytes);
      hide Blank, Weight, Kept, Drops;
      NoWeight();
      if Blank(bytes) {
        return true;
      }
      var e := Entry(record, bytes);
      if |bytes| > free {
        KeptSnoc(offered, fates, e, Dropped);
        offered, fates := offered + [e], fates + [Dropped];
        drops := drops + 1;
        return true;
      }
      free := free - |bytes|;
      if closed {
        free := free + |bytes|;
        return false;
      }
      if |queue| == RECORD_CAPACITY {
        free := free + |bytes|;
        KeptSnoc(offered, fates, e, Dropped);
        offered, fates := offered + [e], fates + [Dropped];
        drops := drops + 1;
        return true;
      }
      KeptSnoc(offered, fates, e, Queued);
      WeightSnoc(queue, e);
      Regroup(processed + inFlight, queue, [e]);
      offered, fates := offered + [e], fates + [Queued];
      queue := queue + [e];
      return true;
    }

    method NoteError()
      requires Valid()
      modifies this`errors
      ensures Valid() && errors == old(errors) + 1
    {
      errors := errors + 1;
    }

    /** The processor takes the oldest record; its place in the queue is free at once,
        its bytes are not. */
    method Receive()
      requires Valid()
      modifies this`queue, this`inFlight
      ensures Valid()
      ensures if old(queue) == [] || old(inFlight) != [] then queue == old(queue) && inFlight == old(inFlight)
              else inFlight == [old(queue)[0]] && queue == old(queue)[1..]
    {
      if queue != [] && inFlight == [] {
        assert processed + [] + queue == processed + [queue[0]] + queue[1..];
        inFlight, queue := [queue[0]], queue[1..];
      }
    }

    /** The processor has parsed the record it took, and lets go of its bytes. */
    method Finish()
      requires Valid()
      modifies this`free, this`inFlight, this`processed
      ensures Valid() && inFlight == [] && processed == old(processed) + old(inFlight)
      ensures free == old(free) + Weight(old(inFlight))
    {
      assert processed + inFlight + queue == (processed + inFlight) + [] + queue;
      free := free + Weight(inFlight);
      processed, inFlight := processed + inFlight, [];
    }

    /** The processor is gone, and with it everything it had not finished. */
    method Close()
      requires Valid()
      modifies this`free, this`queue, this`inFlight, this`closed
      ensures Valid() && closed && free == BYTE_CAPACITY && queue == [] && inFlight == []
    {
      free, queue, inFlight, closed := BYTE_CAPACITY, [], [], true;
    }

    /** What has been processed are records that were offered, in the order they were. */
    lemma ProcessedInOrder()
      requires Valid()
      ensures InOrderOf(processed, offered)
    {
      var at := KeptIsInOrder(offered, fates);
      assert PickedAt(processed, offered, at[..|processed|]);
    }

    /** Once the queue has run dry, what was offered is what was processed but for
        exactly the counted drops. */
    lemma NothingElseIsLost()
      requires Valid() && !closed && queue == [] && inFlight == []
      ensures |offered| == |processed| + drops && processed == Kept(offered, fates)
    {
      assert processed + [] + [] == processed;
    }
  }

  // ----- the reading loop

  /** One turn of the socket task: the read gets to a newline or the end of the stream,
      or fails; the interval ticks after the read has taken some bytes; or the processor
      moves. */
  datatype Turn = ReadCompletes | ReadFails | Tick(taken: nat) | Receive | Finish | Close

  /** `read_stream`, under any turns, and nothing but reads once they are used up. What it
      offers is a beginning of the newline split of the stream, all of it if no read fails
      and the queue stays open, wherever ticks and the processor strike. Then an error is
      noted exactly if a record over the limit cut the stream short. */
  method ReadStream(ingress: Ingress, stream: Bytes, turns: seq<Turn>) returns (goOn: bool, ghost records: seq<Bytes>)
    requires ingress.Valid()
    modifies ingress
    ensures ingress.Valid()
    ensures records <= Records(stream) && ingress.offered == old(ingress.offered) + Numbered(records)
    ensures ReadFails !in turns && Close !in turns && !old(ingress.closed) ==>
      && goOn && records == Records(stream)
      && ingress.errors == old(ingress.errors) + if Flatten(records) == stream then 0 else 1
    ensures !goOn ==> ingress.closed
  {
    hide Reading, Records, Flatten, Numbered, Blank, Ingress.Valid;
    var rest, buffer: Bytes := stream, [];
    var record := 0;
    records := [];
    var t := 0;
    ghost var undisturbed := ReadFails !in turns && Close !in turns && !ingress.closed;
    ReadingStarts(stream);
    while true
      invariant ingress.Valid()
      invariant Reading(stream, records, buffer, rest) && record == |records|
      invariant ingress.offered == old(ingress.offered) + Numbered(records)
      invariant undisturbed ==> !ingress.closed && ingress.errors == old(ingress.errors)
      invariant t <= |turns|
      decreases |turns| - t, |rest|
    {
      var turn := if t < |turns| then turns[t] else ReadCompletes;
      if t < |turns| {
        t := t + 1;
      }
      ReadingIsABeginning(stream, records, buffer, rest);
      if turn.Receive? {
        ingress.Receive();
      } else if turn.Finish? {
        ingress.Finish();
      } else if turn.Close? {
        ingress.Close();
      } else if turn.ReadFails? {
        ingress.NoteError();
        return true, records;
      } else {
        var upTo := FirstLength(rest);
        if turn.Tick? && turn.taken <= upTo && NEWLINE !in rest[..turn.taken] {
          // Interrupted: the bytes read so far stay in the buffer.
          ReadingOn(stream, records, buffer, rest, turn.taken);
          buffer, rest := buffer + rest[..turn.taken], rest[turn.taken..];
          if |buffer| > MAX_RECORD_SIZE {
            ReadingTooMuch(stream, records, buffer, rest);
            ingress.NoteError();
            return true, records;
          }
        } else {
          ReadingUpTo(stream, records, buffer, rest);
          var atEnd := rest == [];
          buffer, rest := buffer + rest[..upTo], rest[upTo..];
          if atEnd && buffer == [] {
            return true, records;
          }
          if |buffer| > MAX_RECORD_SIZE {
            ingress.NoteError();
            return true, records;
          }
          record := record + 1;
          var open := Offer(ingress, record, buffer, records, old(ingress.offered));
          if !open {
            return false, records;
          }
          records := records + [buffer];
          buffer := [];
          if atEnd {
            ReadingUpTo(stream, records, [], []);
            return true, records;
          }
        }
      }
    }
  }

  /** Where the loop is: the finished records, what is in the buffer, what is unread. */
  ghost predicate Reading(stream: Bytes, records: seq<Bytes>, buffer: Bytes, rest: Bytes) {
    && (forall i :: 0 <= i < |buffer| ==> buffer[i] != NEWLINE)
    && records + Records(buffer + rest) == Records(stream)
    && Flatten(records) + (buffer + rest) == stream
  }

  lemma ReadingStarts(stream: Bytes)
    ensures Reading(stream, [], [], stream) && Numbered([]) == []
  {
    hide Records;
    assert [] + stream == stream && [] + Records(stream) == Records(stream);
  }

  lemma ReadingIsABeginning(stream: Bytes, records: seq<Bytes>, buffer: Bytes, rest: Bytes)
    requires Reading(stream, records, buffer, rest)
    ensures records <= Records(stream)
  {
    hide Records;
  }

  lemma ReadingOn(stream: Bytes, records: seq<Bytes>, buffer: Bytes, rest: Bytes, n: nat)
    requires Reading(stream, records, buffer, rest) && n <= |rest| && NEWLINE !in rest[..n]
    ensures Reading(stream, records, buffer + rest[..n], rest[n..])
  {
    hide Records;
    assert forall i :: 0 <= i < n ==> rest[..n][i] in rest[..n];
    Take(buffer, rest, n);
  }

  lemma ReadingTooMuch(stream: Bytes, records: seq<Bytes>, buffer: Bytes, rest: Bytes)
    requires Reading(stream, records, buffer, rest) && |buffer| > MAX_RECORD_SIZE
    ensures records == Records(stream) && Flatten(records) != stream
  {
    hide Records;
    TooLong(buffer + rest, |buffer|);
    NothingMore(records);
  }

  lemma ReadingUpTo(stream: Bytes, records: seq<Bytes>, buffer: Bytes, rest: Bytes)
    requires Reading(stream, records, buffer, rest)
    ensures var n := FirstLength(rest);
            var r := buffer + rest[..n];
            if r == [] then records == Records(stream) && Flatten(records) == stream
            else if |r| > MAX_RECORD_SIZE then records == Records(stream) && Flatten(records) != stream
            else Reading(stream, records + [r], [], rest[n..])
  {
    hide Records, Flatten;
    var n := FirstLength(rest);
    var r, after := buffer + rest[..n], rest[n..];
    Take(buffer, rest, n);
    NothingMore(records);
    NothingMore(Flatten(records));
    if r == [] {
      NoRecords();
    } else {
      OneRecord(r, after);
      if |r| <= MAX_RECORD_SIZE {
        Regroup(records, [r], Records(after));
        Regroup(Flatten(records), r, after);
        FlattenSnoc(records, r);
        assert [] + after == after;
      }
    }
  }

  /** Offering the next record, seen from the log of all offered. */
  method Offer(ingress: Ingress, record: nat, bytes: Bytes, ghost records: seq<Bytes>, ghost before: seq<Entry>)
    returns (open: bool)
    requires ingress.Valid() && |bytes| <= MAX_RECORD_SIZE && record == |records| + 1
    requires ingress.offered == before + Numbered(records)
    modifies ingress
    ensures ingress.Valid() && ingress.closed == old(ingress.closed) && ingress.errors == old(ingress.errors)
    ensures open <==> Blank(bytes) || !old(ingress.closed)
    ensures ingress.offered == before + Numbered(if open then records + [bytes] else records)
  {
    hide Numbered, Blank, Ingress.Valid;
    NumberedSnoc(records, bytes);
    Regroup(before, Numbered(records), [Entry(record, bytes)]);
    NothingMore(Numbered(records));
    open := ingress.Enqueue(record, bytes);
  }

  lemma Take(buffer: Bytes, rest: Bytes, n: nat)
    requires n <= |rest|
    ensures buffer + rest == (buffer + rest[..n]) + rest[n..]
  {
  }

  lemma NumberedSnoc(records: seq<Bytes>, r: Bytes)
    ensures Numbered(records + [r])
         == Numbered(records) + if Blank(r) then [] else [Entry(|records| + 1, r)]
  {
    assert (records + [r])[..|records|] == records;
  }

  lemma NoRecords()
    ensures Records([]) == [] && Flatten<byte>([]) == []
  {
  }
}
