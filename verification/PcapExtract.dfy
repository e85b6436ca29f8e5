/**
 `fetch` itself (src/pcap/fetch.rs): the heap merge over the group cursors, the byte
 cap, the link-type gate, the sticky stop and the classification of the result,
 proved to refine the reference merge.
 */
module PcapExtract {
  import opened Common
  import opened Output
  import opened PcapFormat
  import opened PcapMerge
  import opened PcapFetch

  datatype FetchStats = FetchStats(packets: nat, bytes: nat, scanned: nat, vanished: nat, truncated: bool)

  datatype Outcome = Done(stats: FetchStats) | NoCandidateFiles | NoMatch(stats: FetchStats) | FormatError | IoError

  /** What became of one packet that was to be written. */
  datatype Next = Continue | Break | AtCap | Abort

  datatype Written = Ok | Capped | Failed

  // ----- the heap

  type Key = (nat, nat)

  predicate Leq(a: Key, b: Key) {
    KeyLeq(a.0, a.1, b.0, b.1)
  }

  /** `BinaryHeap::pop` on `Reverse` keys: some least key leaves the heap. */
  method PopMin(heap: multiset<Key>) returns (least: Key, rest: multiset<Key>)
    requires heap != multiset{}
    ensures least in heap && rest == heap - multiset{least}
    ensures forall k :: k in heap ==> Leq(least, k)
  {
    var todo := heap;
    least :| least in todo;
    todo := todo - multiset{least};
    while todo != multiset{}
      invariant least in heap
      invariant forall k :: k in heap ==> k in todo || Leq(least, k)
      invariant todo <= heap
      decreases |todo|
    {
      var k: Key :| k in todo;
      if !Leq(least, k) {
        least := k;
      }
      todo := todo[k := 0];
    }
    rest := heap - multiset{least};
  }

  // ----- small facts about the output

  lemma {:induction false} ItemsSnoc(out: seq<Tagged>, t: Tagged)
    ensures Items(out + [t]) == Items(out) + [Item(t.entry.link, t.entry.packet)]
  {
    if out == [] {
      assert out + [t] == [t];
      assert [t][1..] == [];
    } else {
      ItemsSnoc(out[1..], t);
      assert (out + [t])[1..] == out[1..] + [t];
    }
  }

  lemma {:induction false} ItemsLength(out: seq<Tagged>)
    ensures |Items(out)| == |out|
  {
    if out != [] {
      ItemsLength(out[1..]);
    }
  }

  lemma {:induction false} ItemsPrefix(out: seq<Tagged>, n: nat)
    requires n <= |out|
    ensures Items(out[..n]) <= Items(out)
  {
    if n > 0 {
      ItemsPrefix(out[1..], n - 1);
      assert out[..n][1..] == out[1..][..n - 1];
    }
  }

  /** The bytes of the first `n` packets of the unlimited run. */
  ghost function Bytes(full: seq<Tagged>, n: nat): seq<byte>
    requires n <= |full|
  {
    Stream(Items(full[..n]))
  }

  lemma BytesMonotone(full: seq<Tagged>, n: nat, m: nat)
    requires n <= m <= |full|
    ensures Bytes(full, n) <= Bytes(full, m)
    ensures n < m ==> |Bytes(full, n)| < |Bytes(full, m)|
  {
    hide Stream;
    assert full[..m][..n] == full[..n];
    ItemsPrefix(full[..m], n);
    ItemsLength(full[..n]);
    ItemsLength(full[..m]);
    StreamPrefix(Items(full[..n]), Items(full[..m]));
  }

  lemma BytesNext(full: seq<Tagged>, n: nat)
    requires n < |full|
    ensures Items(full[..n + 1]) == Items(full[..n]) + [Item(full[n].entry.link, full[n].entry.packet)]
    ensures |Bytes(full, n + 1)| == |Bytes(full, n)| + (if n == 0 then FILE_HEADER_LEN else 0)
                                    + RECORD_HEADER_LEN + |full[n].entry.packet.data|
  {
    hide Stream, Items, RecordBytes, FileHeader;
    assert full[..n + 1] == full[..n] + [full[n]];
    ItemsSnoc(full[..n], full[n]);
    ItemsLength(full[..n]);
    StreamSnoc(Items(full[..n]), Item(full[n].entry.link, full[n].entry.packet));
  }

  // ----- what holds of the cursors and the heap, on their values

  ghost predicate CursorsOk(req: Request, states: seq<Cursor>, views: seq<Files>, live: bool, primed: nat, open: int) {
    && |states| == |views| && primed <= |states|
    && (forall i :: 0 <= i < |states| ==> states[i].Valid(req))
    && (forall i :: primed <= i < |states| ==> states[i].pending.None?)
    && (live ==> ViewsOk(req, states, views, primed, open))
  }

  /** `open` is the cursor, if any, whose packet was just consumed and not yet replaced:
      every other refilled cursor has a pending packet or is exhausted. */
  ghost predicate ViewsOk(req: Request, states: seq<Cursor>, views: seq<Files>, primed: nat, open: int)
    requires |states| == |views| && primed <= |states|
  {
    && (forall i :: 0 <= i < |states| ==> states[i].View(req) == views[i])
    && (forall i :: 0 <= i < primed && i != open && states[i].pending.None? ==> states[i].files == [] && views[i] == [])
  }

  /** One heap entry for every pending packet, and no other. */
  ghost predicate HeapOk(states: seq<Cursor>, heap: multiset<Key>) {
    forall k: Key :: heap[k] == if PendingKey(states, k) then 1 else 0
  }

  ghost predicate PendingKey(states: seq<Cursor>, k: Key) {
    k.1 < |states| && states[k.1].pending.Some? && states[k.1].pending.value.ts == k.0
  }

  ghost function Left(states: seq<Cursor>): (r: seq<seq<SpoolFile>>)
    ensures |r| == |states| && forall i :: 0 <= i < |states| ==> r[i] == states[i].files
  {
    seq(|states|, i requires 0 <= i < |states| => states[i].files)
  }

  lemma LeftUpdate(states: seq<Cursor>, i: nat, c: Cursor)
    requires i < |states|
    ensures Left(states[i := c]) == Left(states)[i := c.files]
  {
  }

  /** Opening some of a group's files takes none of those away that cannot be opened. */
  lemma OpenableUpdate(groups: seq<seq<SpoolFile>>, i: nat, fs: seq<SpoolFile>)
    requires i < |groups|
    requires OpenedOf(groups[i], fs)
    ensures Openable(groups[i := fs]) <==> Openable(groups)
  {
    var updated: seq<seq<SpoolFile>> := groups[i := fs];
    if Openable(groups) {
      forall j, k | 0 <= j < |updated| && 0 <= k < |updated[j]|
        ensures !updated[j][k].FdExhausted?
      {
        assert j == i ==> fs[k] in groups[i];
      }
    } else {
      var j, k :| 0 <= j < |groups| && 0 <= k < |groups[j]| && groups[j][k].FdExhausted?;
      if j == i {
        var f := groups[i][k];
        var l :| 0 <= l < |fs| && fs[l] == f;
        assert updated[i][l].FdExhausted?;
      } else {
        assert updated[j][k].FdExhausted?;
      }
    }
  }

  /** A refill accounts for the files that it opens. */
  lemma RefilledFiles(req: Request, before: Tally, after: Tally, states: seq<Cursor>, i: nat, c: Cursor)
    requires i < |states| && OpenedOf(states[i].files, c.files)
    requires after.Plus(TallyFiles(req, c.files)) == before.Plus(TallyFiles(req, states[i].files))
    ensures after.Plus(TallyGroups(req, Left(states[i := c]))) == before.Plus(TallyGroups(req, Left(states)))
    ensures Openable(Left(states[i := c])) <==> Openable(Left(states))
  {
    hide TallyGroups, TallyFiles, Openable, OpenedOf;
    TallyReplace(req, before, after, Left(states), i, c.files);
    LeftUpdate(states, i, c);
    OpenableUpdate(Left(states), i, c.files);
  }

  lemma NotOpenable(groups: seq<seq<SpoolFile>>, i: nat)
    requires i < |groups|
    ensures (exists f :: f in groups[i] && f.FdExhausted?) ==> !Openable(groups)
  {
  }

  lemma Weaken(req: Request, states: seq<Cursor>, views: seq<Files>, live: bool, primed: nat)
    requires CursorsOk(req, states, views, live, primed, -1) && primed < |states|
    ensures CursorsOk(req, states, views, live, primed, primed) && states[primed].pending.None?
  {
  }

  lemma StateFacts(req: Request, states: seq<Cursor>, views: seq<Files>, live: bool, primed: nat, open: int, i: nat)
    requires CursorsOk(req, states, views, live, primed, open) && i < |states|
    ensures states[i].Valid(req)
    ensures live ==> states[i].View(req) == views[i]
  {
  }

  ghost function Unopened(groups: seq<seq<SpoolFile>>): (r: seq<Cursor>)
    ensures |r| == |groups| && forall i :: 0 <= i < |r| ==> r[i] == Cursor(groups[i], None, None)
  {
    seq(|groups|, i requires 0 <= i < |groups| => Cursor(groups[i], None, None))
  }

  lemma UnopenedOk(req: Request, groups: seq<seq<SpoolFile>>)
    ensures CursorsOk(req, Unopened(groups), AllEntries(req, groups), true, 0, -1)
    ensures HeapOk(Unopened(groups), multiset{})
    ensures Left(Unopened(groups)) == groups
    ensures var full := Full(req, groups); full[0..] == Merge(AllEntries(req, groups), None)
    ensures Items(Full(req, groups)[..0]) == [] && Stream([]) == []
    ensures AllNoEmpty(AllEntries(req, groups))
  {
    hide GroupEntries, Merge;
  }

  /** Refilling cursor `i` and pushing its pending packet restores both. */
  lemma Refilled(req: Request, states: seq<Cursor>, views: seq<Files>, heap: multiset<Key>, live: bool, primed: nat,
                 i: nat, c: Cursor, live': bool, heap': multiset<Key>)
    requires i < |states| && i <= primed
    requires CursorsOk(req, states, views, live, primed, i) && HeapOk(states, heap)
    requires states[i].pending.None? && c.Valid(req)
    requires live' ==> live && c.View(req) == states[i].View(req)
    requires live' && c.pending.None? ==> c.files == [] && c.View(req) == []
    requires heap' == if c.pending.Some? then heap + multiset{(c.pending.value.ts, i)} else heap
    ensures CursorsOk(req, states[i := c], views, live', if i == primed then i + 1 else primed, -1)
    ensures HeapOk(states[i := c], heap')
  {
    hide Cursor.View, Cursor.Valid;
    var states' := states[i := c];
    forall k: Key ensures heap'[k] == if PendingKey(states', k) then 1 else 0 {
      assert heap[k] == if PendingKey(states, k) then 1 else 0;
    }
  }

  /** The popped key belongs to a pending packet, which is the least head of all. */
  lemma Popped(req: Request, states: seq<Cursor>, views: seq<Files>, heap: multiset<Key>, least: Key)
    requires CursorsOk(req, states, views, true, |states|, -1) && HeapOk(states, heap)
    requires least in heap && forall k :: k in heap ==> Leq(least, k)
    requires AllNoEmpty(views)
    ensures least.1 < |states| && states[least.1].pending.Some? && states[least.1].pending.value.ts == least.0
    ensures IsLeast(views, least.1)
    ensures Head(views[least.1]) == states[least.1].pending.value
  {
    hide Cursor.View, Cursor.Valid, Pop, Head, KeyLeq;
    assert PendingKey(states, least);
    var i := least.1;
    PendingIsHead(req, states[i]);
    forall j | 0 <= j < |views| && views[j] != []
      ensures KeyLeq(Head(views[i]).ts, i, Head(views[j]).ts, j)
    {
      assert states[j].pending.Some?;
      PendingIsHead(req, states[j]);
      var k := (states[j].pending.value.ts, j);
      assert PendingKey(states, k);
      assert k in heap;
    }
  }

  lemma TurnShrinks(views: seq<Files>, i: nat)
    requires i < |views| && views[i] != [] && views[i][0] != []
    ensures Total(views[i := Pop(views[i])]) < Total(views)
    ensures Total(views[i := views[i][1..]]) < Total(views)
  {
    PopCount(views[i]);
    TotalUpdate(views, i, Pop(views[i]));
    TotalUpdate(views, i, views[i][1..]);
  }

  /** The rest of the unlimited run, from place `n` on, is what the views still merge to. */
  ghost predicate Ahead(full: seq<Tagged>, n: nat, views: seq<Files>, link: Option<int>) {
    n <= |full| && AllNoEmpty(views) && full[n..] == Merge(views, link)
  }

  /** What becomes of the run when the popped packet is written, or its file given up. */
  lemma TakingLeast(req: Request, states: seq<Cursor>, views: seq<Files>, heap: multiset<Key>, least: Key,
                    full: seq<Tagged>, n: nat, link: Option<int>)
    requires CursorsOk(req, states, views, true, |states|, -1) && HeapOk(states, heap)
    requires least in heap && forall k :: k in heap ==> Leq(least, k)
    requires Ahead(full, n, views, link)
    ensures least.1 < |states| == |views| && PendingKey(states, least) && states[least.1].pending.Some?
    ensures var i, c := least.1, states[least.1].(pending := None);
            var e, dropped := states[i].pending.value, views[i := c.(open := None).View(req)];
            && Total(dropped) < Total(views) && Total(views[i := c.View(req)]) < Total(views)
            && if Mismatch(link, e) then Ahead(full, n, dropped, link)
               else n < |full| && full[n] == Tagged(i, e)
                    && Ahead(full, n + 1, views[i := c.View(req)], if link.Some? then link else Some(e.link))
  {
    hide Merge, AllNoEmpty, IsLeast, Cursor.View, Cursor.Valid, Total, Leq, KeyLeq, Pop;
    Popped(req, states, views, heap, least);
    var i := least.1;
    assert PendingKey(states, least);
    StateFacts(req, states, views, true, |states|, -1, i);
    PendingIsHead(req, states[i]);
    MergeStepAt(full, n, views, link, i);
    TurnShrinks(views, i);
  }

  lemma InHeap(states: seq<Cursor>, heap: multiset<Key>, k: Key)
    requires HeapOk(states, heap) && k in heap
    ensures PendingKey(states, k)
  {
  }

  lemma PendingIsHead(req: Request, c: Cursor)
    requires c.pending.Some?
    ensures c.View(req) != [] && c.View(req)[0] != [] && Head(c.View(req)) == c.pending.value
    ensures c.(pending := None).View(req) == Pop(c.View(req))
    ensures c.(pending := None, open := None).View(req) == c.View(req)[1..]
  {
    var cur := [c.pending.value] + c.Unread(req);
    assert c.View(req) == [cur] + GroupEntries(req, c.files);
    assert cur[1..] == c.Unread(req);
  }

  /** Taking the popped cursor's packet, and perhaps leaving its file, keeps the rest. */
  lemma Taken(req: Request, states: seq<Cursor>, views: seq<Files>, heap: multiset<Key>, least: Key, c: Cursor)
    requires CursorsOk(req, states, views, true, |states|, -1) && HeapOk(states, heap)
    requires PendingKey(states, least)
    requires c == states[least.1].(pending := None) || c == states[least.1].(pending := None, open := None)
    ensures CursorsOk(req, states[least.1 := c], views[least.1 := c.View(req)], true, |states|, least.1)
    ensures HeapOk(states[least.1 := c], heap - multiset{least})
  {
    hide Cursor.View;
    var states' := states[least.1 := c];
    var heap' := heap - multiset{least};
    forall k: Key ensures heap'[k] == if PendingKey(states', k) then 1 else 0 {
      assert heap[k] == if PendingKey(states, k) then 1 else 0;
    }
  }

  /** What a fetch that neither stops nor fails reports when no packet matches. */
  function EmptyReport(req: Request, t: Tally): Outcome {
    if req.filter.Expression? && t.compiled == 0 && t.failed > 0 then FormatError
    else if t.scanned == 0 then NoCandidateFiles
    else NoMatch(FetchStats(0, 0, t.scanned, t.vanished, false))
  }

  // ----- the state of one fetch

  class Extraction {
    const req: Request
    const out: Sink
    const writer: PcapWriter
    const ctl: Control
    const stats: Stats
    const tracker: BpfExprTracker
    var cursors: seq<GroupCursor>
    var heap: multiset<Key>
    var outputLink: Option<int>

    /** The unlimited run's output, and how much of it has been written. */
    ghost const full: seq<Tagged>
    ghost var sent: nat
    ghost const tally: Tally
    ghost const openable: bool

    /** The values of the cursors, the matches each has yet to give up, and how many
        cursors have had their first refill. */
    ghost var states: seq<Cursor>
    ghost var views: seq<Files>
    ghost var primed: nat

    ghost predicate Objects()
      reads this, cursors
    {
      && |cursors| == |states|
      && forall i :: 0 <= i < |cursors| ==> cursors[i].slot == i && cursors[i].State() == states[i]
    }

    ghost predicate Output()
      reads this, writer, out, out.tx, ctl, stats
    {
      && writer.out == out
      && sent <= |full|
      && writer.Wrote(Items(full[..sent]))
      && AllNoEmpty(views)
      && (outputLink.None? <==> sent == 0)
      && (ctl.stopped.None? ==> full[sent..] == Merge(views, outputLink))
      && stats.packets == sent && stats.bytes == writer.bytes <= req.maxBytes && !stats.truncated
    }

    ghost predicate Counts()
      reads this, stats, tracker
    {
      && tracker.Valid()
      && Counted(stats, tracker).Plus(TallyGroups(req, Left(states))) == tally
      && (openable <==> Openable(Left(states)))
    }

    ghost predicate Stops()
      reads this, ctl
    {
      ctl.Valid()
    }

    ghost predicate Valid(open: int)
      reads this, cursors, writer, out, out.tx, ctl, stats, tracker
    {
      && Objects()
      && CursorsOk(req, states, views, ctl.stopped.None?, primed, open)
      && HeapOk(states, heap)
      && Output() && Counts() && Stops()
    }

    constructor (req: Request, groups: seq<seq<SpoolFile>>, clock: nat -> Tick, out: Sink)
      requires out.Valid() && out.accepted == []
      ensures Valid(-1) && primed == 0 && |cursors| == |groups|
      ensures this.req == req && this.out == out && ctl.clock == clock
      ensures full == Full(req, groups) && tally == TallyGroups(req, groups) && openable == Openable(groups)
      ensures fresh(this) && fresh(ctl) && fresh(stats) && fresh(tracker) && fresh(writer)
      ensures forall i :: 0 <= i < |cursors| ==> fresh(cursors[i])
    {
      hide AllEntries, Merge, TallyGroups, Openable, Control.Valid, Sink.Valid, Sink.Linked, CursorsOk, HeapOk, Stream,
           Left, Full, Items, AllNoEmpty;
      this.req, this.out := req, out;
      writer := new PcapWriter(out);
      ctl := new Control(clock);
      stats := new Stats();
      tracker := new BpfExprTracker();
      var cs := NewCursors(groups);
      cursors := cs;
      heap, outputLink := multiset{}, None;
      full, sent, primed := Full(req, groups), 0, 0;
      tally, openable := TallyGroups(req, groups), Openable(groups);
      states := Unopened(groups);
      views := AllEntries(req, groups);
      new;
      UnopenedOk(req, groups);
      assert Objects();
      assert Counts();
      assert Output();
    }

    /** Refill a cursor and put its new pending packet, if any, into the heap. */
    method RefillCursor(i: nat) returns (ok: bool)
      requires Valid(i) && i < |cursors| && i <= primed && cursors[i].pending.None?
      modifies this, ctl, stats, tracker, cursors[i], out, out.tx
      ensures cursors == old(cursors) && sent == old(sent) && views == old(views)
      ensures ok ==> primed == if i == old(primed) then i + 1 else old(primed)
      ensures ok ==> Valid(-1)
      ensures !ok ==> sent <= |full| && out.Linked() && ctl.Valid()
      ensures out.accepted == old(out.accepted)
      ensures !ok ==> out.failed || !openable
    {
      hide AllNoEmpty, Merge, TallyGroups, TallyFiles, Openable, Control.Valid, Sink.Valid, Sink.Linked, CursorsOk,
           HeapOk, Stream, Left, Items, Counted, Cursor.View, Cursor.Valid, PcapWriter.Wrote, Mismatch, Bytes,
           OpenedOf;
      WroteMeans(writer, Items(full[..sent]));
      var cursor := cursors[i];
      assert CursorsOk(req, states, views, ctl.stopped.None?, primed, i);
      StateFacts(req, states, views, ctl.stopped.None?, primed, i, i);
      ghost var before := Counted(stats, tracker);
      ghost var live := ctl.stopped.None?;
      ok := cursor.Refill(req, tracker, ctl, stats, out);
      if !ok {
        NotOpenable(Left(states), i);
        return;
      }
      WroteMeans(writer, Items(full[..sent]));
      ghost var c := cursor.State();
      RefilledFiles(req, before, Counted(stats, tracker), states, i, c);
      var pushed := heap + if cursor.pending.Some? then multiset{(cursor.pending.value.ts, i)} else multiset{};
      Refilled(req, states, views, heap, live, primed, i, c, ctl.stopped.None?, pushed);
      states, heap, primed := states[i := c], pushed, if i == primed then primed + 1 else primed;
      assert Objects();
      assert Counts();
      assert Output();
    }

    /** Write the popped packet, or refuse it because of the cap or a failing output. */
    method Emit(least: Key, packet: Entry) returns (written: Written)
      requires writer.out == out && sent < |full| && full[sent] == Tagged(least.1, packet)
      requires writer.Wrote(Items(full[..sent]))
      requires stats.packets == sent && stats.bytes == writer.bytes <= req.maxBytes && !stats.truncated
      modifies this`outputLink, this`sent, writer, out, out.tx, stats
      ensures written == Capped ==> sent == old(sent) && |Bytes(full, sent + 1)| > req.maxBytes && stats.truncated
      ensures written == Failed ==>
        sent == old(sent) && out.failed && Bytes(full, sent) <= out.accepted <= Bytes(full, sent + 1)
      ensures written == Failed ==> |out.accepted| <= req.maxBytes && out.Linked()
      ensures written == Ok ==> sent == old(sent) + 1 && !stats.truncated && outputLink.Some?
      ensures written == Ok && old(outputLink).None? ==> outputLink == Some(packet.link)
      ensures written == Ok && old(outputLink).Some? ==> outputLink == old(outputLink)
      ensures written != Failed ==> writer.Wrote(Items(full[..sent]))
      ensures stats.packets == sent && (written != Failed ==> stats.bytes == writer.bytes <= req.maxBytes)
      ensures Counted(stats, tracker) == old(Counted(stats, tracker))
    {
      hide Items, Stream;
      BytesNext(full, sent);
      ItemsLength(full[..sent]);
      if stats.bytes + writer.NextWriteSize(|packet.packet.data|) > req.maxBytes {
        stats.truncated := true;
        return Capped;
      }
      var ok := writer.WritePacket(packet.link, packet.packet, Items(full[..sent]));
      if !ok {
        return Failed;
      }
      stats.bytes := writer.bytes;
      stats.packets := stats.packets + 1;
      sent := sent + 1;
      if outputLink.None? {
        outputLink := Some(packet.link);
      }
      return Ok;
    }

    /** The popped cursor has given up its packet, and the rest of the run is as it should. */
    ghost predicate Took(least: Key)
      reads this, cursors
    {
      && least.1 < |cursors| && least.1 < |states| == |views| && PendingKey(states, least)
      && var c := cursors[least.1].State();
      && (c == states[least.1].(pending := None) || c == states[least.1].(pending := None, open := None))
      && cursors[least.1].slot == least.1 && Total(views[least.1 := c.View(req)]) < Total(views)
      && Ahead(full, sent, views[least.1 := c.View(req)], outputLink)
    }

    /** Take the popped cursor's packet: write it, or give up the rest of its file. */
    method TakePacket(least: Key) returns (next: Next)
      requires Valid(-1) && primed == |cursors| && ctl.stopped.None?
      requires least in heap && forall k :: k in heap ==> Leq(least, k)
      requires least.1 < |cursors|
      modifies this`outputLink, this`sent, writer, out, out.tx, stats, cursors[least.1]
      ensures sent <= |full| && next != Break
      ensures next == Continue ==> Took(least)
      ensures next == Continue ==> Accounted() && !stats.truncated && writer.out == out
      ensures next == Continue ==> (outputLink.None? <==> sent == 0)
      ensures next == Continue || next == AtCap ==> writer.Wrote(Items(full[..sent])) && Accounted()
      ensures Counted(stats, tracker) == old(Counted(stats, tracker))
      ensures next == AtCap ==> sent < |full| && |Bytes(full, sent + 1)| > req.maxBytes && stats.truncated
      ensures next == Abort ==> out.failed && |out.accepted| <= req.maxBytes && out.Linked()
      ensures next == Abort ==> exists n :: 0 <= n <= |full| && out.accepted <= Bytes(full, n)
    {
      hide AllNoEmpty, Merge, TallyGroups, Openable, Control.Valid, Sink.Valid, Sink.Linked, CursorsOk, HeapOk, Stream,
           Left, Items, Cursor.View, Counted, PcapWriter.Wrote, Total, Leq, Bytes, Mismatch, PendingKey,
           Cursor.Valid, TallyFiles, Pop;
      assert Ahead(full, sent, views, outputLink);
      TakingLeast(req, states, views, heap, least, full, sent, outputLink);
      hide Ahead;
      var cursor := cursors[least.1];
      var packet := cursor.pending.value;
      cursor.pending := None;
      if Mismatch(outputLink, packet) {
        cursor.open := None;
      } else {
        var written := Emit(least, packet);
        if written == Capped {
          return AtCap;
        } else if written == Failed {
          return Abort;
        }
      }
      return Continue;
    }

    method Consume(least: Key, rest: multiset<Key>) returns (next: Next)
      requires Valid(-1) && primed == |cursors| && ctl.stopped.None?
      requires least in heap && rest == heap - multiset{least} && forall k :: k in heap ==> Leq(least, k)
      requires least.1 < |cursors|
      modifies this, writer, out, out.tx, stats, cursors[least.1]
      ensures cursors == old(cursors) && sent <= |full| && next != Break
      ensures next == Continue ==> Valid(least.1) && primed == |cursors| && cursors[least.1].pending.None?
      ensures next == Continue ==> Total(views) < old(Total(views))
      ensures next == AtCap ==> sent < |full| && |Bytes(full, sent + 1)| > req.maxBytes && Counts()
      ensures next == AtCap ==> writer.Wrote(Items(full[..sent])) && Accounted() && stats.truncated
      ensures next == Abort ==> out.failed && |out.accepted| <= req.maxBytes && out.Linked()
      ensures next == Abort ==> exists n :: 0 <= n <= |full| && out.accepted <= Bytes(full, n)
    {
      hide AllNoEmpty, Merge, TallyGroups, Openable, Control.Valid, Sink.Valid, Sink.Linked, CursorsOk, HeapOk, Stream,
           Left, Items, Cursor.View, Counted, PcapWriter.Wrote, Total, Leq, Bytes, Mismatch, PendingKey,
           Cursor.Valid, TallyFiles, Pop;
      next := TakePacket(least);
      if next != Continue {
        return;
      }
      var i := least.1;
      ghost var c := cursors[i].State();
      Taken(req, states, views, heap, least, c);
      LeftUpdate(states, i, c);
      assert Left(states)[i := c.files] == Left(states);
      states, views, heap := states[i := c], views[i := c.View(req)], rest;
      assert Objects();
      assert Counts();
      assert Output();
    }

    /** One turn of the merge loop. */
    method Turn() returns (next: Next)
      requires Valid(-1) && primed == |cursors| && heap != multiset{}
      modifies this, writer, out, out.tx, ctl, stats, tracker, cursors
      ensures cursors == old(cursors) && sent <= |full|
      ensures next == Continue ==> Valid(-1) && primed == |cursors| && Measure() < old(Measure())
      ensures next == Break ==> Output() && Counts() && ctl.stopped.Some?
      ensures ctl.Valid() && (next == AtCap ==> ctl.stopped.None?)
      ensures next == AtCap ==> sent < |full| && |Bytes(full, sent + 1)| > req.maxBytes && Counts()
      ensures next == AtCap ==> writer.Wrote(Items(full[..sent])) && Accounted() && stats.truncated
      ensures next == Abort ==> (out.failed || !openable) && |out.accepted| <= req.maxBytes && out.Linked()
      ensures next == Abort ==> exists n :: 0 <= n <= |full| && out.accepted <= Bytes(full, n)
    {
      hide AllNoEmpty, Merge, TallyGroups, Openable, Control.Valid, Sink.Valid, Sink.Linked, CursorsOk, HeapOk, Stream,
           Left, Items, Counted, Cursor.View, Cursor.Valid, Total, Bytes,
           PcapWriter.Wrote, Leq, TallyFiles, Pop, PendingKey, Mismatch, Cursor.Unread, Rest, TallyFile;
      WroteBytes(this);
      WroteMeans(writer, Items(full[..sent]));
      var least, rest := PopMin(heap);
      var live := ctl.Live();
      if !live {
        heap := rest;
        return Break;
      }
      next := FlushAndAdvance(least, rest);
    }

    /** The run goes on: flush if it is time to, then take the packet. */
    method FlushAndAdvance(least: Key, rest: multiset<Key>) returns (next: Next)
      requires Valid(-1) && primed == |cursors| && ctl.stopped.None?
      requires least in heap && rest == heap - multiset{least} && forall k :: k in heap ==> Leq(least, k)
      modifies this, writer, out, out.tx, ctl, stats, tracker, cursors
      ensures ctl.Valid() && (next == AtCap ==> ctl.stopped.None?)
      ensures cursors == old(cursors) && sent <= |full| && next != Break
      ensures next == Continue ==> Valid(-1) && primed == |cursors| && Measure() < old(Measure())
      ensures next == AtCap ==> sent < |full| && |Bytes(full, sent + 1)| > req.maxBytes && Counts()
      ensures next == AtCap ==> writer.Wrote(Items(full[..sent])) && Accounted() && stats.truncated
      ensures next == Abort ==> (out.failed || !openable) && |out.accepted| <= req.maxBytes && out.Linked()
      ensures next == Abort ==> exists n :: 0 <= n <= |full| && out.accepted <= Bytes(full, n)
    {
      hide AllNoEmpty, Merge, TallyGroups, Openable, Control.Valid, Sink.Valid, Sink.Linked, CursorsOk, HeapOk, Stream,
           Left, Items, Counted, Cursor.View, Cursor.Valid, Total, Bytes,
           PcapWriter.Wrote, Leq, TallyFiles, Pop, PendingKey, Mismatch;
      WroteBytes(this);
      WroteMeans(writer, Items(full[..sent]));
      var flushed := MaybeFlush(out);
      if !flushed {
        assert out.accepted <= Bytes(full, sent) && |out.accepted| <= req.maxBytes;
        return Abort;
      }
      WroteMeans(writer, Items(full[..sent]));
      next := Advance(least, rest);
    }

    /** Consume the popped packet and refill its cursor. */
    method Advance(least: Key, rest: multiset<Key>) returns (next: Next)
      requires Valid(-1) && primed == |cursors| && ctl.stopped.None?
      requires least in heap && rest == heap - multiset{least} && forall k :: k in heap ==> Leq(least, k)
      modifies this, writer, out, out.tx, ctl, stats, tracker, cursors
      ensures ctl.Valid() && (next == AtCap ==> ctl.stopped.None?)
      ensures cursors == old(cursors) && sent <= |full| && next != Break
      ensures next == Continue ==> Valid(-1) && primed == |cursors| && Measure() < old(Measure())
      ensures next == AtCap ==> sent < |full| && |Bytes(full, sent + 1)| > req.maxBytes && Counts()
      ensures next == AtCap ==> writer.Wrote(Items(full[..sent])) && Accounted() && stats.truncated
      ensures next == Abort ==> (out.failed || !openable) && |out.accepted| <= req.maxBytes && out.Linked()
      ensures next == Abort ==> exists n :: 0 <= n <= |full| && out.accepted <= Bytes(full, n)
    {
      hide AllNoEmpty, Merge, TallyGroups, Openable, Control.Valid, Sink.Valid, Sink.Linked, CursorsOk, HeapOk, Stream,
           Left, Items, Counted, Cursor.View, Cursor.Valid, Total, Bytes, PcapWriter.Wrote;
      InHeap(states, heap, least);
      next := Consume(least, rest);
      if next == Continue {
        WroteBytes(this);
        var ok := RefillCursor(least.1);
        if !ok {
          assert out.accepted <= Bytes(full, sent);
          return Abort;
        }
      }
    }

    /** The first refill of every cursor, in group order. */
    method Prime() returns (ok: bool)
      requires Valid(-1) && primed == 0
      modifies this, ctl, stats, tracker, cursors, out, out.tx
      ensures cursors == old(cursors) && sent == old(sent) && out.accepted == old(out.accepted)
      ensures ok ==> Valid(-1) && primed == |cursors|
      ensures !ok ==> (out.failed || !openable) && out.Linked() && ctl.Valid()
    {
      hide AllNoEmpty, Merge, TallyGroups, Openable, Control.Valid, Sink.Valid, Sink.Linked, CursorsOk, HeapOk, Stream,
           Left, Items, Counted, PcapWriter.Wrote;
      var i := 0;
      while i < |cursors|
        invariant Valid(-1) && primed == i <= |cursors|
        invariant cursors == old(cursors) && sent == old(sent) && out.accepted == old(out.accepted)
      {
        Weaken(req, states, views, ctl.stopped.None?, primed);
        ok := RefillCursor(i);
        if !ok {
          return;
        }
        i := i + 1;
      }
      ok := true;
    }

    function Report(): FetchStats
      reads this, stats
    {
      FetchStats(stats.packets, stats.bytes, stats.scanned, stats.vanished, stats.truncated)
    }

    lemma CountedSoFar()
      requires Counts()
      ensures stats.scanned <= tally.scanned && stats.vanished <= tally.vanished
    {
      hide TallyGroups, Openable;
    }

    lemma NothingWritten()
      requires Output() && sent == 0
      ensures writer.bytes == 0
    {
    }

    /** The classification after the merge loop. */
    method Finish() returns (r: Outcome)
      requires Output() && Counts() && Stops()
      requires ctl.stopped.None? ==> Valid(-1) && primed == |cursors| && heap == multiset{}
      modifies stats
      ensures !r.IoError?
      ensures ctl.stopped.Some? ==> r.Done?
      ensures ctl.stopped.None? ==> sent == |full|
      ensures r.Done? || r.NoMatch? ==> r.stats.packets == sent && r.stats.bytes == writer.bytes
      ensures r.Done? ==> r.stats.truncated == (ctl.stopped == Some(Deadline))
      ensures r.Done? && ctl.stopped.None? ==> sent > 0
      ensures ctl.stopped.None? ==> openable
      ensures r.Done? || r.NoMatch? ==> r.stats.scanned == stats.scanned && r.stats.vanished == stats.vanished
      ensures r.Done? ==> r.stats.scanned <= tally.scanned && r.stats.vanished <= tally.vanished
      ensures r.Done? && ctl.stopped.None? ==> r.stats.scanned == tally.scanned && r.stats.vanished == tally.vanished
      ensures !r.Done? ==> sent == 0 && |full| == 0
      ensures !r.Done? ==> r == EmptyReport(req, tally)
    {
      hide AllNoEmpty, Merge, TallyGroups, Openable, Control.Valid, Sink.Valid, Sink.Linked, CursorsOk, HeapOk, Stream,
           Left, Items, PcapWriter.Wrote;
      match ctl.stopped {
        case Some(Cancelled) =>
          return Done(Report());
        case Some(Deadline) =>
          stats.truncated := true;
          return Done(Report());
        case None =>
      }
      Drained(req, states, views, outputLink);
      assert full[sent..] == [];
      if stats.packets == 0 && !stats.truncated {
        NothingWritten();
        if req.filter.Expression? && !tracker.compiledAny && tracker.failedAny {
          return FormatError;
        }
        if stats.scanned == 0 {
          return NoCandidateFiles;
        }
        return NoMatch(Report());
      }
      return Done(Report());
    }

    ghost function Measure(): nat
      reads this, ctl
    {
      if ctl.stopped.Some? then 0 else 1 + Total(views)
    }

    ghost predicate Accounted()
      reads this, writer, stats
    {
      stats.packets == sent && stats.bytes == writer.bytes <= req.maxBytes
    }
  }

  method NewCursors(groups: seq<seq<SpoolFile>>) returns (cs: seq<GroupCursor>)
    ensures |cs| == |groups|
    ensures forall i :: 0 <= i < |cs| ==>
      fresh(cs[i]) && cs[i].slot == i && cs[i].State() == Cursor(groups[i], None, None)
  {
    cs := [];
    while |cs| < |groups|
      invariant |cs| <= |groups|
      invariant forall i :: 0 <= i < |cs| ==>
        fresh(cs[i]) && cs[i].slot == i && cs[i].State() == Cursor(groups[i], None, None)
      decreases |groups| - |cs|
    {
      var c := new GroupCursor(groups[|cs|], |cs|);
      cs := cs + [c];
    }
  }

  lemma SameLength(req: Request, states: seq<Cursor>, views: seq<Files>)
    requires CursorsOk(req, states, views, true, |states|, -1)
    ensures |states| == |views|
  {
  }

  lemma AllExhausted(req: Request, states: seq<Cursor>, views: seq<Files>)
    requires CursorsOk(req, states, views, true, |states|, -1) && HeapOk(states, multiset{})
    ensures forall i :: 0 <= i < |states| ==> views[i] == [] && states[i].files == []
  {
    hide Cursor.View, Cursor.Valid;
    forall i | 0 <= i < |states| ensures states[i].pending.None? {
      var empty: multiset<Key> := multiset{};
      var key := (if states[i].pending.Some? then states[i].pending.value.ts else 0, i);
      assert empty[key] == if PendingKey(states, key) then 1 else 0;
    }
  }

  /** Once the heap is empty and nothing stopped the fetch, nothing is left anywhere. */
  lemma Drained(req: Request, states: seq<Cursor>, views: seq<Files>, link: Option<int>)
    requires CursorsOk(req, states, views, true, |states|, -1) && HeapOk(states, multiset{})
    requires AllNoEmpty(views)
    ensures Merge(views, link) == []
    ensures TallyGroups(req, Left(states)) == ZERO && Openable(Left(states))
  {
    hide CursorsOk, HeapOk, TallyGroups;
    AllExhausted(req, states, views);
    assert |states| == |views| by {
      SameLength(req, states, views);
    }
    TallyNothing(req, Left(states));
  }

  lemma {:induction false} NoFiles(groups: seq<seq<SpoolFile>>)
    ensures FileCount(groups) == 0 <==> forall i :: 0 <= i < |groups| ==> groups[i] == []
  {
    if groups != [] {
      NoFiles(groups[1..]);
      assert forall i :: 1 <= i < |groups| ==> groups[i] == groups[1..][i - 1];
    }
  }

  lemma NothingToMerge(req: Request, groups: seq<seq<SpoolFile>>)
    requires forall i :: 0 <= i < |groups| ==> groups[i] == []
    ensures Full(req, groups) == []
  {
    assert forall i :: 0 <= i < |groups| ==> AllEntries(req, groups)[i] == [];
  }

  // ----- the whole fetch

  /** A generated flow filter must compile for Ethernet before any file is touched. */
  predicate FlowRejected(req: Request) {
    req.filter.Flow? && !req.bpf.compiles(VlanWrapped(req.filter.base), ETHERNET)
  }

  /** The writer's state, spelled out in bytes. */
  lemma WroteBytes(x: Extraction)
    requires x.sent <= |x.full| && x.writer.out == x.out && x.writer.Wrote(Items(x.full[..x.sent]))
    ensures x.out.accepted == Bytes(x.full, x.sent) && x.writer.bytes == |x.out.accepted|
    ensures x.out.Valid() && x.out.Linked()
  {
  }

  lemma NothingToReport(req: Request)
    ensures EmptyReport(req, ZERO) == NoCandidateFiles
  {
  }

  /** What a fetch that was let to start does. `full` is the unlimited run, `sent` the
      number of packets written, `looks` how often it looked at the clock. */
  ghost predicate Ran(req: Request, groups: seq<seq<SpoolFile>>, clock: nat -> Tick, r: Outcome, sent: nat,
                      looks: nat, accepted: seq<byte>)
  {
    var full := Full(req, groups);
    var stop := StoppedBy(clock, looks);
    // Whatever stops the fetch, what was written is a prefix of the unlimited run.
    && sent <= |full|
    && (!r.IoError? ==> accepted == Bytes(full, sent))
    && (r.IoError? ==> BeginsRun(full, accepted))
    // The cap is never exceeded, and only the cap or a stop ends the output early.
    && |accepted| <= req.maxBytes
    && (stop.None? && !r.IoError? && sent < |full| ==>
          r.Done? && r.stats.truncated && |Bytes(full, sent + 1)| > req.maxBytes)
    && (stop.None? && r.Done? && r.stats.truncated ==> sent < |full|)
    // Accounting.
    && (r.Done? || r.NoMatch? ==> r.stats.packets == sent && r.stats.bytes == |accepted|)
    && (r.Done? ==>
          r.stats.scanned <= TallyGroups(req, groups).scanned && r.stats.vanished <= TallyGroups(req, groups).vanished)
    && (stop.None? && r.Done? && !r.stats.truncated ==>
          r.stats.scanned == TallyGroups(req, groups).scanned && r.stats.vanished == TallyGroups(req, groups).vanished)
    // Classification.
    && (!r.Done? && !r.IoError? ==> full == [] && sent == 0 && r == EmptyReport(req, TallyGroups(req, groups)))
    && (stop.Some? && !r.IoError? ==> r.Done? && r.stats.truncated == (stop == Some(Deadline)))
    && (stop.None? && r.Done? ==> full != [])
    // Whoever ends by itself has met no file that the descriptor limit kept closed.
    && (stop.None? && !r.IoError? && sent == |full| ==> Openable(groups))
    && (forall n: nat :: n + 1 < looks ==> clock(n) == Go)
  }

  ghost predicate BeginsRun(full: seq<Tagged>, b: seq<byte>) {
    exists n :: 0 <= n <= |full| && b <= Bytes(full, n)
  }

  /** A flow filter that does not compile for Ethernet ends the fetch before it starts. */
  ghost predicate Refused(r: Outcome, sent: nat, looks: nat, accepted: seq<byte>) {
    r == FormatError && sent == 0 && looks == 0 && accepted == []
  }

  /** `fetch` */
  method Fetch(req: Request, groups: seq<seq<SpoolFile>>, clock: nat -> Tick, out: Sink)
    returns (r: Outcome, ghost sent: nat, ghost looks: nat)
    requires out.Valid() && out.accepted == []
    modifies out, out.tx
    ensures if req.filter.Flow?
                && !req.bpf.compiles("(" + req.filter.base + ") or (vlan and (" + req.filter.base + "))", 1)
            then Refused(r, sent, looks, out.accepted)
            else Ran(req, groups, clock, r, sent, looks, out.accepted)
    ensures r.IoError? ==> out.failed || !Openable(groups)
    ensures out.Linked() && (!r.IoError? ==> out.Valid())
  {
    hide Sink.Valid, Sink.Linked, Merge, EmptyReport, TallyGroups, FileCount;
    sent, looks := 0, 0;
    ValidIsLinked(out);
    ghost var full := Full(req, groups);
    if FlowRejected(req) {
      assert full[..0] == [];
      return FormatError, 0, 0;
    }
    NoFiles(groups);
    if forall i :: 0 <= i < |groups| ==> groups[i] == [] {
      NothingToMerge(req, groups);
      TallyNothing(req, groups);
      NothingToReport(req);
      return NoCandidateFiles, 0, 0;
    }
    r, sent, looks := Extract(req, groups, clock, out);
  }

  lemma Looked(ctl: Control)
    requires ctl.Valid()
    ensures ctl.stopped == StoppedBy(ctl.clock, ctl.looks)
    ensures forall n: nat :: n + 1 < ctl.looks ==> ctl.clock(n) == Go
  {
  }

  method Extract(req: Request, groups: seq<seq<SpoolFile>>, clock: nat -> Tick, out: Sink)
    returns (r: Outcome, ghost sent: nat, ghost looks: nat)
    requires out.Valid() && out.accepted == [] && FileCount(groups) > 0
    modifies out, out.tx
    ensures Ran(req, groups, clock, r, sent, looks, out.accepted)
    ensures r.IoError? ==> out.failed || !Openable(groups)
    ensures out.Linked() && (!r.IoError? ==> out.Valid())
  {
    hide AllNoEmpty, Merge, TallyGroups, Openable, Control.Valid, Sink.Valid, Sink.Linked, CursorsOk, HeapOk, Stream,
         Left, Items, Counted, PcapFetch.Full, Total, FileCount, EmptyReport, PcapWriter.Wrote;
    ghost var full := Full(req, groups);
    var x := new Extraction(req, groups, clock, out);
    var ok := x.Prime();
    if !ok {
      assert out.accepted <= Bytes(full, x.sent);
      Looked(x.ctl);
      return IoError, x.sent, x.ctl.looks;
    }
    r, sent, looks := Drain(x, groups);
  }

  /** The merge loop, once every cursor had its first refill. */
  method Drain(x: Extraction, ghost groups: seq<seq<SpoolFile>>)
    returns (r: Outcome, ghost sent: nat, ghost looks: nat)
    requires x.Valid(-1) && x.primed == |x.cursors|
    requires x.full == Full(x.req, groups) && x.tally == TallyGroups(x.req, groups) && x.openable == Openable(groups)
    modifies x, x.writer, x.out, x.out.tx, x.ctl, x.stats, x.tracker, x.cursors
    ensures Ran(x.req, groups, x.ctl.clock, r, sent, looks, x.out.accepted)
    ensures r.IoError? ==> x.out.failed || !Openable(groups)
    ensures x.out.Linked() && (!r.IoError? ==> x.out.Valid())
  {
    hide AllNoEmpty, Merge, TallyGroups, Openable, Control.Valid, Sink.Valid, Sink.Linked, CursorsOk, HeapOk, Stream,
         Left, Items, Counted, PcapFetch.Full, Total, EmptyReport, PcapWriter.Wrote;
    ghost var cs := x.cursors;
    while x.heap != multiset{}
      invariant x.Valid(-1) && x.primed == |x.cursors|
      invariant x.cursors == cs
      decreases x.Measure()
    {
      var next := x.Turn();
      Looked(x.ctl);
      if next == Break {
        break;
      }
      if next == AtCap {
        WroteBytes(x);
        x.CountedSoFar();
        return Done(x.Report()), x.sent, x.ctl.looks;
      }
      if next == Abort {
        return IoError, x.sent, x.ctl.looks;
      }
    }
    WroteBytes(x);
    Looked(x.ctl);
    r := x.Finish();
    sent, looks := x.sent, x.ctl.looks;
  }

  // ----- what the unlimited run is

  lemma AllGroupsUniform(req: Request, groups: seq<seq<SpoolFile>>)
    ensures AllUniform(AllEntries(req, groups))
  {
    hide Uniform, GroupEntries;
    forall i | 0 <= i < |groups| ensures Uniform(AllEntries(req, groups)[i]) {
      GroupUniform(req, groups[i]);
    }
  }

  lemma {:induction false} GroupHasNoMatch(req: Request, fs: seq<SpoolFile>)
    ensures GroupEntries(req, fs) == [] <==> forall j :: 0 <= j < |fs| ==> FileEntries(req, fs[j]) == []
  {
    hide FileEntries;
    if fs != [] {
      GroupHasNoMatch(req, fs[1..]);
      assert FilesEntries(req, fs)[1..] == FilesEntries(req, fs[1..]);
      assert forall j :: 1 <= j < |fs| ==> fs[j] == fs[1..][j - 1];
    }
  }

  /** An unlimited run emits nothing if and only if no openable file whose filter
      compiles has a matching packet; otherwise every group contributes exactly its
      matching packets of the first emitted packet's link type, in capture order. */
  lemma UnlimitedRunEmitsExactlyTheMatches(req: Request, groups: seq<seq<SpoolFile>>)
    ensures Full(req, groups) == [] <==>
      forall g, j :: 0 <= g < |groups| && 0 <= j < |groups[g]| ==> FileEntries(req, groups[g][j]) == []
    ensures Full(req, groups) != [] ==>
      var link := Full(req, groups)[0].entry.link;
      forall g :: 0 <= g < |groups| ==>
        FromGroup(Full(req, groups), g) == OfLink(Flat(GroupEntries(req, groups[g])), link)
  {
    hide GroupEntries, FileEntries, Merge;
    var gs := AllEntries(req, groups);
    AllGroupsUniform(req, groups);
    forall g | 0 <= g < |groups|
      ensures Full(req, groups) == [] ==> GroupEntries(req, groups[g]) == []
      ensures Full(req, groups) != [] ==>
        FromGroup(Full(req, groups), g) == OfLink(Flat(GroupEntries(req, groups[g])), Full(req, groups)[0].entry.link)
    {
      MergeEmitsExactly(gs, g);
    }
    forall g | 0 <= g < |groups|
      ensures GroupEntries(req, groups[g]) == [] <==>
        forall j :: 0 <= j < |groups[g]| ==> FileEntries(req, groups[g][j]) == []
    {
      GroupHasNoMatch(req, groups[g]);
    }
    if |groups| == 0 {
      assert !PcapMerge.Live(gs);
      MergeOfNothing(gs, None);
    } else {
      MergeEmitsExactly(gs, 0);
    }
  }

  /** If the matches of each group are in time order, the output is in time order
      with equal times in group order, and it is the only such interleaving. */
  lemma UnlimitedRunIsTheSortedInterleaving(req: Request, groups: seq<seq<SpoolFile>>, other: seq<Tagged>)
    requires forall g :: 0 <= g < |groups| ==> TimeSorted(Flat(GroupEntries(req, groups[g])))
    ensures OutputSorted(Full(req, groups))
    ensures OutputSorted(other) && SameContributions(other, Full(req, groups)) ==> other == Full(req, groups)
  {
    hide GroupEntries, Merge, TimeSorted, OutputSorted;
    var gs := AllEntries(req, groups);
    assert AllSorted(gs);
    assert HeadsFrom(gs, 0, 0);
    MergeSorted(gs, None, 0, 0);
    if OutputSorted(other) && SameContributions(other, Full(req, groups)) {
      SortedInterleavingIsUnique(other, Full(req, groups));
    }
  }
}
