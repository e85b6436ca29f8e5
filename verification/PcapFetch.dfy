/**
 The extraction engine of src/pcap/fetch.rs: one cursor per rotation group, at most
 one open capture and one pending packet per cursor, and a min-heap of
 (timestamp, group) deciding which pending packet is written next.
 */
module PcapFetch {
  import opened Common
  import opened Output
  import opened PcapFormat
  import opened PcapMerge

  // ----- what the engine is given

  /** A spool file as `Capture::from_file` finds it. */
  datatype SpoolFile = Vanished | FdExhausted | Capture(link: int, packets: seq<Packet>)

  datatype Filter = NoFilter | Expression(text: string) | Flow(base: string)

  /** A generated flow expression matches tagged packets too. */
  function VlanWrapped(expr: string): string {
    "(" + expr + ") or (vlan and (" + expr + "))"
  }

  /** libpcap as given functions: does an expression compile for a link type, and
      does the compiled program accept a packet. */
  datatype Bpf = Bpf(compiles: (string, int) -> bool, accepts: (string, int, Packet) -> bool)

  datatype Request = Request(bpf: Bpf, filter: Filter, start: Option<nat>, end: Option<nat>, maxBytes: nat)
  {
    predicate Gate() { start.Some? || end.Some? }
    function Start(): nat { if start.Some? then start.value else 0 }
    function End(): nat { if end.Some? then end.value else U64_MAX }
  }

  const ETHERNET: int := 1

  datatype Prepared = Skip | MatchAll | Program(text: string)

  /** Which program, if any, a file of link type `link` is scanned with. */
  function Prepare(req: Request, link: int): Prepared {
    match req.filter
    case NoFilter => MatchAll
    case Expression(e) => if req.bpf.compiles(e, link) then Program(e) else Skip
    case Flow(b) =>
      var w := VlanWrapped(b);
      if req.bpf.compiles(w, link) then Program(w) else if req.bpf.compiles(b, link) then Program(b) else Skip
  }

  /** The packet's time in microseconds where it is a `u64`. */
  function Stamp(p: Packet): Option<nat> {
    if p.sec < 0 || p.usec < 0 || p.sec * 1_000_000 + p.usec > U64_MAX then None
    else Some(p.sec * 1_000_000 + p.usec)
  }

  /** The heap key: like `Stamp`, saturated where it is not representable. */
  function TsMicros(p: Packet): nat {
    var secs := if p.sec < 0 then 0 else p.sec;
    var micros := if p.usec < 0 then 0 else p.usec;
    SatU64(SatU64(secs * 1_000_000) + micros)
  }

  predicate InWindow(req: Request, p: Packet) {
    req.Gate() ==> Stamp(p).Some? && req.Start() <= Stamp(p).value <= req.End()
  }

  predicate Accepts(req: Request, prepared: Prepared, link: int, p: Packet) {
    && InWindow(req, p)
    && (prepared.Program? ==> req.bpf.accepts(prepared.text, link, p))
  }

  function EntryOf(link: int, p: Packet): Entry {
    Entry(TsMicros(p), link, p)
  }

  function Matching(req: Request, prepared: Prepared, link: int, ps: seq<Packet>): seq<Entry> {
    if ps == [] then
      []
    else if Accepts(req, prepared, link, ps[0]) then
      [EntryOf(link, ps[0])] + Matching(req, prepared, link, ps[1..])
    else
      Matching(req, prepared, link, ps[1..])
  }

  /** The matching packets of one file: none if it cannot be opened or its filter
      does not compile. */
  function FileEntries(req: Request, f: SpoolFile): seq<Entry> {
    if f.Capture? && !Prepare(req, f.link).Skip? then Matching(req, Prepare(req, f.link), f.link, f.packets) else []
  }

  function FilesEntries(req: Request, fs: seq<SpoolFile>): Files {
    if fs == [] then [] else [FileEntries(req, fs[0])] + FilesEntries(req, fs[1..])
  }

  /** The matching packets of one group, files without a match dropped. */
  function GroupEntries(req: Request, fs: seq<SpoolFile>): (r: Files)
    ensures NoEmpty(r)
  {
    Dense(FilesEntries(req, fs))
  }

  function AllEntries(req: Request, groups: seq<seq<SpoolFile>>): (r: seq<Files>)
    ensures |r| == |groups| && forall i :: 0 <= i < |groups| ==> r[i] == GroupEntries(req, groups[i])
    ensures AllNoEmpty(r)
  {
    seq(|groups|, i requires 0 <= i < |groups| => GroupEntries(req, groups[i]))
  }

  /** What an unlimited run emits. */
  ghost function Full(req: Request, groups: seq<seq<SpoolFile>>): seq<Tagged> {
    Merge(AllEntries(req, groups), None)
  }

  function Items(out: seq<Tagged>): seq<Item> {
    if out == [] then [] else [Item(out[0].entry.link, out[0].entry.packet)] + Items(out[1..])
  }

  // ----- counting the candidate files

  /** Captures opened, vanished files, and for a user expression the captures on
      which it compiles and on which it does not. */
  datatype Tally = Tally(scanned: nat, vanished: nat, compiled: nat, failed: nat) {
    function Plus(t: Tally): Tally {
      Tally(scanned + t.scanned, vanished + t.vanished, compiled + t.compiled, failed + t.failed)
    }
  }

  const ZERO: Tally := Tally(0, 0, 0, 0)

  function TallyFile(req: Request, f: SpoolFile): Tally {
    match f
    case Vanished => Tally(0, 1, 0, 0)
    case FdExhausted => ZERO
    case Capture(link, _) =>
      if req.filter.Expression? then
        if req.bpf.compiles(req.filter.text, link) then Tally(1, 0, 1, 0) else Tally(1, 0, 0, 1)
      else Tally(1, 0, 0, 0)
  }

  function TallyFiles(req: Request, fs: seq<SpoolFile>): Tally {
    if fs == [] then ZERO else TallyFile(req, fs[0]).Plus(TallyFiles(req, fs[1..]))
  }

  function TallyGroups(req: Request, groups: seq<seq<SpoolFile>>): Tally {
    if groups == [] then ZERO else TallyFiles(req, groups[0]).Plus(TallyGroups(req, groups[1..]))
  }

  function FileCount(groups: seq<seq<SpoolFile>>): nat {
    if groups == [] then 0 else |groups[0]| + FileCount(groups[1..])
  }

  predicate Openable(groups: seq<seq<SpoolFile>>) {
    forall i, j :: 0 <= i < |groups| && 0 <= j < |groups[i]| ==> !groups[i][j].FdExhausted?
  }

  lemma {:induction false} TallyNothing(req: Request, groups: seq<seq<SpoolFile>>)
    requires forall i :: 0 <= i < |groups| ==> groups[i] == []
    ensures TallyGroups(req, groups) == ZERO
  {
    if groups != [] {
      TallyNothing(req, groups[1..]);
    }
  }

  lemma TallyCountsOne(req: Request, f: SpoolFile)
    requires !f.FdExhausted?
    ensures TallyFile(req, f).scanned + TallyFile(req, f).vanished == 1
  {
  }

  lemma {:induction false} TallyCountsFiles(req: Request, fs: seq<SpoolFile>)
    requires forall j :: 0 <= j < |fs| ==> !fs[j].FdExhausted?
    ensures TallyFiles(req, fs).scanned + TallyFiles(req, fs).vanished == |fs|
  {
    hide TallyFile;
    if fs != [] {
      TallyCountsOne(req, fs[0]);
      TallyCountsFiles(req, fs[1..]);
    }
  }

  /** Every candidate file is either opened or counted as vanished. */
  lemma {:induction false} TallyCountsGroups(req: Request, groups: seq<seq<SpoolFile>>)
    requires Openable(groups)
    ensures TallyGroups(req, groups).scanned + TallyGroups(req, groups).vanished == FileCount(groups)
  {
    if groups != [] {
      TallyCountsFiles(req, groups[0]);
      assert forall i, j :: 0 <= i < |groups[1..]| && 0 <= j < |groups[1..][i]| ==>
        groups[1..][i][j] == groups[i + 1][j];
      TallyCountsGroups(req, groups[1..]);
    }
  }

  // ----- facts about one group

  lemma MatchingNothing(req: Request, prepared: Prepared, link: int)
    ensures Matching(req, prepared, link, []) == []
  {
  }

  lemma MatchingStep(req: Request, prepared: Prepared, link: int, ps: seq<Packet>)
    requires ps != []
    ensures Matching(req, prepared, link, ps)
         == if Accepts(req, prepared, link, ps[0])
            then [EntryOf(link, ps[0])] + Matching(req, prepared, link, ps[1..])
            else Matching(req, prepared, link, ps[1..])
  {
  }

  lemma OpenedFile(req: Request, f: SpoolFile)
    ensures FileEntries(req, f)
         == if f.Capture? && !Prepare(req, f.link).Skip?
            then Matching(req, Prepare(req, f.link), f.link, f.packets) else []
  {
  }

  lemma {:induction false} MatchingUniform(req: Request, prepared: Prepared, link: int, ps: seq<Packet>)
    ensures forall j :: 0 <= j < |Matching(req, prepared, link, ps)| ==>
      Matching(req, prepared, link, ps)[j].link == link
  {
    if ps != [] {
      MatchingUniform(req, prepared, link, ps[1..]);
    }
  }

  lemma {:induction false} GroupUniform(req: Request, fs: seq<SpoolFile>)
    ensures Uniform(GroupEntries(req, fs))
  {
    if fs != [] {
      GroupUniform(req, fs[1..]);
      if fs[0].Capture? {
        MatchingUniform(req, Prepare(req, fs[0].link), fs[0].link, fs[0].packets);
      }
      assert FilesEntries(req, fs)[1..] == FilesEntries(req, fs[1..]);
      var rest := GroupEntries(req, fs[1..]);
      var all := GroupEntries(req, fs);
      if FileEntries(req, fs[0]) != [] {
        assert all == [FileEntries(req, fs[0])] + rest;
      } else {
        assert all == rest;
      }
    }
  }

  /** The rest of a group whose open file still has `current` matches to come. */
  function Rest(req: Request, current: seq<Entry>, fs: seq<SpoolFile>): (r: Files)
    ensures NoEmpty(r)
    ensures r == (if current == [] then [] else [current]) + GroupEntries(req, fs)
  {
    assert ([current] + FilesEntries(req, fs))[1..] == FilesEntries(req, fs);
    Dense([current] + FilesEntries(req, fs))
  }

  lemma RestStep(req: Request, fs: seq<SpoolFile>)
    requires fs != []
    ensures Rest(req, [], fs) == Rest(req, FileEntries(req, fs[0]), fs[1..])
  {
  }

  /** Adding what one cursor consumed to the counts keeps the overall sum. */
  lemma {:induction false} TallyReplace(req: Request, a: Tally, b: Tally,
                                       groups: seq<seq<SpoolFile>>, i: nat, fs: seq<SpoolFile>)
    requires i < |groups|
    requires a.Plus(TallyFiles(req, groups[i])) == b.Plus(TallyFiles(req, fs))
    ensures a.Plus(TallyGroups(req, groups)) == b.Plus(TallyGroups(req, groups[i := fs]))
    decreases i
  {
    hide TallyFiles;
    var updated := groups[i := fs];
    assert TallyGroups(req, updated) == TallyFiles(req, updated[0]).Plus(TallyGroups(req, updated[1..]));
    if i == 0 {
      assert updated[1..] == groups[1..];
    } else {
      assert updated[1..] == groups[1..][i - 1 := fs];
      TallyReplace(req, a, b, groups[1..], i - 1, fs);
    }
  }

  /** The gate agrees with the heap key, so the window bounds the merge keys. */
  lemma StampIsKey(p: Packet)
    requires Stamp(p).Some?
    ensures TsMicros(p) == Stamp(p).value
  {
  }

  // ----- the objects of one fetch

  datatype Stop = Cancelled | Deadline

  /** What one look at the cancellation token and the clock finds. */
  datatype Tick = Go | Cancel | Expired

  ghost predicate NeverStops(clock: nat -> Tick) {
    forall n: nat :: clock(n) == Go
  }

  /** What stopped a run that has looked at the clock `looks` times. */
  function StoppedBy(clock: nat -> Tick, looks: nat): Option<Stop> {
    if looks == 0 then None else
    match clock(looks - 1)
    case Go => None
    case Cancel => Some(Cancelled)
    case Expired => Some(Deadline)
  }

  /** `Control`: the n-th look finds `clock(n)`; once stopped, always stopped. */
  class Control {
    const clock: nat -> Tick
    var looks: nat
    var stopped: Option<Stop>

    constructor (clock: nat -> Tick)
      ensures this.clock == clock && Valid() && stopped.None? && looks == 0
    {
      this.clock := clock;
      looks := 0;
      stopped := None;
    }

    /** Every look but the last found that the run goes on, and the last decides. */
    ghost predicate Valid()
      reads this
    {
      stopped == StoppedBy(clock, looks) && forall n: nat :: n + 1 < looks ==> clock(n) == Go
    }

    method Live() returns (live: bool)
      requires Valid()
      modifies this
      ensures Valid() && live == stopped.None?
      ensures old(stopped).Some? ==> stopped == old(stopped) && looks == old(looks)
      ensures old(stopped).None? ==> looks == old(looks) + 1
    {
      if stopped.Some? {
        return false;
      }
      var tick := clock(looks);
      looks := looks + 1;
      match tick
      case Go => return true;
      case Cancel => stopped := Some(Cancelled); return false;
      case Expired => stopped := Some(Deadline); return false;
    }
  }

  /** `FetchStats` while the fetch runs. */
  class Stats {
    var packets: nat
    var bytes: nat
    var scanned: nat
    var vanished: nat
    var truncated: bool

    constructor ()
      ensures packets == bytes == scanned == vanished == 0 && !truncated
    {
      packets, bytes, scanned, vanished, truncated := 0, 0, 0, 0, false;
    }
  }

  /** `BpfExprTracker`, with the numbers that its two flags abbreviate. */
  class BpfExprTracker {
    var compiledAny: bool
    var failedAny: bool
    ghost var compiled: nat
    ghost var failed: nat

    ghost predicate Valid()
      reads this
    {
      compiledAny == (compiled > 0) && failedAny == (failed > 0)
    }

    constructor ()
      ensures Valid() && compiled == failed == 0
    {
      compiledAny, failedAny, compiled, failed := false, false, 0, 0;
    }
  }

  ghost function Counted(stats: Stats, tracker: BpfExprTracker): Tally
    reads stats, tracker
  {
    Tally(stats.scanned, stats.vanished, tracker.compiled, tracker.failed)
  }

  datatype OpenCapture = OpenCapture(link: int, prepared: Prepared, rest: seq<Packet>)

  /** `open_group_file`: not `ok` is descriptor exhaustion, which aborts the fetch. */
  method OpenGroupFile(req: Request, f: SpoolFile, tracker: BpfExprTracker, stats: Stats)
    returns (ok: bool, open: Option<OpenCapture>)
    requires tracker.Valid()
    modifies tracker, stats
    ensures tracker.Valid()
    ensures ok == !f.FdExhausted?
    ensures ok ==> Counted(stats, tracker) == old(Counted(stats, tracker)).Plus(TallyFile(req, f))
    ensures open == if f.Capture? && !Prepare(req, f.link).Skip?
                    then Some(OpenCapture(f.link, Prepare(req, f.link), f.packets)) else None
    ensures stats.packets == old(stats.packets) && stats.bytes == old(stats.bytes)
    ensures stats.truncated == old(stats.truncated)
  {
    ok, open := true, None;
    match f
    case FdExhausted =>
      ok := false;
    case Vanished =>
      stats.vanished := stats.vanished + 1;
    case Capture(link, packets) =>
      stats.scanned := stats.scanned + 1;
      match req.filter {
        case Expression(e) =>
          if req.bpf.compiles(e, link) {
            tracker.compiledAny := true;
            tracker.compiled := tracker.compiled + 1;
            open := Some(OpenCapture(link, Program(e), packets));
          } else {
            tracker.failedAny := true;
            tracker.failed := tracker.failed + 1;
          }
        case Flow(base) =>
          var wrapped := VlanWrapped(base);
          if req.bpf.compiles(wrapped, link) {
            open := Some(OpenCapture(link, Program(wrapped), packets));
          } else if req.bpf.compiles(base, link) {
            open := Some(OpenCapture(link, Program(base), packets));
          }
        case NoFilter =>
          open := Some(OpenCapture(link, MatchAll, packets));
      }
  }

  /** `Flusher::maybe_flush`, whose interval may be over at any call. */
  method MaybeFlush(out: Sink) returns (ok: bool)
    requires out.Valid()
    modifies out, out.tx
    ensures out.accepted == old(out.accepted) && out.Linked() && (ok ==> out.Valid()) && out.failed == !ok
  {
    ok := true;
    if * {
      ok := out.Flush();
    }
    hide Sink.Linked;
    if ok {
      ValidIsLinked(out);
    }
  }

  /** The value of a `GroupCursor`: files not yet opened, the open capture, and the
      one match held back. */
  datatype Cursor = Cursor(files: seq<SpoolFile>, open: Option<OpenCapture>, pending: Option<Entry>) {
    ghost predicate Valid(req: Request) {
      && (open.Some? ==> open.value.prepared == Prepare(req, open.value.link) && !open.value.prepared.Skip?)
      && (pending.Some? ==> open.Some? && pending.value.link == open.value.link)
    }

    ghost function Unread(req: Request): seq<Entry> {
      if open.Some? then Matching(req, open.value.prepared, open.value.link, open.value.rest) else []
    }

    /** The matches the cursor has yet to give up, the pending one first. */
    ghost function View(req: Request): (r: Files)
      ensures NoEmpty(r)
    {
      Rest(req, if pending.Some? then [pending.value] + Unread(req) else Unread(req), files)
    }
  }

  /** Some of the files have been opened, none that the descriptor limit keeps closed. */
  ghost predicate OpenedOf(before: seq<SpoolFile>, after: seq<SpoolFile>) {
    && (forall f :: f in after ==> f in before)
    && (forall f :: f in before && f.FdExhausted? ==> f in after)
  }

  /** `GroupCursor`: walks one group's files, holding one pending match at most. */
  class GroupCursor {
    /** The position of this cursor among the fetch's cursors. */
    ghost const slot: nat
    var files: seq<SpoolFile>
    var open: Option<OpenCapture>
    var pending: Option<Entry>

    ghost function State(): Cursor
      reads this
    {
      Cursor(files, open, pending)
    }

    ghost predicate Valid(req: Request)
      reads this
    {
      State().Valid(req)
    }

    ghost function View(req: Request): Files
      reads this
    {
      State().View(req)
    }

    constructor (files: seq<SpoolFile>, ghost slot: nat)
      ensures this.files == files && open.None? && pending.None? && this.slot == slot
    {
      this.slot := slot;
      this.files := files;
      open := None;
      pending := None;
    }

    /** Open the group's next file. */
    method OpenNext(req: Request, tracker: BpfExprTracker, stats: Stats) returns (ok: bool)
      requires Valid(req) && pending.None? && open.None? && files != [] && tracker.Valid()
      modifies this, tracker, stats
      ensures Valid(req) && pending.None? && tracker.Valid()
      ensures files == old(files)[1..]
      ensures ok == !old(files)[0].FdExhausted?
      ensures ok ==> Counted(stats, tracker) == old(Counted(stats, tracker)).Plus(TallyFile(req, old(files)[0]))
      ensures ok ==> View(req) == old(View(req))
      ensures stats.packets == old(stats.packets) && stats.bytes == old(stats.bytes)
      ensures stats.truncated == old(stats.truncated)
    {
      hide Rest, GroupEntries, FileEntries, TallyFile, Matching, Prepare;
      var f := files[0];
      RestStep(req, files);
      OpenedFile(req, f);
      files := files[1..];
      ok, open := OpenGroupFile(req, f, tracker, stats);
    }

    /** Read one packet of the open file: it becomes pending if it matches; at the
        end of the file, or at an error, the file is closed. */
    method ReadNext(req: Request)
      requires Valid(req) && pending.None? && open.Some?
      modifies this
      ensures Valid(req) && View(req) == old(View(req)) && files == old(files)
      ensures open.Some? ==> |open.value.rest| < |old(open).value.rest|
    {
      hide Rest, Matching, Prepare, Accepts;
      var o := open.value;
      if o.rest == [] {
        MatchingNothing(req, o.prepared, o.link);
        open := None;
        return;
      }
      MatchingStep(req, o.prepared, o.link, o.rest);
      var p := o.rest[0];
      open := Some(o.(rest := o.rest[1..]));
      if Accepts(req, o.prepared, o.link, p) {
        pending := Some(EntryOf(o.link, p));
      }
    }

    /** `refill`: unless stopped, the matches to come stay the same and the first of
        them, if any, is now pending. */
    method Refill(req: Request, tracker: BpfExprTracker, ctl: Control, stats: Stats, out: Sink) returns (ok: bool)
      requires Valid(req) && pending.None? && tracker.Valid() && ctl.Valid() && out.Valid()
      modifies this, tracker, ctl, stats, out, out.tx
      ensures Valid(req) && tracker.Valid() && ctl.Valid()
      ensures out.accepted == old(out.accepted) && out.Linked() && (ok ==> out.Valid())
      ensures ok ==> Counted(stats, tracker).Plus(TallyFiles(req, files))
                     == old(Counted(stats, tracker)).Plus(old(TallyFiles(req, files)))
      ensures stats.packets == old(stats.packets) && stats.bytes == old(stats.bytes)
      ensures stats.truncated == old(stats.truncated)
      ensures old(ctl.stopped).Some? ==> ctl.stopped == old(ctl.stopped)
      ensures ctl.stopped.Some? ==> pending.None?
      ensures ok && ctl.stopped.None? ==> View(req) == old(View(req))
      ensures ok && ctl.stopped.None? && pending.None? ==> files == [] && View(req) == []
      ensures !ok ==> out.failed || exists f :: f in old(files) && f.FdExhausted?
      ensures ok ==> OpenedOf(old(files), files)
    {
      hide Rest, GroupEntries, TallyFile, Cursor.View, Cursor.Unread, Cursor.Valid, Prepare, Counted,
           Control.Valid, Sink.Valid, Sink.Linked;
      ValidIsLinked(out);
      while true
        invariant Valid(req) && pending.None? && tracker.Valid() && ctl.Valid()
        invariant out.Valid() && out.Linked() && out.accepted == old(out.accepted)
        invariant Counted(stats, tracker).Plus(TallyFiles(req, files))
                  == old(Counted(stats, tracker)).Plus(old(TallyFiles(req, files)))
        invariant stats.packets == old(stats.packets) && stats.bytes == old(stats.bytes)
        invariant stats.truncated == old(stats.truncated)
        invariant ctl.stopped == old(ctl.stopped)
        invariant View(req) == old(View(req))
        invariant OpenedOf(old(files), files)
        decreases |files|, if open.Some? then 1 + |open.value.rest| else 0
      {
        var live := ctl.Live();
        if !live {
          return true;
        }
        var flushed := MaybeFlush(out);
        if !flushed {
          return false;
        }
        if open.None? {
          if files == [] {
            ViewOfNothing(req);
            return true;
          }
          var opens := OpenNext(req, tracker, stats);
          if !opens {
            return false;
          }
        } else {
          ReadNext(req);
          if pending.Some? {
            return true;
          }
        }
      }
    }

    lemma ViewOfNothing(req: Request)
      requires open.None? && pending.None? && files == []
      ensures View(req) == []
    {
    }
  }
}
