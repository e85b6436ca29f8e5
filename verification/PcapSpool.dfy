/**
 Spool discovery (src/pcap/spool.rs): candidate files are grouped by rotation
 sequence, each sequence is sorted and pruned to the requested window, and the
 pruning cannot be seen in what a fetch emits.
 */
module PcapSpool {
  import opened Common
  import opened Output
  import opened PcapFormat
  import opened PcapMerge
  import opened PcapFetch
  import opened PcapExtract

  /** A rotated file: its rotation time in seconds, its path's rank among all paths,
      and what opening it yields. */
  datatype Rotated = Rotated(time: nat, path: nat, file: SpoolFile)

  predicate FileLeq(a: Rotated, b: Rotated) {
    a.time < b.time || (a.time == b.time && a.path <= b.path)
  }

  /** By rotation time, files of one time by path. */
  ghost predicate Sorted(fs: seq<Rotated>) {
    forall i, j :: 0 <= i < j < |fs| ==>
      fs[i].time <= fs[j].time && (fs[i].time == fs[j].time ==> fs[i].path <= fs[j].path)
  }

  // ----- files.sort()

  function Insert(f: Rotated, fs: seq<Rotated>): seq<Rotated> {
    if fs == [] || FileLeq(f, fs[0]) then [f] + fs else [fs[0]] + Insert(f, fs[1..])
  }

  function Sort(fs: seq<Rotated>): seq<Rotated> {
    if fs == [] then [] else Insert(fs[0], Sort(fs[1..]))
  }

  lemma SortedCons(f: Rotated, fs: seq<Rotated>)
    requires Sorted(fs) && forall k :: 0 <= k < |fs| ==> FileLeq(f, fs[k])
    ensures Sorted([f] + fs)
  {
  }

  lemma SortedTail(fs: seq<Rotated>)
    requires Sorted(fs) && fs != []
    ensures Sorted(fs[1..]) && forall k :: 0 <= k < |fs| ==> FileLeq(fs[0], fs[k])
  {
  }

  lemma FileLeqTotal(f: Rotated, g: Rotated, h: Rotated)
    ensures FileLeq(f, g) || FileLeq(g, f)
    ensures FileLeq(f, g) && FileLeq(g, h) ==> FileLeq(f, h)
  {
  }

  lemma {:induction false} InsertSorts(f: Rotated, fs: seq<Rotated>)
    requires Sorted(fs)
    ensures Sorted(Insert(f, fs)) && multiset(Insert(f, fs)) == multiset{f} + multiset(fs)
  {
    hide Sorted, FileLeq;
    if fs == [] {
      SortedCons(f, fs);
    } else if FileLeq(f, fs[0]) {
      SortedTail(fs);
      forall k | 0 <= k < |fs| ensures FileLeq(f, fs[k]) {
        FileLeqTotal(f, fs[0], fs[k]);
      }
      SortedCons(f, fs);
    } else {
      SortedTail(fs);
      FileLeqTotal(fs[0], f, f);
      InsertSorts(f, fs[1..]);
      assert fs == [fs[0]] + fs[1..];
      var rest := Insert(f, fs[1..]);
      forall k | 0 <= k < |rest| ensures FileLeq(fs[0], rest[k]) {
        assert rest[k] in multiset(rest);
      }
      SortedCons(fs[0], rest);
    }
  }

  lemma SortedNothing()
    ensures Sorted([])
  {
  }

  lemma {:induction false} SortSorts(fs: seq<Rotated>)
    ensures Sorted(Sort(fs)) && multiset(Sort(fs)) == multiset(fs)
  {
    hide Sorted, FileLeq;
    SortedNothing();
    if fs != [] {
      SortSorts(fs[1..]);
      InsertSorts(fs[0], Sort(fs[1..]));
      assert fs == [fs[0]] + fs[1..];
    }
  }

  // ----- pruning

  /** The window widened by the margin, in microseconds with `u64` saturation. */
  function StartTime(req: Request, margin: nat): nat { SatU64(req.Start() - margin) }
  function EndTime(req: Request, margin: nat): nat { SatU64(req.End() + margin) }
  function Micros(seconds: nat): nat { SatU64(seconds * 1_000_000) }

  /** The test that `retain` applies to the file at `i`. */
  predicate Keeps(req: Request, margin: nat, fs: seq<Rotated>, i: nat)
    requires i < |fs|
  {
    && Micros(fs[i].time) <= EndTime(req, margin)
    && (i + 1 < |fs| ==> Micros(fs[i + 1].time) >= StartTime(req, margin))
  }

  /** A file is kept exactly if it starts no later than `margin` after the end of the window
      and the next file no earlier than `margin` before its start; a side that is not
      given, or is too late for a `u64` with the margin, drops nothing. */
  lemma KeepsIff(req: Request, margin: nat, fs: seq<Rotated>, i: nat)
    requires i < |fs|
    requires (req.start.Some? ==> req.start.value <= U64_MAX) && (req.end.Some? ==> req.end.value <= U64_MAX)
    ensures Keeps(req, margin, fs, i) <==>
      && (|| req.end.None?
          || req.end.value + margin >= 0xFFFF_FFFF_FFFF_FFFF
          || fs[i].time * 1_000_000 <= req.end.value + margin)
      && (|| req.start.None?
          || i + 1 == |fs|
          || fs[i + 1].time * 1_000_000 + margin >= req.start.value)
  {
  }

  /** Sort one group's files and drop those that cannot hold packets of the window.
      What is left is one contiguous run of the sorted group, and a file is in that
      run exactly if it passes the test. */
  method LoadGroup(req: Request, margin: nat, files: seq<Rotated>)
    returns (kept: seq<Rotated>, ghost lo: nat, ghost hi: nat)
    ensures lo <= hi <= |Sort(files)| == |files|
    ensures kept == Sort(files)[lo..hi]
    ensures forall i :: 0 <= i < |files| ==> (lo <= i < hi <==> Keeps(req, margin, Sort(files), i))
  {
    hide Micros, StartTime, EndTime, Sort, Sorted, FileLeq;
    SortSorts(files);
    var sorted := Sort(files);
    assert |sorted| == |multiset(sorted)| == |multiset(files)| == |files|;
    kept, lo, hi := [], 0, 0;
    var i := 0;
    while i < |sorted|
      invariant 0 <= lo <= hi <= i <= |sorted|
      invariant kept == sorted[lo..hi]
      invariant forall k :: 0 <= k < i ==> (lo <= k < hi <==> Keeps(req, margin, sorted, k))
      invariant hi < i && lo < hi ==> Micros(sorted[hi].time) > EndTime(req, margin)
    {
      var current := sorted[i];
      var keep := true;
      if Micros(current.time) > EndTime(req, margin) {
        keep := false;
      } else if i + 1 < |sorted| && Micros(sorted[i + 1].time) < StartTime(req, margin) {
        keep := false;
      }
      if keep {
        if lo < hi {
          KeptRunIsContiguous(req, margin, sorted, lo, hi, i);
        } else {
          lo, hi := i, i;
        }
        kept := kept + [current];
        assert kept == sorted[lo..hi] + [sorted[hi]] == sorted[lo..hi + 1];
        hi := hi + 1;
      } else {
        if lo < hi && hi == i {
          DroppedAfterKept(req, margin, sorted, i);
        }
      }
      i := i + 1;
    }
  }

  /** A later file never follows a gap: times only grow. */
  lemma KeptRunIsContiguous(req: Request, margin: nat, fs: seq<Rotated>, lo: nat, hi: nat, i: nat)
    requires Sorted(fs) && lo < hi <= i < |fs| && Keeps(req, margin, fs, i)
    requires hi < i ==> Micros(fs[hi].time) > EndTime(req, margin)
    ensures hi == i
  {
  }

  lemma DroppedAfterKept(req: Request, margin: nat, fs: seq<Rotated>, i: nat)
    requires Sorted(fs) && 0 < i < |fs| && Keeps(req, margin, fs, i - 1) && !Keeps(req, margin, fs, i)
    ensures Micros(fs[i].time) > EndTime(req, margin)
  {
    if i + 1 < |fs| {
      assert FileLeq(fs[i], fs[i + 1]);
    }
  }

  // ----- pruning is invisible

  function FilesOf(fs: seq<Rotated>): (r: seq<SpoolFile>)
    ensures |r| == |fs| && forall i :: 0 <= i < |fs| ==> r[i] == fs[i].file
  {
    seq(|fs|, i requires 0 <= i < |fs| => fs[i].file)
  }

  /** Packet times lie between a file's rotation time and the next file's, give or
      take the margin. */
  ghost predicate Covers(fs: seq<Rotated>, margin: nat) {
    forall i, k :: 0 <= i < |fs| && fs[i].file.Capture? && 0 <= k < |fs[i].file.packets| ==>
      InRotation(fs, margin, i, fs[i].file.packets[k])
  }

  predicate InRotation(fs: seq<Rotated>, margin: nat, i: nat, p: Packet)
    requires i < |fs|
  {
    Stamp(p).Some? ==>
      && fs[i].time * 1_000_000 - margin <= Stamp(p).value
      && (i + 1 < |fs| ==> Stamp(p).value <= fs[i + 1].time * 1_000_000 + margin)
  }

  lemma {:induction false} NothingInWindow(req: Request, prepared: Prepared, link: int, ps: seq<Packet>)
    requires forall k :: 0 <= k < |ps| ==> !InWindow(req, ps[k])
    ensures Matching(req, prepared, link, ps) == []
  {
    if ps != [] {
      assert !InWindow(req, ps[0]);
      NothingInWindow(req, prepared, link, ps[1..]);
    }
  }

  /** A dropped file has no packet inside the window. */
  lemma DroppedIsOutside(req: Request, margin: nat, fs: seq<Rotated>, i: nat, p: Packet)
    requires req.End() <= U64_MAX
    requires i < |fs| && !Keeps(req, margin, fs, i) && InRotation(fs, margin, i, p)
    ensures !InWindow(req, p)
  {
  }

  lemma DroppedHasNoMatch(req: Request, margin: nat, fs: seq<Rotated>, i: nat)
    requires req.End() <= U64_MAX && Covers(fs, margin)
    requires i < |fs| && !Keeps(req, margin, fs, i)
    ensures FileEntries(req, fs[i].file) == []
  {
    hide Keeps, InRotation, InWindow, Accepts;
    var f := fs[i].file;
    if f.Capture? && !Prepare(req, f.link).Skip? {
      forall k | 0 <= k < |f.packets| ensures !InWindow(req, f.packets[k]) {
        DroppedIsOutside(req, margin, fs, i, f.packets[k]);
      }
      NothingInWindow(req, Prepare(req, f.link), f.link, f.packets);
    }
  }

  lemma {:induction false} EntriesConcat(req: Request, a: seq<SpoolFile>, b: seq<SpoolFile>)
    ensures FilesEntries(req, a + b) == FilesEntries(req, a) + FilesEntries(req, b)
  {
    hide FileEntries;
    if a == [] {
      assert a + b == b;
    } else {
      EntriesConcat(req, a[1..], b);
      Onward(a, b);
      Regroup([FileEntries(req, a[0])], FilesEntries(req, a[1..]), FilesEntries(req, b));
    }
  }

  lemma {:induction false} NoEntries(req: Request, fs: seq<SpoolFile>)
    requires forall i :: 0 <= i < |fs| ==> FileEntries(req, fs[i]) == []
    ensures GroupEntries(req, fs) == []
  {
    if fs != [] {
      NoEntries(req, fs[1..]);
      assert FilesEntries(req, fs)[1..] == FilesEntries(req, fs[1..]);
    }
  }

  lemma GroupConcat(req: Request, a: seq<SpoolFile>, b: seq<SpoolFile>)
    ensures GroupEntries(req, a + b) == GroupEntries(req, a) + GroupEntries(req, b)
  {
    EntriesConcat(req, a, b);
    DenseConcat(FilesEntries(req, a), FilesEntries(req, b));
  }

  /** Pruning a covered group leaves the merge with exactly the same packets. */
  lemma PruningIsInvisible(req: Request, margin: nat, fs: seq<Rotated>, lo: nat, hi: nat)
    requires req.End() <= U64_MAX && Covers(fs, margin)
    requires lo <= hi <= |fs|
    requires forall i :: 0 <= i < |fs| ==> (lo <= i < hi <==> Keeps(req, margin, fs, i))
    ensures GroupEntries(req, FilesOf(fs[lo..hi])) == GroupEntries(req, FilesOf(fs))
  {
    hide GroupEntries, FileEntries;
    var all := FilesOf(fs);
    var head, kept, tail := all[..lo], all[lo..hi], all[hi..];
    assert all == head + (kept + tail);
    assert FilesOf(fs[lo..hi]) == kept;
    forall i | 0 <= i < |head| ensures FileEntries(req, head[i]) == [] {
      DroppedHasNoMatch(req, margin, fs, i);
    }
    forall i | 0 <= i < |tail| ensures FileEntries(req, tail[i]) == [] {
      DroppedHasNoMatch(req, margin, fs, hi + i);
    }
    NoEntries(req, head);
    NoEntries(req, tail);
    GroupConcat(req, head, kept + tail);
    GroupConcat(req, kept, tail);
  }

  ghost predicate SameMatches(req: Request, a: seq<seq<SpoolFile>>, b: seq<seq<SpoolFile>>) {
    |a| == |b| && forall i :: 0 <= i < |a| ==> GroupEntries(req, a[i]) == GroupEntries(req, b[i])
  }

  /** Groups with the same matches give the same unlimited output. */
  lemma SameMatchesSameOutput(req: Request, a: seq<seq<SpoolFile>>, b: seq<seq<SpoolFile>>)
    requires SameMatches(req, a, b)
    ensures Full(req, a) == Full(req, b)
  {
    assert AllEntries(req, a) == AllEntries(req, b);
  }

  /** The byte cap determines how many packets an otherwise unstopped fetch writes,
      so a pruned and an unpruned fetch agree under every cap. */
  lemma CapDeterminesOutput(full: seq<Tagged>, maxBytes: nat, n: nat, m: nat)
    requires n <= |full| && m <= |full|
    requires |Bytes(full, n)| <= maxBytes && (n < |full| ==> |Bytes(full, n + 1)| > maxBytes)
    requires |Bytes(full, m)| <= maxBytes && (m < |full| ==> |Bytes(full, m + 1)| > maxBytes)
    ensures n == m
  {
    hide Bytes;
    if n < m {
      BytesMonotone(full, n + 1, m);
    } else if m < n {
      BytesMonotone(full, m + 1, n);
    }
  }

  // ----- a fetch from a spool

  function Unpruned(groups: seq<seq<Rotated>>): (r: seq<seq<SpoolFile>>)
    ensures |r| == |groups| && forall i :: 0 <= i < |r| ==> r[i] == FilesOf(Sort(groups[i]))
  {
    seq(|groups|, i requires 0 <= i < |groups| => FilesOf(Sort(groups[i])))
  }

  /** Every packet of every group keeps to its file's rotation. */
  ghost predicate KeepsToRotation(groups: seq<seq<Rotated>>, margin: nat) {
    forall i :: 0 <= i < |groups| ==> Covers(Sort(groups[i]), margin)
  }

  /** `load_files` over the groups found. */
  method LoadFiles(req: Request, margin: nat, groups: seq<seq<Rotated>>) returns (loaded: seq<seq<SpoolFile>>)
    ensures req.End() <= U64_MAX && KeepsToRotation(groups, margin) ==> SameMatches(req, loaded, Unpruned(groups))
    ensures |loaded| == |groups| && forall i, f :: 0 <= i < |loaded| && f in loaded[i] ==> f in Unpruned(groups)[i]
  {
    hide Sort, Keeps, GroupEntries, Covers;
    loaded := [];
    for n := 0 to |groups|
      invariant |loaded| == n
      invariant forall i :: 0 <= i < n && req.End() <= U64_MAX && Covers(Sort(groups[i]), margin) ==>
        GroupEntries(req, loaded[i]) == GroupEntries(req, Unpruned(groups)[i])
      invariant forall i, f :: 0 <= i < n && f in loaded[i] ==> f in Unpruned(groups)[i]
    {
      var kept, lo, hi := LoadGroup(req, margin, groups[n]);
      ghost var sorted := Sort(groups[n]);
      if req.End() <= U64_MAX && Covers(sorted, margin) {
        PruningIsInvisible(req, margin, sorted, lo, hi);
      }
      forall f | f in FilesOf(kept) ensures f in FilesOf(sorted) {
        var k :| 0 <= k < |kept| && FilesOf(kept)[k] == f;
        assert FilesOf(sorted)[lo + k] == f;
      }
      loaded := loaded + [FilesOf(kept)];
    }
  }

  /** A fetch from a spool scans the pruned groups, `loaded`, and does of them what `Fetch`
      does: and what it emits is what it would have of the groups before pruning, a
      beginning of their unlimited run, all of it unless a stop or the cap intervenes, and
      with the cap it ends where it would have. */
  method FetchSpool(req: Request, margin: nat, groups: seq<seq<Rotated>>, clock: nat -> Tick, out: Sink)
    returns (r: Outcome, ghost sent: nat, ghost looks: nat, ghost loaded: seq<seq<SpoolFile>>)
    requires out.Valid() && out.accepted == []
    modifies out, out.tx
    ensures req.End() <= U64_MAX && KeepsToRotation(groups, margin) ==> Full(req, loaded) == Full(req, Unpruned(groups))
    ensures |loaded| == |groups| && forall i, f :: 0 <= i < |loaded| && f in loaded[i] ==> f in Unpruned(groups)[i]
    ensures FlowRejected(req) ==> Refused(r, sent, looks, out.accepted)
    ensures !FlowRejected(req) ==> Ran(req, loaded, clock, r, sent, looks, out.accepted)
    ensures r.IoError? ==> out.failed || !Openable(Unpruned(groups))
    ensures out.Linked() && (!r.IoError? ==> out.Valid())
  {
    hide Sink.Valid, Sink.Linked, Ran;
    var files := LoadFiles(req, margin, groups);
    loaded := files;
    if req.End() <= U64_MAX && KeepsToRotation(groups, margin) {
      SameMatchesSameOutput(req, loaded, Unpruned(groups));
    }
    if Openable(Unpruned(groups)) {
      LoadedOpenable(loaded, Unpruned(groups));
    }
    r, sent, looks := Fetch(req, files, clock, out);
  }

  lemma LoadedOpenable(a: seq<seq<SpoolFile>>, b: seq<seq<SpoolFile>>)
    requires |a| == |b| && (forall i, f :: 0 <= i < |a| && f in a[i] ==> f in b[i]) && Openable(b)
    ensures Openable(a)
  {
    forall i, j | 0 <= i < |a| && 0 <= j < |a[i]| ensures !a[i][j].FdExhausted? {
      assert a[i][j] in b[i];
    }
  }

  /** Pruning is invisible: two fetches of one request that nothing but the cap can stop,
      one pruned and one not, emit the same bytes. */
  method PrunedFetchAgrees(req: Request, margin: nat, groups: seq<seq<Rotated>>, clock: nat -> Tick)
    returns (pruned: seq<byte>, unpruned: seq<byte>)
    requires req.End() <= U64_MAX && KeepsToRotation(groups, margin)
    requires NeverStops(clock) && Openable(Unpruned(groups))
    ensures pruned == unpruned
  {
    hide Sink.Valid, Sink.Linked, Full, Bytes, EmptyReport, TallyGroups, Openable, KeepsToRotation;
    ghost var full := Full(req, Unpruned(groups));
    var a := new Sink(true);
    var first, n, looks, loaded := FetchSpool(req, margin, groups, clock, a);
    ReliableNeverFails(a);
    pruned := a.accepted;
    var all := seq(|groups|, i requires 0 <= i < |groups| => FilesOf(Sort(groups[i])));
    assert all == Unpruned(groups);
    var b := new Sink(true);
    var second, m, looks' := Fetch(req, all, clock, b);
    ReliableNeverFails(b);
    if !FlowRejected(req) {
      CapDeterminesOutput(full, req.maxBytes, n, m);
    }
    unpruned := b.accepted;
  }

  // ----- grouping (collect_files)

  /** A directory entry met by the walk: its group, unless the name cannot be parsed. */
  datatype Found = Found(group: Option<nat>, file: Rotated)

  function InGroup(found: seq<Found>, g: nat): seq<Rotated> {
    if found == [] then []
    else InGroup(found[..|found| - 1], g) +
           if found[|found| - 1].group == Some(g) then [found[|found| - 1].file] else []
  }

  /** Every group holds exactly the files of that group in walk order; one unparsable
      name makes the whole result unusable. */
  method Collect(found: seq<Found>) returns (groups: Option<map<nat, seq<Rotated>>>)
    ensures groups.None? <==> exists k :: 0 <= k < |found| && found[k].group.None?
    ensures groups.Some? ==> forall g :: (g in groups.value <==> InGroup(found, g) != [])
    ensures groups.Some? ==> forall g :: g in groups.value ==> groups.value[g] == InGroup(found, g)
  {
    var sorted: map<nat, seq<Rotated>> := map[];
    var i := 0;
    while i < |found|
      invariant i <= |found|
      invariant forall k :: 0 <= k < i ==> found[k].group.Some?
      invariant forall g :: g in sorted <==> InGroup(found[..i], g) != []
      invariant forall g :: g in sorted ==> sorted[g] == InGroup(found[..i], g)
    {
      if found[i].group.None? {
        return None;
      }
      var g := found[i].group.value;
      assert found[..i + 1][..i] == found[..i];
      var before := if g in sorted then sorted[g] else [];
      sorted := sorted[g := before + [found[i].file]];
      i := i + 1;
    }
    assert found[..|found|] == found;
    return Some(sorted);
  }
}
