/**
 What a fetch is asked for, said of packets alone (the request of src/pcap/fetch.rs), and
 that an unlimited run emits that and nothing else. Nothing here is said through the
 predicates that the engine itself applies.
 */
module PcapWanted {
  import opened Common
  import opened PcapFormat
  import opened PcapMerge
  import opened PcapFetch
  import opened PcapExtract

  /** The packet's microseconds are at least `start` and at most `end`, where given; a
      packet whose time is no `u64` is in no window. */
  predicate AtTheTime(req: Request, p: Packet) {
    var t := p.sec * 1_000_000 + p.usec;
    || (req.start.None? && req.end.None?)
    || (&& p.sec >= 0 && p.usec >= 0 && t <= 0xFFFF_FFFF_FFFF_FFFF
        && (req.start.Some? ==> req.start.value <= t)
        && (req.end.Some? ==> t <= req.end.value))
  }

  /** An expression must compile for the link type and accept the packet; a flow is first
      tried together with its tagged form. */
  predicate PassesTheFilter(req: Request, link: int, p: Packet) {
    match req.filter
    case NoFilter => true
    case Expression(e) => req.bpf.compiles(e, link) && req.bpf.accepts(e, link, p)
    case Flow(b) =>
      var tagged := "(" + b + ") or (vlan and (" + b + "))";
      if req.bpf.compiles(tagged, link) then req.bpf.accepts(tagged, link, p)
      else req.bpf.compiles(b, link) && req.bpf.accepts(b, link, p)
  }

  predicate Wanted(req: Request, link: int, p: Packet) {
    AtTheTime(req, p) && PassesTheFilter(req, link, p)
  }

  function WantedOf(req: Request, link: int, ps: seq<Packet>): seq<Packet> {
    if ps == [] then [] else (if Wanted(req, link, ps[0]) then [ps[0]] else []) + WantedOf(req, link, ps[1..])
  }

  /** The wanted packets of the captures of one link type, file by file. */
  function WantedOfGroup(req: Request, link: int, fs: seq<SpoolFile>): seq<Packet> {
    if fs == [] then
      []
    else
      (if fs[0].Capture? && fs[0].link == link then WantedOf(req, link, fs[0].packets) else [])
      + WantedOfGroup(req, link, fs[1..])
  }

  /** Some capture of the group, of this link type, holds this packet. */
  ghost predicate Holds(fs: seq<SpoolFile>, link: int, p: Packet) {
    exists j :: 0 <= j < |fs| && fs[j].Capture? && fs[j].link == link && p in fs[j].packets
  }

  ghost predicate NoneWanted(req: Request, fs: seq<SpoolFile>) {
    forall link, p :: Holds(fs, link, p) ==> !Wanted(req, link, p)
  }

  function PacketsOf(es: seq<Entry>): seq<Packet> {
    if es == [] then [] else [es[0].packet] + PacketsOf(es[1..])
  }

  lemma {:induction false} PacketsOfConcat(a: seq<Entry>, b: seq<Entry>)
    ensures PacketsOf(a + b) == PacketsOf(a) + PacketsOf(b)
  {
    if a == [] {
      assert a + b == b;
    } else {
      PacketsOfConcat(a[1..], b);
      Onward(a, b);
      Regroup([a[0].packet], PacketsOf(a[1..]), PacketsOf(b));
    }
  }

  /** The engine's tests, together, are what was asked for. */
  lemma AcceptedIsWanted(req: Request, link: int, p: Packet)
    ensures (!Prepare(req, link).Skip? && Accepts(req, Prepare(req, link), link, p)) == Wanted(req, link, p)
  {
  }

  lemma {:induction false} MatchingIsWanted(req: Request, link: int, ps: seq<Packet>)
    ensures PacketsOf(if Prepare(req, link).Skip? then [] else Matching(req, Prepare(req, link), link, ps))
         == WantedOf(req, link, ps)
  {
    hide Prepare, Accepts, Wanted;
    if ps != [] {
      MatchingIsWanted(req, link, ps[1..]);
      AcceptedIsWanted(req, link, ps[0]);
    }
  }

  lemma {:induction false} OfOwnLink(es: seq<Entry>, link: int)
    requires forall i :: 0 <= i < |es| ==> es[i].link == link
    ensures OfLink(es, link) == es
  {
    if es != [] {
      OfOwnLink(es[1..], link);
    }
  }

  lemma FileIsWanted(req: Request, link: int, f: SpoolFile)
    ensures PacketsOf(OfLink(FileEntries(req, f), link))
         == if f.Capture? && f.link == link then WantedOf(req, link, f.packets) else []
  {
    hide Prepare, Matching, WantedOf, OfLink;
    var es := FileEntries(req, f);
    if f.Capture? {
      MatchingIsWanted(req, f.link, f.packets);
      MatchingUniform(req, Prepare(req, f.link), f.link, f.packets);
      if f.link == link {
        OfOwnLink(es, link);
      } else {
        OfLinkNone(es, link);
      }
    } else {
      OfOwnLink(es, link);
    }
  }

  lemma {:induction false} FlatDense(fs: Files)
    ensures Flat(Dense(fs)) == Flat(fs)
  {
    if fs != [] {
      FlatDense(fs[1..]);
      assert fs[0] != [] ==> ([fs[0]] + Dense(fs[1..]))[1..] == Dense(fs[1..]);
      assert fs[0] == [] ==> Dense(fs) == Dense(fs[1..]);
    }
  }

  lemma {:induction false} FilesAreWanted(req: Request, link: int, fs: seq<SpoolFile>)
    ensures PacketsOf(OfLink(Flat(FilesEntries(req, fs)), link)) == WantedOfGroup(req, link, fs)
  {
    hide FileEntries, OfLink, PacketsOf, WantedOf;
    if fs == [] {
      OfOwnLink([], link);
      NoPackets();
    } else {
      var first, rest := FileEntries(req, fs[0]), FilesEntries(req, fs[1..]);
      FilesAreWanted(req, link, fs[1..]);
      FileIsWanted(req, link, fs[0]);
      assert ([first] + rest)[1..] == rest;
      OfLinkConcat(first, Flat(rest), link);
      PacketsOfConcat(OfLink(first, link), OfLink(Flat(rest), link));
    }
  }

  lemma NoPackets()
    ensures PacketsOf([]) == []
  {
  }

  lemma GroupIsWanted(req: Request, link: int, fs: seq<SpoolFile>)
    ensures PacketsOf(OfLink(Flat(GroupEntries(req, fs)), link)) == WantedOfGroup(req, link, fs)
  {
    FlatDense(FilesEntries(req, fs));
    FilesAreWanted(req, link, fs);
  }

  // ----- membership

  lemma {:induction false} InWantedOf(req: Request, link: int, ps: seq<Packet>, p: Packet)
    ensures p in WantedOf(req, link, ps) <==> p in ps && Wanted(req, link, p)
  {
    hide Wanted;
    if ps != [] {
      InWantedOf(req, link, ps[1..], p);
      assert ps == [ps[0]] + ps[1..];
    }
  }

  lemma {:induction false} InWantedOfGroup(req: Request, link: int, fs: seq<SpoolFile>, p: Packet)
    ensures p in WantedOfGroup(req, link, fs) <==> Holds(fs, link, p) && Wanted(req, link, p)
  {
    hide Wanted, WantedOf;
    if fs != [] {
      InWantedOfGroup(req, link, fs[1..], p);
      if fs[0].Capture? {
        InWantedOf(req, link, fs[0].packets, p);
      }
      HoldsCons(fs, link, p);
    }
  }

  lemma HoldsCons(fs: seq<SpoolFile>, link: int, p: Packet)
    requires fs != []
    ensures Holds(fs, link, p) <==>
      (fs[0].Capture? && fs[0].link == link && p in fs[0].packets) || Holds(fs[1..], link, p)
  {
    if Holds(fs[1..], link, p) {
      var j :| 0 <= j < |fs[1..]| && fs[1..][j].Capture? && fs[1..][j].link == link && p in fs[1..][j].packets;
      assert fs[j + 1] == fs[1..][j];
    }
    assert forall j :: 1 <= j < |fs| ==> fs[j] == fs[1..][j - 1];
  }

  lemma {:induction false} InPacketsOf(es: seq<Entry>, e: Entry)
    requires e in es
    ensures e.packet in PacketsOf(es)
  {
    if es[0] != e {
      InPacketsOf(es[1..], e);
    }
  }

  // ----- the whole run

  /** The heap key spelled out: microseconds, a negative part as zero, saturated. */
  function KeyOf(p: Packet): nat {
    var t := (if p.sec > 0 then p.sec else 0) * 1_000_000 + (if p.usec > 0 then p.usec else 0);
    if t > 0xFFFF_FFFF_FFFF_FFFF then 0xFFFF_FFFF_FFFF_FFFF else t
  }

  lemma {:induction false} MatchingKeys(req: Request, prepared: Prepared, link: int, ps: seq<Packet>)
    ensures forall i :: 0 <= i < |Matching(req, prepared, link, ps)| ==>
      Matching(req, prepared, link, ps)[i].ts == KeyOf(Matching(req, prepared, link, ps)[i].packet)
  {
    hide Accepts;
    if ps != [] {
      MatchingKeys(req, prepared, link, ps[1..]);
    }
  }

  ghost predicate Keyed(es: seq<Entry>) {
    forall i :: 0 <= i < |es| ==> es[i].ts == KeyOf(es[i].packet)
  }

  lemma {:induction false} FilesKeyed(req: Request, fs: seq<SpoolFile>)
    ensures Keyed(Flat(FilesEntries(req, fs)))
  {
    hide Matching, KeyOf, Prepare;
    if fs != [] {
      FilesKeyed(req, fs[1..]);
      var first, rest := FileEntries(req, fs[0]), FilesEntries(req, fs[1..]);
      assert ([first] + rest)[1..] == rest;
      if fs[0].Capture? {
        MatchingKeys(req, Prepare(req, fs[0].link), fs[0].link, fs[0].packets);
      }
    }
  }

  lemma {:induction false} OfLinkMembers(es: seq<Entry>, link: int, e: Entry)
    ensures e in OfLink(es, link) <==> e in es && e.link == link
  {
    if es != [] {
      OfLinkMembers(es[1..], link, e);
      assert es == [es[0]] + es[1..];
    }
  }

  lemma {:induction false} MergeKeepsGroups(gs: seq<Files>, link: Option<int>)
    requires AllNoEmpty(gs)
    ensures forall k :: 0 <= k < |Merge(gs, link)| ==> Merge(gs, link)[k].group < |gs|
    decreases Total(gs)
  {
    hide AllNoEmpty, Total, Pop, IsLeast, Merge;
    if PcapMerge.Live(gs) {
      var i := Least(gs);
      IsLeastHasHead(gs, i);
      TurnShrinks(gs, i);
      MergeStep(gs, link, i);
      if Mismatch(link, Head(gs[i])) {
        MergeKeepsGroups(gs[i := gs[i][1..]], link);
      } else {
        MergeKeepsGroups(gs[i := Pop(gs[i])], Some(Head(gs[i]).link));
      }
    } else {
      MergeOfNothing(gs, link);
    }
  }

  /** The output has one link type; its entries carry their packets' own times. */
  lemma EmittedEntry(req: Request, groups: seq<seq<SpoolFile>>, n: nat)
    requires n < |Full(req, groups)|
    ensures var t := Full(req, groups)[n];
      && t.group < |groups|
      && t.entry.link == Full(req, groups)[0].entry.link && t.entry.ts == KeyOf(t.entry.packet)
      && t.entry in OfLink(Flat(GroupEntries(req, groups[t.group])), Full(req, groups)[0].entry.link)
  {
    hide GroupEntries, Merge, Full, OfLink, Flat, KeyOf, FromGroup;
    var full := Full(req, groups);
    FullKeepsGroups(req, groups);
    UnlimitedRunEmitsExactlyTheMatches(req, groups);
    var g := full[n].group;
    FromGroupMember(full, n);
    var es := Flat(GroupEntries(req, groups[g]));
    OfLinkMembers(es, full[0].entry.link, full[n].entry);
    GroupKeyed(req, groups[g]);
  }

  lemma FullKeepsGroups(req: Request, groups: seq<seq<SpoolFile>>)
    ensures forall k :: 0 <= k < |Full(req, groups)| ==> Full(req, groups)[k].group < |groups|
  {
    hide GroupEntries, Merge;
    MergeKeepsGroups(AllEntries(req, groups), None);
  }

  lemma GroupKeyed(req: Request, fs: seq<SpoolFile>)
    ensures Keyed(Flat(GroupEntries(req, fs)))
  {
    FlatDense(FilesEntries(req, fs));
    FilesKeyed(req, fs);
  }

  /** Everything an unlimited run emits was wanted: each entry is a packet of a capture of
      its group, of the output's link type, in the window, that passes the filter; and it
      is merged by its own time. */
  lemma EmittedIsWanted(req: Request, groups: seq<seq<SpoolFile>>, n: nat)
    requires n < |Full(req, groups)|
    ensures var t, link := Full(req, groups)[n], Full(req, groups)[0].entry.link;
      && t.group < |groups| && t.entry.link == link && t.entry.ts == KeyOf(t.entry.packet)
      && Holds(groups[t.group], link, t.entry.packet)
      && Wanted(req, link, t.entry.packet)
  {
    hide GroupEntries, Full, OfLink, Flat, KeyOf, Wanted, Holds, PacketsOf, WantedOfGroup;
    var t, link := Full(req, groups)[n], Full(req, groups)[0].entry.link;
    EmittedEntry(req, groups, n);
    var es := OfLink(Flat(GroupEntries(req, groups[t.group])), link);
    InPacketsOf(es, t.entry);
    GroupIsWanted(req, link, groups[t.group]);
    InWantedOfGroup(req, link, groups[t.group], t.entry.packet);
  }

  /** And everything wanted is emitted: each group's part of the output is the wanted packets
      of all its captures of the output's link type, file by file in capture order, each as
      often as it occurs. */
  lemma WantedIsEmitted(req: Request, groups: seq<seq<SpoolFile>>, g: nat)
    requires g < |groups| && Full(req, groups) != []
    ensures PacketsOf(FromGroup(Full(req, groups), g)) == WantedOfGroup(req, Full(req, groups)[0].entry.link, groups[g])
  {
    hide GroupEntries, Full, OfLink, Flat, PacketsOf, WantedOfGroup;
    UnlimitedRunEmitsExactlyTheMatches(req, groups);
    GroupIsWanted(req, Full(req, groups)[0].entry.link, groups[g]);
  }

  /** Nothing is emitted exactly if no capture, of whatever link type, holds a wanted packet. */
  lemma NothingEmittedIff(req: Request, groups: seq<seq<SpoolFile>>)
    ensures Full(req, groups) == [] <==> forall g :: 0 <= g < |groups| ==> NoneWanted(req, groups[g])
  {
    hide GroupEntries, Full, FileEntries, Wanted;
    UnlimitedRunEmitsExactlyTheMatches(req, groups);
    forall g | 0 <= g < |groups|
      ensures NoneWanted(req, groups[g]) <==> forall j :: 0 <= j < |groups[g]| ==> FileEntries(req, groups[g][j]) == []
    {
      NoneWantedIff(req, groups[g]);
    }
  }

  lemma NoneWantedIff(req: Request, fs: seq<SpoolFile>)
    ensures NoneWanted(req, fs) <==> forall j :: 0 <= j < |fs| ==> FileEntries(req, fs[j]) == []
  {
    hide FileEntries, Wanted, WantedOf;
    forall j | 0 <= j < |fs|
      ensures FileEntries(req, fs[j]) == [] <==> !fs[j].Capture? || WantedOf(req, fs[j].link, fs[j].packets) == []
    {
      FileIsEmptyIff(req, fs[j]);
    }
    if forall j :: 0 <= j < |fs| ==> FileEntries(req, fs[j]) == [] {
      forall link, p | Holds(fs, link, p) ensures !Wanted(req, link, p) {
        var j :| 0 <= j < |fs| && fs[j].Capture? && fs[j].link == link && p in fs[j].packets;
        InWantedOf(req, link, fs[j].packets, p);
      }
    } else {
      var j :| 0 <= j < |fs| && FileEntries(req, fs[j]) != [];
      var p := WantedOf(req, fs[j].link, fs[j].packets)[0];
      InWantedOf(req, fs[j].link, fs[j].packets, p);
      assert Holds(fs, fs[j].link, p);
    }
  }

  lemma FileIsEmptyIff(req: Request, f: SpoolFile)
    ensures FileEntries(req, f) == [] <==> !f.Capture? || WantedOf(req, f.link, f.packets) == []
  {
    hide Prepare, Matching, WantedOf;
    if f.Capture? {
      MatchingIsWanted(req, f.link, f.packets);
    }
  }

  // ----- what a fetch reports

  ghost predicate SomeCapture(fs: seq<SpoolFile>) {
    exists j :: 0 <= j < |fs| && fs[j].Capture?
  }

  /** The expression compiles for the link type of one of the captures. */
  ghost predicate CompilesFor(req: Request, e: string, fs: seq<SpoolFile>) {
    exists j :: 0 <= j < |fs| && fs[j].Capture? && req.bpf.compiles(e, fs[j].link)
  }

  ghost predicate FailsFor(req: Request, e: string, fs: seq<SpoolFile>) {
    exists j :: 0 <= j < |fs| && fs[j].Capture? && !req.bpf.compiles(e, fs[j].link)
  }

  function Captures(fs: seq<SpoolFile>): nat {
    if fs == [] then 0 else (if fs[0].Capture? then 1 else 0) + Captures(fs[1..])
  }

  function VanishedFiles(fs: seq<SpoolFile>): nat {
    if fs == [] then 0 else (if fs[0].Vanished? then 1 else 0) + VanishedFiles(fs[1..])
  }

  /** What the counts of some files say of the files. */
  ghost predicate Tells(req: Request, t: Tally, fs: seq<SpoolFile>) {
    && t.scanned == Captures(fs) && t.vanished == VanishedFiles(fs)
    && (t.scanned > 0 <==> SomeCapture(fs))
    && (t.compiled > 0 <==> req.filter.Expression? && CompilesFor(req, req.filter.text, fs))
    && (t.failed > 0 <==> req.filter.Expression? && FailsFor(req, req.filter.text, fs))
  }

  lemma TellsOfOne(req: Request, f: SpoolFile)
    ensures Tells(req, TallyFile(req, f), [f])
  {
    assert [f][0] == f && [f][1..] == [];
  }

  lemma {:induction false} CapturesConcat(a: seq<SpoolFile>, b: seq<SpoolFile>)
    ensures Captures(a + b) == Captures(a) + Captures(b)
    ensures VanishedFiles(a + b) == VanishedFiles(a) + VanishedFiles(b)
  {
    if a == [] {
      assert a + b == b;
    } else {
      CapturesConcat(a[1..], b);
      Onward(a, b);
    }
  }

  lemma AnyOfConcat(req: Request, e: string, a: seq<SpoolFile>, b: seq<SpoolFile>)
    ensures SomeCapture(a + b) <==> SomeCapture(a) || SomeCapture(b)
    ensures CompilesFor(req, e, a + b) <==> CompilesFor(req, e, a) || CompilesFor(req, e, b)
    ensures FailsFor(req, e, a + b) <==> FailsFor(req, e, a) || FailsFor(req, e, b)
  {
    forall j | 0 <= j < |a| ensures (a + b)[j] == a[j] {
    }
    forall j | 0 <= j < |b| ensures (a + b)[|a| + j] == b[j] {
    }
  }

  lemma TellsOfBoth(req: Request, s: Tally, t: Tally, a: seq<SpoolFile>, b: seq<SpoolFile>)
    requires Tells(req, s, a) && Tells(req, t, b)
    ensures Tells(req, s.Plus(t), a + b)
  {
    hide SomeCapture, CompilesFor, FailsFor;
    CapturesConcat(a, b);
    AnyOfConcat(req, if req.filter.Expression? then req.filter.text else "", a, b);
  }

  lemma {:induction false} FilesTell(req: Request, fs: seq<SpoolFile>)
    ensures Tells(req, TallyFiles(req, fs), fs)
  {
    hide Tells, TallyFile;
    if fs == [] {
      TellsOfNone(req);
    } else {
      FilesTell(req, fs[1..]);
      TellsOfOne(req, fs[0]);
      TellsOfBoth(req, TallyFile(req, fs[0]), TallyFiles(req, fs[1..]), [fs[0]], fs[1..]);
      assert [fs[0]] + fs[1..] == fs;
    }
  }

  lemma TellsOfNone(req: Request)
    ensures Tells(req, ZERO, [])
  {
  }

  lemma {:induction false} GroupsTell(req: Request, groups: seq<seq<SpoolFile>>)
    ensures Tells(req, TallyGroups(req, groups), Flatten(groups))
  {
    hide Tells, TallyFiles;
    if groups == [] {
      TellsOfNone(req);
    } else {
      GroupsTell(req, groups[1..]);
      FilesTell(req, groups[0]);
      TellsOfBoth(req, TallyFiles(req, groups[0]), TallyGroups(req, groups[1..]), groups[0], Flatten(groups[1..]));
    }
  }

  ghost predicate NothingWanted(req: Request, groups: seq<seq<SpoolFile>>) {
    forall g :: 0 <= g < |groups| ==> NoneWanted(req, groups[g])
  }

  /** A user expression that no capture's link type can do anything with. */
  ghost predicate ExpressionNowhereCompiles(req: Request, groups: seq<seq<SpoolFile>>) {
    && req.filter.Expression? && SomeCapture(Flatten(groups))
    && !CompilesFor(req, req.filter.text, Flatten(groups))
  }

  /** The flow's tagged form does not compile for Ethernet, whose link type is 1. */
  predicate FlowDoesNotCompile(req: Request) {
    && req.filter.Flow?
    && !req.bpf.compiles("(" + req.filter.base + ") or (vlan and (" + req.filter.base + "))", 1)
  }

  lemma TallySays(req: Request, groups: seq<seq<SpoolFile>>)
    ensures var t := TallyGroups(req, groups);
      && t.scanned == Captures(Flatten(groups)) && t.vanished == VanishedFiles(Flatten(groups))
      && (t.scanned > 0 <==> SomeCapture(Flatten(groups)))
      && (req.filter.Expression? && t.compiled == 0 && t.failed > 0 <==> ExpressionNowhereCompiles(req, groups))
  {
    hide TallyGroups, Captures, VanishedFiles, SomeCapture;
    GroupsTell(req, groups);
    var fs := Flatten(groups);
    if req.filter.Expression? {
      CompilesOrFails(req, req.filter.text, fs);
    }
  }

  lemma CompilesOrFails(req: Request, e: string, fs: seq<SpoolFile>)
    ensures SomeCapture(fs) <==> CompilesFor(req, e, fs) || FailsFor(req, e, fs)
  {
  }

  /** Which of its five endings a fetch has, from the files and the packets alone: an I/O
      error apart, it ends normally if it was stopped or any packet is wanted, and without
      both it says whether there was a file at all, and whether the user's expression was
      to blame. */
  lemma WhatAFetchReports(req: Request, groups: seq<seq<SpoolFile>>, clock: nat -> Tick, r: Outcome, sent: nat,
                          looks: nat, accepted: seq<byte>)
    requires Ran(req, groups, clock, r, sent, looks, accepted) && !r.IoError?
    ensures var stopped, nothing := StoppedBy(clock, looks).Some?, NothingWanted(req, groups);
      && (r.Done? <==> stopped || !nothing)
      && (r.FormatError? <==> !stopped && nothing && ExpressionNowhereCompiles(req, groups))
      && (r.NoCandidateFiles? <==> !stopped && nothing && !SomeCapture(Flatten(groups)))
      && (r.NoMatch? <==>
            !stopped && nothing && SomeCapture(Flatten(groups)) && !ExpressionNowhereCompiles(req, groups))
    ensures r.NoMatch? || (r.Done? && StoppedBy(clock, looks).None? && !r.stats.truncated) ==>
      r.stats.scanned == Captures(Flatten(groups)) && r.stats.vanished == VanishedFiles(Flatten(groups))
  {
    hide TallyGroups, Full, NoneWanted, SomeCapture, CompilesFor, Captures, VanishedFiles, Bytes;
    NothingEmittedIff(req, groups);
    TallySays(req, groups);
  }
}
