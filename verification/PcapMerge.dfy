/**
 The reference for the k-way merge of src/pcap/fetch.rs: from the matching packets
 of every rotation group, repeatedly take the least (timestamp, group) head; a head
 whose link type differs from the output's gives up the rest of its file.
 */
module PcapMerge {
  import opened Common
  import opened PcapFormat

  /** A packet that passed the time gate and the filter, with its heap key. */
  datatype Entry = Entry(ts: nat, link: int, packet: Packet)

  /** An emitted entry and the group it came from. */
  datatype Tagged = Tagged(group: nat, entry: Entry)

  /** The matching packets of one group, file by file. */
  type Files = seq<seq<Entry>>

  ghost predicate NoEmpty(fs: Files) {
    forall i :: 0 <= i < |fs| ==> fs[i] != []
  }

  /** Files without a match are invisible to the merge. */
  function Dense(fs: Files): (r: Files)
    ensures NoEmpty(r)
  {
    if fs == [] then [] else (if fs[0] == [] then [] else [fs[0]]) + Dense(fs[1..])
  }

  lemma DenseCons(fs: Files)
    requires fs != []
    ensures Dense(fs) == (if fs[0] == [] then [] else [fs[0]]) + Dense(fs[1..])
  {
  }

  lemma {:induction false} DenseConcat(a: Files, b: Files)
    ensures Dense(a + b) == Dense(a) + Dense(b)
  {
    if a == [] {
      assert a + b == b;
    } else {
      hide Dense;
      DenseConcat(a[1..], b);
      Onward(a, b);
      DenseCons(a + b);
      DenseCons(a);
      Regroup(if a[0] == [] then [] else [a[0]], Dense(a[1..]), Dense(b));
    }
  }

  // ----- one step

  function Head(fs: Files): Entry
    requires fs != [] && fs[0] != []
  {
    fs[0][0]
  }

  /** The group after its head was emitted. */
  function Pop(fs: Files): Files
    requires fs != [] && fs[0] != []
  {
    if |fs[0]| == 1 then fs[1..] else [fs[0][1..]] + fs[1..]
  }

  function Count(fs: Files): nat {
    if fs == [] then 0 else |fs[0]| + Count(fs[1..])
  }

  function Total(gs: seq<Files>): nat {
    if gs == [] then 0 else Count(gs[0]) + Total(gs[1..])
  }

  lemma PopCount(fs: Files)
    requires fs != [] && fs[0] != []
    ensures Count(Pop(fs)) == Count(fs) - 1
  {
    if |fs[0]| > 1 {
      assert Pop(fs)[1..] == fs[1..];
    }
  }

  lemma {:induction false} TotalUpdate(gs: seq<Files>, i: nat, fs: Files)
    requires i < |gs|
    ensures Total(gs[i := fs]) == Total(gs) - Count(gs[i]) + Count(fs)
    decreases i
  {
    if i == 0 {
      assert gs[0 := fs][1..] == gs[1..];
    } else {
      TotalUpdate(gs[1..], i - 1, fs);
      assert gs[i := fs][1..] == gs[1..][i - 1 := fs];
    }
  }

  predicate KeyLeq(ts: nat, group: nat, ts': nat, group': nat) {
    ts < ts' || (ts == ts' && group <= group')
  }

  ghost predicate AllNoEmpty(gs: seq<Files>) {
    forall i :: 0 <= i < |gs| ==> NoEmpty(gs[i])
  }

  /** Group `i` has the least (timestamp, group) head. */
  ghost predicate IsLeast(gs: seq<Files>, i: nat)
    requires AllNoEmpty(gs)
  {
    && i < |gs| && gs[i] != []
    && forall j :: 0 <= j < |gs| && gs[j] != [] ==> KeyLeq(Head(gs[i]).ts, i, Head(gs[j]).ts, j)
  }

  ghost predicate Live(gs: seq<Files>) {
    exists i :: 0 <= i < |gs| && gs[i] != []
  }

  lemma {:induction false} LeastExists(gs: seq<Files>, n: nat) returns (i: nat)
    requires AllNoEmpty(gs) && n <= |gs|
    requires exists k :: 0 <= k < n && gs[k] != []
    ensures i < n && gs[i] != []
    ensures forall j :: 0 <= j < n && gs[j] != [] ==> KeyLeq(Head(gs[i]).ts, i, Head(gs[j]).ts, j)
    decreases n
  {
    if exists k :: 0 <= k < n - 1 && gs[k] != [] {
      i := LeastExists(gs, n - 1);
      if gs[n - 1] != [] && !KeyLeq(Head(gs[i]).ts, i, Head(gs[n - 1]).ts, n - 1) {
        i := n - 1;
      }
    } else {
      i := n - 1;
    }
  }

  ghost function Least(gs: seq<Files>): (i: nat)
    requires AllNoEmpty(gs) && Live(gs)
    ensures IsLeast(gs, i)
  {
    assert exists i: nat :: IsLeast(gs, i) by {
      var i := LeastExists(gs, |gs|);
      assert IsLeast(gs, i);
    }
    var i: nat :| IsLeast(gs, i);
    i
  }

  predicate Mismatch(link: Option<int>, e: Entry) {
    link.Some? && e.link != link.value
  }

  /** The reference merge. `link` is the output's link type once a packet was written. */
  ghost function Merge(gs: seq<Files>, link: Option<int>): seq<Tagged>
    requires AllNoEmpty(gs)
    decreases Total(gs)
  {
    if !Live(gs) then
      []
    else
      var i := Least(gs);
      var e := Head(gs[i]);
      PopCount(gs[i]);
      TotalUpdate(gs, i, Pop(gs[i]));
      TotalUpdate(gs, i, gs[i][1..]);
      if Mismatch(link, e) then
        Merge(gs[i := gs[i][1..]], link)
      else
        [Tagged(i, e)] + Merge(gs[i := Pop(gs[i])], Some(e.link))
  }

  /** Any least group gives the step of the reference: ties cannot be broken otherwise. */
  lemma MergeStep(gs: seq<Files>, link: Option<int>, i: nat)
    requires AllNoEmpty(gs) && IsLeast(gs, i)
    ensures AllNoEmpty(gs[i := Pop(gs[i])]) && AllNoEmpty(gs[i := gs[i][1..]])
    ensures Merge(gs, link)
         == if Mismatch(link, Head(gs[i])) then Merge(gs[i := gs[i][1..]], link)
            else [Tagged(i, Head(gs[i]))] + Merge(gs[i := Pop(gs[i])], Some(Head(gs[i]).link))
  {
    var k := Least(gs);
    assert KeyLeq(Head(gs[i]).ts, i, Head(gs[k]).ts, k) && KeyLeq(Head(gs[k]).ts, k, Head(gs[i]).ts, i);
    assert k == i;
    assert Live(gs);
  }

  /** The same, from place `n` of what is emitted in all. */
  lemma MergeStepAt(full: seq<Tagged>, n: nat, gs: seq<Files>, link: Option<int>, i: nat)
    requires AllNoEmpty(gs) && IsLeast(gs, i) && n <= |full| && full[n..] == Merge(gs, link)
    ensures AllNoEmpty(gs[i := Pop(gs[i])]) && AllNoEmpty(gs[i := gs[i][1..]])
    ensures if Mismatch(link, Head(gs[i])) then full[n..] == Merge(gs[i := gs[i][1..]], link)
            else n < |full| && full[n] == Tagged(i, Head(gs[i]))
                 && full[n + 1..] == Merge(gs[i := Pop(gs[i])], if link.Some? then link else Some(Head(gs[i]).link))
  {
    hide Merge, AllNoEmpty, IsLeast, Pop;
    MergeStep(gs, link, i);
    assert n < |full| ==> full[n..][1..] == full[n + 1..];
    IsLeastHasHead(gs, i);
  }

  lemma IsLeastHasHead(gs: seq<Files>, i: nat)
    requires AllNoEmpty(gs) && IsLeast(gs, i)
    ensures i < |gs| && gs[i] != [] && gs[i][0] != []
  {
  }

  // ----- what the reference emits

  function Flat(fs: Files): seq<Entry> {
    if fs == [] then [] else fs[0] + Flat(fs[1..])
  }

  /** Every file has one link type. */
  ghost predicate Uniform(fs: Files) {
    forall i, j, k :: 0 <= i < |fs| && 0 <= j < |fs[i]| && 0 <= k < |fs[i]| ==> fs[i][j].link == fs[i][k].link
  }

  function OfLink(es: seq<Entry>, link: int): seq<Entry> {
    if es == [] then [] else (if es[0].link == link then [es[0]] else []) + OfLink(es[1..], link)
  }

  /** What group `g` contributed to the output, in output order. */
  function FromGroup(out: seq<Tagged>, g: nat): seq<Entry> {
    if out == [] then [] else (if out[0].group == g then [out[0].entry] else []) + FromGroup(out[1..], g)
  }

  lemma {:induction false} OfLinkConcat(a: seq<Entry>, b: seq<Entry>, link: int)
    ensures OfLink(a + b, link) == OfLink(a, link) + OfLink(b, link)
  {
    if a == [] {
      assert a + b == b;
    } else {
      OfLinkConcat(a[1..], b, link);
      Onward(a, b);
      Regroup(if a[0].link == link then [a[0]] else [], OfLink(a[1..], link), OfLink(b, link));
    }
  }

  lemma {:induction false} OfLinkNone(es: seq<Entry>, link: int)
    requires forall i :: 0 <= i < |es| ==> es[i].link != link
    ensures OfLink(es, link) == []
  {
    if es != [] {
      OfLinkNone(es[1..], link);
    }
  }

  lemma PopFlat(fs: Files)
    requires fs != [] && fs[0] != []
    ensures Flat(fs) == [Head(fs)] + Flat(Pop(fs))
  {
    hide Flat;
    FlatCons(fs);
    var tail := fs[0][1..];
    assert fs[0] == [fs[0][0]] + tail;
    if |fs[0]| == 1 {
      assert tail == [];
      assert [fs[0][0]] + [] == fs[0];
    } else {
      FlatCons(Pop(fs));
      assert Pop(fs)[1..] == fs[1..];
      Regroup([fs[0][0]], tail, Flat(fs[1..]));
    }
  }

  lemma FlatCons(fs: Files)
    requires fs != []
    ensures Flat(fs) == fs[0] + Flat(fs[1..])
  {
  }

  lemma PopUniform(fs: Files)
    requires fs != [] && fs[0] != [] && Uniform(fs)
    ensures Uniform(Pop(fs)) && Uniform(fs[1..])
  {
    var p: Files := Pop(fs);
    if |fs[0]| > 1 {
      forall i: nat, j: nat, k: nat | 0 <= i < |p| && 0 <= j < |p[i]| && 0 <= k < |p[i]|
        ensures p[i][j].link == p[i][k].link
      {
        if i == 0 {
          assert p[0][j] == fs[0][j + 1] && p[0][k] == fs[0][k + 1];
        } else {
          assert p[i] == fs[i];
        }
      }
    }
  }

  ghost predicate AllUniform(gs: seq<Files>) {
    forall i :: 0 <= i < |gs| ==> Uniform(gs[i])
  }

  /** Once the output has a link type, each group contributes exactly its matching
      packets of that link type, in capture order. */
  lemma {:induction false} MergeEmits(gs: seq<Files>, link: int, g: nat)
    requires AllNoEmpty(gs) && AllUniform(gs) && g < |gs|
    ensures FromGroup(Merge(gs, Some(link)), g) == OfLink(Flat(gs[g]), link)
    decreases Total(gs)
  {
    if Live(gs) {
      var i := Least(gs);
      var fs := gs[i];
      PopCount(fs);
      PopFlat(fs);
      PopUniform(fs);
      TotalUpdate(gs, i, Pop(fs));
      TotalUpdate(gs, i, fs[1..]);
      MergeStep(gs, Some(link), i);
      if Head(fs).link != link {
        MergeEmits(gs[i := fs[1..]], link, g);
        OfLinkConcat(fs[0], Flat(fs[1..]), link);
        assert forall k :: 0 <= k < |fs[0]| ==> fs[0][k].link == fs[0][0].link;
        OfLinkNone(fs[0], link);
      } else {
        MergeEmits(gs[i := Pop(fs)], link, g);
        OfLinkConcat([Head(fs)], Flat(Pop(fs)), link);
      }
    } else {
      assert gs[g] == [];
    }
  }

  /** The output of a whole run: the link type is that of the first emitted packet,
      and every group contributes exactly its matching packets of that link type. */
  lemma MergeEmitsExactly(gs: seq<Files>, g: nat)
    requires AllNoEmpty(gs) && AllUniform(gs) && g < |gs|
    ensures Live(gs) <==> Merge(gs, None) != []
    ensures Live(gs) ==> FromGroup(Merge(gs, None), g) == OfLink(Flat(gs[g]), Merge(gs, None)[0].entry.link)
    ensures !Live(gs) ==> gs[g] == []
  {
    if Live(gs) {
      var i := Least(gs);
      var fs := gs[i];
      var link := Head(fs).link;
      MergeStep(gs, None, i);
      PopFlat(fs);
      PopUniform(fs);
      MergeEmits(gs[i := Pop(fs)], link, g);
      OfLinkConcat([Head(fs)], Flat(Pop(fs)), link);
    }
  }

  // ----- order

  ghost predicate TimeSorted(es: seq<Entry>) {
    forall i, j :: 0 <= i < j < |es| ==> es[i].ts <= es[j].ts
  }

  /** Ordered by time, equal times in group order. */
  ghost predicate OutputSorted(out: seq<Tagged>) {
    forall i, j :: 0 <= i < j < |out| ==>
      out[i].entry.ts <= out[j].entry.ts && (out[i].entry.ts == out[j].entry.ts ==> out[i].group <= out[j].group)
  }

  ghost predicate AllSorted(gs: seq<Files>) {
    forall i :: 0 <= i < |gs| ==> TimeSorted(Flat(gs[i]))
  }

  ghost predicate HeadsFrom(gs: seq<Files>, ts: nat, group: nat)
    requires AllNoEmpty(gs)
  {
    forall j :: 0 <= j < |gs| && gs[j] != [] ==> KeyLeq(ts, group, Head(gs[j]).ts, j)
  }

  lemma SuffixSorted(es: seq<Entry>, k: nat)
    requires TimeSorted(es) && k <= |es|
    ensures TimeSorted(es[k..])
  {
  }

  lemma SkipSorted(fs: Files)
    requires fs != [] && NoEmpty(fs) && TimeSorted(Flat(fs))
    ensures TimeSorted(Flat(fs[1..])) && TimeSorted(Flat(Pop(fs)))
    ensures NoEmpty(fs[1..]) && NoEmpty(Pop(fs))
    ensures fs[1..] != [] ==> Head(fs).ts <= Head(fs[1..]).ts
    ensures Pop(fs) != [] ==> Head(fs).ts <= Head(Pop(fs)).ts
  {
    hide TimeSorted;
    PopFlat(fs);
    var all := Flat(fs);
    assert Flat(fs[1..]) == all[|fs[0]|..];
    assert Flat(Pop(fs)) == all[1..];
    SuffixSorted(all, |fs[0]|);
    SuffixSorted(all, 1);
    if fs[1..] != [] {
      FlatHead(fs[1..]);
      HeadIsLeast(all, |fs[0]|);
    }
    if Pop(fs) != [] {
      FlatHead(Pop(fs));
      HeadIsLeast(all, 1);
    }
  }

  lemma HeadIsLeast(es: seq<Entry>, k: nat)
    requires TimeSorted(es) && k < |es|
    ensures es[0].ts <= es[k].ts
  {
  }

  lemma FlatHead(fs: Files)
    requires fs != [] && fs[0] != []
    ensures Flat(fs) != [] && Flat(fs)[0] == Head(fs)
  {
  }

  lemma HeadsMove(gs: seq<Files>, i: nat, fs: Files, ts: nat, group: nat)
    requires AllNoEmpty(gs) && NoEmpty(fs) && i < |gs| && HeadsFrom(gs, ts, group)
    requires fs != [] ==> KeyLeq(ts, group, Head(fs).ts, i)
    ensures AllNoEmpty(gs[i := fs]) && HeadsFrom(gs[i := fs], ts, group)
  {
  }

  lemma ConsSorted(t: Tagged, rest: seq<Tagged>)
    requires OutputSorted(rest)
    requires forall k :: 0 <= k < |rest| ==> KeyLeq(t.entry.ts, t.group, rest[k].entry.ts, rest[k].group)
    ensures OutputSorted([t] + rest)
  {
  }

  /** Time-sorted groups give an output sorted by time with ties in group order. */
  lemma {:induction false} MergeSorted(gs: seq<Files>, link: Option<int>, ts: nat, group: nat)
    requires AllNoEmpty(gs) && AllSorted(gs) && HeadsFrom(gs, ts, group)
    ensures OutputSorted(Merge(gs, link))
    ensures forall k :: 0 <= k < |Merge(gs, link)| ==>
      KeyLeq(ts, group, Merge(gs, link)[k].entry.ts, Merge(gs, link)[k].group)
    decreases Total(gs)
  {
    hide Merge, TimeSorted, Flat, Pop, OutputSorted, HeadsFrom;
    if Live(gs) {
      var i := Least(gs);
      var fs := gs[i];
      var e := Head(fs);
      PopCount(fs);
      SkipSorted(fs);
      TotalUpdate(gs, i, Pop(fs));
      TotalUpdate(gs, i, fs[1..]);
      MergeStep(gs, link, i);
      LeastBounds(gs, i, ts, group);
      if Mismatch(link, e) {
        HeadsMove(gs, i, fs[1..], ts, group);
        MergeSorted(gs[i := fs[1..]], link, ts, group);
      } else {
        HeadsMove(gs, i, Pop(fs), e.ts, i);
        MergeSorted(gs[i := Pop(fs)], Some(e.link), e.ts, i);
        ConsSorted(Tagged(i, e), Merge(gs[i := Pop(fs)], Some(e.link)));
      }
    } else {
      MergeOfNothing(gs, link);
    }
  }

  lemma LeastBounds(gs: seq<Files>, i: nat, ts: nat, group: nat)
    requires AllNoEmpty(gs) && IsLeast(gs, i) && HeadsFrom(gs, ts, group)
    ensures HeadsFrom(gs, Head(gs[i]).ts, i) && KeyLeq(ts, group, Head(gs[i]).ts, i)
  {
  }

  lemma MergeOfNothing(gs: seq<Files>, link: Option<int>)
    requires AllNoEmpty(gs) && !Live(gs)
    ensures Merge(gs, link) == [] && OutputSorted([])
  {
  }

  lemma {:induction false} FromGroupMember(out: seq<Tagged>, k: nat)
    requires k < |out|
    ensures out[k].entry in FromGroup(out, out[k].group)
    decreases k
  {
    if k > 0 {
      FromGroupMember(out[1..], k - 1);
    }
  }

  lemma FromGroupTail(out: seq<Tagged>, g: nat)
    requires out != []
    ensures FromGroup(out[1..], g) == if out[0].group == g then FromGroup(out, g)[1..] else FromGroup(out, g)
  {
    if out[0].group == g {
      assert FromGroup(out, g) == [out[0].entry] + FromGroup(out[1..], g);
    } else {
      assert FromGroup(out, g) == [] + FromGroup(out[1..], g);
    }
  }

  lemma {:induction false} MemberFromGroup(out: seq<Tagged>, g: nat, e: Entry) returns (k: nat)
    requires e in FromGroup(out, g)
    ensures k < |out| && out[k] == Tagged(g, e)
  {
    if out[0].group == g && out[0].entry == e {
      k := 0;
    } else {
      k := MemberFromGroup(out[1..], g, e);
      k := k + 1;
    }
  }

  ghost predicate SameContributions(a: seq<Tagged>, b: seq<Tagged>) {
    forall g: nat :: FromGroup(a, g) == FromGroup(b, g)
  }

  /** The sorted interleaving is unique: contributions and order determine the output. */
  lemma {:induction false} SortedInterleavingIsUnique(a: seq<Tagged>, b: seq<Tagged>)
    requires OutputSorted(a) && OutputSorted(b)
    requires SameContributions(a, b)
    ensures a == b
  {
    if a == [] {
      if b != [] {
        FromGroupMember(b, 0);
      }
    } else {
      FromGroupMember(a, 0);
      var k := MemberFromGroup(b, a[0].group, a[0].entry);
      FromGroupMember(b, 0);
      var l := MemberFromGroup(a, b[0].group, b[0].entry);
      assert KeyLeq(a[0].entry.ts, a[0].group, a[l].entry.ts, a[l].group);
      assert KeyLeq(b[0].entry.ts, b[0].group, b[k].entry.ts, b[k].group);
      var g := a[0].group;
      assert b[0].group == g;
      assert FromGroup(a, g)[0] == a[0].entry && FromGroup(b, g)[0] == b[0].entry;
      forall h: nat ensures FromGroup(a[1..], h) == FromGroup(b[1..], h) {
        assert FromGroup(a, h) == FromGroup(b, h);
        FromGroupTail(a, h);
        FromGroupTail(b, h);
      }
      SortedInterleavingIsUnique(a[1..], b[1..]);
    }
  }
}
