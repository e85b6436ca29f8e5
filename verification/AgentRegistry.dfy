/**
 The server's registry of connected agents (src/server/agents.rs). Every operation
 holds the registry lock, so any interleaving of connections, teardowns, revocations
 and dispatches is a sequence of these methods; `Valid` is what all of them keep.
 */
module AgentRegistry {
  import opened Common

  const OUTBOUND_CAPACITY: nat := 32

  /** One connection: its claimed name, generation, key (none when unauthenticated
      agents are allowed) and the semaphore guarding its extraction slot. */
  datatype Entry = Entry(name: string, generation: nat, key: Option<int>, pcapBusy: nat)

  datatype Refusal = NameHeldByOtherKey | RevokedKey

  datatype Registered = Accepted(entry: Entry) | Refused(why: Refusal)

  datatype SendResult = Sent | QueueFull | QueueClosed

  /** How a generation stopped being current, if it did. */
  datatype Fate = Current | Removed | ReplacedBy(generation: nat)

  /** Generations strictly increase: the i-th accepted entry has generation i + 1. */
  ghost predicate Generations(issued: seq<Entry>, fate: seq<Fate>, nextGeneration: nat, nextSemaphore: nat,
                              outbound: map<nat, seq<int>>)
  {
    && nextGeneration == |issued| + 1 && |fate| == |issued|
    && (forall i :: 0 <= i < |issued| ==> issued[i].generation == i + 1 && issued[i].pcapBusy < nextSemaphore)
    && (forall g: nat :: 0 < g <= |issued| ==> g in outbound && |outbound[g]| <= OUTBOUND_CAPACITY)
  }

  /** The agents map holds exactly the current generations. */
  ghost predicate CurrentOnes(agents: map<string, Entry>, issued: seq<Entry>, fate: seq<Fate>) {
    && |fate| == |issued|
    && (forall name :: name in agents ==> IsIssued(issued, name, agents[name]))
    && (forall i :: 0 <= i < |issued| ==>
          (fate[i].Current? <==> issued[i].name in agents && agents[issued[i].name].generation == i + 1))
    && (forall i, k :: 0 <= i < k < |issued| && fate[i].Current? ==> issued[k].name != issued[i].name)
  }

  predicate IsIssued(issued: seq<Entry>, name: string, e: Entry) {
    e.name == name && 0 < e.generation <= |issued| && issued[e.generation - 1] == e
  }

  /** A replaced entry is cancelled, and its successor is the next connection of the same
      name, with the same semaphore, and with the same key if both have one. */
  ghost predicate Replacements(issued: seq<Entry>, fate: seq<Fate>, cancelled: set<nat>) {
    && |fate| == |issued|
    && forall i :: 0 <= i < |issued| && fate[i].ReplacedBy? ==> ReplacedWell(issued, i, fate[i].generation, cancelled)
  }

  predicate ReplacedWell(issued: seq<Entry>, i: nat, g: nat, cancelled: set<nat>)
    requires i < |issued|
  {
    && i + 1 < g <= |issued| && i + 1 in cancelled && Succeeds(issued[i], issued[g - 1])
    && forall k :: i < k < g - 1 ==> issued[k].name != issued[i].name
  }

  /** No entry of the key is left that was not asked to stop. */
  ghost predicate AllStopped(agents: map<string, Entry>, cancelled: set<nat>, key: int) {
    forall name :: Holds(agents, name, key) ==> agents[name].generation in cancelled
  }

  predicate Holds(agents: map<string, Entry>, name: string, key: int) {
    name in agents && agents[name].key == Some(key)
  }

  /** Once a revoked key has all its entries stopped, it stays so. */
  ghost predicate Revocations(agents: map<string, Entry>, revoked: set<int>, settled: set<int>, cancelled: set<nat>) {
    settled <= revoked && forall key :: key in settled ==> AllStopped(agents, cancelled, key)
  }

  /** Accepting an entry, with what it does to the entry it replaces, if any. */
  lemma Accepting(agents: map<string, Entry>, issued: seq<Entry>, fate: seq<Fate>, cancelled: set<nat>, e: Entry)
    requires CurrentOnes(agents, issued, fate) && Replacements(issued, fate, cancelled)
    requires forall i :: 0 <= i < |issued| ==> issued[i].generation == i + 1
    requires e.generation == |issued| + 1
    requires e.name in agents ==> Succeeds(agents[e.name], e)
    ensures var fate' := Replace(agents, fate, e) + [Current];
      var cancelled' := if e.name in agents then cancelled + {agents[e.name].generation} else cancelled;
      CurrentOnes(agents[e.name := e], issued + [e], fate') && Replacements(issued + [e], fate', cancelled')
  {
    if e.name in agents {
      assert IsIssued(issued, e.name, agents[e.name]);
    }
    var fate' := Replace(agents, fate, e) + [Current];
    var agents' := agents[e.name := e];
    forall name | name in agents' ensures IsIssued(issued + [e], name, agents'[name]) {
      if name != e.name {
        assert IsIssued(issued, name, agents[name]);
      }
    }
  }

  lemma AcceptingKeepsRest(agents: map<string, Entry>, issued: seq<Entry>, fate: seq<Fate>,
                             outbound: map<nat, seq<int>>,
                           nextSemaphore: nat, nextSemaphore': nat, revoked: set<int>, settled: set<int>,
                           cancelled: set<nat>, cancelled': set<nat>, e: Entry)
    requires Generations(issued, fate, |issued| + 1, nextSemaphore, outbound)
    requires e.generation == |issued| + 1 && e.pcapBusy < nextSemaphore' && nextSemaphore <= nextSemaphore'
    requires Revocations(agents, revoked, settled, cancelled)
    requires e.key.Some? ==> e.key.value !in revoked
    requires cancelled <= cancelled'
    ensures Generations(issued + [e], Replace(agents, fate, e) + [Current],
      |issued| + 2, nextSemaphore', outbound[e.generation := []])
    ensures Revocations(agents[e.name := e], revoked, settled, cancelled')
  {
    var after := agents[e.name := e];
    forall key | key in settled ensures AllStopped(after, cancelled', key) {
      assert AllStopped(agents, cancelled, key);
      forall name | Holds(after, name, key) ensures after[name].generation in cancelled' {
        assert Holds(agents, name, key);
      }
    }
  }

  lemma GenerationFacts(issued: seq<Entry>, fate: seq<Fate>, nextGeneration: nat, nextSemaphore: nat,
                          outbound: map<nat, seq<int>>)
    requires Generations(issued, fate, nextGeneration, nextSemaphore, outbound)
    ensures nextGeneration == |issued| + 1 && |fate| == |issued|
    ensures forall i :: 0 <= i < |issued| ==> issued[i].generation == i + 1 && issued[i].pcapBusy < nextSemaphore
  {
  }

  lemma ReplaceFacts(agents: map<string, Entry>, fate: seq<Fate>, e: Entry)
    requires e.name in agents ==> 0 < agents[e.name].generation <= |fate|
    ensures Replace(agents, fate, e)
         == if e.name in agents then fate[agents[e.name].generation - 1 := ReplacedBy(e.generation)] else fate
  {
  }

  lemma IssuedFacts(agents: map<string, Entry>, issued: seq<Entry>, fate: seq<Fate>, name: string,
                    nextGeneration: nat, nextSemaphore: nat, outbound: map<nat, seq<int>>)
    requires CurrentOnes(agents, issued, fate) && name in agents
    requires Generations(issued, fate, nextGeneration, nextSemaphore, outbound)
    ensures agents[name].name == name && 0 < agents[name].generation <= |issued|
      && agents[name].pcapBusy < nextSemaphore
  {
    assert IsIssued(issued, name, agents[name]);
  }

  function Replace(agents: map<string, Entry>, fate: seq<Fate>, e: Entry): (r: seq<Fate>)
    ensures |r| == |fate|
  {
    if e.name in agents && 0 < agents[e.name].generation <= |fate|
    then fate[agents[e.name].generation - 1 := ReplacedBy(e.generation)] else fate
  }

  lemma Removing(agents: map<string, Entry>, issued: seq<Entry>, fate: seq<Fate>, cancelled: set<nat>, name: string)
    requires CurrentOnes(agents, issued, fate) && Replacements(issued, fate, cancelled)
    requires forall i :: 0 <= i < |issued| ==> issued[i].generation == i + 1
    requires name in agents
    ensures 0 < agents[name].generation <= |fate|
    ensures var fate' := fate[agents[name].generation - 1 := Removed];
      CurrentOnes(agents - {name}, issued, fate') && Replacements(issued, fate', cancelled)
  {
    assert IsIssued(issued, name, agents[name]);
    forall other | other in agents - {name} ensures IsIssued(issued, other, (agents - {name})[other]) {
      assert IsIssued(issued, other, agents[other]);
    }
  }

  class Registry {
    var agents: map<string, Entry>
    var revoked: set<int>
    var nextGeneration: nat
    var nextSemaphore: nat
    /** Shutdown tokens that were cancelled, by generation. */
    var cancelled: set<nat>
    /** Outbound queues by generation, and those whose receiver is gone. */
    var outbound: map<nat, seq<int>>
    var hungUp: set<nat>
    /** Every entry ever accepted, in order, and what became of it. */
    ghost var issued: seq<Entry>
    ghost var fate: seq<Fate>
    /** The revoked keys that had no entry left running when they were revoked. */
    ghost var settled: set<int>

    ghost predicate Valid()
      reads this
    {
      && Generations(issued, fate, nextGeneration, nextSemaphore, outbound)
      && CurrentOnes(agents, issued, fate)
      && Replacements(issued, fate, cancelled)
      && Revocations(agents, revoked, settled, cancelled)
    }

    constructor ()
      ensures Valid() && agents == map[] && issued == [] && revoked == {} && cancelled == {}
    {
      agents, revoked, nextGeneration, nextSemaphore := map[], {}, 1, 0;
      cancelled, outbound, hungUp := {}, map[], {};
      issued, fate, settled := [], [], {};
    }

    /** `register`: a revoked key and a name held under another key are refused and
        change nothing; otherwise the new entry takes the name with a fresh generation,
        keeps the semaphore of the entry it replaces, and cancels that entry. */
    method Register(name: string, key: Option<int>) returns (r: Registered)
      requires Valid()
      modifies this
      ensures Valid() && revoked == old(revoked)
      ensures r.Accepted? <==>
        && (key.Some? ==> key.value !in old(revoked))
        && (name in old(agents) && old(agents)[name].key.Some? && key.Some? ==> old(agents)[name].key == key)
      ensures r.Refused? ==> (r.why == RevokedKey <==> key.Some? && key.value in old(revoked))
      ensures r.Refused? ==>
        agents == old(agents) && issued == old(issued) && fate == old(fate) && cancelled == old(cancelled)
      ensures r.Accepted? ==> agents == old(agents)[name := r.entry] && issued == old(issued) + [r.entry]
      ensures r.Accepted? ==> r.entry.name == name && r.entry.key == key && r.entry.generation == |old(issued)| + 1
      ensures r.Accepted? && name in old(agents) ==>
        && r.entry.pcapBusy == old(agents)[name].pcapBusy
        && cancelled == old(cancelled) + {old(agents)[name].generation}
        && fate == old(fate)[old(agents)[name].generation - 1 := ReplacedBy(r.entry.generation)] + [Current]
      ensures r.Accepted? && name !in old(agents) ==>
        && (forall i :: 0 <= i < |old(issued)| ==> old(issued)[i].pcapBusy != r.entry.pcapBusy)
        && cancelled == old(cancelled) && fate == old(fate) + [Current]
    {
      if key.Some? && key.value in revoked {
        return Refused(RevokedKey);
      }
      if name in agents && Conflicts(agents[name].key, key) {
        return Refused(NameHeldByOtherKey);
      }
      hide Generations, CurrentOnes, Replacements, Revocations, Replace;
      GenerationFacts(issued, fate, nextGeneration, nextSemaphore, outbound);
      if name in agents {
        IssuedFacts(agents, issued, fate, name, nextGeneration, nextSemaphore, outbound);
      }
      var entry := Install(name, key);
      ReplaceFacts(old(agents), old(fate), entry);
      r := Accepted(entry);
    }

    /** The accepting half of `register`. */
    method Install(name: string, key: Option<int>) returns (entry: Entry)
      requires Valid() && (key.Some? ==> key.value !in revoked)
      requires name in agents ==> !Conflicts(agents[name].key, key)
      modifies this
      ensures Valid() && revoked == old(revoked)
      ensures entry.name == name && entry.key == key && entry.generation == old(nextGeneration)
      ensures entry.pcapBusy == if name in old(agents) then old(agents)[name].pcapBusy else old(nextSemaphore)
      ensures agents == old(agents)[name := entry] && issued == old(issued) + [entry]
      ensures fate == Replace(old(agents), old(fate), entry) + [Current]
      ensures cancelled ==
        if name in old(agents) then old(cancelled) + {old(agents)[name].generation} else old(cancelled)
    {
      hide Generations, CurrentOnes, Replacements, Revocations, Replace;
      GenerationFacts(issued, fate, nextGeneration, nextSemaphore, outbound);
      ghost var before, semaphores := cancelled, nextSemaphore;
      var semaphore;
      if name in agents {
        semaphore := agents[name].pcapBusy;
        IssuedFacts(agents, issued, fate, name, nextGeneration, nextSemaphore, outbound);
      } else {
        semaphore := nextSemaphore;
        nextSemaphore := nextSemaphore + 1;
      }
      entry := Entry(name, nextGeneration, key, semaphore);
      Accepting(agents, issued, fate, cancelled, entry);
      if name in agents {
        cancelled := cancelled + {agents[name].generation};
      }
      AcceptingKeepsRest(agents, issued, fate, outbound, semaphores, nextSemaphore, revoked, settled, before, cancelled,
                         entry);
      fate := Replace(agents, fate, entry) + [Current];
      agents := agents[name := entry];
      outbound := outbound[entry.generation := []];
      issued := issued + [entry];
      nextGeneration := nextGeneration + 1;
    }

    /** `remove`: only the current generation can be removed; a stale one changes nothing. */
    method Remove(name: string, generation: nat) returns (wasCurrent: bool)
      requires Valid()
      modifies this`agents, this`fate
      ensures Valid()
      ensures wasCurrent <==> name in old(agents) && old(agents)[name].generation == generation
      ensures !wasCurrent ==> agents == old(agents) && fate == old(fate)
      ensures wasCurrent ==> agents == old(agents) - {name} && fate == old(fate)[generation - 1 := Removed]
    {
      wasCurrent := name in agents && agents[name].generation == generation;
      if wasCurrent {
        Removing(agents, issued, fate, cancelled, name);
        agents := agents - {name};
        fate := fate[generation - 1 := Removed];
      }
    }

    /** `revoke_key`: from now on no registration under the key succeeds, and one current
        entry of the key, `met`, is asked to stop. Then all of them are exactly if every
        other one already was; and once they all are, none of the key ever runs again. */
    method RevokeKey(key: int) returns (found: bool, ghost met: string)
      requires Valid()
      modifies this`revoked, this`cancelled, this`settled
      ensures Valid() && revoked == old(revoked) + {key}
      ensures found <==> exists name :: Holds(agents, name, key)
      ensures found ==> Holds(agents, met, key) && cancelled == old(cancelled) + {agents[met].generation}
      ensures !found ==> cancelled == old(cancelled)
      ensures AllStopped(agents, cancelled, key) <==>
        forall name :: Holds(agents, name, key) && (!found || name != met) ==> agents[name].generation in old(cancelled)
      ensures AllStopped(agents, cancelled, key) ==> key in settled
      ensures old(settled) <= settled
    {
      DistinctGenerations();
      hide Generations, CurrentOnes, Replacements, Revocations;
      met := "";
      found := exists name :: name in agents && Holds(agents, name, key);
      ghost var before, keys := cancelled, revoked;
      revoked := revoked + {key};
      if found {
        var name :| name in agents && Holds(agents, name, key);
        met := name;
        cancelled := cancelled + {agents[name].generation};
      }
      settled := settled + if AllStopped(agents, cancelled, key) then {key} else {};
      Stopping(agents, issued, fate, keys, old(settled), before, cancelled, key);
    }

    /** More requests to stop undo nothing. */
    static lemma Stopping(agents: map<string, Entry>, issued: seq<Entry>, fate: seq<Fate>, revoked: set<int>,
                          settled: set<int>, before: set<nat>, after: set<nat>, key: int)
      requires Revocations(agents, revoked, settled, before) && Replacements(issued, fate, before) && before <= after
      ensures Revocations(agents, revoked + {key},
        settled + if AllStopped(agents, after, key) then {key} else {}, after)
      ensures Replacements(issued, fate, after)
    {
      forall k | k in settled ensures AllStopped(agents, after, k) {
        assert AllStopped(agents, before, k);
      }
      forall i | 0 <= i < |issued| && fate[i].ReplacedBy? ensures ReplacedWell(issued, i, fate[i].generation, after) {
        assert ReplacedWell(issued, i, fate[i].generation, before);
      }
    }

    lemma DistinctGenerations()
      requires Valid()
      ensures forall a, b :: a in agents && b in agents && agents[a].generation == agents[b].generation ==> a == b
    {
      forall a, b | a in agents && b in agents && agents[a].generation == agents[b].generation ensures a == b {
        assert IsIssued(issued, a, agents[a]) && IsIssued(issued, b, agents[b]);
      }
    }

    /** Revoking a key asks all its current entries to stop, whichever of them it meets
        first, exactly if at most one current entry holds the key or all that do were
        asked already. */
    lemma RevocationReachesAllIff(key: int)
      requires Valid()
      ensures (forall met :: Holds(agents, met, key) ==>
                AllStopped(agents, cancelled + {agents[met].generation}, key))
         <==> AllStopped(agents, cancelled, key)
              || forall a, b :: Holds(agents, a, key) && Holds(agents, b, key) ==> a == b
    {
      DistinctGenerations();
      if a, b :| Holds(agents, a, key) && Holds(agents, b, key) && a != b {
        assert agents[a].generation != agents[b].generation;
        if forall met :: Holds(agents, met, key) ==> AllStopped(agents, cancelled + {agents[met].generation}, key) {
          assert AllStopped(agents, cancelled + {agents[a].generation}, key);
          assert AllStopped(agents, cancelled + {agents[b].generation}, key);
          forall name | Holds(agents, name, key) ensures agents[name].generation in cancelled {
            assert agents[name].generation == agents[a].generation ==> name == a;
            assert agents[name].generation == agents[b].generation ==> name == b;
          }
        }
      }
    }

    /** The receiving half of a connection goes away. */
    method HangUp(generation: nat)
      requires Valid()
      modifies this`hungUp
      ensures Valid() && hungUp == old(hungUp) + {generation}
    {
      hungUp := hungUp + {generation};
    }

    predicate Reachable(entry: Entry)
      reads this`agents, this`hungUp
    {
      entry.name in agents && agents[entry.name].generation == entry.generation && entry.generation !in hungUp
    }

    /** `try_send_current`: a message is queued exactly if the entry is current, its
        receiver is there and its queue has room; that the entry was asked to stop does not
        matter. */
    method TrySendCurrent(entry: Entry, message: int) returns (r: SendResult)
      requires Valid() && 0 < entry.generation <= |issued|
      modifies this`outbound
      ensures Valid() && entry.generation in old(outbound)
      ensures r.Sent? <==> Reachable(entry) && |old(outbound)[entry.generation]| < 32
      ensures r.QueueFull? <==> Reachable(entry) && |old(outbound)[entry.generation]| == 32
      ensures outbound == if r.Sent? then old(outbound)[entry.generation := old(outbound)[entry.generation] + [message]]
                          else old(outbound)
    {
      if entry.name !in agents || agents[entry.name].generation != entry.generation {
        return QueueClosed;
      }
      if entry.generation in hungUp {
        return QueueClosed;
      }
      if |outbound[entry.generation]| >= OUTBOUND_CAPACITY {
        return QueueFull;
      }
      outbound := outbound[entry.generation := outbound[entry.generation] + [message]];
      return Sent;
    }
  }

  /** A name held under one key cannot be claimed under another. */
  predicate Conflicts(held: Option<int>, claimed: Option<int>) {
    held.Some? && claimed.Some? && held.value != claimed.value
  }

  /** What `register` asks of a claim. */
  predicate Admits(agents: map<string, Entry>, revoked: set<int>, name: string, key: Option<int>) {
    !(key.Some? && key.value in revoked) && !(name in agents && Conflicts(agents[name].key, key))
  }

  predicate Succeeds(previous: Entry, next: Entry) {
    next.name == previous.name && next.pcapBusy == previous.pcapBusy && !Conflicts(previous.key, next.key)
  }

  /** `chain` is a sequence of generations each replaced by the next. */
  ghost predicate Chain(issued: seq<Entry>, fate: seq<Fate>, chain: seq<nat>) {
    && |fate| == |issued|
    && (forall k :: 0 <= k < |chain| ==> 0 < chain[k] <= |issued|)
    && forall k :: 0 <= k < |chain| - 1 ==> fate[chain[k] - 1] == ReplacedBy(chain[k + 1])
  }

  /** Along a chain of replacements generations increase, the name and the semaphore
      stay the same, every member but the last is cancelled, and if every member has a
      key they all have the same key. */
  lemma {:induction false} ChainKeepsIdentity(r: Registry, chain: seq<nat>, k: nat)
    requires r.Valid() && Chain(r.issued, r.fate, chain) && k < |chain|
    ensures r.issued[chain[k] - 1].name == r.issued[chain[0] - 1].name
    ensures r.issued[chain[k] - 1].pcapBusy == r.issued[chain[0] - 1].pcapBusy
    ensures chain[0] + k <= chain[k]
    ensures forall l :: 0 <= l < k ==> chain[l] in r.cancelled
    ensures (forall l :: 0 <= l <= k ==> r.issued[chain[l] - 1].key.Some?) ==>
      r.issued[chain[k] - 1].key == r.issued[chain[0] - 1].key
    decreases k
  {
    if k > 0 {
      ChainKeepsIdentity(r, chain, k - 1);
      var i := chain[k - 1] - 1;
      assert r.fate[i] == ReplacedBy(chain[k - 1 + 1]);
      assert ReplacedWell(r.issued, i, r.fate[i].generation, r.cancelled);
    }
  }

  /** The holders of a name follow each other by replacement or after a removal. */
  predicate Consecutive(issued: seq<Entry>, i: nat, j: nat) {
    && i < j < |issued| && issued[j].name == issued[i].name
    && forall k :: i < k < j ==> issued[k].name != issued[i].name
  }

  lemma ReplacedOrRemoved(r: Registry, i: nat, j: nat)
    requires r.Valid() && Consecutive(r.issued, i, j)
    ensures r.fate[i].Removed? || (r.fate[i] == ReplacedBy(j + 1) && Succeeds(r.issued[i], r.issued[j]))
  {
    if r.fate[i].ReplacedBy? {
      assert ReplacedWell(r.issued, i, r.fate[i].generation, r.cancelled);
    }
  }

  /** Between two holders of a name with different keys some holder was without a key or
      was removed. */
  lemma {:induction false} KeyPassesOnlyThroughAGap(r: Registry, i: nat, j: nat) returns (k: nat)
    requires r.Valid() && i < j < |r.issued| && r.issued[j].name == r.issued[i].name
    requires Conflicts(r.issued[i].key, r.issued[j].key)
    ensures i <= k < j && r.issued[k].name == r.issued[i].name && (r.issued[k].key.None? || r.fate[k].Removed?)
    decreases j - i
  {
    if r.fate[i].Removed? {
      k := i;
    } else {
      var n := NextHolder(r.issued, i, j);
      ReplacedOrRemoved(r, i, n);
      if r.issued[n].key.None? {
        k := n;
      } else {
        k := KeyPassesOnlyThroughAGap(r, n, j);
      }
    }
  }

  lemma {:induction false} NextHolder(issued: seq<Entry>, i: nat, j: nat) returns (n: nat)
    requires i < j < |issued| && issued[j].name == issued[i].name
    ensures n <= j && Consecutive(issued, i, n)
    decreases j - i
  {
    n := j;
    if k: nat :| i < k < j && issued[k].name == issued[i].name {
      n := NextHolder(issued, i, k);
    }
  }

  /** And such a gap is all it takes: a name's last holder lets an unrevoked other key
      follow exactly if it is without a key or was removed. */
  lemma AnotherKeyMayFollowIff(r: Registry, i: nat, key: int)
    requires r.Valid() && i < |r.issued| && forall k :: i < k < |r.issued| ==> r.issued[k].name != r.issued[i].name
    requires key !in r.revoked && r.issued[i].key != Some(key)
    ensures Admits(r.agents, r.revoked, r.issued[i].name, Some(key)) <==> r.issued[i].key.None? || r.fate[i].Removed?
  {
    var name := r.issued[i].name;
    if name in r.agents {
      assert IsIssued(r.issued, name, r.agents[name]);
      var g := r.agents[name].generation;
      assert r.fate[g - 1].Current?;
    }
    if r.fate[i].ReplacedBy? {
      ReplacedLater(r, i);
    }
  }

  lemma ReplacedLater(r: Registry, i: nat)
    requires r.Valid() && i < |r.issued| && r.fate[i].ReplacedBy?
    ensures exists k :: i < k < |r.issued| && r.issued[k].name == r.issued[i].name
  {
    assert ReplacedWell(r.issued, i, r.fate[i].generation, r.cancelled);
    var k := r.fate[i].generation - 1;
    assert r.issued[k].name == r.issued[i].name;
  }

  /** A key lost to another through a connection without a key. */
  method KeyPassesThroughAnUnkeyedHolder() returns (r: Registry)
    ensures r.Valid() && r.revoked == {} && |r.issued| == 3
    ensures forall i :: 0 <= i < 3 ==> r.issued[i].name == "a" && !r.fate[i].Removed?
    ensures r.issued[0].key == Some(1) && r.issued[1].key == None && r.issued[2].key == Some(2)
  {
    r := new Registry();
    var first := r.Register("a", Some(1));
    var second := r.Register("a", None);
    var third := r.Register("a", Some(2));
  }

  /** A key that two names hold, which the endpoint never lets happen: revoking it leaves an
      entry running. */
  method RevokingASharedKeyMissesAnEntry() returns (r: Registry)
    ensures r.Valid() && 7 in r.revoked && !AllStopped(r.agents, r.cancelled, 7)
  {
    r := new Registry();
    var a := r.Register("a", Some(7));
    var b := r.Register("b", Some(7));
    assert r.agents == map["a" := a.entry, "b" := b.entry];
    var found, met := r.RevokeKey(7);
    assert Holds(r.agents, "a", 7) && Holds(r.agents, "b", 7);
  }

  // ----- the endpoint in front of the registry (src/server/api/agent.rs, src/server/api/admin.rs)

  /** A key as the database has it: its id, never used again, and the name it is for. */
  datatype KeyIdentity = KeyIdentity(id: int, name: string)

  datatype Upgraded = NameMismatch | Answered(r: Registered)

  ghost predicate KeyedByName(issued: seq<Entry>, nameOf: int -> string) {
    forall i :: 0 <= i < |issued| && issued[i].key.Some? ==> issued[i].name == nameOf(issued[i].key.value)
  }

  class Endpoint {
    const registry: Registry
    /** The name that each key is for. */
    ghost const nameOf: int -> string

    /** Every connection ever registered under a key has the key's name. */
    ghost predicate Valid()
      reads this, registry
    {
      registry.Valid() && KeyedByName(registry.issued, nameOf)
    }

    constructor (ghost nameOf: int -> string)
      ensures Valid() && fresh(registry) && registry.agents == map[] && this.nameOf == nameOf
    {
      registry := new Registry();
      this.nameOf := nameOf;
    }

    /** The upgrade to a web socket: a key for another name is refused before it can
        register. */
    method Upgrade(name: string, key: Option<KeyIdentity>) returns (u: Upgraded)
      requires Valid() && (key.Some? ==> key.value.name == nameOf(key.value.id))
      modifies registry
      ensures Valid()
      ensures u.NameMismatch? <==> key.Some? && key.value.name != name
      ensures u.NameMismatch? ==> registry.agents == old(registry.agents) && registry.issued == old(registry.issued)
      ensures u.Answered? ==> (u.r.Accepted? <==>
        Admits(old(registry.agents), old(registry.revoked), name, if key.Some? then Some(key.value.id) else None))
      ensures registry.agents ==
        if u.Answered? && u.r.Accepted? then old(registry.agents)[name := u.r.entry] else old(registry.agents)
    {
      if key.Some? && key.value.name != name {
        return NameMismatch;
      }
      var r := registry.Register(name, if key.Some? then Some(key.value.id) else None);
      u := Answered(r);
    }

    /** The end of a connection. */
    method Leave(name: string, generation: nat) returns (wasCurrent: bool)
      requires Valid()
      modifies registry
      ensures Valid()
      ensures wasCurrent <==> name in old(registry.agents) && old(registry.agents)[name].generation == generation
      ensures registry.agents == if wasCurrent then old(registry.agents) - {name} else old(registry.agents)
    {
      wasCurrent := registry.Remove(name, generation);
    }

    /** The deletion of a key: every current connection of the key is asked to stop, and
        stays so. */
    method DeleteKey(key: int) returns (disconnected: bool)
      requires Valid()
      modifies registry
      ensures Valid()
      ensures registry.agents == old(registry.agents) && registry.revoked == old(registry.revoked) + {key}
      ensures disconnected <==> exists name :: Holds(registry.agents, name, key)
      ensures AllStopped(registry.agents, registry.cancelled, key) && key in registry.settled
    {
      OneHolderPerKey(key);
      ghost var met;
      disconnected, met := registry.RevokeKey(key);
    }

    /** No key is held under two names. */
    lemma OneHolderPerKey(key: int)
      requires Valid()
      ensures forall a, b :: Holds(registry.agents, a, key) && Holds(registry.agents, b, key) ==> a == b
    {
      forall a, b | Holds(registry.agents, a, key) && Holds(registry.agents, b, key) ensures a == b {
        assert IsIssued(registry.issued, a, registry.agents[a]) && IsIssued(registry.issued, b, registry.agents[b]);
      }
    }
  }
}
