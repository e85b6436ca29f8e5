/**
 Timestamped spool files (src/eve/spool.rs): finding the next file of a stream,
 choosing the file a stream starts with, and the order in which a reader that follows
 `next` meets the records.
 */
module EveSpool {
  import opened Common
  import opened EveIngest

  // ----- parsing a name

  /** The stream is identified by everything before the last dot. */
  datatype SpoolName = SpoolName(key: string, time: nat)

  const TIMESTAMP_LENGTH: nat := 10

  /** `rsplit_once('.')` with the checks of `SpoolFile::parse`, on a bare file name. */
  function ParseName(name: string): Option<SpoolName> {
    if |name| < 2 + TIMESTAMP_LENGTH then
      None
    else
      var cut := |name| - TIMESTAMP_LENGTH;
      var digits := name[cut..];
      if name[cut - 1] == '.' && forall i :: 0 <= i < |digits| ==> IsDigit(digits[i])
      then Some(SpoolName(name[..cut], Number(digits))) else None
  }

  lemma LastDigit(s: string)
    requires s != [] && forall i :: 0 <= i < |s| ==> IsDigit(s[i])
    ensures var n := |s| - 1;
      Number(s) == 10 * Number(s[..n]) + (s[n] as int - '0' as int) && 0 <= s[n] as int - '0' as int < 10
  {
    assert IsDigit(s[|s| - 1]);
  }

  lemma {:induction false} NumberInjective(a: string, b: string)
    requires |a| == |b|
    requires forall i :: 0 <= i < |a| ==> IsDigit(a[i])
    requires forall i :: 0 <= i < |b| ==> IsDigit(b[i])
    requires Number(a) == Number(b)
    ensures a == b
  {
    hide Number;
    if a != [] {
      var n := |a| - 1;
      LastDigit(a);
      LastDigit(b);
      NumberInjective(a[..n], b[..n]);
      assert a == a[..n] + [a[n]] && b == b[..n] + [b[n]];
    }
  }

  /** Two names of one directory with the same stream and time are the same name, so
      a stream's files are identified by their times. */
  lemma NamesAreTheirTimes(a: string, b: string)
    requires ParseName(a).Some? && ParseName(a) == ParseName(b)
    ensures a == b
  {
    var cut := |a| - TIMESTAMP_LENGTH;
    assert |ParseName(a).value.key| == cut && |a| == |b|;
    NumberInjective(a[cut..], b[cut..]);
    assert a == a[..cut] + a[cut..] && b == b[..cut] + b[cut..];
  }

  /** A name is that of a stream's file exactly if it is something, a dot and ten digits: the
      stream is what comes before the digits, and they are the time. */
  lemma ParseNameIff(name: string, prefix: string, digits: string)
    requires |digits| == 10 && forall i :: 0 <= i < 10 ==> IsDigit(digits[i])
    ensures prefix != "" && name == prefix + "." + digits <==>
      ParseName(name) == Some(SpoolName(prefix + ".", Number(digits)))
  {
    var key := prefix + ".";
    if prefix != "" && name == key + digits {
      assert name[|key|..] == digits && name[..|key|] == key;
    }
    if ParseName(name) == Some(SpoolName(key, Number(digits))) {
      NumberInjective(name[|key|..], digits);
      assert name == name[..|key|] + name[|key|..];
    }
  }

  // ----- newer_file

  ghost predicate Newer(dir: seq<Option<SpoolName>>, self: SpoolName, time: nat) {
    Some(SpoolName(self.key, time)) in dir && time > self.time
  }

  lemma NewerSnoc(dir: seq<Option<SpoolName>>, self: SpoolName, i: nat)
    requires i < |dir|
    ensures forall time: nat :: Newer(dir[..i + 1], self, time) <==>
      (Newer(dir[..i], self, time) || (dir[i] == Some(SpoolName(self.key, time)) && time > self.time))
  {
    assert dir[..i + 1] == dir[..i] + [dir[i]];
  }

  /** The oldest (or, with `latest`, the newest) file of the stream newer than `self`,
      whatever order the directory is listed in. */
  method NewerFile(dir: seq<Option<SpoolName>>, self: SpoolName, latest: bool) returns (next: Option<SpoolName>)
    ensures next.None? ==> forall time: nat :: !Newer(dir, self, time)
    ensures next.Some? ==> next.value.key == self.key && Newer(dir, self, next.value.time)
    ensures next.Some? ==> forall time: nat :: Newer(dir, self, time) ==>
      if latest then time <= next.value.time else next.value.time <= time
  {
    next := None;
    for i := 0 to |dir|
      invariant next.None? ==> forall time: nat :: !Newer(dir[..i], self, time)
      invariant next.Some? ==> next.value.key == self.key && Newer(dir[..i], self, next.value.time)
      invariant next.Some? ==> forall time: nat :: Newer(dir[..i], self, time) ==>
        if latest then time <= next.value.time else next.value.time <= time
    {
      NewerSnoc(dir, self, i);
      if dir[i].None? {
        continue;
      }
      var candidate := dir[i].value;
      if candidate.key != self.key || candidate.time <= self.time {
        continue;
      }
      if next.None? || (if latest then candidate.time > next.value.time else candidate.time < next.value.time) {
        next := Some(candidate);
      }
    }
    assert dir[..|dir|] == dir;
  }

  // ----- group

  datatype Input = File(path: string) | Spool(name: SpoolName)

  function KeyOf(i: Input): string {
    match i case File(path) => path case Spool(name) => name.key
  }

  /** Input `i` is the first one with its key. */
  predicate First(inputs: seq<Input>, i: nat)
    requires i < |inputs|
  {
    forall j :: 0 <= j < i ==> KeyOf(inputs[j]) != KeyOf(inputs[i])
  }

  /** The inputs a stream starts with, of the first `n`: one per key, of the kind met
      first, and for a spool its oldest file, or its newest in tail mode. */
  ghost predicate Chosen(inputs: seq<Input>, n: nat, end: bool, chosen: map<string, Input>)
    requires n <= |inputs|
  {
    && (forall k :: k in chosen <==> exists i :: 0 <= i < n && KeyOf(inputs[i]) == k)
    && (forall k :: k in chosen ==> chosen[k] in inputs && KeyOf(chosen[k]) == k)
    && (forall i :: 0 <= i < n && First(inputs, i) ==> chosen[KeyOf(inputs[i])].Spool? == inputs[i].Spool?)
    && (forall i :: 0 <= i < n && inputs[i].Spool? && chosen[KeyOf(inputs[i])].Spool? ==>
          NoWorse(end, chosen[KeyOf(inputs[i])].name.time, inputs[i].name.time))
  }

  predicate NoWorse(end: bool, time: nat, other: nat) {
    if end then other <= time else time <= other
  }

  /** Nothing changes when the candidate is no improvement. */
  lemma ChosenKept(inputs: seq<Input>, n: nat, end: bool, chosen: map<string, Input>)
    requires n < |inputs| && Chosen(inputs, n, end, chosen)
    requires var key := KeyOf(inputs[n]);
             key in chosen && (chosen[key].Spool? && inputs[n].Spool? ==>
               NoWorse(end, chosen[key].name.time, inputs[n].name.time))
    ensures Chosen(inputs, n + 1, end, chosen)
  {
    hide KeyOf, First, NoWorse;
    NotFirst(inputs, n);
  }

  lemma NotFirst(inputs: seq<Input>, n: nat)
    requires n < |inputs| && exists i :: 0 <= i < n && KeyOf(inputs[i]) == KeyOf(inputs[n])
    ensures !First(inputs, n)
  {
  }

  lemma NoWorseIsTransitive(end: bool)
    ensures forall a, b, c :: NoWorse(end, a, b) && NoWorse(end, b, c) ==> NoWorse(end, a, c)
    ensures forall a :: NoWorse(end, a, a)
  {
  }

  lemma ChosenReplaced(inputs: seq<Input>, n: nat, end: bool, chosen: map<string, Input>)
    requires n < |inputs| && Chosen(inputs, n, end, chosen)
    requires var key := KeyOf(inputs[n]);
             key in chosen ==>
               chosen[key].Spool? && inputs[n].Spool? && NoWorse(end, inputs[n].name.time, chosen[key].name.time)
    ensures Chosen(inputs, n + 1, end, chosen[KeyOf(inputs[n]) := inputs[n]])
  {
    hide KeyOf, First, NoWorse;
    NoWorseIsTransitive(end);
    if KeyOf(inputs[n]) in chosen {
      NotFirst(inputs, n);
    }
  }

  /** Every input's path, or stream, has its choice, which is that file, or one of that stream. */
  ghost predicate Keyed(inputs: seq<Input>, chosen: map<string, Input>) {
    && (forall i <- inputs :: (if i.File? then i.path else i.name.key) in chosen)
    && (forall k <- chosen :: chosen[k] == File(k) || (chosen[k].Spool? && chosen[k].name.key == k))
  }

  lemma ChosenIsKeyed(inputs: seq<Input>, end: bool, chosen: map<string, Input>)
    requires Chosen(inputs, |inputs|, end, chosen)
    ensures Keyed(inputs, chosen)
  {
    forall i <- inputs ensures (if i.File? then i.path else i.name.key) in chosen {
      var n :| 0 <= n < |inputs| && inputs[n] == i;
      assert KeyOf(inputs[n]) in chosen;
    }
  }

  method Group(inputs: seq<Input>, end: bool) returns (chosen: map<string, Input>)
    ensures Chosen(inputs, |inputs|, end, chosen)
    ensures Keyed(inputs, chosen)
  {
    hide Keyed, Chosen;
    chosen := map[];
    NothingChosen(inputs, end);
    for n := 0 to |inputs|
      invariant Chosen(inputs, n, end, chosen)
    {
      chosen := Consider(inputs, n, end, chosen);
    }
    ChosenIsKeyed(inputs, end, chosen);
  }

  lemma NothingChosen(inputs: seq<Input>, end: bool)
    ensures Chosen(inputs, 0, end, map[])
  {
  }

  /** One more input. */
  method Consider(inputs: seq<Input>, n: nat, end: bool, before: map<string, Input>)
    returns (chosen: map<string, Input>)
    requires n < |inputs| && Chosen(inputs, n, end, before)
    ensures Chosen(inputs, n + 1, end, chosen)
  {
    hide Chosen, First;
    var candidate := inputs[n];
    var key := KeyOf(candidate);
    chosen := before;
    if key !in before {
      ChosenReplaced(inputs, n, end, before);
      chosen := before[key := candidate];
    } else if before[key].Spool? && candidate.Spool? {
      var current := before[key].name;
      if (if end then candidate.name.time > current.time else candidate.name.time < current.time) {
        ChosenReplaced(inputs, n, end, before);
        chosen := before[key := candidate];
      } else {
        ChosenKept(inputs, n, end, before);
      }
    } else {
      ChosenKept(inputs, n, end, before);
    }
  }

  /** The file that a stream starts with is where the processor starts: the oldest one in
      the directory. */
  lemma GroupStartsAtOldest(inputs: seq<Input>, chosen: map<string, Input>, key: string, s: State)
    requires Chosen(inputs, |inputs|, false, chosen) && key in chosen && chosen[key].Spool?
    requires forall time: nat :: Spool(SpoolName(key, time)) in inputs <==> time in s.present
    ensures IsOldestPresent(s, chosen[key].name.time)
  {
    var name := chosen[key].name;
    assert KeyOf(chosen[key]) == key && chosen[key] == Spool(SpoolName(key, name.time));
    forall time: nat | time in s.present ensures name.time <= time {
      var i :| 0 <= i < |inputs| && inputs[i] == Spool(SpoolName(key, time));
      assert KeyOf(inputs[i]) == key;
    }
  }

  // ----- the records of a stream in order

  /** What `next_record` reports for a line: nothing for a blank one, an error for one
      that is not a JSON record. */
  datatype Event = Event(id: Id) | Bad(id: Id)

  function LineEvents(file: nat, index: nat, line: Line): seq<Event> {
    match line
    case Record => [Event(Id(file, index))]
    case Blank => []
    case Malformed => [Bad(Id(file, index))]
    case NotUtf8 => [Bad(Id(file, index))]
  }

  /** The events of one file from line `pos` on. */
  function FileEvents(file: nat, lines: seq<Line>, pos: nat): seq<Event>
    decreases |lines| - pos
  {
    if pos >= |lines| then [] else LineEvents(file, pos, lines[pos]) + FileEvents(file, lines, pos + 1)
  }

  ghost predicate IsLeastOf(times: set<nat>, m: nat) {
    m in times && forall t :: t in times ==> m <= t
  }

  lemma {:induction false} LeastOf(times: set<nat>) returns (m: nat)
    requires times != {}
    ensures IsLeastOf(times, m)
  {
    m :| m in times;
    if times != {m} {
      var k := LeastOf(times - {m});
      assert forall t :: t in times ==> t == m || t in times - {m};
      m := if k < m then k else m;
    }
  }

  ghost function Least(times: set<nat>): (m: nat)
    requires times != {}
    ensures IsLeastOf(times, m)
  {
    assert exists m: nat :: IsLeastOf(times, m) by {
      var m := LeastOf(times);
    }
    var m: nat :| IsLeastOf(times, m);
    m
  }

  /** All files of a directory, oldest first, each exactly once. */
  ghost function AllEvents(content: map<nat, seq<Line>>, times: set<nat>): seq<Event>
    requires times <= content.Keys
  {
    if times == {} then
      []
    else
      var m := Least(times);
      FileEvents(m, content[m], 0) + AllEvents(content, times - {m})
  }

  ghost function After(present: set<nat>, file: nat): set<nat> {
    set t | t in present && t > file
  }

  /** What a reader at line `pos` of `file` has yet to report. */
  ghost function Unread(content: map<nat, seq<Line>>, present: set<nat>, file: nat, pos: nat): seq<Event>
    requires present <= content.Keys && file in content
  {
    FileEvents(file, content[file], pos) + AllEvents(content, After(present, file))
  }

  /** Moving to the next file at the end of the current one changes nothing to come. */
  lemma UnreadAtSwitch(content: map<nat, seq<Line>>, present: set<nat>, file: nat, next: nat)
    requires present <= content.Keys && file in content
    requires next in After(present, file) && forall t :: t in After(present, file) ==> next <= t
    ensures Unread(content, present, file, |content[file]|) == Unread(content, present, next, 0)
  {
    var rest := After(present, file);
    var m := Least(rest);
    assert m == next;
    assert rest - {m} == After(present, m);
  }

  /** Starting from the oldest file, a reader has every record of every file ahead of
      it, file by file in increasing time order. */
  lemma UnreadFromOldest(content: map<nat, seq<Line>>, present: set<nat>, oldest: nat)
    requires present <= content.Keys && IsLeastOf(present, oldest)
    ensures Unread(content, present, oldest, 0) == AllEvents(content, present)
  {
    var m := Least(present);
    assert m == oldest;
    assert present - {m} == After(present, m);
  }

  // ----- a restart

  /** The process at the start of a file, with so many lines to skip. */
  function Restarted(s: State, file: nat, skip: nat): State {
    s.(proc := Some(FreshProc(file, skip)))
  }

  /** The process may die at any moment and be started again, at the oldest file, or where a
      bookmark of a present file says. */
  lemma MayDieAndStart(s: State, oldest: nat)
    requires IsOldestPresent(s, oldest)
    ensures Step(s, Crash, s.(proc := None), false)
    ensures Step(s.(proc := None), Start, Restarted(s, oldest, 0), false)
    ensures s.bookmark.At? && s.bookmark.file in s.present ==>
      Step(Restarted(s, oldest, 0), Select, Restarted(s, s.bookmark.file, s.bookmark.line), false)
  {
    assert IsOldestPresent(s.(proc := None), oldest);
  }

  /** At any moment of a safe run every record that is not committed is still on disk, and not
      before the place where a process that is started then reads on. */
  lemma CrashLosesNothing(s: State, oldest: nat)
    requires Inv(s) && IsOldestPresent(s, oldest)
    ensures forall id :: IsRecord(s, id) && id !in s.committed ==> id.file in s.present && oldest <= id.file
    ensures s.bookmark.At? ==>
      forall id :: IsRecord(s, id) && id !in s.committed ==>
        id.file > s.bookmark.file || (id.file == s.bookmark.file && id.index >= s.bookmark.line)
  {
    InvIsSafe(s);
    forall id | IsRecord(s, id) && id !in s.committed ensures id.file in s.present && oldest <= id.file {
      assert DeletedIsCommitted(s);
    }
  }
}
