/**
 The reader and processor objects (`EveReader`, `Processor`), verified against the
 transition system: whatever Suricata does meanwhile, everything these methods do is a
 run of it, so its theorems hold of them; and on a quiet directory `next_record`
 reports the records of all files in order.
 */
module EveProcessor {
  import opened Common
  import opened EveIngest
  import opened EveSpool

  const DEFAULT_BATCH_SIZE: nat := 100

  /** The disk, the sink's store, and Suricata, which still has `energy` steps to take.
      On a quiet host Suricata does nothing and no file operation fails. */
  class Host {
    const quiet: bool
    var energy: nat
    var content: map<nat, seq<Line>>
    var present: set<nat>
    var committed: set<Id>
    var bookmark: Bookmark
  }

  /** None of the first `n` lines is one that is not UTF-8. */
  predicate Legible(lines: seq<Line>, n: nat) {
    forall i :: 0 <= i < n && i < |lines| ==> lines[i] != NotUtf8
  }

  lemma LegibleOn(lines: seq<Line>, n: nat)
    ensures Legible(lines, 0)
    ensures n < |lines| && Legible(lines, n) ==> (Legible(lines, n + 1) <==> lines[n] != NotUtf8)
    ensures n >= |lines| ==> (Legible(lines, n) <==> Legible(lines, |lines|))
  {
  }

  lemma NotLegible(lines: seq<Line>, n: nat, m: nat)
    requires n < |lines| && n < m && lines[n] == NotUtf8
    ensures !Legible(lines, m)
  {
  }

  datatype LineResult = Got(line: Line) | NoLine | LineError

  class EveReader {
    var filename: nat
    /** A `BufReader` is open. */
    var reader: bool
    /** Physical lines consumed; `lineno` does not count those that are not UTF-8. */
    var pos: nat
    var lineno: nat
    var completed: seq<nat>
    const deleteProcessed: bool
    /** The stream's key: the file name without its time. */
    const key: string

    /** `next_line(false)` on the open file, whose lines are `lines`. */
    method NextLine(lines: seq<Line>) returns (r: LineResult)
      requires pos <= |lines|
      modifies this`pos, this`lineno
      ensures r.NoLine? <==> old(pos) == |lines|
      ensures r.NoLine? ==> pos == old(pos) && lineno == old(lineno)
      ensures !r.NoLine? ==> pos == old(pos) + 1
      ensures r.Got? ==> r.line == lines[old(pos)] != NotUtf8 && lineno == old(lineno) + 1
      ensures r.LineError? ==> lines[old(pos)] == NotUtf8 && lineno == old(lineno)
    {
      if pos == |lines| {
        return NoLine;
      }
      var line := lines[pos];
      pos := pos + 1;
      if line == NotUtf8 {
        return LineError;
      }
      lineno := lineno + 1;
      return Got(line);
    }

    method SwitchSpoolFile(next: nat)
      modifies this
      ensures filename == next && !reader && pos == 0 && lineno == 0
      ensures completed == if deleteProcessed then old(completed) + [old(filename)] else old(completed)
    {
      if deleteProcessed {
        completed := completed + [filename];
      }
      filename, reader, pos, lineno := next, false, 0, 0;
    }
  }

  /** `ReadError` carries the line at fault, if the error was a line. */
  datatype ReadResult = Rec(id: Id) | ReadError(line: Option<Id>) | Eof

  /** The event that a result of `next_record` reports. */
  function Told(r: ReadResult): seq<Event> {
    match r
    case Rec(id) => [Event(id)]
    case ReadError(line) => if line.None? then [] else [Bad(line.value)]
    case Eof => []
  }

  /** The records among some events. */
  function Records(es: seq<Event>): seq<Id> {
    if es == [] then [] else (if es[0].Event? then [es[0].id] else []) + Records(es[1..])
  }

  lemma {:induction false} RecordsConcat(a: seq<Event>, b: seq<Event>)
    ensures Records(a + b) == Records(a) + Records(b)
  {
    if a == [] {
      assert a + b == b;
    } else {
      RecordsConcat(a[1..], b);
      Onward(a, b);
      Regroup(if a[0].Event? then [a[0].id] else [], Records(a[1..]), Records(b));
    }
  }

  lemma {:induction false} InRecords(es: seq<Event>, id: Id)
    ensures id in Records(es) <==> Event(id) in es
  {
    if es != [] {
      InRecords(es[1..], id);
      assert es == [es[0]] + es[1..];
    }
  }

  predicate NotBefore(id: Id, file: nat, pos: nat) {
    id.file > file || (id.file == file && id.index >= pos)
  }

  lemma {:induction false} FileEventsAreLater(file: nat, lines: seq<Line>, pos: nat)
    ensures forall e :: e in FileEvents(file, lines, pos) ==> NotBefore(e.id, file, pos)
    decreases |lines| - pos
  {
    if pos < |lines| {
      FileEventsAreLater(file, lines, pos + 1);
    }
  }

  lemma {:induction false} AllEventsAreOf(content: map<nat, seq<Line>>, times: set<nat>)
    requires times <= content.Keys
    ensures forall e :: e in AllEvents(content, times) ==> e.id.file in times
  {
    if times != {} {
      var m := Least(times);
      AllEventsAreOf(content, times - {m});
      FileEventsAreOf(m, content[m], 0);
    }
  }

  lemma {:induction false} FileEventsAreOf(file: nat, lines: seq<Line>, pos: nat)
    ensures forall e :: e in FileEvents(file, lines, pos) ==> e.id.file == file
    decreases |lines| - pos
  {
    if pos < |lines| {
      FileEventsAreOf(file, lines, pos + 1);
    }
  }

  /** Nothing that a reader has yet to report is before its place. */
  lemma UnreadIsLater(content: map<nat, seq<Line>>, present: set<nat>, file: nat, pos: nat)
    requires present <= content.Keys && file in content
    ensures forall id :: id in Records(Unread(content, present, file, pos)) ==> NotBefore(id, file, pos)
  {
    FileEventsAreLater(file, content[file], pos);
    AllEventsAreOf(content, After(present, file));
    forall id | id in Records(Unread(content, present, file, pos)) ensures NotBefore(id, file, pos) {
      InRecords(Unread(content, present, file, pos), id);
    }
  }

  class Processor {
    const host: Host
    const reader: EveReader
    var queue: seq<Id>
    const hasBookmark: bool
    const oneshot: bool
    // Where the process is between two atomic steps.
    var hand: set<Id>
    var skip: nat
    var looking: bool
    var deleting: bool
    /** The records given to the sink, in order. */
    ghost var submitted: seq<Id>
    /** Every state so far, from an initial one, and the steps between them; and those
        of them before this process. */
    ghost var states: seq<State>
    ghost var log: seq<Action>
    ghost const statesBefore: seq<State>
    ghost const logBefore: seq<Action>

    ghost function Queued(): set<Id>
      reads `queue
    {
      set id | id in queue
    }

    ghost function Me(): Proc
      reads this, reader
    {
      Proc(reader.filename, reader.reader, reader.pos, reader.lineno, reader.completed,
           hand, Queued(), skip, looking, deleting)
    }

    ghost function Snapshot(): State
      reads this, host, reader
    {
      State(host.content, host.present, host.committed, host.bookmark, Some(Me()))
    }

    /** The log is a run of the transition system that goes on from what was before. */
    ghost predicate Logged()
      reads this
    {
      IsRun(states, log, false) && Initial(states[0]) && statesBefore <= states && logBefore <= log
    }

    /** The processor got here by that run. */
    ghost predicate Traced()
      reads this, host, reader
    {
      Logged() && states[|log|] == Snapshot()
    }

    /** Ready for the next operation: traced, and between operations. */
    ghost predicate Idle()
      reads this, host, reader
    {
      Traced() && Inv(Snapshot()) && hand == {} && skip == 0 && !looking && !deleting
    }

    /** Append the step that the latest assignments amount to. */
    ghost method Note(a: Action)
      requires Logged() && Step(states[|log|], a, Snapshot(), false)
      modifies this`states, this`log
      ensures Traced() && Inv(Snapshot())
      ensures states == old(states) + [Snapshot()] && log == old(log) + [a]
    {
      hide Step, Inv;
      states := states + [Snapshot()];
      log := log + [a];
      AtLeastOnce(states, log, |log|);
    }

    constructor (host: Host, reader: EveReader, hasBookmark: bool, oneshot: bool,
                 ghost states: seq<State>, ghost log: seq<Action>)
      requires IsRun(states, log, false) && Initial(states[0])
      requires states[|log|] == State(host.content, host.present, host.committed, host.bookmark, None)
      requires IsOldestPresent(states[|log|], reader.filename)
      requires !reader.reader && reader.pos == reader.lineno == 0 && reader.completed == []
      ensures Idle() && Me() == FreshProc(reader.filename, 0)
      ensures this.host == host && this.reader == reader && queue == [] && submitted == []
      ensures statesBefore == states && logBefore == log
    {
      this.host, this.reader, this.hasBookmark, this.oneshot := host, reader, hasBookmark, oneshot;
      queue, hand, skip, looking, deleting, submitted := [], {}, 0, false, false, [];
      this.states, this.log := states, log;
      this.statesBefore, this.logBefore := states, log;
      new;
      hide Inv;
      assert Queued() == {};
      Note(Start);
    }

    /** How much Suricata and the directory can still put in front of the reader. */
    ghost function NewerFiles(): nat
      reads this, host, reader
    {
      host.energy + |After(host.present, reader.filename)|
    }

    ghost function Lines(): seq<Line>
      reads this, host, reader
    {
      if reader.filename in host.content then host.content[reader.filename] else []
    }

    ghost function UnreadLines(): int
      reads this, host, reader
    {
      host.energy + |Lines()| - reader.pos
    }

    /** What the reader has yet to report if Suricata stays quiet. */
    ghost function Ahead(): seq<Event>
      reads this, host, reader
    {
      if host.present <= host.content.Keys && reader.filename in host.content
      then Unread(host.content, host.present, reader.filename, reader.pos) else []
    }

    method AppendLine(f: nat, line: Line)
      requires Traced() && Inv(Snapshot()) && host.energy > 0
      requires f in host.content && (forall g :: g in host.content ==> g <= f) && !(looking && reader.filename == f)
      modifies host`energy, host`content, this`states, this`log
      ensures Traced() && Inv(Snapshot()) && host.energy < old(host.energy)
      ensures NewerFiles() <= old(NewerFiles()) && UnreadLines() <= old(UnreadLines())
      ensures old(Lines()) <= Lines() && (looking ==> Lines() == old(Lines()))
    {
      hide Step, Inv;
      host.energy := host.energy - 1;
      AppendStep(Snapshot(), f, line);
      host.content := host.content[f := host.content[f] + [line]];
      Note(Append(line));
    }

    method RotateTo(time: nat)
      requires Traced() && Inv(Snapshot()) && host.energy > 0
      requires forall g :: g in host.content ==> g < time
      modifies host`energy, host`content, host`present, this`states, this`log
      ensures Traced() && Inv(Snapshot()) && host.energy < old(host.energy)
      ensures NewerFiles() <= old(NewerFiles()) && UnreadLines() <= old(UnreadLines())
      ensures old(Lines()) <= Lines() && (looking ==> Lines() == old(Lines()))
      ensures old(host.present) <= host.present
    {
      InvFacts();
      hide Step, Inv;
      RotateStep(Snapshot(), time);
      ghost var before := After(host.present, reader.filename);
      host.energy := host.energy - 1;
      host.content := host.content[time := []];
      host.present := host.present + {time};
      AfterGrows(before, After(host.present, reader.filename), time);
      Note(Rotate(time));
    }

    /** Suricata may complete lines and rotate, but not append between the reader's end
        of file and its look for a newer file. */
    method Suricata()
      requires Traced() && Inv(Snapshot())
      modifies host`energy, host`content, host`present, this`states, this`log
      ensures Traced() && Inv(Snapshot())
      ensures host.quiet ==>
        Ahead() == old(Ahead()) && host.content == old(host.content) && host.present == old(host.present)
      ensures NewerFiles() <= old(NewerFiles()) && UnreadLines() <= old(UnreadLines())
      ensures old(Lines()) <= Lines() && (looking ==> Lines() == old(Lines()))
      ensures old(host.present) <= host.present
    {
      hide Step, Inv, Traced, NewerFiles, UnreadLines;
      while host.energy > 0 && !host.quiet
        invariant Traced() && Inv(Snapshot())
        invariant host.quiet ==> host.content == old(host.content) && host.present == old(host.present)
        invariant NewerFiles() <= old(NewerFiles()) && UnreadLines() <= old(UnreadLines())
        invariant old(Lines()) <= Lines() && (looking ==> Lines() == old(Lines()))
        invariant old(host.present) <= host.present
        decreases host.energy
      {
        var f: nat, line: Line := *, *;
        if f in host.content && (forall g :: g in host.content ==> g <= f) && !(looking && reader.filename == f) {
          AppendLine(f, line);
        } else if forall g :: g in host.content ==> g < f {
          RotateTo(f);
        } else {
          break;
        }
      }
    }

    lemma AfterGrows(before: set<nat>, after: set<nat>, time: nat)
      requires after <= before + {time}
      ensures |after| <= |before| + 1
    {
      SubsetSize(after, before + {time});
    }

    lemma RotateStep(s: State, time: nat)
      requires forall g :: g in s.content ==> g < time
      ensures Step(s, Rotate(time), s.(content := s.content[time := []], present := s.present + {time}), false)
    {
    }

    method OpenFile() returns (ok: bool)
      requires Idle()
      modifies reader`reader, this`states, this`log
      ensures Idle() && (host.quiet ==> ok) && (ok ==> reader.reader)
      ensures Ahead() == old(Ahead()) && NewerFiles() == old(NewerFiles())
    {
      InvFacts();
      hide Inv;
      ok := host.quiet;
      if !ok {
        ok := *;
      }
      if ok {
        reader.reader := true;
        Note(Open);
      }
    }

    /** Read one line of the open file, or find its end. */
    method ReadOne() returns (r: LineResult)
      requires Idle() && reader.reader
      modifies reader`pos, reader`lineno, this`hand, this`looking, this`states, this`log
      ensures Traced() && Inv(Snapshot()) && skip == 0 && !deleting
      ensures r.NoLine? ==> looking && hand == {} && reader.pos == old(reader.pos) == |Lines()|
      ensures !r.NoLine? ==> !looking && old(reader.pos) < |Lines()| && reader.pos == old(reader.pos) + 1
      ensures !r.NoLine? ==> Lines()[old(reader.pos)] == if r.LineError? then NotUtf8 else r.line
      ensures hand == if r == Got(Record) then {Id(reader.filename, old(reader.pos))} else {}
      ensures !r.NoLine? ==> UnreadLines() < old(UnreadLines()) && 0 <= old(UnreadLines())
      ensures NewerFiles() == old(NewerFiles()) && r != Got(NotUtf8)
      ensures r.NoLine? || r == Got(Blank) ==> Ahead() == old(Ahead())
      ensures !r.NoLine? ==>
        old(Ahead()) == LineEvents(reader.filename, old(reader.pos), if r.LineError? then NotUtf8 else r.line) + Ahead()
    {
      InvFacts();
      AheadIs();
      if reader.pos < |Lines()| {
        AheadOfLine(host.content, host.present, reader.filename, reader.pos);
        NoEventFirst(Unread(host.content, host.present, reader.filename, reader.pos + 1));
      }
      hide Inv, Unread, IsRun, NewerFiles, Ahead, After, Idle, Traced;
      r := ReadLogged();
      AheadIs();
    }

    lemma NoEventFirst(rest: seq<Event>)
      ensures [] + rest == rest
    {
    }

    /** The same, as steps of the system. */
    method ReadLogged() returns (r: LineResult)
      requires Idle() && reader.reader
      modifies reader`pos, reader`lineno, this`hand, this`looking, this`states, this`log
      ensures Traced() && Inv(Snapshot()) && skip == 0 && !deleting
      ensures r.NoLine? ==> looking && hand == {} && reader.pos == old(reader.pos) == |Lines()|
      ensures !r.NoLine? ==> !looking && old(reader.pos) < |Lines()| && reader.pos == old(reader.pos) + 1
      ensures !r.NoLine? ==> Lines()[old(reader.pos)] == if r.LineError? then NotUtf8 else r.line
      ensures hand == if r == Got(Record) then {Id(reader.filename, old(reader.pos))} else {}
      ensures r != Got(NotUtf8)
    {
      InvFacts();
      hide Inv, Step, IsRun;
      ghost var s, p := Snapshot(), Me();
      r := reader.NextLine(host.content[reader.filename]);
      if r.NoLine? {
        looking := true;
        SeeEofStep(s, p, Snapshot());
        Note(SeeEof);
      } else {
        if r == Got(Record) {
          hand := {Id(reader.filename, reader.pos - 1)};
        }
        ReadLineStep(s, p, Snapshot());
        Note(ReadLine);
      }
    }

    lemma AheadIs()
      requires Inv(Snapshot())
      ensures reader.filename in host.content && host.present <= host.content.Keys
      ensures Ahead() == Unread(host.content, host.present, reader.filename, reader.pos)
    {
    }

    /** What reading a line does to the events ahead. */
    lemma AheadOfLine(content: map<nat, seq<Line>>, present: set<nat>, file: nat, pos: nat)
      requires present <= content.Keys && file in content && pos < |content[file]|
      ensures Unread(content, present, file, pos)
           == LineEvents(file, pos, content[file][pos]) + Unread(content, present, file, pos + 1)
    {
    }

    /** `next_record_inner`: the next record of the current file. */
    method NextRecordInner() returns (r: ReadResult)
      requires Idle()
      modifies host`energy, host`content, host`present
      modifies reader`reader, reader`pos, reader`lineno, this`hand, this`looking, this`states, this`log
      ensures Traced() && Inv(Snapshot()) && skip == 0 && !deleting
      ensures looking == r.Eof? && hand == if r.Rec? then {r.id} else {}
      ensures reader.completed == old(reader.completed)
      ensures r.Eof? ==> NewerFiles() <= old(NewerFiles())
      ensures host.quiet ==> host.content == old(host.content) && host.present == old(host.present)
      ensures host.quiet ==> old(Ahead()) == Told(r) + Ahead()
      ensures r.Eof? ==> reader.reader
      ensures host.quiet && r.ReadError? ==> r.line.Some?
    {
      hide Inv, Step, NewerFiles, UnreadLines, Ahead, Traced;
      if !reader.reader {
        var ok := OpenFile();
        if !ok {
          return ReadError(None);
        }
      }
      while true
        invariant Idle() && reader.reader
        invariant reader.completed == old(reader.completed) && reader.filename == old(reader.filename)
        invariant NewerFiles() <= old(NewerFiles())
        invariant host.quiet ==> host.content == old(host.content) && host.present == old(host.present)
        invariant host.quiet ==> Ahead() == old(Ahead())
        decreases UnreadLines()
      {
        Suricata();
        var line := ReadOne();
        if line.NoLine? {
          return Eof;
        }
        var here := Id(reader.filename, reader.pos - 1);
        match line {
          case LineError =>
            return ReadError(Some(here));
          case Got(l) =>
            if l == Record {
              return Rec(here);
            } else if l == Malformed {
              return ReadError(Some(here));
            }
        }
      }
    }

    /** A listing of the directory, in any order and among other files. */
    method Listing() returns (dir: seq<Option<SpoolName>>)
      ensures forall time: nat :: Some(SpoolName(reader.key, time)) in dir <==> time in host.present
    {
      dir := [];
      var rest := host.present;
      while rest != {}
        invariant rest <= host.present
        invariant forall time: nat :: Some(SpoolName(reader.key, time)) in dir <==> time in host.present - rest
        decreases rest
      {
        if * {
          var other: Option<SpoolName> :| other.Some? ==> other.value.key != reader.key;
          dir := dir + [other];
        }
        var time: nat :| time in rest;
        dir, rest := dir + [Some(SpoolName(reader.key, time))], rest - {time};
      }
    }

    /** `SpoolFile::next` */
    method Next() returns (next: Option<nat>)
      ensures next.Some? ==> IsNext(Snapshot(), reader.filename, next.value)
      ensures next.None? ==> After(host.present, reader.filename) == {}
    {
      var dir := Listing();
      var self := SpoolName(reader.key, reader.filename);
      var found := NewerFile(dir, self, false);
      assert forall time: nat :: Newer(dir, self, time) <==> time in host.present && time > reader.filename;
      next := if found.None? then None else Some(found.value.time);
    }

    /** Look for a newer file and, if there is one, switch to it. */
    method Look() returns (moved: Option<bool>)
      requires Traced() && Inv(Snapshot()) && looking && skip == 0 && hand == {} && !deleting
      modifies reader, this`looking, this`states, this`log
      ensures Idle() && (host.quiet ==> moved.Some?)
      ensures moved == Some(true) ==> NewerFiles() < old(NewerFiles())
      ensures moved == Some(true) ==> IsNext(old(Snapshot()), old(reader.filename), reader.filename)
      ensures moved != Some(true) ==> reader.filename == old(reader.filename)
      ensures moved == Some(false) ==> reader.reader == old(reader.reader)
      ensures host.quiet ==> Ahead() == old(Ahead())
      ensures host.quiet && moved == Some(false) ==> Ahead() == [] && After(host.present, reader.filename) == {}
      ensures host.quiet && moved == Some(false) ==> reader.pos == |Lines()|
    {
      InvFacts();
      hide Inv, Unread;
      var readable := host.quiet;
      if !readable {
        readable := *;
      }
      if !readable {
        looking := false;
        Note(LookFail);
        return None;
      }
      var next := Next();
      looking := false;
      if next.None? {
        AheadOfNothing(host.content, host.present, reader.filename);
        assert forall n: nat :: IsNext(states[|log|], reader.filename, n) ==> n in After(host.present, reader.filename);
        Note(LookNext(reader.deleteProcessed));
        return Some(false);
      }
      SwitchToNext(next.value);
      return Some(true);
    }

    method SwitchToNext(next: nat)
      requires Logged() && Inv(states[|log|])
      requires Reading(Me()) && states[|log|] == Snapshot().(proc := Some(Me().(looking := true)))
      requires IsNext(Snapshot(), reader.filename, next)
      modifies reader, this`states, this`log
      ensures Idle() && NewerFiles() < old(NewerFiles()) && Ahead() == old(Ahead()) && reader.filename == next
    {
      InvFactsOf(states[|log|]);
      hide Inv, Unread;
      AfterShrinks(host.present, reader.filename, next);
      UnreadAtSwitch(host.content, host.present, reader.filename, next);
      ghost var s := states[|log|];
      assert IsNext(s, s.proc.value.file, next);
      reader.SwitchSpoolFile(next);
      assert Snapshot() == s.(proc := Some(SwitchTo(s.proc.value, next, reader.deleteProcessed)));
      Note(LookNext(reader.deleteProcessed));
    }

    lemma AfterShrinks(present: set<nat>, file: nat, next: nat)
      requires next in present && next > file
      ensures |After(present, next)| < |After(present, file)|
    {
      SubsetSize(After(present, next), After(present, file) - {next});
    }

    lemma AheadOfNothing(content: map<nat, seq<Line>>, present: set<nat>, file: nat)
      requires present <= content.Keys && file in content && After(present, file) == {}
      ensures Unread(content, present, file, |content[file]|) == []
    {
    }

    /** `next_record`: the next record of the stream, moving on to newer files at the
        end of each. On a quiet directory it reports exactly the next event ahead. */
    method NextRecord() returns (r: ReadResult)
      requires Idle()
      modifies host`energy, host`content, host`present
      modifies reader, this`hand, this`looking, this`states, this`log
      ensures Traced() && Inv(Snapshot()) && skip == 0 && !deleting && !looking
      ensures hand == if r.Rec? then {r.id} else {}
      ensures host.quiet ==> host.content == old(host.content) && host.present == old(host.present)
      ensures host.quiet ==> old(Ahead()) == Told(r) + Ahead()
      ensures host.quiet && r.Eof? ==>
        Ahead() == [] && After(host.present, reader.filename) == {} && reader.pos == |Lines()|
      ensures host.quiet && r.ReadError? ==> r.line.Some?
    {
      hide Inv, Step, NewerFiles, Ahead, Traced, Lines;
      while true
        invariant Idle()
        invariant host.quiet ==> host.content == old(host.content) && host.present == old(host.present)
        invariant host.quiet ==> Ahead() == old(Ahead())
        decreases NewerFiles()
      {
        r := NextRecordInner();
        if !r.Eof? {
          return;
        }
        Suricata();
        var moved := Look();
        if moved.None? {
          return ReadError(None);
        }
        if !moved.value {
          return Eof;
        }
      }
    }

    // ----- bookmark, commit, checkpoint

    /** A file operation may fail, but not on a quiet host. */
    method Succeeds() returns (ok: bool)
      ensures host.quiet ==> ok
    {
      ok := host.quiet;
      if !ok {
        ok := *;
      }
    }

    method TruncateBookmark() returns (ok: bool)
      requires Idle() && queue == [] && reader.reader
      modifies host`bookmark, this`states, this`log
      ensures Idle() && host.bookmark == if ok then Torn else old(host.bookmark)
      ensures host.quiet ==> ok
    {
      hide Inv;
      assert Queued() == {};
      ok := Succeeds();
      if ok {
        host.bookmark := Torn;
        Note(Truncate);
      }
    }

    /** `write_bookmark`: the file is truncated first, and the write may fail. */
    method WriteBookmark() returns (ok: bool)
      requires Idle() && queue == []
      modifies host`bookmark, this`deleting, this`states, this`log
      ensures Traced() && Inv(Snapshot()) && hand == {} && skip == 0 && !looking
      ensures deleting == ok && Ahead() == old(Ahead())
      ensures ok ==> host.bookmark == At(reader.filename, reader.lineno)
      ensures !ok ==> host.bookmark == old(host.bookmark) || host.bookmark.Torn?
      ensures !hasBookmark || !reader.reader ==> !ok && host.bookmark == old(host.bookmark)
      ensures host.quiet ==> ok == (hasBookmark && reader.reader)
    {
      hide Inv, Unread, IsRun, After;
      assert Queued() == {};
      if !hasBookmark || !reader.reader {
        return false;
      }
      ok := TruncateBookmark();
      if !ok {
        return;
      }
      ok := Succeeds();
      if !ok {
        return;
      }
      host.bookmark := At(reader.filename, reader.lineno);
      deleting := true;
      Note(Action.WriteBookmark);
    }

    /** `delete_completed_spool_files`: a failed deletion is not retried. */
    method DeleteCompleted()
      requires Traced() && Inv(Snapshot()) && deleting && hand == {} && skip == 0 && !looking
      modifies host`present, reader`completed, this`deleting, this`states, this`log
      ensures Idle() && reader.completed == [] && host.present <= old(host.present)
      ensures forall f :: f in old(host.present) && f !in host.present ==> f in old(reader.completed)
      ensures host.quiet ==> forall f :: f in old(reader.completed) ==> f !in host.present
    {
      hide Inv;
      while reader.completed != []
        invariant Traced() && Inv(Snapshot()) && deleting && host.present <= old(host.present)
        invariant forall f :: f in reader.completed ==> f in old(reader.completed)
        invariant forall f :: f in old(host.present) && f !in host.present ==> f in old(reader.completed)
        invariant host.quiet ==> forall f :: f in old(reader.completed) ==> f in reader.completed || f !in host.present
        decreases |reader.completed|
      {
        var ok := Succeeds();
        if ok {
          host.present := host.present - {reader.completed[0]};
        }
        reader.completed := reader.completed[1..];
        Note(Delete(ok));
      }
      deleting := false;
      Note(DeleteEnd);
    }

    /** Files are deleted only once the bookmark that passes them is on disk. */
    method Checkpoint()
      requires Idle() && queue == []
      modifies host`bookmark, host`present, reader`completed, this`deleting, this`states, this`log
      ensures Idle()
      ensures host.present != old(host.present) ==> host.bookmark == At(reader.filename, reader.lineno)
      ensures forall f :: f in old(host.present) && f !in host.present ==> f in old(reader.completed)
      ensures Ahead() == old(Ahead()) && host.present <= old(host.present)
      ensures host.quiet && hasBookmark && reader.reader ==>
        host.bookmark == At(reader.filename, reader.lineno) && reader.completed == []
      ensures host.quiet && hasBookmark && reader.reader ==>
        forall f :: f in old(reader.completed) ==> f !in host.present
      ensures !hasBookmark || !reader.reader ==>
        host.bookmark == old(host.bookmark) && host.present == old(host.present)
    {
      InvFactsOf(Snapshot());
      hide Inv, Traced, Unread;
      var ok := WriteBookmark();
      if ok {
        DeleteCompleted();
      }
      InvFactsOf(Snapshot());
      assert After(host.present, reader.filename) == After(old(host.present), reader.filename);
      SameUnread(host.content, old(host.present), host.present, reader.filename, reader.pos);
    }

    lemma SameUnread(content: map<nat, seq<Line>>, a: set<nat>, b: set<nat>, file: nat, pos: nat)
      requires a <= content.Keys && b <= content.Keys && file in content
      requires After(a, file) == After(b, file)
      ensures Unread(content, a, file, pos) == Unread(content, b, file, pos)
    {
    }

    /** The sink accepts everything queued. */
    method SinkCommits()
      requires Idle()
      modifies host`committed, this`queue, this`states, this`log
      ensures Idle() && queue == [] && Ahead() == old(Ahead())
      ensures host.committed == old(host.committed) + old(Queued())
    {
      hide Inv;
      host.committed := host.committed + (set id | id in queue);
      queue := [];
      assert Queued() == {};
      Note(Action.Commit);
    }

    /** `commit`: retried until the sink accepts the queue, then checkpointed. */
    method Commit()
      requires Idle()
      modifies host, reader`completed, this`queue, this`deleting, this`states, this`log
      ensures Idle() && queue == []
      ensures host.committed == old(host.committed) + old(Queued())
      ensures host.quiet ==>
        host.content == old(host.content) && Ahead() == old(Ahead()) && host.present <= old(host.present)
      ensures host.quiet && hasBookmark && reader.reader ==>
        host.bookmark == At(reader.filename, reader.lineno) && reader.completed == []
      ensures host.quiet && hasBookmark && reader.reader ==>
        forall f :: f in old(reader.completed) ==> f !in host.present
    {
      hide Inv, Traced;
      var failures: nat := *;
      while failures > 0
        invariant Idle()
        invariant queue == old(queue) && host.committed == old(host.committed)
        invariant reader.completed == old(reader.completed)
        invariant host.quiet ==>
          host.content == old(host.content) && Ahead() == old(Ahead()) && host.present == old(host.present)
      {
        Suricata();
        failures := failures - 1;
      }
      SinkCommits();
      Checkpoint();
    }

    // ----- start-up

    /** Where skipping `n` lines from the start ends: after the first line that is not
        UTF-8, which is an error, or at line `n` or the end. */
    ghost predicate SkippedTo(n: nat, ok: bool)
      reads this, host, reader
    {
      && ok == Legible(Lines(), n)
      && (ok ==> reader.reader && reader.pos == reader.lineno == if n <= |Lines()| then n else |Lines()|)
      && (!ok ==> 0 < reader.pos <= |Lines()| && Lines()[reader.pos - 1] == NotUtf8
                  && Legible(Lines(), reader.pos - 1) && reader.lineno == reader.pos - 1)
    }

    /** `goto_lineno`: open the file and skip the bookmarked lines, as far as there are
        any; false is an error on the way. */
    method GotoLineno() returns (ok: bool)
      requires Traced() && Inv(Snapshot()) && hand == {} && !looking && !deleting
      modifies host`energy, host`content, host`present
      modifies reader`reader, reader`pos, reader`lineno, this`skip, this`states, this`log
      ensures Idle()
      ensures ok ==> reader.reader
      ensures ok ==> reader.lineno == old(reader.lineno) + old(skip) || reader.pos == |Lines()|
      ensures reader.lineno <= old(reader.lineno) + old(skip)
      ensures host.quiet ==> host.content == old(host.content) && host.present == old(host.present)
      ensures host.quiet && old(reader.pos) == old(reader.lineno) == 0 ==> SkippedTo(old(skip), ok)
    {
      hide Inv, Legible, Ahead, NewerFiles, UnreadLines, Unread, IsRun, Step, Traced, Lines;
      ok := Succeeds();
      if !ok {
        GiveUp();
        return;
      }
      OpenToSkip();
      ok := SkipLines();
    }

    method OpenToSkip()
      requires Traced() && Inv(Snapshot()) && hand == {} && !looking && !deleting
      modifies reader`reader, this`states, this`log
      ensures Traced() && Inv(Snapshot()) && reader.reader
    {
      InvFacts();
      hide Inv;
      reader.reader := true;
      Note(Open);
    }

    /** Between two skipped lines. */
    ghost predicate Skipping()
      reads this, host, reader
    {
      Traced() && Inv(Snapshot()) && hand == {} && !looking && !deleting
    }

    lemma SkippingFacts()
      requires Skipping()
      ensures skip == 0 ==> Idle()
      ensures reader.pos <= |Lines()|
    {
    }

    method SkipLines() returns (ok: bool)
      requires Skipping() && reader.reader
      modifies host`energy, host`content, host`present
      modifies reader`pos, reader`lineno, this`skip, this`states, this`log
      ensures Idle()
      ensures ok ==> reader.lineno == old(reader.lineno) + old(skip) || reader.pos == |Lines()|
      ensures reader.lineno <= old(reader.lineno) + old(skip)
      ensures host.quiet ==> host.content == old(host.content) && host.present == old(host.present)
      ensures host.quiet && old(reader.pos) == old(reader.lineno) == 0 ==> SkippedTo(old(skip), ok)
    {
      hide Inv, Legible, Lines, Skipping, Idle;
      SkippingFacts();
      LegibleOn(Lines(), reader.pos);
      while skip > 0
        invariant Skipping() && reader.reader
        invariant reader.lineno + skip <= old(reader.lineno) + old(skip)
        invariant reader.lineno + skip == old(reader.lineno) + old(skip) || (skip == 0 && reader.pos == |Lines()|)
        invariant host.quiet ==> host.content == old(host.content) && host.present == old(host.present)
        invariant reader.pos <= |Lines()|
        invariant old(reader.pos) == old(reader.lineno) == 0 ==> reader.pos == reader.lineno
        invariant host.quiet && old(reader.pos) == 0 ==> Legible(Lines(), reader.pos)
        decreases skip
      {
        ghost var at := reader.pos;
        ok := SkipNext();
        LegibleOn(Lines(), at);
        if !ok {
          SkippingFacts();
          if old(reader.pos) == 0 && old(reader.lineno) == 0 {
            NotLegible(Lines(), at, old(skip));
          }
          return;
        }
      }
      SkippingFacts();
      LegibleOn(Lines(), old(skip));
      ok := true;
    }

    method SkipNext() returns (ok: bool)
      requires Skipping() && reader.reader && skip > 0
      modifies host`energy, host`content, host`present
      modifies reader`pos, reader`lineno, this`skip, this`states, this`log
      ensures Skipping() && reader.pos <= |Lines()|
      ensures if reader.pos == old(reader.pos) then
                ok && skip == 0 && reader.pos == |Lines()| && reader.lineno == old(reader.lineno)
              else
                && reader.pos == old(reader.pos) + 1
                && ok == (Lines()[reader.pos - 1] != NotUtf8)
                && skip == (if ok then old(skip) - 1 else 0)
                && reader.lineno == old(reader.lineno) + if ok then 1 else 0
      ensures host.quiet ==> Lines() == old(Lines())
      ensures host.quiet ==> host.content == old(host.content) && host.present == old(host.present)
    {
      hide Inv;
      Suricata();
      ok := SkipOne();
    }

    /** The file cannot be opened: nothing is skipped. */
    method GiveUp()
      requires Traced() && Inv(Snapshot()) && hand == {} && !looking && !deleting
      modifies this`skip, this`states, this`log
      ensures Idle()
    {
      hide Inv;
      if skip > 0 {
        skip := 0;
        Note(SkipEnd);
      }
    }

    method SkipOne() returns (ok: bool)
      requires Traced() && Inv(Snapshot()) && hand == {} && !looking && !deleting && reader.reader && skip > 0
      modifies reader`pos, reader`lineno, this`skip, this`states, this`log
      ensures Traced() && Inv(Snapshot()) && reader.pos <= |Lines()|
      ensures if old(reader.pos) == |Lines()| then
                ok && skip == 0 && reader.pos == old(reader.pos) && reader.lineno == old(reader.lineno)
              else
                && reader.pos == old(reader.pos) + 1
                && ok == (Lines()[reader.pos - 1] != NotUtf8)
                && skip == (if ok then old(skip) - 1 else 0)
                && reader.lineno == old(reader.lineno) + if ok then 1 else 0
    {
      InvFacts();
      hide Inv;
      var line := reader.NextLine(host.content[reader.filename]);
      ok := !line.LineError?;
      if line.Got? {
        skip := skip - 1;
        Note(SkipLine);
      } else {
        skip := 0;
        Note(SkipEnd);
      }
    }

    /** The bookmark names a file that is there. */
    ghost predicate Bookmarked()
      reads this, host
    {
      hasBookmark && host.bookmark.At? && host.bookmark.file in host.present
    }

    /** `init_from_bookmark`: with a missing, torn or stale bookmark the reader is left at
        the oldest file; a valid one moves it past the bookmarked lines of the bookmarked
        file, or to its end if that has fewer. On a quiet host that is all that decides it,
        but for a line on the way that is not UTF-8. */
    method InitFromBookmark() returns (ok: bool)
      requires Idle() && Me() == FreshProc(reader.filename, 0)
      modifies host`energy, host`content, host`present
      modifies reader, this`skip, this`states, this`log
      ensures Idle()
      ensures !old(Bookmarked()) ==> !ok && Me() == old(Me())
      ensures ok ==> reader.filename == host.bookmark.file && reader.reader
      ensures ok ==> reader.lineno == host.bookmark.line || reader.pos == |Lines()|
      ensures !ok ==>
        Me() == old(Me()) || (reader.filename == host.bookmark.file && reader.lineno <= host.bookmark.line)
      ensures host.quiet ==> host.content == old(host.content) && host.present == old(host.present)
      ensures host.quiet && old(Bookmarked()) ==>
        reader.filename == host.bookmark.file && SkippedTo(host.bookmark.line, ok)
    {
      hide Inv;
      if !hasBookmark || !host.bookmark.At? || host.bookmark.file !in host.present {
        return false;
      }
      ok := Succeeds();
      if !ok {
        return;
      }
      reader.filename, skip := host.bookmark.file, host.bookmark.line;
      Note(Select);
      ok := GotoLineno();
    }

    // ----- the main loop

    /** The record in hand is submitted to the sink. */
    method Submit(id: Id)
      requires Traced() && Inv(Snapshot()) && skip == 0 && !looking && !deleting && hand == {id}
      modifies this`hand, this`queue, this`submitted, this`states, this`log
      ensures Idle() && queue == old(queue) + [id] && Ahead() == old(Ahead())
      ensures submitted == old(submitted) + [id]
    {
      hide Inv;
      assert forall x :: x in queue + [id] <==> x in queue || x == id;
      queue, submitted := queue + [id], submitted + [id];
      hand := {};
      assert Queued() == old(Queued()) + {id};
      Note(Action.Submit);
    }

    /** The start of `run`: what a quiet host then has ahead of the reader is everything
        from the bookmark on, or everything without one. */
    method StartUp() returns (ghost ahead: seq<Event>)
      requires Idle() && Me() == FreshProc(reader.filename, 0)
      modifies host`energy, host`content, host`present
      modifies reader, this`skip, this`states, this`log
      ensures Idle() && ahead == Ahead()
      ensures old(host.present) <= old(host.content).Keys
      ensures host.quiet ==> host.content == old(host.content) && host.present == old(host.present)
      ensures host.quiet && !old(Bookmarked()) && IsLeastOf(old(host.present), old(reader.filename)) ==>
        ahead == AllEvents(old(host.content), old(host.present))
      ensures host.quiet && old(Bookmarked()) ==> ResumesAt(ahead, old(host.content), old(host.present), host.bookmark)
    {
      InvFacts();
      if host.bookmark.At? {
        BookmarkFits(Snapshot());
      }
      hide Inv, Unread, AllEvents, Legible;
      if IsLeastOf(host.present, reader.filename) {
        UnreadFromOldest(host.content, host.present, reader.filename);
      }
      var initialized := InitFromBookmark();
      InvFacts();
      ahead := Ahead();
    }

    /** From line `n` of file `f`, where the bookmark is `At(f, n)`, unless one of the lines
        to be skipped is not UTF-8. */
    static ghost predicate ResumesAt(ahead: seq<Event>, content: map<nat, seq<Line>>, present: set<nat>, b: Bookmark)
      requires present <= content.Keys
    {
      && b.At? && b.file in content && b.line <= |content[b.file]|
      && (Legible(content[b.file], b.line) ==> ahead == Unread(content, present, b.file, b.line))
    }

    lemma BookmarkFits(s: State)
      requires Inv(s) && s.bookmark.At?
      ensures s.bookmark.file in s.content && s.bookmark.line <= |s.content[s.bookmark.file]|
    {
    }

    /** A reader that resumes at a bookmark reports no record before it. */
    lemma NothingBeforeTheBookmark(ahead: seq<Event>, seen: seq<Event>, content: map<nat, seq<Line>>,
                                   present: set<nat>, b: Bookmark)
      requires present <= content.Keys && ResumesAt(ahead, content, present, b) && Legible(content[b.file], b.line)
      requires seen <= ahead
      ensures forall id :: id in Records(seen) ==> NotBefore(id, b.file, b.line)
    {
      hide Unread, Records, Legible;
      UnreadIsLater(content, present, b.file, b.line);
      forall id | id in Records(seen) ensures NotBefore(id, b.file, b.line) {
        InRecords(seen, id);
        InRecords(ahead, id);
      }
    }

    /** What was given to the sink since `before`. */
    ghost function Since(before: seq<Id>): set<Id>
      reads `submitted
    {
      if |before| <= |submitted| then set id | id in submitted[|before|..] else {}
    }

    /** `run`, killed after `turns` turns of its loop unless it ends by itself. Whenever
        that is, what happened is a run of the transition system, so `AtLeastOnce`
        applies, and what was given to the sink is what was committed and the less than 100
        records still queued. On a quiet host, of the events that were ahead after the
        start, `seen` have been dealt with, and exactly their records were given to the
        sink, in order, none from before the bookmark; with turns enough all of them have
        been dealt with and committed, and a oneshot run has ended by itself; and then every
        record of the stream is committed. */
    method Run(turns: nat) returns (finished: bool, ghost ahead: seq<Event>, ghost seen: seq<Event>)
      requires Idle() && Me() == FreshProc(reader.filename, 0)
      modifies host, reader, this
      ensures Idle() && Safe(Snapshot())
      ensures old(submitted) <= submitted && |queue| < 100
      ensures host.committed + Queued() == old(host.committed) + Since(old(submitted))
      ensures finished ==> oneshot && queue == []
      ensures old(host.present) <= old(host.content).Keys
      ensures host.quiet && !old(Bookmarked()) && IsLeastOf(old(host.present), old(reader.filename)) ==>
        ahead == AllEvents(old(host.content), old(host.present))
      ensures host.quiet && old(Bookmarked()) ==>
        ResumesAt(ahead, old(host.content), old(host.present), old(host.bookmark))
      ensures host.quiet ==> ahead == seen + Ahead() && submitted == old(submitted) + Records(seen)
      ensures host.quiet && old(Bookmarked()) && Legible(old(host.content)[old(host.bookmark).file],
        old(host.bookmark).line) ==>
        forall id :: id in Since(old(submitted)) ==> NotBefore(id, old(host.bookmark).file, old(host.bookmark).line)
      ensures host.quiet && turns > |ahead| ==> seen == ahead && queue == [] && finished == oneshot
      ensures host.quiet && finished ==> seen == ahead && forall id :: IsRecord(Snapshot(), id) ==> id in host.committed
    {
      hide Inv, Traced, Ahead, Safe, Records, Me, FreshProc, Since;
      NothingQueued();
      NothingSince();
      ahead := StartUp();
      seen := [];
      finished := false;
      var left := turns;
      RecordsOfNothing();
      NothingMore(submitted);
      while left > 0
        invariant Idle() && old(submitted) <= submitted && |queue| < 100
        invariant host.committed + Queued() == old(host.committed) + Since(old(submitted))
        invariant host.quiet ==> ahead == seen + Ahead() && submitted == old(submitted) + Records(seen)
        invariant !finished
        invariant host.quiet ==> left + |seen| == turns || (!oneshot && Ahead() == [] && queue == [])
      {
        left := left - 1;
        ghost var told;
        finished, told := Turn(old(host.committed), old(submitted));
        RecordsConcat(seen, told);
        Regroup(old(submitted), Records(seen), Records(told));
        Regroup(seen, told, Ahead());
        seen := seen + told;
        if finished {
          break;
        }
      }
      InvIsSafe(Snapshot());
      if host.quiet {
        SinceIs(old(submitted), Records(seen));
        if old(Bookmarked()) && Legible(old(host.content)[old(host.bookmark).file], old(host.bookmark).line) {
          NothingBeforeTheBookmark(ahead, seen, old(host.content), old(host.present), old(host.bookmark));
        }
      }
    }

    lemma SinceIs(before: seq<Id>, more: seq<Id>)
      requires submitted == before + more
      ensures forall id :: id in Since(before) <==> id in more
    {
    }

    lemma NothingQueued()
      requires Me() == FreshProc(reader.filename, 0)
      ensures queue == [] && Queued() == {}
    {
      SomeMember(queue);
      assert forall id :: id in queue ==> id in Queued();
    }

    lemma SomeMember(ids: seq<Id>)
      ensures ids != [] ==> exists id :: id in ids
    {
      if ids != [] {
        assert ids[0] in ids;
      }
    }

    lemma NothingSince()
      ensures Since(submitted) == {}
    {
    }

    lemma RecordsOfNothing()
      ensures Records([]) == []
    {
    }

    /** End of file: commit what is queued; otherwise checkpoint finished files, and
        start a file that looks rotated again, which none does on a quiet host. If there was
        anything to commit or any finished file, the bookmark is the reader's place then. */
    method AtEof()
      requires Idle()
      modifies host, reader`completed, reader`reader, reader`pos, reader`lineno,
               this`queue, this`deleting, this`states, this`log
      ensures Idle() && queue == []
      ensures oneshot ==> reader.pos == old(reader.pos)
      ensures host.committed == old(host.committed) + old(Queued())
      ensures host.quiet ==> host.content == old(host.content) && Ahead() == old(Ahead())
      ensures host.quiet && After(old(host.present), reader.filename) == {} ==>
        After(host.present, reader.filename) == {}
      ensures host.quiet && hasBookmark && reader.reader && (old(queue) != [] || old(reader.completed) != []) ==>
        host.bookmark == At(reader.filename, reader.lineno) && reader.completed == []
    {
      hide Inv, Traced, Ahead;
      if queue != [] {
        Commit();
      } else {
        assert Queued() == {};
        if reader.completed != [] {
          Checkpoint();
        }
        var changed := false;
        if !host.quiet {
          changed := *;
        }
        if !oneshot && changed {
          Reopen();
        }
      }
    }

    /** One turn of the loop. Of what was ahead on a quiet host it deals with one event, or
        finds that there is none. `committed` is what was committed at the start. */
    method Turn(ghost committed: set<Id>, ghost before: seq<Id>) returns (finished: bool, ghost told: seq<Event>)
      requires Idle() && before <= submitted && |queue| < 100
      requires host.committed + Queued() == committed + Since(before)
      modifies host, reader, this
      ensures Idle() && before <= submitted && |queue| < 100
      ensures host.committed + Queued() == committed + Since(before)
      ensures finished ==> oneshot && queue == []
      ensures host.quiet ==> old(Ahead()) == told + Ahead() && submitted == old(submitted) + Records(told)
      ensures host.quiet ==> |told| <= 1 && (finished <==> oneshot && told == [])
      ensures host.quiet && told == [] ==> Ahead() == [] && queue == []
      ensures host.quiet && finished ==> Ahead() == [] && forall id :: IsRecord(Snapshot(), id) ==> id in host.committed
    {
      hide Inv, Traced, Ahead, Since;
      finished := false;
      var r := NextRecord();
      told := Told(r);
      RecordsOfOne(r);
      match r {
        case Rec(id) =>
          Take(id, committed, before);
        case ReadError(_) =>
          Suricata();
        case Eof =>
          AtEof();
          if oneshot {
            if host.quiet {
              InvFacts();
              AllCommitted(Snapshot());
            }
            finished := true;
            return;
          }
          Suricata();
      }
    }

    lemma RecordsOfOne(r: ReadResult)
      ensures Records(Told(r)) == if r.Rec? then [r.id] else []
    {
    }

    /** Submit the record in hand, and commit if the sink asks for it or the batch is full. */
    method Take(id: Id, ghost committed: set<Id>, ghost before: seq<Id>)
      requires Traced() && Inv(Snapshot()) && skip == 0 && !looking && !deleting && hand == {id}
      requires before <= submitted && |queue| < 100
      requires host.committed + Queued() == committed + Since(before)
      modifies host, reader`completed, this
      ensures Idle() && |queue| < 100 && submitted == old(submitted) + [id] && before <= submitted
      ensures host.committed + Queued() == committed + Since(before)
      ensures host.quiet ==> Ahead() == old(Ahead())
    {
      hide Inv, Traced, Ahead;
      ghost var queued, since := Queued(), Since(before);
      assert (submitted + [id])[|before|..] == submitted[|before|..] + [id];
      Submit(id);
      assert Since(before) == since + {id};
      assert Queued() == queued + {id};
      var full: bool := *;
      if full || |queue| >= DEFAULT_BATCH_SIZE {
        Commit();
        assert Queued() == {};
      }
    }

    method Reopen()
      requires Idle()
      modifies reader`reader, reader`pos, reader`lineno, this`states, this`log
      ensures Idle()
    {
      InvFacts();
      hide Inv;
      var ok: bool := *;
      reader.reader, reader.pos, reader.lineno := ok, 0, 0;
      Note(Action.Reopen(ok));
    }

    lemma AllCommitted(s: State)
      requires Inv(s) && s.proc.Some? && s.proc.value.Held() == {}
      requires After(s.present, s.proc.value.file) == {} && s.proc.value.pos == |s.content[s.proc.value.file]|
      ensures forall id :: IsRecord(s, id) ==> id in s.committed
    {
      var p := s.proc.value;
      forall id | IsRecord(s, id) ensures id in s.committed {
        assert id.file in s.present && id.file > p.file ==> id.file in After(s.present, p.file);
        assert id.file !in s.present || id in s.committed + p.Held();
      }
    }

    /** Reading a quiet directory to its end reports, from the oldest file on, the
        events of all files, each file once, oldest first. */
    method ReadAll() returns (events: seq<Event>)
      requires Idle() && host.quiet && IsLeastOf(host.present, reader.filename) && reader.pos == 0
      modifies host, reader, this
      ensures host.content == old(host.content) && host.present == old(host.present)
      ensures old(host.present) <= old(host.content).Keys
      ensures events == AllEvents(old(host.content), old(host.present))
    {
      InvFacts();
      hide Inv, Traced, AllEvents, Unread;
      UnreadFromOldest(host.content, host.present, reader.filename);
      events := Drain();
    }

    method Drain() returns (events: seq<Event>)
      requires Idle() && host.quiet
      modifies host, reader, this
      ensures host.content == old(host.content) && host.present == old(host.present)
      ensures events == old(Ahead())
    {
      hide Inv, Traced, Ahead, Lines, NewerFiles, UnreadLines;
      events := [];
      while true
        invariant Idle() && host.content == old(host.content) && host.present == old(host.present)
        invariant events + Ahead() == old(Ahead())
        decreases |Ahead()|
      {
        var r := NextRecord();
        if r.Eof? {
          return;
        }
        events := events + Told(r);
        if r.Rec? {
          Submit(r.id);
        }
      }
    }

    lemma InvFactsOf(s: State)
      requires Inv(s) && s.proc.Some?
      ensures s.proc.value.file in s.content && s.present <= s.content.Keys
      ensures s.proc.value.looking ==> s.proc.value.pos == |s.content[s.proc.value.file]|
      ensures forall f :: f in s.proc.value.completed ==> f < s.proc.value.file
    {
    }

    lemma InvFacts()
      requires Inv(Snapshot())
      ensures reader.filename in host.content && reader.filename in host.present
      ensures host.present <= host.content.Keys
      ensures reader.pos <= |host.content[reader.filename]|
      ensures looking ==> reader.pos == |host.content[reader.filename]|
    {
    }

    lemma AppendStep(s: State, f: nat, line: Line)
      requires IsNewest(s, f) && (s.proc.Some? && s.proc.value.looking ==> s.proc.value.file != f)
      ensures Step(s, Append(line), AppendTo(s, f, line), false)
    {
    }
  }
}
