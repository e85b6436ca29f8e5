/**
 EVE spool ingestion as a transition system: Suricata writing timestamped files, the
 processor reading, committing, bookmarking and deleting them (src/eve/reader.rs,
 src/eve/processor.rs, src/bookmark.rs), and crashes and restarts at any point.
 */
module EveIngest {
  import opened Common

  /** One newline-terminated line. An unterminated tail is not a line yet. A line that
      is not UTF-8 is consumed by `read_line` but reported as an I/O error, without
      advancing the line number. */
  datatype Line = Record | Blank | Malformed | NotUtf8

  /** A record is identified by its file's rotation time and its line index. */
  datatype Id = Id(file: nat, index: nat)

  /** The bookmark file. `Torn` is what a crash between truncating and writing leaves. */
  datatype Bookmark = Missing | Torn | At(file: nat, line: nat)

  /** A running processor. `hand` is the record just read and not yet submitted,
      `skip` counts the bookmarked lines still to be skipped,
      `looking` holds between end of file and the look for a newer file, `deleting`
      from a written bookmark to the end of the deletions it allows. */
  datatype Proc = Proc(file: nat, open: bool, pos: nat, lineno: nat, completed: seq<nat>,
                       hand: set<Id>, queue: set<Id>, skip: nat, looking: bool, deleting: bool)
  {
    /** Records read but not committed: the one in hand and those queued. */
    function Held(): set<Id> { hand + queue }
  }

  /** `content` has every file ever written, `present` those still on disk. */
  datatype State = State(content: map<nat, seq<Line>>, present: set<nat>, committed: set<Id>,
                         bookmark: Bookmark, proc: Option<Proc>)

  datatype Action =
    | Append(line: Line)          // Suricata completes a line in the newest file
    | Rotate(time: nat)           // Suricata starts a newer file
    | Start                       // the process starts at the oldest file
    | Select                      // it finds a valid bookmark and goes to its file
    | Open                        // open the current file
    | SkipLine                    // skip one bookmarked line
    | SkipEnd                     // give up skipping: end of file or an error
    | ReadLine                    // read one line; a record is now in hand
    | Submit                      // the record in hand joins the sink's queue
    | SeeEof                      // the current file has no further line
    | LookNext(delete: bool)      // look for a newer file and switch to it
    | LookFail                    // the directory cannot be read
    | Reopen(ok: bool)            // the file looks rotated: start it again
    | Commit                      // the sink commits and empties its queue
    | Truncate                    // the bookmark file is truncated before writing
    | WriteBookmark               // the bookmark is complete
    | Delete(ok: bool)            // one completed file is deleted, or cannot be
    | DeleteEnd
    | Crash

  // ----- steps

  predicate IsNewest(s: State, f: nat) {
    f in s.content && forall g :: g in s.content ==> g <= f
  }

  predicate IsOldestPresent(s: State, f: nat) {
    f in s.present && forall g :: g in s.present ==> f <= g
  }

  predicate IsNext(s: State, f: nat, n: nat) {
    n in s.present && f < n && forall g :: g in s.present && f < g ==> n <= g
  }

  function AppendTo(s: State, f: nat, line: Line): State
    requires f in s.content
  {
    s.(content := s.content[f := s.content[f] + [line]])
  }

  function ReadEffect(p: Proc, line: Line): Proc {
    match line
    case Record => p.(pos := p.pos + 1, lineno := p.lineno + 1, hand := {Id(p.file, p.pos)})
    case Blank => p.(pos := p.pos + 1, lineno := p.lineno + 1)
    case Malformed => p.(pos := p.pos + 1, lineno := p.lineno + 1)
    case NotUtf8 => p.(pos := p.pos + 1)
  }

  function SwitchTo(p: Proc, n: nat, delete: bool): Proc {
    p.(file := n, open := false, pos := 0, lineno := 0, looking := false,
       completed := if delete then p.completed + [p.file] else p.completed)
  }

  function FreshProc(f: nat, skip: nat): Proc {
    Proc(f, false, 0, 0, [], {}, {}, skip, false, false)
  }

  /** Nothing is in hand, being skipped, looked for or deleted. */
  predicate Reading(p: Proc) {
    p.hand == {} && p.skip == 0 && !p.looking && !p.deleting
  }

  /** One step. `racy` allows Suricata to append between the reader's end of file and
      its look for a newer file. */
  ghost predicate Step(s: State, a: Action, t: State, racy: bool) {
    match a
    case Append(line) =>
      exists f :: IsNewest(s, f) && t == AppendTo(s, f, line)
                  && (racy || (s.proc.Some? && s.proc.value.looking ==> s.proc.value.file != f))
    case Rotate(time) =>
      && (forall g :: g in s.content ==> g < time)
      && t == s.(content := s.content[time := []], present := s.present + {time})
    case Start =>
      s.proc.None? && exists f :: IsOldestPresent(s, f) && t == s.(proc := Some(FreshProc(f, 0)))
    case Crash => t == s.(proc := None)
    case _ => s.proc.Some? && ProcStep(s, s.proc.value, a, t)
  }

  ghost predicate ProcStep(s: State, p: Proc, a: Action, t: State)
    requires !a.Append? && !a.Rotate? && !a.Start? && !a.Crash?
  {
    match a
    case Select =>
      && p == FreshProc(p.file, 0) && s.bookmark.At? && s.bookmark.file in s.present
      && t == s.(proc := Some(FreshProc(s.bookmark.file, s.bookmark.line)))
    case Open => p.file in s.present && t == s.(proc := Some(p.(open := true)))
    case SkipLine =>
      && p.skip > 0 && p.open && p.file in s.content && p.pos < |s.content[p.file]|
      && s.content[p.file][p.pos] != NotUtf8
      && t == s.(proc := Some(p.(pos := p.pos + 1, lineno := p.lineno + 1, skip := p.skip - 1)))
    case SkipEnd =>
      && p.skip > 0
      && (t == s.(proc := Some(p.(skip := 0)))
          || (p.open && p.file in s.content && p.pos < |s.content[p.file]| && s.content[p.file][p.pos] == NotUtf8
              && t == s.(proc := Some(p.(skip := 0, pos := p.pos + 1)))))
    case ReadLine =>
      && Reading(p) && p.open && p.file in s.content && p.pos < |s.content[p.file]|
      && t == s.(proc := Some(ReadEffect(p, s.content[p.file][p.pos])))
    case Submit =>
      t == s.(proc := Some(p.(hand := {}, queue := p.queue + p.hand)))
    case SeeEof =>
      && Reading(p) && p.open && p.file in s.content && p.pos == |s.content[p.file]|
      && t == s.(proc := Some(p.(looking := true)))
    case LookNext(delete) =>
      && p.looking
      && if exists n :: IsNext(s, p.file, n)
         then exists n :: IsNext(s, p.file, n) && t == s.(proc := Some(SwitchTo(p, n, delete)))
         else t == s.(proc := Some(p.(looking := false)))
    case LookFail => t == s.(proc := Some(p.(looking := false)))
    case Reopen(ok) =>
      Reading(p) && (ok ==> p.file in s.present) && t == s.(proc := Some(p.(open := ok, pos := 0, lineno := 0)))
    case Commit =>
      Reading(p) && t == s.(committed := s.committed + p.queue, proc := Some(p.(queue := {})))
    case Truncate => Reading(p) && p.queue == {} && p.open && t == s.(bookmark := Torn)
    case WriteBookmark =>
      Reading(p) && p.queue == {} && p.open && s.bookmark.Torn?
      && t == s.(bookmark := At(p.file, p.lineno), proc := Some(p.(deleting := true)))
    case Delete(ok) =>
      && p.deleting && p.completed != []
      && t == s.(present := if ok then s.present - {p.completed[0]} else s.present,
                 proc := Some(p.(completed := p.completed[1..])))
    case DeleteEnd => p.deleting && p.completed == [] && t == s.(proc := Some(p.(deleting := false)))
  }

  lemma ReadLineStep(s: State, p: Proc, t: State)
    requires s.proc == Some(p) && Reading(p) && p.open && p.file in s.content && p.pos < |s.content[p.file]|
    requires t == s.(proc := Some(ReadEffect(p, s.content[p.file][p.pos])))
    ensures Step(s, ReadLine, t, false)
  {
  }

  lemma SeeEofStep(s: State, p: Proc, t: State)
    requires s.proc == Some(p) && Reading(p) && p.open && p.file in s.content && p.pos == |s.content[p.file]|
    requires t == s.(proc := Some(p.(looking := true)))
    ensures Step(s, SeeEof, t, false)
  {
  }

  // ----- what the durable state promises

  predicate IsRecord(s: State, id: Id) {
    id.file in s.content && id.index < |s.content[id.file]| && s.content[id.file][id.index].Record?
  }

  /** Every record before line `line` of file `file` is in `done`. */
  ghost predicate Covered(s: State, file: nat, line: nat, done: set<Id>) {
    forall id :: IsRecord(s, id) && (id.file < file || (id.file == file && id.index < line)) ==> id in done
  }

  /** A bookmark never runs ahead of the committed records. */
  ghost predicate BookmarkIsSafe(s: State) {
    s.bookmark.At? ==> Covered(s, s.bookmark.file, s.bookmark.line, s.committed)
  }

  /** A deleted file's records are all committed. */
  ghost predicate DeletedIsCommitted(s: State) {
    forall id :: IsRecord(s, id) && id.file !in s.present ==> id in s.committed
  }

  ghost predicate Safe(s: State) {
    BookmarkIsSafe(s) && DeletedIsCommitted(s)
  }

  // ----- the inductive invariant

  ghost predicate ProcInv(s: State, p: Proc) {
    && p.file in s.present && p.file in s.content && p.pos <= |s.content[p.file]| && p.lineno <= p.pos
    && Covered(s, p.file, p.pos, s.committed + p.Held())
    && (forall i :: 0 <= i < |p.completed| ==> p.completed[i] < p.file)
    && (p.skip > 0 ==> s.bookmark.At? && s.bookmark.file == p.file && p.pos + p.skip <= s.bookmark.line)
    && (p.deleting ==> p.Held() == {})
    && (p.looking ==> p.hand == {} && p.skip == 0 && !p.deleting)
  }

  /** What holds in every state as long as no switch leaves a record behind. */
  ghost predicate Core(s: State) {
    && s.present <= s.content.Keys
    && (forall f :: IsNewest(s, f) ==> f in s.present)
    && (s.bookmark.At? ==> s.bookmark.file in s.content && s.bookmark.line <= |s.content[s.bookmark.file]|)
    && Safe(s)
    && (s.proc.Some? ==> ProcInv(s, s.proc.value))
  }

  /** A reader that looks for a newer file is at the end of its own. */
  ghost predicate LooksFromEnd(s: State) {
    s.proc.Some? && s.proc.value.looking ==>
      s.proc.value.file in s.content && s.proc.value.pos == |s.content[s.proc.value.file]|
  }

  ghost predicate Inv(s: State) {
    Core(s) && LooksFromEnd(s)
  }

  /** The file the reader is in has no record at or past its place but those that it
      holds or that are committed. */
  ghost predicate NothingLeft(s: State, p: Proc) {
    forall i: nat :: p.pos <= i && IsRecord(s, Id(p.file, i)) ==> Id(p.file, i) in s.committed + p.Held()
  }

  /** The step leaves its file for another. */
  predicate Switches(s: State, a: Action, t: State) {
    a.LookNext? && s.proc.Some? && t.proc.Some? && t.proc.value.file != s.proc.value.file
  }

  /** If the step leaves a file, it leaves no record behind. */
  ghost predicate Clean(s: State, a: Action, t: State) {
    Switches(s, a, t) ==> NothingLeft(s, s.proc.value)
  }

  ghost predicate Initial(s: State) {
    && s.present == s.content.Keys
    && s.committed == {} && s.bookmark.Missing? && s.proc.None?
  }

  lemma InitialInv(s: State)
    requires Initial(s)
    ensures Inv(s)
  {
  }

  lemma CoveredAfterAppend(s: State, f: nat, line: Line, file: nat, upTo: nat, done: set<Id>)
    requires IsNewest(s, f) && Covered(s, file, upTo, done)
    requires file in s.content && upTo <= |s.content[file]|
    ensures Covered(AppendTo(s, f, line), file, upTo, done)
  {
    var t := AppendTo(s, f, line);
    forall id | IsRecord(t, id) && (id.file < file || (id.file == file && id.index < upTo)) ensures id in done {
      assert IsRecord(s, id);
    }
  }

  lemma AppendInv(s: State, f: nat, line: Line)
    requires Core(s) && IsNewest(s, f)
    ensures Core(AppendTo(s, f, line))
  {
    var t := AppendTo(s, f, line);
    if s.bookmark.At? {
      CoveredAfterAppend(s, f, line, s.bookmark.file, s.bookmark.line, s.committed);
    }
    if s.proc.Some? {
      CoveredAfterAppend(s, f, line, s.proc.value.file, s.proc.value.pos, s.committed + s.proc.value.Held());
    }
    forall id | IsRecord(t, id) && id.file !in t.present ensures id in t.committed {
      assert IsRecord(s, id);
    }
    forall g | IsNewest(t, g) ensures g in t.present {
      assert forall h :: h in s.content ==> h in t.content;
      assert IsNewest(s, g);
    }
  }

  /** Steps that leave the files alone keep coverage facts. */
  lemma CoveredSameFiles(s: State, t: State, file: nat, line: nat, done: set<Id>, done': set<Id>)
    requires s.content == t.content && done <= done' && Covered(s, file, line, done)
    ensures Covered(t, file, line, done')
  {
    forall id | IsRecord(t, id) && (id.file < file || (id.file == file && id.index < line)) ensures id in done' {
      assert IsRecord(s, id);
    }
  }

  lemma RotateInv(s: State, time: nat, t: State, racy: bool)
    requires Core(s) && Step(s, Rotate(time), t, racy)
    ensures Core(t)
  {
    assert forall id :: IsRecord(t, id) ==> IsRecord(s, id);
    forall g | IsNewest(t, g) ensures g in t.present {
      assert time in t.content && time <= g;
      assert g == time;
    }
  }

  lemma StartInv(s: State, a: Action, t: State, racy: bool)
    requires Core(s) && Step(s, a, t, racy) && (a.Start? || a.Select?)
    ensures Core(t)
  {
    var p := t.proc.value;
    forall id | IsRecord(t, id) && (id.file < p.file || (id.file == p.file && id.index < p.pos))
      ensures id in t.committed {
      assert IsRecord(s, id);
    }
    ProcOnly(s, t);
  }

  /** Reading or skipping a line: the position moves past a line that is accounted for. */
  lemma AdvanceCovers(s: State, t: State, p: Proc, q: Proc)
    requires s.content == t.content && s.committed == t.committed
    requires p.file in s.content && p.pos < |s.content[p.file]| && Covered(s, p.file, p.pos, s.committed + p.Held())
    requires q.file == p.file && q.pos == p.pos + 1 && p.Held() <= q.Held()
    requires IsRecord(s, Id(p.file, p.pos)) ==> Id(p.file, p.pos) in s.committed + q.Held()
    ensures Covered(t, q.file, q.pos, t.committed + q.Held())
  {
    forall id | IsRecord(t, id) && (id.file < q.file || (id.file == q.file && id.index < q.pos))
      ensures id in t.committed + q.Held()
    {
      assert IsRecord(s, id);
      if id.file == p.file && id.index == p.pos {
        assert id == Id(p.file, p.pos);
      }
    }
  }

  ghost predicate OnlyProcChanges(s: State, t: State) {
    t == s.(proc := t.proc)
  }

  /** A step that changes nothing but the process keeps everything durable. */
  lemma ProcOnly(s: State, t: State)
    requires Core(s) && OnlyProcChanges(s, t) && (t.proc.Some? ==> ProcInv(t, t.proc.value))
    ensures Core(t)
  {
    forall g | IsNewest(t, g) ensures g in t.present {
      assert IsNewest(s, g);
    }
    if t.bookmark.At? {
      CoveredSameFiles(s, t, t.bookmark.file, t.bookmark.line, s.committed, t.committed);
    }
    forall id | IsRecord(t, id) && id.file !in t.present ensures id in t.committed {
      assert IsRecord(s, id);
    }
  }

  lemma ReadInv(s: State, a: Action, t: State, racy: bool)
    requires Core(s) && Step(s, a, t, racy) && (a.SkipLine? || a.SkipEnd? || a.ReadLine?)
    ensures Core(t)
  {
    var p, q := s.proc.value, t.proc.value;
    if q.pos == p.pos {
      CoveredSameFiles(s, t, p.file, p.pos, s.committed + p.Held(), t.committed + q.Held());
    } else {
      if p.skip > 0 && IsRecord(s, Id(p.file, p.pos)) {
        assert Id(p.file, p.pos) in s.committed;
      }
      AdvanceCovers(s, t, p, q);
    }
    ProcOnly(s, t);
  }

  /** Switching to the next file skips only deleted, hence committed, files. */
  lemma SwitchCovers(s: State, p: Proc, n: nat)
    requires DeletedIsCommitted(s) && IsNext(s, p.file, n)
    requires NothingLeft(s, p) && Covered(s, p.file, p.pos, s.committed + p.Held())
    ensures Covered(s, n, 0, s.committed + p.Held())
  {
    forall id | IsRecord(s, id) && id.file < n ensures id in s.committed + p.Held() {
      if p.file < id.file {
        assert id.file !in s.present;
      } else if p.file == id.file && p.pos <= id.index {
        assert id == Id(p.file, id.index);
      }
    }
  }

  lemma LookInv(s: State, delete: bool, t: State, racy: bool)
    requires Core(s) && Step(s, LookNext(delete), t, racy) && Clean(s, LookNext(delete), t)
    ensures Core(t)
  {
    var p, q := s.proc.value, t.proc.value;
    if q.file != p.file {
      SwitchCovers(s, p, q.file);
      CoveredSameFiles(s, t, q.file, 0, s.committed + p.Held(), t.committed + q.Held());
    } else {
      CoveredSameFiles(s, t, p.file, p.pos, s.committed + p.Held(), t.committed + q.Held());
    }
    ProcOnly(s, t);
  }

  lemma ReopenInv(s: State, a: Action, t: State, racy: bool)
    requires Core(s) && Step(s, a, t, racy)
      && (a.Reopen? || a.Open? || a.Submit? || a.LookFail? || a.SeeEof? || a.DeleteEnd? || a.Crash?)
    ensures Core(t)
  {
    if t.proc.Some? {
      var p, q := s.proc.value, t.proc.value;
      CoveredSameFiles(s, t, p.file, p.pos, s.committed + p.Held(), t.committed + q.Held());
      assert Covered(t, q.file, q.pos, t.committed + q.Held());
    }
    ProcOnly(s, t);
  }

  lemma DurableInv(s: State, a: Action, t: State, racy: bool)
    requires Core(s) && Step(s, a, t, racy) && (a.Commit? || a.Truncate? || a.WriteBookmark? || a.Delete?)
    ensures Core(t)
  {
    var p, q := s.proc.value, t.proc.value;
    CoveredSameFiles(s, t, p.file, p.pos, s.committed + p.Held(), t.committed + q.Held());
    if s.bookmark.At? {
      CoveredSameFiles(s, t, s.bookmark.file, s.bookmark.line, s.committed, t.committed);
    }
    if a.WriteBookmark? {
      forall id | IsRecord(t, id) && (id.file < p.file || (id.file == p.file && id.index < p.lineno))
        ensures id in t.committed {
        assert IsRecord(s, id);
        assert id in s.committed + p.Held();
      }
    }
    forall id | IsRecord(t, id) && id.file !in t.present ensures id in t.committed {
      assert IsRecord(s, id);
      if id.file in s.present {
        assert id.file == p.completed[0] < p.file;
        assert id in s.committed + p.Held();
      }
    }
    forall g | IsNewest(t, g) ensures g in t.present {
      assert IsNewest(s, g);
      if a.Delete? {
        assert p.completed[0] < p.file <= g;
      }
    }
  }

  lemma AppendStepInv(s: State, line: Line, t: State, racy: bool)
    requires Core(s) && Step(s, Append(line), t, racy)
    ensures Core(t)
  {
    hide Core;
    var f :| IsNewest(s, f) && t == AppendTo(s, f, line)
             && (racy || (s.proc.Some? && s.proc.value.looking ==> s.proc.value.file != f));
    AppendInv(s, f, line);
  }

  /** Every step that leaves no record behind keeps the core of the invariant, crashes
      and restarts included, and also with the race. */
  lemma StepCore(s: State, a: Action, t: State, racy: bool)
    requires Core(s) && Step(s, a, t, racy) && Clean(s, a, t)
    ensures Core(t)
  {
    hide Core, Step, Clean;
    if a.Append? {
      AppendStepInv(s, a.line, t, racy);
    } else if a.Rotate? {
      RotateInv(s, a.time, t, racy);
    } else if a.Start? || a.Select? {
      StartInv(s, a, t, racy);
    } else if a.LookNext? {
      LookInv(s, a.delete, t, racy);
    } else if a.Commit? || a.Truncate? || a.WriteBookmark? || a.Delete? {
      DurableInv(s, a, t, racy);
    } else if a.SkipLine? || a.SkipEnd? || a.ReadLine? {
      ReadInv(s, a, t, racy);
    } else {
      ReopenInv(s, a, t, racy);
    }
  }

  /** Without the race a reader that looks stays at the end of its file. */
  lemma StepLooksFromEnd(s: State, a: Action, t: State)
    requires LooksFromEnd(s) && Step(s, a, t, false)
    ensures LooksFromEnd(t) && Clean(s, a, t)
  {
  }

  /** Every step without the race keeps the invariant. */
  lemma StepInv(s: State, a: Action, t: State)
    requires Inv(s) && Step(s, a, t, false)
    ensures Inv(t)
  {
    hide Core, Step, LooksFromEnd, Clean;
    StepLooksFromEnd(s, a, t);
    StepCore(s, a, t, false);
  }

  // ----- whole runs

  /** `states` is a run taking the actions `acts`. */
  ghost predicate IsRun(states: seq<State>, acts: seq<Action>, racy: bool) {
    && |states| == |acts| + 1
    && forall k :: 0 <= k < |acts| ==> Step(states[k], acts[k], states[k + 1], racy)
  }

  /** At-least-once: over every run, at every moment, the bookmark does not run ahead
      of the committed records and only committed files are gone. */
  lemma {:induction false} AtLeastOnce(states: seq<State>, acts: seq<Action>, k: nat)
    requires IsRun(states, acts, false) && Initial(states[0]) && k < |states|
    ensures Inv(states[k]) && Safe(states[k])
    decreases k
  {
    hide Step, Inv, Safe;
    if k == 0 {
      InitialInv(states[0]);
      InvIsSafe(states[0]);
    } else {
      AtLeastOnce(states, acts, k - 1);
      assert Step(states[k - 1], acts[k - 1], states[k - 1 + 1], false);
      StepInv(states[k - 1], acts[k - 1], states[k]);
      InvIsSafe(states[k]);
    }
  }

  lemma InvIsSafe(s: State)
    requires Inv(s)
    ensures Safe(s)
  {
  }

  /** Nothing is lost: a processor at the end of the newest file with nothing queued
      has had every record that was ever written committed. */
  lemma CaughtUpMeansAllCommitted(s: State, id: Id)
    requires Inv(s) && s.proc.Some? && IsNewest(s, s.proc.value.file)
    requires s.proc.value.pos == |s.content[s.proc.value.file]| && s.proc.value.Held() == {}
    requires IsRecord(s, id)
    ensures id in s.committed
  {
    assert id in s.committed + s.proc.value.Held();
  }

  // ----- runs with the race

  /** Every switch of the run leaves no record behind. */
  ghost predicate AllClean(states: seq<State>, acts: seq<Action>) {
    |states| == |acts| + 1 && forall k :: 0 <= k < |acts| ==> Clean(states[k], acts[k], states[k + 1])
  }

  /** From a state as it should be, a run, racy or not, whose switches each leave no record
      behind is safe at every moment. */
  lemma {:induction false} CleanRunsAreSafe(states: seq<State>, acts: seq<Action>, racy: bool, k: nat)
    requires IsRun(states, acts, racy) && AllClean(states, acts) && Core(states[0]) && k < |states|
    ensures Core(states[k]) && Safe(states[k])
    decreases k
  {
    hide Step, Core, Safe, Clean;
    if k > 0 {
      CleanRunsAreSafe(states, acts, racy, k - 1);
      assert Step(states[k - 1], acts[k - 1], states[k - 1 + 1], racy);
      assert Clean(states[k - 1], acts[k - 1], states[k - 1 + 1]);
      StepCore(states[k - 1], acts[k - 1], states[k], racy);
    }
    CoreIsSafe(states[k]);
  }

  lemma CoreIsSafe(s: State)
    requires Core(s)
    ensures Safe(s)
  {
  }

  /** Whatever happens after `s`, as long as later switches leave no record behind, the
      bookmark and the deletions are safe. */
  ghost predicate StaysSafe(s: State) {
    forall states, acts :: AllClean(states, acts) && states[0] == s && IsRun(states, acts, true) ==>
      forall k :: 0 <= k < |states| ==> Safe(states[k])
  }

  /** A switch is safe, in every run that goes on from it, exactly if it leaves no record
      behind. */
  lemma SwitchIsSafeIff(s: State, a: Action, t: State)
    requires Core(s) && Step(s, a, t, true) && Switches(s, a, t)
    ensures StaysSafe(t) <==> NothingLeft(s, s.proc.value)
  {
    hide Core, Safe, Step, IsRun;
    if NothingLeft(s, s.proc.value) {
      StepCore(s, a, t, true);
      forall states, acts | AllClean(states, acts) && states[0] == t && IsRun(states, acts, true)
        ensures forall k :: 0 <= k < |states| ==> Safe(states[k])
      {
        forall k | 0 <= k < |states| ensures Safe(states[k]) {
          CleanRunsAreSafe(states, acts, true, k);
        }
      }
    } else {
      var i: nat :| s.proc.value.pos <= i && IsRecord(s, Id(s.proc.value.file, i))
                    && Id(s.proc.value.file, i) !in s.committed + s.proc.value.Held();
      var states, acts := BookmarkPasses(s, a, t, Id(s.proc.value.file, i));
      UnsafeBookmark(states[4]);
    }
  }

  lemma UnsafeBookmark(s: State)
    requires !BookmarkIsSafe(s)
    ensures !Safe(s)
  {
  }

  /** After a switch that leaves a record behind, the next bookmark passes that record. */
  lemma BookmarkPasses(s: State, a: Action, t: State, id: Id) returns (states: seq<State>, acts: seq<Action>)
    requires Core(s) && Step(s, a, t, true) && Switches(s, a, t)
    requires id.file == s.proc.value.file && IsRecord(s, id) && id !in s.committed + s.proc.value.Held()
    ensures IsRun(states, acts, true) && states[0] == t && AllClean(states, acts)
    ensures acts == [Open, Commit, Truncate, WriteBookmark] && !BookmarkIsSafe(states[4])
  {
    Switched(s, a, t);
    var p := t.proc.value;
    var ready := t.(proc := Some(p.(open := true)));
    var committed := ready.(committed := t.committed + p.queue, proc := Some(p.(open := true, queue := {})));
    var torn := committed.(bookmark := Torn);
    var passed := torn.(bookmark := At(p.file, 0), proc := Some(committed.proc.value.(deleting := true)));
    states, acts := [t, ready, committed, torn, passed], [Open, Commit, Truncate, WriteBookmark];
    hide Step, IsNewest, Core;
    OpenStep(t, p, ready);
    CommitStep(ready, ready.proc.value, committed);
    TruncateStep(committed, committed.proc.value, torn);
    WriteStep(torn, torn.proc.value, passed);
    assert IsRecord(passed, id) && id.file < p.file && id !in passed.committed;
  }

  lemma OpenStep(s: State, p: Proc, t: State)
    requires s.proc == Some(p) && p.file in s.present && t == s.(proc := Some(p.(open := true)))
    ensures Step(s, Open, t, true)
  {
  }

  lemma CommitStep(s: State, p: Proc, t: State)
    requires s.proc == Some(p) && Reading(p)
    requires t == s.(committed := s.committed + p.queue, proc := Some(p.(queue := {})))
    ensures Step(s, Commit, t, true)
  {
  }

  lemma TruncateStep(s: State, p: Proc, t: State)
    requires s.proc == Some(p) && Reading(p) && p.queue == {} && p.open && t == s.(bookmark := Torn)
    ensures Step(s, Truncate, t, true)
  {
  }

  lemma WriteStep(s: State, p: Proc, t: State)
    requires s.proc == Some(p) && Reading(p) && p.queue == {} && p.open && s.bookmark.Torn?
    requires t == s.(bookmark := At(p.file, p.lineno), proc := Some(p.(deleting := true)))
    ensures Step(s, WriteBookmark, t, true)
  {
  }

  lemma Switched(s: State, a: Action, t: State)
    requires Core(s) && Step(s, a, t, true) && Switches(s, a, t)
    ensures var p, q := s.proc.value, t.proc.value;
      && t == s.(proc := Some(q)) && p.file < q.file && q.file in t.present && q.queue == p.queue
      && Reading(q) && q.lineno == 0
  {
  }

  /** A run of the program that loses a record, state by state: it is appended after the
      reader saw the end of the file, and the file is rotated, finished and deleted. */
  function RaceState(k: nat): State {
    var before, after := map[1 := []], map[1 := [Record], 2 := []];
    var p := FreshProc(1, 0).(open := true);
    var q := FreshProc(2, 0).(completed := [1]);
    if k == 0 then State(before, {1}, {}, Missing, None)
    else if k == 1 then State(before, {1}, {}, Missing, Some(FreshProc(1, 0)))
    else if k == 2 then State(before, {1}, {}, Missing, Some(p))
    else if k == 3 then State(before, {1}, {}, Missing, Some(p.(looking := true)))
    else if k == 4 then State(map[1 := [Record]], {1}, {}, Missing, Some(p.(looking := true)))
    else if k == 5 then State(after, {1, 2}, {}, Missing, Some(p.(looking := true)))
    else if k == 6 then State(after, {1, 2}, {}, Missing, Some(q))
    else if k == 7 then State(after, {1, 2}, {}, Missing, Some(q.(open := true)))
    else if k == 8 then State(after, {1, 2}, {}, Missing, Some(q.(open := true, looking := true)))
    else if k == 9 then State(after, {1, 2}, {}, Missing, Some(q.(open := true)))
    else if k == 10 then State(after, {1, 2}, {}, Torn, Some(q.(open := true)))
    else if k == 11 then State(after, {1, 2}, {}, At(2, 0), Some(q.(open := true, deleting := true)))
    else State(after, {2}, {}, At(2, 0), Some(q.(open := true, deleting := true, completed := [])))
  }

  lemma RaceStarts()
    ensures IsRun([RaceState(0), RaceState(1), RaceState(2), RaceState(3)], [Start, Open, SeeEof], true)
  {
    assert IsOldestPresent(RaceState(0), 1);
  }

  lemma RaceGoesOn()
    ensures IsRun([RaceState(3), RaceState(4), RaceState(5), RaceState(6)],
      [Append(Record), Rotate(2), LookNext(true)], true)
  {
    var s, t := RaceState(3), RaceState(4);
    assert s.content[1] + [Record] == [Record];
    assert IsNewest(s, 1) && t == AppendTo(s, 1, Record);
    assert t.content[2 := []] == RaceState(5).content;
    assert IsNext(RaceState(5), 1, 2);
    assert SwitchTo(RaceState(5).proc.value, 2, true) == FreshProc(2, 0).(completed := [1]);
  }

  lemma RaceReadsOn()
    ensures IsRun([RaceState(6), RaceState(7), RaceState(8), RaceState(9)], [Open, SeeEof, LookNext(true)], true)
  {
    assert forall n :: !IsNext(RaceState(8), 2, n);
  }

  lemma RaceTruncates()
    ensures Step(RaceState(9), Truncate, RaceState(10), true)
  {
    hide Step;
    TruncateStep(RaceState(9), RaceState(9).proc.value, RaceState(10));
  }

  lemma RaceWrites()
    ensures Step(RaceState(10), WriteBookmark, RaceState(11), true)
  {
    hide Step;
    WriteStep(RaceState(10), RaceState(10).proc.value, RaceState(11));
  }

  lemma RaceDeletes()
    ensures Step(RaceState(11), Delete(true), RaceState(12), true)
  {
    assert {1, 2} - {1} == {2} && [1][1..] == [];
  }

  lemma RaceBookmarks()
    ensures IsRun([RaceState(9), RaceState(10), RaceState(11), RaceState(12)],
      [Truncate, WriteBookmark, Delete(true)], true)
  {
    hide Step, RaceState;
    RaceTruncates();
    RaceWrites();
    RaceDeletes();
  }

  lemma RaceEnds()
    ensures Initial(RaceState(0)) && !BookmarkIsSafe(RaceState(12)) && !DeletedIsCommitted(RaceState(12))
  {
    assert IsRecord(RaceState(12), Id(1, 0));
  }

  lemma RunConcat(a: seq<State>, x: seq<Action>, b: seq<State>, y: seq<Action>, racy: bool)
    requires IsRun(a, x, racy) && IsRun(b, y, racy) && a[|x|] == b[0]
    ensures IsRun(a + b[1..], x + y, racy)
  {
    hide Step;
    var states, acts := a + b[1..], x + y;
    forall k | 0 <= k < |acts| ensures Step(states[k], acts[k], states[k + 1], racy) {
      if k >= |x| {
        assert states[k] == b[k - |x|] && states[k + 1] == b[k - |x| + 1] && acts[k] == y[k - |x|];
      } else {
        assert states[k] == a[k] && states[k + 1] == a[k + 1] && acts[k] == x[k];
      }
    }
  }

  /** With the race a record can be lost, by the steps the processor takes when the newer
      file is still empty: the bookmark passes the record uncommitted, and its file is
      deleted. */
  lemma RaceLosesARecord() returns (states: seq<State>, acts: seq<Action>)
    ensures IsRun(states, acts, true) && Initial(states[0])
    ensures acts == [Start, Open, SeeEof, Append(Record), Rotate(2), LookNext(true), Open, SeeEof, LookNext(true),
                     Truncate, WriteBookmark, Delete(true)]
    ensures !BookmarkIsSafe(states[|acts|]) && !DeletedIsCommitted(states[|acts|])
  {
    hide IsRun, RaceState, BookmarkIsSafe, DeletedIsCommitted, Initial;
    var a := [RaceState(0), RaceState(1), RaceState(2), RaceState(3)];
    var b := [RaceState(3), RaceState(4), RaceState(5), RaceState(6)];
    var c := [RaceState(6), RaceState(7), RaceState(8), RaceState(9)];
    var d := [RaceState(9), RaceState(10), RaceState(11), RaceState(12)];
    var x, y := [Start, Open, SeeEof], [Append(Record), Rotate(2), LookNext(true)];
    var z, w := [Open, SeeEof, LookNext(true)], [Truncate, WriteBookmark, Delete(true)];
    RaceStarts();
    RaceGoesOn();
    RaceReadsOn();
    RaceBookmarks();
    RunConcat(a, x, b, y, true);
    RunConcat(a + b[1..], x + y, c, z, true);
    RunConcat(a + b[1..] + c[1..], x + y + z, d, w, true);
    RaceEnds();
    states, acts := a + b[1..] + c[1..] + d[1..], x + y + z + w;
  }
}
