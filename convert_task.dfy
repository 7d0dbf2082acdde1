/** `ConvertTask`: the resumable conversion run over the rows of the
    progress table, one workbook file per row, with the `stop`/`reset`
    controls that a user interface thread calls while a run is going on. */
module ConvertTask {
  import opened Wrappers
  import opened Errors
  import JavaStrings
  import Declarations
  import ResourceDefinition
  import Sequences

  datatype TaskStatus = INIT | STARTED | STOPED | CANCEL | FINISHED

  /** What converting one sheet of a workbook did: written out, or failed
      with a runtime exception. */
  datatype SheetOutcome = SheetOutcome(name: string, converted: bool)

  /** What the sub-task for one file did: the workbook could not be opened,
      it opened but its sheets could not be listed, or each listed sheet was
      converted or failed. */
  datatype Outcome = Unreadable | Unlisted | Converted(sheets: seq<SheetOutcome>)

  /** One change made to the progress table since it was last cleared: a
      progress report for a row (`done` for the final report) or a sheet of
      a row marked as failed. */
  datatype TableEvent = Progress(row: int, done: bool) | Failed(row: int, sheet: string)

  /** A control call landing between two steps of a running `start`. */
  datatype Interruption = StopCall | ResetCall

  /** The current task's state: status, the pending iterator (the files it has not
      handed out yet), the current row and the progress table's events. */
  datatype Task = Task(status: TaskStatus, cur: Option<seq<string>>, index: int, events: seq<TableEvent>)

  /** How the `while (cur.hasNext())` loop was left: the iterator ran out,
      the status was no longer `STARTED`, or the iterator was gone (a
      `reset` between two steps makes `cur.hasNext()` throw). */
  datatype Exit = Drained | Paused | Crashed

  datatype LoopEnd = LoopEnd(task: Task, exit: Exit)

  /** The end of a `start` that got past its guard: the new state, how the
      loop was left and whether `onComplete` was called. */
  datatype RunEnd = RunEnd(task: Task, exit: Exit, onComplete: bool)

  /** The guard of `updateProgress` and `markAsFail`. */
  predicate Reports(status: TaskStatus)
  {
    status == STARTED || status == STOPED
  }

  /** The events of the converted and failed sheets of one row, in order. */
  function SheetEvents(row: int, sheets: seq<SheetOutcome>): (r: seq<TableEvent>)
    ensures |r| == |sheets|
  {
    if |sheets| == 0 then []
    else
      var last := sheets[|sheets| - 1];
      SheetEvents(row, sheets[..|sheets| - 1]) + [SheetEvent(row, last)]
  }

  /** The event of one sheet: a progress report when it was converted,
      otherwise a failure mark under its name. */
  function SheetEvent(row: int, sheet: SheetOutcome): (r: TableEvent)
    ensures r.row == row
    ensures r.Failed? <==> !sheet.converted
    ensures r.Failed? ==> r.sheet == sheet.name
    ensures r.Progress? ==> !r.done
  {
    if sheet.converted then Progress(row, false) else Failed(row, sheet.name)
  }

  /** The `j`-th event of a row is the event of its `j`-th sheet. */
  lemma {:induction false} SheetEventsAt(row: int, sheets: seq<SheetOutcome>, j: nat)
    requires j < |sheets|
    ensures SheetEvents(row, sheets)[j] == SheetEvent(row, sheets[j])
    decreases |sheets|
  {
    var front := sheets[..|sheets| - 1];
    if j < |front| {
      SheetEventsAt(row, front, j);
      assert SheetEvents(row, sheets)[j] == SheetEvents(row, front)[j];
    }
  }

  /** Every event of a row's sheets carries that row. */
  lemma {:induction false} SheetEventsRows(row: int, sheets: seq<SheetOutcome>)
    ensures forall e :: e in SheetEvents(row, sheets) ==> e.row == row
  {
    forall e | e in SheetEvents(row, sheets)
      ensures e.row == row
    {
      var j :| 0 <= j < |sheets| && SheetEvents(row, sheets)[j] == e;
      SheetEventsAt(row, sheets, j);
    }
  }

  /** The events one sub-task adds to the table while the status reports:
      nothing when the workbook cannot be opened, otherwise a first progress
      report, then one event per sheet and a final report when the sheets
      could be listed. */
  function SubTaskEvents(row: int, outcome: Outcome): (r: seq<TableEvent>)
  {
    match outcome
    case Unreadable => []
    case Unlisted => [Progress(row, false)]
    case Converted(sheets) => [Progress(row, false)] + SheetEvents(row, sheets) + [Progress(row, true)]
  }

  /** A sub-task adds nothing exactly when the workbook cannot be opened; a
      converted workbook adds one event per sheet and two reports, the last
      one final. */
  lemma {:induction false} SubTaskEventsShape(row: int, outcome: Outcome)
    ensures var r := SubTaskEvents(row, outcome);
      && (outcome.Unreadable? <==> r == [])
      && (outcome.Converted? ==> |r| == |outcome.sheets| + 2 && r[|r| - 1] == Progress(row, true))
  {
  }

  /** A sub-task reports only for its own row. */
  lemma {:induction false} SubTaskEventsRows(row: int, outcome: Outcome)
    ensures forall e :: e in SubTaskEvents(row, outcome) ==> e.row == row
  {
    if outcome.Converted? {
      SheetEventsRows(row, outcome.sheets);
    }
  }

  /** The events of the files handed out from row `row` on, one after the
      other. */
  function AllEvents(row: int, files: seq<string>, outcomes: string -> Outcome): seq<TableEvent>
    decreases |files|
  {
    if |files| == 0 then []
    else SubTaskEvents(row, outcomes(files[0])) + AllEvents(row + 1, files[1..], outcomes)
  }

  /** The rows of the events of a run from row `row` over `files` lie in
      `row .. row + |files| - 1`. */
  lemma {:induction false} AllEventsRows(row: int, files: seq<string>, outcomes: string -> Outcome)
    ensures forall e :: e in AllEvents(row, files, outcomes) ==> row <= e.row < row + |files|
    decreases |files|
  {
    if |files| > 0 {
      SubTaskEventsRows(row, outcomes(files[0]));
      AllEventsRows(row + 1, files[1..], outcomes);
    }
  }

  /** The events of the first `j` files: the first file's, then those of
      the next `j - 1` from the next row on. */
  lemma {:induction false} AllEventsPrefix(row: int, files: seq<string>, j: nat, outcomes: string -> Outcome)
    requires 0 < j <= |files|
    ensures AllEvents(row, files[..j], outcomes)
      == SubTaskEvents(row, outcomes(files[0])) + AllEvents(row + 1, files[1..][..j - 1], outcomes)
  {
    assert files[..j][0] == files[0];
    assert files[..j][1..] == files[1..][..j - 1];
  }

  /** Handing out files in two stretches, split before the `j`-th, adds
      the same events as handing them out in one. */
  lemma {:induction false} AllEventsSplit(row: int, files: seq<string>, j: nat, outcomes: string -> Outcome)
    requires j <= |files|
    ensures AllEvents(row, files, outcomes) == AllEvents(row, files[..j], outcomes) + AllEvents(row + j, files[j..], outcomes)
    decreases j, 1
  {
    if j == 0 {
      assert files[..0] == [] && files[0..] == files;
    } else {
      AllEventsSplitStep(row, files, j, outcomes);
    }
  }

  /** The step of `AllEventsSplit`: a split of the files after the first
      gives a split of all of them. */
  lemma {:induction false} AllEventsSplitStep(row: int, files: seq<string>, j: nat, outcomes: string -> Outcome)
    requires 0 < j <= |files|
    ensures AllEvents(row, files, outcomes) == AllEvents(row, files[..j], outcomes) + AllEvents(row + j, files[j..], outcomes)
    decreases j, 0
  {
    var rest := files[1..];
    var first := SubTaskEvents(row, outcomes(files[0]));
    var front := AllEvents(row + 1, rest[..j - 1], outcomes);
    var back := AllEvents(row + j, files[j..], outcomes);
    assert AllEvents(row, files, outcomes) == first + AllEvents(row + 1, rest, outcomes);
    assert AllEvents(row + 1, rest, outcomes) == front + back by {
      AllEventsSplit(row + 1, rest, j - 1, outcomes);
      assert rest[j - 1..] == files[j..];
    }
    assert AllEvents(row, files[..j], outcomes) == first + front by {
      AllEventsPrefix(row, files, j, outcomes);
    }
    assert (first + front) + back == first + (front + back) by {
      Sequences.ConcatAssociative(first, front, back);
    }
  }

  /** `stop` and `reset`, on the state. */
  function Interrupted(t: Task, i: Interruption): Task
  {
    match i
    case StopCall => t.(status := STOPED)
    case ResetCall => Task(CANCEL, None, 0, [])
  }

  /** The number of files the iterator still holds. */
  function Remaining(t: Task): nat
  {
    if t.cur.Some? then |t.cur.value| else 0
  }

  /** Lines 91-97 of `start`: a new iterator over the table's rows, row 0
      and a cleared table, unless an iterator is pending. */
  function Opened(t: Task, rows: seq<string>): (r: Task)
    ensures r.cur.Some? && r.status == t.status
    ensures t.cur.Some? ==> r == t
    ensures t.cur.None? ==> r.cur == Some(rows) && r.index == 0 && r.events == []
  {
    if t.cur.None? then t.(cur := Some(rows), index := 0, events := []) else t
  }

  /** One step of the loop: the next file is handed out, its sub-task adds
      its events for the current row, and the row moves on by one whatever
      the sub-task did. */
  function Handed(t: Task, outcomes: string -> Outcome): Task
    requires t.cur.Some? && |t.cur.value| > 0
  {
    t.(cur := Some(t.cur.value[1..]),
       events := t.events + SubTaskEvents(t.index, outcomes(t.cur.value[0])),
       index := t.index + 1)
  }

  /** The `while (cur.hasNext())` loop from step `k` on, with the control
      calls of `interrupts` landing at the top of their steps. Every file
      handed out moves the row on by one, whatever its sub-task did. */
  function Loop(t: Task, k: nat, outcomes: string -> Outcome, interrupts: map<nat, Interruption>): (r: LoopEnd)
    ensures r.exit == Drained ==> r.task.cur == Some([])
    ensures r.exit == Paused ==> r.task.status != STARTED && r.task.cur.Some? && |r.task.cur.value| > 0
    ensures r.exit == Crashed ==> r.task.cur.None?
    ensures r.task.status == t.status || r.task.status == STOPED || r.task.status == CANCEL
    decreases Remaining(t)
  {
    var t1 := if k in interrupts then Interrupted(t, interrupts[k]) else t;
    if t1.cur.None? then LoopEnd(t1, Crashed)
    else if |t1.cur.value| == 0 then LoopEnd(t1, Drained)
    else if t1.status != STARTED then LoopEnd(t1, Paused)
    else
      Loop(Handed(t1, outcomes), k + 1, outcomes, interrupts)
  }

  /** Lines 91-124 of `start`, once the status is `STARTED`: open the
      iterator if none is pending, run the loop, and after a drained loop
      complete (when still `STARTED`) and drop the iterator. */
  function Run(t: Task, rows: seq<string>, outcomes: string -> Outcome, interrupts: map<nat, Interruption>): (r: RunEnd)
    requires t.status == STARTED
    ensures r.onComplete <==> r.exit == Drained && r.task.status == FINISHED
    ensures r.exit == Drained ==> r.task.cur.None?
    ensures r.exit == Paused ==> r.task.cur.Some? && r.task.status != STARTED
  {
    var end := Loop(Opened(t, rows), 0, outcomes, interrupts);
    if end.exit != Drained then RunEnd(end.task, end.exit, false)
    else if end.task.status == STARTED then RunEnd(end.task.(status := FINISHED, cur := None), Drained, true)
    else RunEnd(end.task.(cur := None), Drained, false)
  }

  /** A running loop that no control call reaches at step `k` hands out
      its next file and goes on with step `k + 1`. */
  lemma {:induction false} LoopStep(t: Task, k: nat, outcomes: string -> Outcome, interrupts: map<nat, Interruption>)
    requires t.status == STARTED && t.cur.Some? && |t.cur.value| > 0 && k !in interrupts
    ensures Loop(t, k, outcomes, interrupts) == Loop(Handed(t, outcomes), k + 1, outcomes, interrupts)
  {
  }

  /** Handing out the next file adds its events in front of those of the
      files after it. */
  lemma {:induction false} HandedEvents(t: Task, outcomes: string -> Outcome)
    requires t.cur.Some? && |t.cur.value| > 0
    ensures var t2 := Handed(t, outcomes);
      t2.events + AllEvents(t2.index, t2.cur.value, outcomes) == t.events + AllEvents(t.index, t.cur.value, outcomes)
  {
    var rest := t.cur.value;
    Sequences.ConcatAssociative(t.events, SubTaskEvents(t.index, outcomes(rest[0])), AllEvents(t.index + 1, rest[1..], outcomes));
  }

  /** A loop that no control call reaches hands out every remaining file,
      in order, and drains. */
  lemma {:induction false} LoopUninterrupted(t: Task, k: nat, outcomes: string -> Outcome, interrupts: map<nat, Interruption>)
    requires t.status == STARTED && t.cur.Some?
    requires forall i :: k <= i ==> i !in interrupts
    ensures Loop(t, k, outcomes, interrupts)
      == LoopEnd(t.(cur := Some([]), index := t.index + |t.cur.value|,
                    events := t.events + AllEvents(t.index, t.cur.value, outcomes)), Drained)
    decreases |t.cur.value|
  {
    var rest := t.cur.value;
    assert k !in interrupts;
    if |rest| == 0 {
      assert t.events + [] == t.events;
    } else {
      var t2 := Handed(t, outcomes);
      LoopStep(t, k, outcomes, interrupts);
      LoopUninterrupted(t2, k + 1, outcomes, interrupts);
      HandedEvents(t, outcomes);
    }
  }

  /** A `stop` landing before the `j`-th remaining file pauses the loop
      with that file and the ones after it still pending and the files
      before it converted. */
  lemma {:induction false} LoopStopped(t: Task, k: nat, j: nat, outcomes: string -> Outcome, interrupts: map<nat, Interruption>)
    requires t.status == STARTED && t.cur.Some? && j < |t.cur.value|
    requires k + j in interrupts && interrupts[k + j] == StopCall
    requires forall i :: k <= i < k + j ==> i !in interrupts
    ensures Loop(t, k, outcomes, interrupts)
      == LoopEnd(Task(STOPED, Some(t.cur.value[j..]), t.index + j,
                      t.events + AllEvents(t.index, t.cur.value[..j], outcomes)), Paused)
    decreases j
  {
    var rest := t.cur.value;
    if j == 0 {
      assert rest[..0] == [] && rest[0..] == rest;
    } else {
      var t2 := Handed(t, outcomes);
      assert k !in interrupts;
      LoopStep(t, k, outcomes, interrupts);
      LoopStopped(t2, k + 1, j - 1, outcomes, interrupts);
      assert rest[1..][j - 1..] == rest[j..];
      StepEvents(t, j, outcomes);
    }
  }

  /** Handing out the first file and then `j - 1` more adds the events of
      the first `j` files. */
  lemma {:induction false} StepEvents(t: Task, j: nat, outcomes: string -> Outcome)
    requires t.cur.Some? && 0 < j <= |t.cur.value|
    ensures var t2 := Handed(t, outcomes);
      t2.events + AllEvents(t2.index, t2.cur.value[..j - 1], outcomes)
        == t.events + AllEvents(t.index, t.cur.value[..j], outcomes)
  {
    var rest := t.cur.value;
    var e := SubTaskEvents(t.index, outcomes(rest[0]));
    var tail := AllEvents(t.index + 1, rest[1..][..j - 1], outcomes);
    AllEventsPrefix(t.index, rest, j, outcomes);
    Sequences.ConcatAssociative(t.events, e, tail);
  }

  /** A `reset` landing at any step of a running loop, even after the last
      file, leaves it without an iterator: `cur.hasNext()` throws, and the
      task is cancelled at row 0 with a cleared table. */
  lemma {:induction false} LoopReset(t: Task, k: nat, j: nat, outcomes: string -> Outcome, interrupts: map<nat, Interruption>)
    requires t.status == STARTED && t.cur.Some? && j <= |t.cur.value|
    requires k + j in interrupts && interrupts[k + j] == ResetCall
    requires forall i :: k <= i < k + j ==> i !in interrupts
    ensures Loop(t, k, outcomes, interrupts) == LoopEnd(Task(CANCEL, None, 0, []), Crashed)
    decreases j
  {
    if j > 0 {
      var t2 := Handed(t, outcomes);
      assert k !in interrupts;
      LoopStep(t, k, outcomes, interrupts);
      LoopReset(t2, k + 1, j - 1, outcomes, interrupts);
    }
  }

  /** A `stop` landing after the last file has been handed out: the
      iterator is empty, so the loop drains, but the status is `STOPED`. */
  lemma {:induction false} LoopStoppedAtEnd(t: Task, k: nat, outcomes: string -> Outcome, interrupts: map<nat, Interruption>)
    requires t.status == STARTED && t.cur.Some?
    requires k + |t.cur.value| in interrupts && interrupts[k + |t.cur.value|] == StopCall
    requires forall i :: k <= i < k + |t.cur.value| ==> i !in interrupts
    ensures Loop(t, k, outcomes, interrupts)
      == LoopEnd(Task(STOPED, Some([]), t.index + |t.cur.value|,
                      t.events + AllEvents(t.index, t.cur.value, outcomes)), Drained)
    decreases |t.cur.value|
  {
    var rest := t.cur.value;
    if |rest| > 0 {
      var t2 := Handed(t, outcomes);
      assert k !in interrupts;
      LoopStep(t, k, outcomes, interrupts);
      LoopStoppedAtEnd(t2, k + 1, outcomes, interrupts);
      HandedEvents(t, outcomes);
    }
  }

  /** An uninterrupted run from a task with no pending iterator converts
      every row from row 0, calls `onComplete` and finishes; one that
      resumes a pending iterator converts just the pending files, numbered
      on from where it stopped. */
  lemma {:induction false} UninterruptedRun(t: Task, rows: seq<string>, outcomes: string -> Outcome)
    requires t.status == STARTED
    ensures t.cur.None? ==>
      Run(t, rows, outcomes, map[]) == RunEnd(Task(FINISHED, None, |rows|, AllEvents(0, rows, outcomes)), Drained, true)
    ensures t.cur.Some? ==>
      Run(t, rows, outcomes, map[])
        == RunEnd(Task(FINISHED, None, t.index + |t.cur.value|, t.events + AllEvents(t.index, t.cur.value, outcomes)),
                  Drained, true)
  {
    LoopUninterrupted(Opened(t, rows), 0, outcomes, map[]);
  }

  /** A `stop` landing before the `j`-th file of a fresh run pauses it
      with rows `j..` pending and the rows before them converted. */
  lemma {:induction false} StoppedRun(t: Task, rows: seq<string>, j: nat, outcomes: string -> Outcome)
    requires t.status == STARTED && t.cur.None? && j < |rows|
    ensures Run(t, rows, outcomes, map[j := StopCall])
      == RunEnd(Task(STOPED, Some(rows[j..]), j, AllEvents(0, rows[..j], outcomes)), Paused, false)
  {
    var o := Opened(t, rows);
    assert o == Task(STARTED, Some(rows), 0, []);
    var m := map[j := StopCall];
    var before := AllEvents(0, rows[..j], outcomes);
    LoopStopped(o, 0, j, outcomes, m);
    assert [] + before == before;
    assert Loop(o, 0, outcomes, m) == LoopEnd(Task(STOPED, Some(rows[j..]), j, before), Paused);
  }

  /** Resuming a run paused before row `j` converts the pending rows and
      ends as one run over all the rows. */
  lemma {:induction false} ResumedRun(rows: seq<string>, j: nat, outcomes: string -> Outcome)
    requires j <= |rows|
    ensures Run(Task(STARTED, Some(rows[j..]), j, AllEvents(0, rows[..j], outcomes)), rows, outcomes, map[])
      == RunEnd(Task(FINISHED, None, |rows|, AllEvents(0, rows, outcomes)), Drained, true)
  {
    var front := rows[..j];
    var back := rows[j..];
    var before := AllEvents(0, front, outcomes);
    var after := AllEvents(j, back, outcomes);
    AllEventsSplit(0, rows, j, outcomes);
    assert AllEvents(0, rows, outcomes) == before + after;
    var paused := Task(STARTED, Some(back), j, before);
    UninterruptedRun(paused, rows, outcomes);
    assert Run(paused, rows, outcomes, map[]) == RunEnd(Task(FINISHED, None, j + |back|, before + after), Drained, true);
  }

  /** Stopping a run before its `j`-th file and starting it again converts
      every row once, in order, exactly as a run that was never stopped. */
  lemma {:induction false} StopThenResume(t: Task, rows: seq<string>, j: nat, outcomes: string -> Outcome)
    requires t.status == STARTED && t.cur.None? && j < |rows|
    ensures var first := Run(t, rows, outcomes, map[j := StopCall]);
      && first.exit == Paused && !first.onComplete
      && first.task == Task(STOPED, Some(rows[j..]), j, AllEvents(0, rows[..j], outcomes))
      && Run(first.task.(status := STARTED), rows, outcomes, map[]) == Run(t, rows, outcomes, map[])
  {
    StoppedRun(t, rows, j, outcomes);
    ResumedRun(rows, j, outcomes);
    UninterruptedRun(t, rows, outcomes);
  }

  /** A `reset` during a run leaves the current task cancelled with no iterator,
      at row 0 and with a cleared table, and `start` throws. */
  lemma {:induction false} ResetDuringRun(t: Task, rows: seq<string>, j: nat, outcomes: string -> Outcome)
    requires t.status == STARTED && j <= Remaining(Opened(t, rows))
    ensures Run(t, rows, outcomes, map[j := ResetCall]) == RunEnd(Task(CANCEL, None, 0, []), Crashed, false)
  {
    LoopReset(Opened(t, rows), 0, j, outcomes, map[j := ResetCall]);
  }

  /** A `stop` that lands after the last file has been handed out: no
      `onComplete`, the status stays `STOPED` and the iterator is dropped,
      so the next `start` opens a new iterator and converts every row
      again from row 0. */
  lemma {:induction false} StopAfterLastFile(t: Task, rows: seq<string>, outcomes: string -> Outcome)
    requires t.status == STARTED && t.cur.None?
    ensures var first := Run(t, rows, outcomes, map[|rows| := StopCall]);
      && first.exit == Drained && !first.onComplete
      && first.task == Task(STOPED, None, |rows|, AllEvents(0, rows, outcomes))
      && Opened(first.task.(status := STARTED), rows) == Task(STARTED, Some(rows), 0, [])
  {
    var o := Opened(t, rows);
    assert o == Task(STARTED, Some(rows), 0, []);
    var m := map[|rows| := StopCall];
    LoopStoppedAtEnd(o, 0, outcomes, m);
    var events := AllEvents(0, rows, outcomes);
    assert [] + events == events;
    assert Loop(o, 0, outcomes, m) == LoopEnd(Task(STOPED, Some([]), |rows|, events), Drained);
  }

  /** The file type of a file name: the text after its last `'.'`, the
      whole name when it has none. */
  function FileType(name: string): (r: string)
    ensures '.' !in r
    ensures '.' !in name ==> r == name
    ensures '.' in name ==> |r| < |name| && name == name[..|name| - |r| - 1] + "." + r
  {
    var dot := JavaStrings.LastIndexOf(name, ".");
    assert forall j :: dot < j < |name| ==> name[j] != '.' by {
      forall j | dot < j < |name|
        ensures name[j] != '.'
      {
        assert !JavaStrings.OccursAt(name, ".", j);
        assert name[j..j + 1] == [name[j]];
      }
    }
    if dot == -1 then
      name
    else
      assert name[dot..dot + 1] == ".";
      assert name[dot] == '.';
      name[dot + 1..]
  }

  /** `createResourceDefinition`: an Excel format at `file:` plus the
      file's absolute path, with the file's type as suffix. */
  function FormatFor(absolutePath: string, fileName: string): (r: ResourceDefinition.FormatDefinition)
    ensures r.location == "file:" + absolutePath && r.formatType == "excel"
    ensures '.' !in r.suffix && JavaStrings.EndsWith(fileName, r.suffix)
  {
    ResourceDefinition.FormatDefinition("file:" + absolutePath, "excel", FileType(fileName))
  }

  /** The definition built from that format and no explicit file: the
      class's data is read from the converted file, as Excel. */
  function DefinitionFor(clz: Declarations.ResourceClass, absolutePath: string, fileName: string): (r: ResourceDefinition.Definition)
    ensures r.clz == clz && r.location == "file:" + absolutePath && r.format == "excel"
  {
    ResourceDefinition.New(clz, FormatFor(absolutePath, fileName), None)
  }

  /** The progress table shared by the task manager and its tasks: the
      files of its rows in display order, and the events since its progress
      was last cleared. */
  class ProgressTable {
    var rows: seq<string>
    var events: seq<TableEvent>

    constructor(rows: seq<string>)
      ensures this.rows == rows && events == []
    {
      this.rows := rows;
      events := [];
    }

    method ClearProgress()
      modifies this
      ensures events == [] && rows == old(rows)
    {
      events := [];
    }

    method Record(e: TableEvent)
      modifies this
      ensures events == old(events) + [e] && rows == old(rows)
    {
      events := events + [e];
    }
  }

  class ConvertTask {
    var path: string
    const table: ProgressTable
    var cur: Option<seq<string>>
    var curTaskIndex: int
    var status: TaskStatus

    constructor(path: string, table: ProgressTable)
      ensures this.path == path && this.table == table
      ensures status == INIT && cur.None? && curTaskIndex == 0
    {
      this.path := path;
      this.table := table;
      cur := None;
      curTaskIndex := 0;
      status := INIT;
    }

    function State(): Task
      reads this, table
    {
      Task(status, cur, curTaskIndex, table.events)
    }

    /** `isStop`. */
    predicate IsStop()
      reads this
    {
      status == STOPED || status == CANCEL
    }

    /** `stop`: only the status changes. */
    method Stop()
      modifies this
      ensures State() == Interrupted(old(State()), StopCall)
      ensures IsStop() && path == old(path) && table.rows == old(table.rows)
    {
      status := STOPED;
    }

    /** `reset`: cancelled, row 0, no iterator and a cleared table. */
    method Reset()
      modifies this, table
      ensures State() == Interrupted(old(State()), ResetCall)
      ensures IsStop() && path == old(path) && table.rows == old(table.rows)
    {
      status := CANCEL;
      curTaskIndex := 0;
      cur := None;
      table.ClearProgress();
    }

    /** `changeInputPath`: a reset to the new path. */
    method ChangeInputPath(p: string)
      modifies this, table
      ensures State() == Task(CANCEL, None, 0, []) && path == p && table.rows == old(table.rows)
    {
      Reset();
      path := p;
      table.ClearProgress();
    }

    /** `updateProgress`: a report for the current row, only while the
      status is `STARTED` or `STOPED`. */
    method UpdateProgress(done: bool)
      modifies table
      ensures Reports(status) ==> table.events == old(table.events) + [Progress(curTaskIndex, done)]
      ensures !Reports(status) ==> table.events == old(table.events)
      ensures table.rows == old(table.rows)
    {
      if status == STARTED || status == STOPED {
        table.Record(Progress(curTaskIndex, done));
      }
    }

    /** `markAsFail`: the current row's sheet marked as failed, only while
        the status is `STARTED` or `STOPED`. */
    method MarkAsFail(sheet: string)
      modifies table
      ensures Reports(status) ==> table.events == old(table.events) + [Failed(curTaskIndex, sheet)]
      ensures !Reports(status) ==> table.events == old(table.events)
      ensures table.rows == old(table.rows)
    {
      if status == STARTED || status == STOPED {
        table.Record(Failed(curTaskIndex, sheet));
      }
    }

    /** `runSubTask` for one file whose conversion did `outcome`. A runtime
        exception out of it is swallowed by `start`, so it ends normally. */
    method RunSubTask(outcome: Outcome)
      requires status == STARTED
      modifies table
      ensures table.events == old(table.events) + SubTaskEvents(curTaskIndex, outcome)
      ensures table.rows == old(table.rows)
    {
      if outcome.Unreadable? {
        return;
      }
      UpdateProgress(false);
      if outcome.Unlisted? {
        return;
      }
      var before := table.events;
      RecordSheets(outcome.sheets);
      var all := SheetEvents(curTaskIndex, outcome.sheets);
      assert table.events == before + all;
      UpdateProgress(true);
      ghost var done := [Progress(curTaskIndex, true)];
      Sequences.ConcatAssociative(before, all, done);
      Sequences.ConcatAssociative(old(table.events), [Progress(curTaskIndex, false)], all + done);
      Sequences.ConcatAssociative([Progress(curTaskIndex, false)], all, done);
    }

    /** The sheet loop of `runSubTask`: each sheet, in order, is reported
        converted or marked as failed for the current row. */
    method RecordSheets(sheets: seq<SheetOutcome>)
      requires status == STARTED
      modifies table
      ensures table.events == old(table.events) + SheetEvents(curTaskIndex, sheets)
      ensures table.rows == old(table.rows)
    {
      var row := curTaskIndex;
      for i := 0 to |sheets|
        invariant table.events == old(table.events) + SheetEvents(row, sheets[..i])
        invariant table.rows == old(table.rows)
      {
        var e := SheetEvent(row, sheets[i]);
        if sheets[i].converted {
          UpdateProgress(false);
        } else {
          MarkAsFail(sheets[i].name);
        }
        assert sheets[..i + 1][..i] == sheets[..i];
        assert SheetEvents(row, sheets[..i + 1]) == SheetEvents(row, sheets[..i]) + [e];
        Sequences.ConcatAssociative(old(table.events), SheetEvents(row, sheets[..i]), [e]);
      }
      assert sheets[..|sheets|] == sheets;
    }

    /** Lines 78-85 of `start`: nothing when already `STARTED`; otherwise
        the status becomes `STARTED` and `onStart` is due. */
    method Begin() returns (onStart: bool)
      modifies this
      ensures onStart <==> old(status) != STARTED
      ensures status == STARTED && cur == old(cur) && curTaskIndex == old(curTaskIndex)
      ensures path == old(path)
    {
      if status == STARTED {
        return false;
      }
      status := STARTED;
      onStart := true;
    }

    /** Lines 87-124 of `start`, after `onStart`: the conversion run over
        the table's rows, each file's conversion doing what `outcomes`
        says, with the control calls of `interrupts` landing between its
        steps. A `reset` among them makes it throw. */
    method Continue(outcomes: string -> Outcome, interrupts: map<nat, Interruption>)
      returns (onComplete: bool, r: Result<(), Error>)
      requires status == STARTED
      modifies this, table
      ensures var end := Run(old(State()), old(table.rows), outcomes, interrupts);
        && State() == end.task && onComplete == end.onComplete
        && r == (if end.exit == Crashed then Err(NullPointer) else Ok(()))
      ensures table.rows == old(table.rows) && path == old(path)
    {
      if cur.None? {
        cur := Some(table.rows);
        curTaskIndex := 0;
        table.ClearProgress();
      }
      var exit := RunLoop(outcomes, interrupts);
      if exit == Crashed {
        return false, Err(NullPointer);
      }
      if exit == Paused {
        return false, Ok(());
      }
      onComplete := false;
      if status == STARTED {
        onComplete := true;
        status := FINISHED;
      }
      cur := None;
      r := Ok(());
    }

    /** The `while (cur.hasNext())` loop of `start`, with the control calls
        of `interrupts` landing at the top of their steps. */
    method RunLoop(outcomes: string -> Outcome, interrupts: map<nat, Interruption>) returns (exit: Exit)
      modifies this, table
      ensures var end := Loop(old(State()), 0, outcomes, interrupts);
        State() == end.task && exit == end.exit
      ensures table.rows == old(table.rows) && path == old(path)
    {
      ghost var end := Loop(State(), 0, outcomes, interrupts);
      var k: nat := 0;
      while true
        invariant Loop(State(), k, outcomes, interrupts) == end
        invariant table.rows == old(table.rows) && path == old(path)
        decreases Remaining(State())
      {
        if k in interrupts {
          if interrupts[k] == StopCall {
            Stop();
          } else {
            Reset();
          }
        }
        if cur.None? {
          return Crashed;
        }
        if |cur.value| == 0 {
          return Drained;
        }
        if status != STARTED {
          return Paused;
        }
        var file := cur.value[0];
        cur := Some(cur.value[1..]);
        RunSubTask(outcomes(file));
        curTaskIndex := curTaskIndex + 1;
        k := k + 1;
      }
    }

    /** `start`: `Begin`, then, when `onStart` is due, `Continue`. */
    method Start(outcomes: string -> Outcome, interrupts: map<nat, Interruption>)
      returns (onStart: bool, onComplete: bool, r: Result<(), Error>)
      modifies this, table
      ensures old(status) == STARTED ==>
        !onStart && !onComplete && r == Ok(()) && State() == old(State())
      ensures old(status) != STARTED ==>
        var end := Run(old(State()).(status := STARTED), old(table.rows), outcomes, interrupts);
        && onStart && State() == end.task && onComplete == end.onComplete
        && r == (if end.exit == Crashed then Err(NullPointer) else Ok(()))
      ensures table.rows == old(table.rows) && path == old(path)
    {
      onStart := Begin();
      if !onStart {
        return false, false, Ok(());
      }
      onComplete, r := Continue(outcomes, interrupts);
    }
  }
}
