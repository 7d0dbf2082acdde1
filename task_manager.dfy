/** `TaskManager`: owns the one current conversion task, the progress
    table its tasks share and the storage manager whose caches a run
    clears when it starts. */
module TaskManager {
  import opened Wrappers
  import opened Errors
  import ConvertTask
  import StorageManager

  /** A call the manager passes on to the caller's status callback. */
  datatype Notice = StartNotice | CompleteNotice

  class TaskManager {
    var curTask: ConvertTask.ConvertTask?
    const table: ConvertTask.ProgressTable
    const storageManager: StorageManager.StorageManager
    /** The calls made to the caller's callback, in order. */
    var notices: seq<Notice>

    constructor(table: ConvertTask.ProgressTable)
      ensures this.table == table && curTask == null && notices == []
      ensures fresh(storageManager) && storageManager.storages == map[] && storageManager.definitions == map[]
      ensures Valid()
    {
      this.table := table;
      curTask := null;
      notices := [];
      storageManager := new StorageManager.StorageManager();
    }

    /** The storage manager is consistent and the current task, if any,
        reports to the manager's table. */
    ghost predicate Valid()
      reads this, storageManager, storageManager.storages.Values, curTask
    {
      && storageManager.Valid()
      && (curTask != null ==> curTask.table == table)
    }

    /** `getStatus`. */
    function Status(): (r: ConvertTask.TaskStatus)
      reads this, curTask
      ensures curTask == null ==> r == ConvertTask.INIT
      ensures curTask != null ==> r == curTask.status
    {
      if curTask == null then ConvertTask.INIT else curTask.status
    }

    /** `isStarted`: a task exists and it is running, which is exactly
        when `getStatus` says `STARTED`. */
    function IsStarted(): (r: bool)
      reads this, curTask
      ensures r <==> Status() == ConvertTask.STARTED
      ensures r ==> curTask != null
    {
      curTask != null && curTask.status == ConvertTask.STARTED
    }

    /** `stop`: false without a task; otherwise the current task is stopped. */
    method Stop() returns (r: bool)
      requires Valid()
      modifies curTask
      ensures Valid()
      ensures r <==> curTask != null
      ensures curTask != null ==>
        curTask.State() == ConvertTask.Interrupted(old(curTask.State()), ConvertTask.StopCall)
    {
      if curTask == null {
        return false;
      }
      curTask.Stop();
      r := true;
    }

    /** `cancel`: false without a task; otherwise the current task is reset and
        dropped. */
    method Cancel() returns (r: bool)
      requires Valid()
      modifies this, curTask, table
      ensures Valid()
      ensures r <==> old(curTask) != null
      ensures curTask == null && notices == old(notices)
      ensures old(curTask) != null ==>
        old(curTask).State() == ConvertTask.Interrupted(old(curTask.State()), ConvertTask.ResetCall)
      ensures old(curTask) == null ==> table.events == old(table.events)
    {
      if curTask == null {
        return false;
      }
      curTask.Reset();
      curTask := null;
      r := true;
    }

    /** `changeInputPath`: nothing without a task; otherwise the current task is
        reset to the new path. */
    method ChangeInputPath(p: string)
      requires Valid()
      modifies curTask, table
      ensures Valid()
      ensures curTask == null ==> table.events == old(table.events)
      ensures curTask != null ==> curTask.State() == ConvertTask.Task(ConvertTask.CANCEL, None, 0, []) && curTask.path == p
    {
      if curTask != null {
        curTask.ChangeInputPath(p);
      }
    }

    /** The runnable of `start`: a new task over `inputPath` when there is
        none, then its `start` with the wrapped callback. The wrapped
        `onStart` clears the storage manager before passing the call on;
        the wrapped `onComplete` passes the call on and then drops the current task.
        The control calls of `interrupts` are this manager's `stop` and
        `cancel` landing between the run's steps; a `cancel` also drops the
        task, and the run then throws. A `changeInputPath` landing during
        the run is not among them. After a run every storage the manager
        holds was created during it, and no definition was dropped or
        replaced. */
    method Run(inputPath: string, outcomes: string -> ConvertTask.Outcome,
               interrupts: map<nat, ConvertTask.Interruption>)
      returns (ghost task: ConvertTask.ConvertTask, r: Result<(), Error>)
      requires Valid()
      modifies this, curTask, table, storageManager
      ensures Valid()
      ensures old(curTask) != null ==> task == old(curTask)
      ensures old(curTask) == null ==> fresh(task) && task.path == inputPath
      ensures var before := if old(curTask) != null then old(curTask.State())
                            else ConvertTask.Task(ConvertTask.INIT, None, 0, old(table.events));
        && (before.status == ConvertTask.STARTED ==>
              && r == Ok(()) && task.State() == before && curTask == task
              && notices == old(notices)
              && storageManager.storages == old(storageManager.storages)
              && storageManager.definitions == old(storageManager.definitions))
        && (before.status != ConvertTask.STARTED ==>
              var end := ConvertTask.Run(before.(status := ConvertTask.STARTED), old(table.rows), outcomes, interrupts);
              && task.State() == end.task
              && r == (if end.exit == ConvertTask.Crashed then Err(NullPointer) else Ok(()))
              && (forall n :: n in storageManager.storages ==> fresh(storageManager.storages[n]))
              && notices == old(notices) + [StartNotice] + (if end.onComplete then [CompleteNotice] else [])
              && curTask == (if end.onComplete || end.exit == ConvertTask.Crashed then null else task))
      ensures forall n :: n in old(storageManager.definitions) ==>
        n in storageManager.definitions && storageManager.definitions[n] == old(storageManager.definitions[n])
      ensures table.rows == old(table.rows)
    {
      if curTask == null {
        curTask := new ConvertTask.ConvertTask(inputPath, table);
      }
      task := curTask;
      var onStart := curTask.Begin();
      if !onStart {
        return task, Ok(());
      }
      storageManager.Clear();
      notices := notices + [StartNotice];
      var onComplete;
      onComplete, r := curTask.Continue(outcomes, interrupts);
      if onComplete {
        notices := notices + [CompleteNotice];
        curTask := null;
      } else if r.Err? {
        curTask := null;
      }
    }
  }
}
