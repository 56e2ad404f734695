/** The task manager's lifecycle tables and its mutex sections (internal/task/manager.go). */
module TaskManager {
  import opened Wrappers

  type TaskId = string
  type VaultId = string

  datatype Kind = Import | Index

  datatype StartError =
    | ManagerClosed
    | VaultQuiescing
    | EmptyTaskId
    | StartInProgress
    | AlreadyRunning
    | CountFailed
    | StoreFailed

  /** vaultID + ":" + taskType, the key of an exclusive slot. */
  function RunKey(v: VaultId, kind: Kind): string {
    v + ":" + match kind { case Import => "import" case Index => "index" }
  }

  /** Distinct (vault, type) pairs never share a slot key, whatever characters a vault id contains. */
  lemma RunKeyInjective(v: VaultId, kind: Kind, v': VaultId, kind': Kind)
    requires RunKey(v, kind) == RunKey(v', kind')
    ensures v == v' && kind == kind'
  {
    var k := RunKey(v, kind);
    var k' := RunKey(v', kind');
    assert k[|k| - 1] == if kind.Import? then 't' else 'x';
    assert k'[|k'| - 1] == if kind'.Import? then 't' else 'x';
    assert v == k[..|v|] && v' == k'[..|v'|];
  }

  /** The fields of Manager that its mutex guards. */
  datatype Tables = Tables(
    running: map<TaskId, VaultId>,
    byKey: map<string, TaskId>,
    runKeys: map<TaskId, string>,
    quiescing: set<VaultId>,
    pending: map<TaskId, VaultId>,
    resume: set<VaultId>,
    startWg: int,
    wg: int,
    closed: bool)

  const EMPTY_TABLES := Tables(map[], map[], map[], {}, map[], {}, 0, 0, false)

  /** The keys a table maps to the vault. */
  function Of(m: map<TaskId, VaultId>, v: VaultId): set<TaskId> {
    set id | id in m && m[id] == v
  }

  predicate Owns(m: map<TaskId, VaultId>, v: VaultId) {
    exists id :: id in m && m[id] == v
  }

  /** Some worker or some in-flight Start call belongs to the vault. */
  predicate HasOwner(t: Tables, v: VaultId) {
    Owns(t.running, v) || Owns(t.pending, v)
  }

  // ---- What each mutex-held section does to the tables ----

  function Began(t: Tables, id: TaskId, v: VaultId): (r: (Tables, Option<StartError>)) {
    if t.closed then (t, Some(ManagerClosed))
    else if v in t.quiescing then (t, Some(VaultQuiescing))
    else if id == "" then (t, Some(EmptyTaskId))
    else if id in t.pending then (t, Some(StartInProgress))
    else (t.(pending := t.pending[id := v], startWg := t.startWg + 1), None)
  }

  /** maybeResumeVaultLocked: the last owner's exit applies a deferred resume. */
  function MaybeResumed(t: Tables, v: VaultId): (t': Tables)
    ensures t' == t.(quiescing := t'.quiescing, resume := t'.resume)
    ensures t'.resume <= t.resume <= t'.resume + {v} && t'.quiescing <= t.quiescing <= t'.quiescing + {v}
    ensures !t.closed && !HasOwner(t, v) ==> v !in t'.resume
    ensures t'.quiescing != t.quiescing || t'.resume != t.resume ==> v in t.resume && !t.closed && !HasOwner(t, v)
  {
    if v in t.resume && !t.closed && !HasOwner(t, v)
    then t.(quiescing := t.quiescing - {v}, resume := t.resume - {v})
    else t
  }

  function StartFinished(t: Tables, id: TaskId): (t': Tables) {
    if id in t.pending
    then MaybeResumed(t.(pending := t.pending - {id}, startWg := t.startWg - 1), t.pending[id])
    else t
  }

  /** Ending a start right after it began leaves only the look at a deferred resume. */
  lemma StartEnds(t: Tables, id: TaskId, v: VaultId)
    requires id !in t.pending
    ensures StartFinished(t.(pending := t.pending[id := v], startWg := t.startWg + 1), id) == MaybeResumed(t, v)
  {
    assert t.pending[id := v] - {id} == t.pending;
  }

  function Reserved(t: Tables, id: TaskId, v: VaultId, kind: Kind): (r: (Tables, Option<StartError>)) {
    var key := RunKey(v, kind);
    if t.closed then (t, Some(ManagerClosed))
    else if v in t.quiescing then (t, Some(VaultQuiescing))
    else if key in t.byKey then (t, Some(AlreadyRunning))
    else (t.(byKey := t.byKey[key := id], runKeys := t.runKeys[id := key]), None)
  }

  function Released(t: Tables, id: TaskId): (t': Tables) {
    if id in t.runKeys
    then t.(byKey := t.byKey - {t.runKeys[id]}, runKeys := t.runKeys - {id})
    else t
  }

  /** A slot given back leaves the tables as they were before it was taken, unless the id held another one. */
  lemma ReleaseUndoesReserve(t: Tables, id: TaskId, v: VaultId, kind: Kind)
    requires Reserved(t, id, v, kind).1.None? && id !in t.runKeys
    ensures Released(Reserved(t, id, v, kind).0, id) == t
  {
    var t' := Reserved(t, id, v, kind).0;
    assert t'.byKey - {RunKey(v, kind)} == t.byKey && t'.runKeys - {id} == t.runKeys;
  }

  lemma ReleaseKeepsStarts(t: Tables, id: TaskId)
    ensures Released(t, id).pending == t.pending && Released(t, id).startWg == t.startWg
  {
  }

  /** stored is what the database answered to the insertion of the task row. */
  function Admitted(t: Tables, id: TaskId, v: VaultId, stored: bool): (r: (Tables, Option<StartError>)) {
    if t.closed then (t, Some(ManagerClosed))
    else if v in t.quiescing then (t, Some(VaultQuiescing))
    else if !stored then (t, Some(StoreFailed))
    else (t.(running := t.running[id := v], wg := t.wg + 1), None)
  }

  /** finishRun; a run of the vault named "" does not look for a deferred resume. */
  function RunFinished(t: Tables, id: TaskId): (t': Tables) {
    var v := if id in t.running then t.running[id] else "";
    var t1 := Released(t.(running := t.running - {id}), id);
    if v != "" then MaybeResumed(t1, v) else t1
  }

  function Quiesced(t: Tables, v: VaultId): (r: (Tables, Option<StartError>)) {
    if t.closed then (t, Some(ManagerClosed)) else (t.(quiescing := t.quiescing + {v}), None)
  }

  function Resumed(t: Tables, v: VaultId): (t': Tables) {
    if HasOwner(t, v) then t.(resume := t.resume + {v})
    else t.(quiescing := t.quiescing - {v}, resume := t.resume - {v})
  }

  function Forgotten(t: Tables, v: VaultId): (t': Tables) {
    if HasOwner(t, v) then t else t.(quiescing := t.quiescing - {v}, resume := t.resume - {v})
  }

  // ---- The manager ----

  class Manager {
    var running: map<TaskId, VaultId>
    var runningByVaultType: map<string, TaskId>
    var taskRunKeys: map<TaskId, string>
    var quiescingVaults: set<VaultId>
    var pendingStarts: map<TaskId, VaultId>
    var resumeVaults: set<VaultId>
    var startWg: int
    var wg: int
    var closed: bool

    ghost function View(): Tables
      reads this
    {
      Tables(running, runningByVaultType, taskRunKeys, quiescingVaults, pendingStarts, resumeVaults,
             startWg, wg, closed)
    }

    constructor ()
      ensures View() == EMPTY_TABLES
    {
      running, runningByVaultType, taskRunKeys := map[], map[], map[];
      quiescingVaults, pendingStarts, resumeVaults := {}, map[], {};
      startWg, wg, closed := 0, 0, false;
    }

    /** Ranges over a table for an entry of the vault. */
    method Collect(m: map<TaskId, VaultId>, vaultID: VaultId) returns (targets: set<TaskId>)
      ensures targets == Of(m, vaultID)
    {
      targets := {};
      var rest := m.Keys;
      while rest != {}
        invariant rest <= m.Keys
        invariant targets == set id | id in m.Keys - rest && m[id] == vaultID
        decreases |rest|
      {
        var id :| id in rest;
        if m[id] == vaultID {
          targets := targets + {id};
        }
        rest := rest - {id};
      }
    }

    method Owned(vaultID: VaultId) returns (owned: bool)
      ensures owned == HasOwner(View(), vaultID)
    {
      var runs := Collect(running, vaultID);
      if runs != {} {
        var id :| id in runs;
        return true;
      }
      assert forall id :: id in running && running[id] == vaultID ==> id in runs;
      var starts := Collect(pendingStarts, vaultID);
      if starts != {} {
        var id :| id in starts;
        return true;
      }
      assert forall id :: id in pendingStarts && pendingStarts[id] == vaultID ==> id in starts;
      return false;
    }

    method BeginTaskStart(taskID: TaskId, vaultID: VaultId) returns (err: Option<StartError>)
      modifies this
      ensures (View(), err) == Began(old(View()), taskID, vaultID)
    {
      if closed {
        return Some(ManagerClosed);
      }
      if vaultID in quiescingVaults {
        return Some(VaultQuiescing);
      }
      if taskID == "" {
        return Some(EmptyTaskId);
      }
      if taskID in pendingStarts {
        return Some(StartInProgress);
      }
      pendingStarts := pendingStarts[taskID := vaultID];
      startWg := startWg + 1;
      return None;
    }

    method MaybeResumeVaultLocked(vaultID: VaultId)
      modifies this
      ensures View() == MaybeResumed(old(View()), vaultID)
    {
      if vaultID !in resumeVaults || closed {
        return;
      }
      var owned := Owned(vaultID);
      if owned {
        return;
      }
      quiescingVaults := quiescingVaults - {vaultID};
      resumeVaults := resumeVaults - {vaultID};
    }

    method FinishTaskStart(taskID: TaskId)
      modifies this
      ensures View() == StartFinished(old(View()), taskID)
    {
      if taskID in pendingStarts {
        var vaultID := pendingStarts[taskID];
        pendingStarts := pendingStarts - {taskID};
        startWg := startWg - 1;
        MaybeResumeVaultLocked(vaultID);
      }
    }

    method ReserveExclusiveTask(taskID: TaskId, vaultID: VaultId, kind: Kind) returns (err: Option<StartError>)
      modifies this
      ensures (View(), err) == Reserved(old(View()), taskID, vaultID, kind)
    {
      var key := RunKey(vaultID, kind);
      if closed {
        return Some(ManagerClosed);
      }
      if vaultID in quiescingVaults {
        return Some(VaultQuiescing);
      }
      if key in runningByVaultType {
        return Some(AlreadyRunning);
      }
      runningByVaultType := runningByVaultType[key := taskID];
      taskRunKeys := taskRunKeys[taskID := key];
      return None;
    }

    method ReleaseExclusiveTask(taskID: TaskId)
      modifies this
      ensures View() == Released(old(View()), taskID)
    {
      if taskID in taskRunKeys {
        runningByVaultType := runningByVaultType - {taskRunKeys[taskID]};
        taskRunKeys := taskRunKeys - {taskID};
      }
    }

    /** The section of admitBackgroundTask under the mutex, given the database's answer. */
    method AdmitBackgroundTask(taskID: TaskId, vaultID: VaultId, stored: bool) returns (err: Option<StartError>)
      modifies this
      ensures (View(), err) == Admitted(old(View()), taskID, vaultID, stored)
    {
      if closed {
        return Some(ManagerClosed);
      }
      if vaultID in quiescingVaults {
        return Some(VaultQuiescing);
      }
      if !stored {
        return Some(StoreFailed);
      }
      running := running[taskID := vaultID];
      wg := wg + 1;
      return None;
    }

    method FinishRun(taskID: TaskId)
      modifies this
      ensures View() == RunFinished(old(View()), taskID)
    {
      var vaultID := "";
      if taskID in running {
        vaultID := running[taskID];
      }
      running := running - {taskID};
      ReleaseExclusiveTask(taskID);
      if vaultID != "" {
        MaybeResumeVaultLocked(vaultID);
      }
    }

    /** The locked section of QuiesceVault; its targets are then cancelled and awaited. */
    method QuiesceVault(vaultID: VaultId)
      returns (err: Option<StartError>, targets: set<TaskId>, starts: set<TaskId>)
      modifies this
      ensures (View(), err) == Quiesced(old(View()), vaultID)
      ensures err == if old(closed) then Some(ManagerClosed) else None
      ensures err.None? ==> targets == Of(running, vaultID) && starts == Of(pendingStarts, vaultID)
    {
      if closed {
        return Some(ManagerClosed), {}, {};
      }
      quiescingVaults := quiescingVaults + {vaultID};
      targets := Collect(running, vaultID);
      starts := Collect(pendingStarts, vaultID);
      err := None;
    }

    method ResumeVault(vaultID: VaultId)
      modifies this
      ensures View() == Resumed(old(View()), vaultID)
    {
      var owned := Owned(vaultID);
      if owned {
        resumeVaults := resumeVaults + {vaultID};
        return;
      }
      quiescingVaults := quiescingVaults - {vaultID};
      resumeVaults := resumeVaults - {vaultID};
    }

    method ForgetVault(vaultID: VaultId)
      modifies this
      ensures View() == Forgotten(old(View()), vaultID)
    {
      var owned := Owned(vaultID);
      if owned {
        return;
      }
      quiescingVaults := quiescingVaults - {vaultID};
      resumeVaults := resumeVaults - {vaultID};
    }

    /** The locked section of Shutdown; the cancelled runs are the caller's to await. */
    method Shutdown()
      modifies this
      ensures View() == old(View()).(closed := true)
    {
      if !closed {
        closed := true;
      }
    }

    /** The deferred wg.Done of a worker goroutine. */
    method WorkerExited()
      modifies this
      ensures View() == old(View()).(wg := old(wg) - 1)
    {
      wg := wg - 1;
    }

    /**
     * A whole Start call with nothing else in between: counted says that the source could be counted, stored
     * that the task row could be written. A call that fails gives back the start it took, and the slot too
     * unless its id held another one before.
     */
    method StartTask(taskID: TaskId, vaultID: VaultId, kind: Kind, counted: bool, stored: bool)
      returns (err: Option<StartError>)
      modifies this
      ensures err.None? ==> View() == MaybeResumed(
                old(View()).(byKey := old(View()).byKey[RunKey(vaultID, kind) := taskID],
                             runKeys := old(View()).runKeys[taskID := RunKey(vaultID, kind)],
                             running := old(View()).running[taskID := vaultID], wg := old(wg) + 1), vaultID)
      ensures err.Some? && taskID !in old(taskRunKeys) ==>
                View() == old(View()) || View() == MaybeResumed(old(View()), vaultID)
      ensures err == if old(closed) then Some(ManagerClosed)
                     else if vaultID in old(quiescingVaults) then Some(VaultQuiescing)
                     else if taskID == "" then Some(EmptyTaskId)
                     else if taskID in old(pendingStarts) then Some(StartInProgress)
                     else if RunKey(vaultID, kind) in old(runningByVaultType) then Some(AlreadyRunning)
                     else if !counted then Some(CountFailed)
                     else if !stored then Some(StoreFailed)
                     else None
    {
      hide MaybeResumed, RunKey, StartFinished;
      ghost var before := View();
      err := BeginTaskStart(taskID, vaultID);
      if err.Some? {
        return;
      }
      err := ReserveAndAdmit(taskID, vaultID, kind, counted, stored);
      ghost var done := View().(pending := before.pending, startWg := before.startWg);
      StartEnds(done, taskID, vaultID);
      FinishTaskStart(taskID);
    }

    method ReserveAndAdmit(taskID: TaskId, vaultID: VaultId, kind: Kind, counted: bool, stored: bool)
      returns (err: Option<StartError>)
      modifies this
      ensures err.None? ==> View() == old(View()).(byKey := old(View()).byKey[RunKey(vaultID, kind) := taskID],
                                                   runKeys := old(View()).runKeys[taskID := RunKey(vaultID, kind)],
                                                   running := old(View()).running[taskID := vaultID], wg := old(wg) + 1)
      ensures pendingStarts == old(pendingStarts) && startWg == old(startWg)
      ensures err.Some? && taskID !in old(taskRunKeys) ==> View() == old(View())
      ensures !old(closed) && vaultID !in old(quiescingVaults) ==>
                err == if RunKey(vaultID, kind) in old(runningByVaultType) then Some(AlreadyRunning)
                       else if !counted then Some(CountFailed)
                       else if !stored then Some(StoreFailed)
                       else None
    {
      hide RunKey, Released;
      ghost var before := View();
      err := ReserveExclusiveTask(taskID, vaultID, kind);
      if err.Some? {
        return;
      }
      if counted {
        err := AdmitBackgroundTask(taskID, vaultID, stored);
      } else {
        err := Some(CountFailed);
      }
      if err.Some? {
        ReleaseKeepsStarts(View(), taskID);
        if taskID !in before.runKeys {
          ReleaseUndoesReserve(before, taskID, vaultID, kind);
        }
        ReleaseExclusiveTask(taskID);
      }
    }
  }
}
