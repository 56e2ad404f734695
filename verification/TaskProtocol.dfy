/**
 * All interleavings of Start calls, workers and lifecycle operations of the task manager. Every step is
 * one mutex-held section; contexts, files and the database only decide which enabled step comes next.
 */
module TaskProtocol {
  import opened TaskManager

  /** Where a Start call is: Holding has reserved its slot, Failing was refused admission, Handed is admitted. */
  datatype StarterPc = Begun | Holding | Failing | Handed | Dropped
  datatype Starter = Starter(vault: VaultId, kind: Kind, pc: StarterPc)

  /** Where a worker goroutine is: Registered in running, Finished, its done channel closed, wg.Done called. */
  datatype WorkerPc = Registered | Finished | DoneClosed | Exited
  datatype Worker = Worker(vault: VaultId, kind: Kind, pc: WorkerPc)

  /** used holds every task id ever given to a Start call. */
  datatype State = State(t: Tables, starters: map<TaskId, Starter>, workers: map<TaskId, Worker>, used: set<TaskId>)

  datatype Event =
    | Begin(id: TaskId, vault: VaultId, kind: Kind)
    | Reserve(id: TaskId)
    | Admit(id: TaskId, stored: bool)
    | Release(id: TaskId)
    | FinishStart(id: TaskId)
    | FinishRun(id: TaskId)
    | CloseDone(id: TaskId)
    | ExitWorker(id: TaskId)
    | Quiesce(vault: VaultId)
    | Resume(vault: VaultId)
    | Forget(vault: VaultId)
    | Shutdown

  const INIT := State(EMPTY_TABLES, map[], map[], {})

  predicate StarterAt(s: State, id: TaskId, pc: StarterPc) {
    id in s.starters && s.starters[id].pc == pc
  }

  /** The deferred release is still armed: the slot is reserved and not handed over. */
  predicate HoldsSlot(s: State, id: TaskId) {
    Holds(s.starters, id)
  }

  predicate WorkerAt(s: State, id: TaskId, pc: WorkerPc) {
    id in s.workers && s.workers[id].pc == pc
  }

  /** Task ids are fresh; each thread runs its sections in program order. */
  predicate Enabled(s: State, e: Event) {
    match e
    case Begin(id, _, _) => id !in s.used
    case Reserve(id) => StarterAt(s, id, Begun)
    case Admit(id, _) => StarterAt(s, id, Holding)
    case Release(id) => HoldsSlot(s, id)
    case FinishStart(id) => id in s.starters && !HoldsSlot(s, id)
    case FinishRun(id) => WorkerAt(s, id, Registered)
    case CloseDone(id) => WorkerAt(s, id, Finished)
    case ExitWorker(id) => WorkerAt(s, id, DoneClosed)
    case _ => true
  }

  function SetStarter(s: State, id: TaskId, pc: StarterPc): State
    requires id in s.starters
  {
    s.(starters := s.starters[id := s.starters[id].(pc := pc)])
  }

  function SetWorker(s: State, id: TaskId, pc: WorkerPc): State
    requires id in s.workers
  {
    s.(workers := s.workers[id := s.workers[id].(pc := pc)])
  }

  function DoBegin(s: State, id: TaskId, v: VaultId, kind: Kind): (s': State) {
    var (t, err) := Began(s.t, id, v);
    if err.Some? then s.(used := s.used + {id})
    else State(t, s.starters[id := Starter(v, kind, Begun)], s.workers, s.used + {id})
  }

  function DoReserve(s: State, id: TaskId): (s': State)
    requires id in s.starters
  {
    var (t, err) := Reserved(s.t, id, s.starters[id].vault, s.starters[id].kind);
    SetStarter(s.(t := t), id, if err.Some? then Dropped else Holding)
  }

  function DoAdmit(s: State, id: TaskId, stored: bool): (s': State)
    requires id in s.starters
  {
    var st := s.starters[id];
    var (t, err) := Admitted(s.t, id, st.vault, stored);
    if err.Some? then SetStarter(s.(t := t), id, Failing)
    else SetStarter(s.(t := t, workers := s.workers[id := Worker(st.vault, st.kind, Registered)]), id, Handed)
  }

  function DoRelease(s: State, id: TaskId): (s': State)
    requires id in s.starters
  {
    SetStarter(s.(t := Released(s.t, id)), id, Dropped)
  }

  function DoFinishStart(s: State, id: TaskId): (s': State) {
    s.(t := StartFinished(s.t, id), starters := s.starters - {id})
  }

  function DoFinishRun(s: State, id: TaskId): (s': State)
    requires id in s.workers
  {
    SetWorker(s.(t := RunFinished(s.t, id)), id, Finished)
  }

  function DoExitWorker(s: State, id: TaskId): (s': State)
    requires id in s.workers
  {
    SetWorker(s.(t := s.t.(wg := s.t.wg - 1)), id, Exited)
  }

  /** The locked sections that only touch the vault sets and the closed flag. */
  function Lifecycle(t: Tables, e: Event): (t': Tables)
    requires e.Quiesce? || e.Resume? || e.Forget? || e.Shutdown?
    ensures t' == t.(quiescing := t'.quiescing, resume := t'.resume, closed := t'.closed)
  {
    match e
    case Quiesce(v) => Quiesced(t, v).0
    case Resume(v) => Resumed(t, v)
    case Forget(v) => Forgotten(t, v)
    case Shutdown => t.(closed := true)
  }

  function Step(s: State, e: Event): (s': State)
    requires Enabled(s, e)
  {
    match e
    case Begin(id, v, kind) => DoBegin(s, id, v, kind)
    case Reserve(id) => DoReserve(s, id)
    case Admit(id, stored) => DoAdmit(s, id, stored)
    case Release(id) => DoRelease(s, id)
    case FinishStart(id) => DoFinishStart(s, id)
    case FinishRun(id) => DoFinishRun(s, id)
    case CloseDone(id) => SetWorker(s, id, DoneClosed)
    case ExitWorker(id) => DoExitWorker(s, id)
    case Quiesce(_) => s.(t := Lifecycle(s.t, e))
    case Resume(_) => s.(t := Lifecycle(s.t, e))
    case Forget(_) => s.(t := Lifecycle(s.t, e))
    case Shutdown => s.(t := Lifecycle(s.t, e))
  }

  // ---- The invariant ----

  type Starters = map<TaskId, Starter>
  type Workers = map<TaskId, Worker>

  /** The workers whose wg.Done is outstanding. */
  function Live(workers: Workers): set<TaskId> {
    set id | id in workers && workers[id].pc != Exited
  }

  predicate Holds(starters: Starters, id: TaskId) {
    id in starters && (starters[id].pc == Holding || starters[id].pc == Failing)
  }

  predicate Runs(workers: Workers, id: TaskId) {
    id in workers && workers[id].pc == Registered
  }

  ghost predicate PendingAgree(pending: map<TaskId, VaultId>, starters: Starters) {
    pending.Keys == starters.Keys && forall id :: id in starters ==> pending[id] == starters[id].vault
  }

  ghost predicate RunningAgree(running: map<TaskId, VaultId>, workers: Workers) {
    && (forall id :: id in running <==> Runs(workers, id))
    && (forall id :: id in running ==> running[id] == workers[id].vault)
  }

  /** A Start call has been handed over exactly when its worker exists, and they agree on vault and type. */
  ghost predicate HandedAgree(starters: Starters, workers: Workers, used: set<TaskId>) {
    && (forall id :: id in starters ==> (starters[id].pc == Handed <==> id in workers))
    && (forall id :: id in starters && id in workers ==>
          workers[id].vault == starters[id].vault && workers[id].kind == starters[id].kind)
    && starters.Keys + workers.Keys <= used
  }

  ghost predicate CountsAgree(startWg: int, wg: int, pending: map<TaskId, VaultId>, workers: Workers) {
    startWg == |pending| && wg == |Live(workers)|
  }

  /** Mutually inverse maps. */
  ghost predicate Inverse(byKey: map<string, TaskId>, runKeys: map<TaskId, string>) {
    && (forall id :: id in runKeys ==> runKeys[id] in byKey && byKey[runKeys[id]] == id)
    && (forall k :: k in byKey ==> byKey[k] in runKeys && runKeys[byKey[k]] == k)
  }

  /** A task holds its slot exactly while it is a registered worker or an unfinished, reserved start. */
  ghost predicate SlotsAgree(runKeys: map<TaskId, string>, starters: Starters, workers: Workers) {
    && (forall id :: id in runKeys <==> Runs(workers, id) || Holds(starters, id))
    && (forall id :: Runs(workers, id) ==> runKeys[id] == RunKey(workers[id].vault, workers[id].kind))
    && (forall id :: Holds(starters, id) ==> runKeys[id] == RunKey(starters[id].vault, starters[id].kind))
  }

  /** While the manager is open, a deferred resume of a named vault still has an owner to apply it. */
  ghost predicate ResumesOwned(
    running: map<TaskId, VaultId>, pending: map<TaskId, VaultId>, resume: set<VaultId>, closed: bool)
  {
    !closed ==> forall v :: v in resume && v != "" ==> Owns(running, v) || Owns(pending, v)
  }

  ghost predicate Inv(s: State) {
    && PendingAgree(s.t.pending, s.starters)
    && RunningAgree(s.t.running, s.workers)
    && HandedAgree(s.starters, s.workers, s.used)
    && CountsAgree(s.t.startWg, s.t.wg, s.t.pending, s.workers)
    && Inverse(s.t.byKey, s.t.runKeys)
    && SlotsAgree(s.t.runKeys, s.starters, s.workers)
    && ResumesOwned(s.t.running, s.t.pending, s.t.resume, s.t.closed)
  }

  // ---- What each kind of update keeps, one predicate at a time ----

  lemma PendingAdd(pending: map<TaskId, VaultId>, ss: Starters, id: TaskId, st: Starter)
    requires PendingAgree(pending, ss)
    ensures PendingAgree(pending[id := st.vault], ss[id := st])
  {
  }

  lemma PendingPc(pending: map<TaskId, VaultId>, ss: Starters, id: TaskId, pc: StarterPc)
    requires PendingAgree(pending, ss) && id in ss
    ensures PendingAgree(pending, ss[id := ss[id].(pc := pc)])
  {
  }

  lemma PendingRemove(pending: map<TaskId, VaultId>, ss: Starters, id: TaskId)
    requires PendingAgree(pending, ss)
    ensures PendingAgree(pending - {id}, ss - {id})
  {
  }

  lemma HandedPc(ss: Starters, ws: Workers, used: set<TaskId>, id: TaskId, pc: StarterPc)
    requires HandedAgree(ss, ws, used) && id in ss && id !in ws && pc != Handed
    ensures HandedAgree(ss[id := ss[id].(pc := pc)], ws, used)
  {
  }

  lemma HandedWorkerPc(ss: Starters, ws: Workers, used: set<TaskId>, id: TaskId, pc: WorkerPc)
    requires HandedAgree(ss, ws, used) && id in ws
    ensures HandedAgree(ss, ws[id := ws[id].(pc := pc)], used)
  {
  }

  lemma RunningPc(running: map<TaskId, VaultId>, ws: Workers, id: TaskId, pc: WorkerPc)
    requires RunningAgree(running, ws) && id in ws && !Runs(ws, id) && pc != Registered
    ensures RunningAgree(running, ws[id := ws[id].(pc := pc)])
  {
    var ws' := ws[id := ws[id].(pc := pc)];
    assert forall x :: Runs(ws', x) <==> Runs(ws, x);
  }

  lemma InverseAdd(byKey: map<string, TaskId>, runKeys: map<TaskId, string>, key: string, id: TaskId)
    requires Inverse(byKey, runKeys) && key !in byKey && id !in runKeys
    ensures Inverse(byKey[key := id], runKeys[id := key])
  {
  }

  lemma InverseRemove(byKey: map<string, TaskId>, runKeys: map<TaskId, string>, id: TaskId)
    requires Inverse(byKey, runKeys) && id in runKeys
    ensures Inverse(byKey - {runKeys[id]}, runKeys - {id})
  {
  }

  /** The id's claim to a slot changes from was to now; the other claims stay. */
  lemma SlotsChange(rk: map<TaskId, string>, ss: Starters, ws: Workers,
                    rk': map<TaskId, string>, ss': Starters, ws': Workers, id: TaskId)
    requires SlotsAgree(rk, ss, ws)
    requires forall x :: x != id ==> (x in rk <==> x in rk') && (x in rk ==> rk'[x] == rk[x])
    requires forall x :: x != id ==> (x in ss <==> x in ss') && (x in ss ==> ss'[x] == ss[x])
    requires forall x :: x != id ==> (x in ws <==> x in ws') && (x in ws ==> ws'[x] == ws[x])
    requires id in rk' <==> Runs(ws', id) || Holds(ss', id)
    requires Runs(ws', id) ==> rk'[id] == RunKey(ws'[id].vault, ws'[id].kind)
    requires Holds(ss', id) ==> rk'[id] == RunKey(ss'[id].vault, ss'[id].kind)
    ensures SlotsAgree(rk', ss', ws')
  {
    forall x | x != id ensures Runs(ws', x) == Runs(ws, x) && Holds(ss', x) == Holds(ss, x) {
    }
  }

  lemma ResumesMore(running: map<TaskId, VaultId>, pending: map<TaskId, VaultId>, resume: set<VaultId>, closed: bool,
                    running': map<TaskId, VaultId>, pending': map<TaskId, VaultId>)
    requires ResumesOwned(running, pending, resume, closed)
    requires forall id :: id in running ==> id in running' && running'[id] == running[id]
    requires forall id :: id in pending ==> id in pending' && pending'[id] == pending[id]
    ensures ResumesOwned(running', pending', resume, closed)
  {
    assert forall v :: Owns(running, v) ==> Owns(running', v);
    assert forall v :: Owns(pending, v) ==> Owns(pending', v);
  }

  /** Removing an entry of v and then honouring v's deferred resume keeps every deferred resume owned. */
  lemma ResumesRemove(t: Tables, t1: Tables, id: TaskId, v: VaultId)
    requires ResumesOwned(t.running, t.pending, t.resume, t.closed)
    requires t1.resume == t.resume && t1.closed == t.closed
    requires || (t1.running == t.running - {id} && t1.pending == t.pending && (id in t.running ==> t.running[id] == v))
             || (t1.running == t.running && t1.pending == t.pending - {id} && (id in t.pending ==> t.pending[id] == v))
    ensures var t' := MaybeResumed(t1, v); ResumesOwned(t'.running, t'.pending, t'.resume, t'.closed)
    ensures v == "" ==> ResumesOwned(t1.running, t1.pending, t1.resume, t1.closed)
  {
    forall w | w != v && (Owns(t.running, w) || Owns(t.pending, w)) ensures Owns(t1.running, w) || Owns(t1.pending, w) {
      var x :| (x in t.running && t.running[x] == w) || (x in t.pending && t.pending[x] == w);
      assert (x in t1.running && t1.running[x] == w) || (x in t1.pending && t1.pending[x] == w);
    }
  }

  // ---- Every step keeps the invariant ----

  /** What the invariant says about one task id. */
  lemma Facts(s: State, id: TaskId)
    requires Inv(s)
    ensures id in s.t.pending <==> id in s.starters
    ensures id in s.starters ==> s.t.pending[id] == s.starters[id].vault
    ensures id in s.t.running <==> Runs(s.workers, id)
    ensures id in s.t.running ==> s.t.running[id] == s.workers[id].vault
    ensures id in s.starters ==> (s.starters[id].pc == Handed <==> id in s.workers)
    ensures id in s.starters || id in s.workers ==> id in s.used
    ensures id in s.t.runKeys <==> Runs(s.workers, id) || Holds(s.starters, id)
    ensures Runs(s.workers, id) ==> s.t.runKeys[id] == RunKey(s.workers[id].vault, s.workers[id].kind)
    ensures Holds(s.starters, id) ==> s.t.runKeys[id] == RunKey(s.starters[id].vault, s.starters[id].kind)
    ensures id in s.t.runKeys ==> s.t.runKeys[id] in s.t.byKey && s.t.byKey[s.t.runKeys[id]] == id
  {
    hide CountsAgree, ResumesOwned;
  }

  lemma HandedAdd(ss: Starters, ws: Workers, used: set<TaskId>, id: TaskId, st: Starter)
    requires HandedAgree(ss, ws, used) && id !in used && st.pc != Handed
    ensures HandedAgree(ss[id := st], ws, used + {id}) && HandedAgree(ss, ws, used + {id})
  {
  }

  lemma HandedRemove(ss: Starters, ws: Workers, used: set<TaskId>, id: TaskId)
    requires HandedAgree(ss, ws, used)
    ensures HandedAgree(ss - {id}, ws, used)
  {
  }

  lemma HandedAdmit(ss: Starters, ws: Workers, used: set<TaskId>, id: TaskId)
    requires HandedAgree(ss, ws, used) && id in ss
    ensures HandedAgree(ss[id := ss[id].(pc := Handed)], ws[id := Worker(ss[id].vault, ss[id].kind, Registered)], used)
  {
  }

  lemma RunningAdd(running: map<TaskId, VaultId>, ws: Workers, id: TaskId, w: Worker)
    requires RunningAgree(running, ws) && w.pc == Registered
    ensures RunningAgree(running[id := w.vault], ws[id := w])
  {
    var ws' := ws[id := w];
    assert forall x :: x != id ==> (Runs(ws', x) <==> Runs(ws, x));
  }

  lemma RunningRemove(running: map<TaskId, VaultId>, ws: Workers, id: TaskId, pc: WorkerPc)
    requires RunningAgree(running, ws) && id in ws && pc != Registered
    ensures RunningAgree(running - {id}, ws[id := ws[id].(pc := pc)])
  {
    var ws' := ws[id := ws[id].(pc := pc)];
    assert forall x :: x != id ==> (Runs(ws', x) <==> Runs(ws, x));
  }

  lemma CountsAddStart(t: Tables, ws: Workers, id: TaskId, v: VaultId)
    requires CountsAgree(t.startWg, t.wg, t.pending, ws) && id !in t.pending
    ensures CountsAgree(t.startWg + 1, t.wg, t.pending[id := v], ws)
  {
  }

  lemma CountsRemoveStart(t: Tables, ws: Workers, id: TaskId)
    requires CountsAgree(t.startWg, t.wg, t.pending, ws) && id in t.pending
    ensures CountsAgree(t.startWg - 1, t.wg, t.pending - {id}, ws)
  {
    assert (t.pending - {id})[id := t.pending[id]] == t.pending;
  }

  lemma CountsAdmit(t: Tables, ws: Workers, id: TaskId, w: Worker)
    requires CountsAgree(t.startWg, t.wg, t.pending, ws) && id !in ws && w.pc != Exited
    ensures CountsAgree(t.startWg, t.wg + 1, t.pending, ws[id := w])
  {
    assert Live(ws[id := w]) == Live(ws) + {id};
  }

  lemma CountsPc(t: Tables, ws: Workers, id: TaskId, pc: WorkerPc)
    requires CountsAgree(t.startWg, t.wg, t.pending, ws) && id in ws && ws[id].pc != Exited
    ensures CountsAgree(t.startWg, t.wg - if pc == Exited then 1 else 0, t.pending, ws[id := ws[id].(pc := pc)])
  {
    var ws' := ws[id := ws[id].(pc := pc)];
    assert Live(ws') == if pc == Exited then Live(ws) - {id} else Live(ws);
  }

  /** A refused Begin only uses up its id, an admitted one adds a start. */
  lemma BeginShape(s: State, id: TaskId, v: VaultId, kind: Kind)
    ensures var s' := DoBegin(s, id, v, kind);
            || s' == s.(used := s.used + {id})
            || s' == State(s.t.(pending := s.t.pending[id := v], startWg := s.t.startWg + 1),
                           s.starters[id := Starter(v, kind, Begun)], s.workers, s.used + {id})
  {
  }

  lemma BeginKeeps(s: State, id: TaskId, v: VaultId, kind: Kind)
    requires Inv(s) && id !in s.used
    ensures Inv(DoBegin(s, id, v, kind))
  {
    hide PendingAgree, RunningAgree, HandedAgree, CountsAgree, Inverse, SlotsAgree, ResumesOwned, DoBegin;
    var s' := DoBegin(s, id, v, kind);
    var st := Starter(v, kind, Begun);
    BeginShape(s, id, v, kind);
    Facts(s, id);
    HandedAdd(s.starters, s.workers, s.used, id, st);
    if s' != s.(used := s.used + {id}) {
      PendingAdd(s.t.pending, s.starters, id, st);
      CountsAddStart(s.t, s.workers, id, v);
      SlotsChange(s.t.runKeys, s.starters, s.workers, s.t.runKeys, s'.starters, s.workers, id);
      ResumesMore(s.t.running, s.t.pending, s.t.resume, s.t.closed, s.t.running, s'.t.pending);
    }
  }

  lemma ReserveKeeps(s: State, id: TaskId)
    requires Inv(s) && StarterAt(s, id, Begun)
    ensures Inv(DoReserve(s, id))
  {
    hide PendingAgree, RunningAgree, HandedAgree, CountsAgree, Inverse, SlotsAgree, ResumesOwned;
    var s' := DoReserve(s, id);
    var pc := s'.starters[id].pc;
    Facts(s, id);
    PendingPc(s.t.pending, s.starters, id, pc);
    HandedPc(s.starters, s.workers, s.used, id, pc);
    if pc == Holding {
      InverseAdd(s.t.byKey, s.t.runKeys, RunKey(s.starters[id].vault, s.starters[id].kind), id);
    }
    SlotsChange(s.t.runKeys, s.starters, s.workers, s'.t.runKeys, s'.starters, s.workers, id);
  }

  lemma AdmitKeeps(s: State, id: TaskId, stored: bool)
    requires Inv(s) && StarterAt(s, id, Holding)
    ensures Inv(DoAdmit(s, id, stored))
  {
    hide PendingAgree, RunningAgree, HandedAgree, CountsAgree, Inverse, SlotsAgree, ResumesOwned;
    var s' := DoAdmit(s, id, stored);
    Facts(s, id);
    PendingPc(s.t.pending, s.starters, id, s'.starters[id].pc);
    SlotsChange(s.t.runKeys, s.starters, s.workers, s.t.runKeys, s'.starters, s'.workers, id);
    if s'.starters[id].pc == Failing {
      HandedPc(s.starters, s.workers, s.used, id, Failing);
    } else {
      var w := Worker(s.starters[id].vault, s.starters[id].kind, Registered);
      HandedAdmit(s.starters, s.workers, s.used, id);
      RunningAdd(s.t.running, s.workers, id, w);
      CountsAdmit(s.t, s.workers, id, w);
      ResumesMore(s.t.running, s.t.pending, s.t.resume, s.t.closed, s'.t.running, s.t.pending);
    }
  }

  lemma ReleaseKeeps(s: State, id: TaskId)
    requires Inv(s) && HoldsSlot(s, id)
    ensures Inv(DoRelease(s, id))
  {
    hide PendingAgree, RunningAgree, HandedAgree, CountsAgree, Inverse, SlotsAgree, ResumesOwned;
    var s' := DoRelease(s, id);
    Facts(s, id);
    PendingPc(s.t.pending, s.starters, id, Dropped);
    HandedPc(s.starters, s.workers, s.used, id, Dropped);
    InverseRemove(s.t.byKey, s.t.runKeys, id);
    SlotsChange(s.t.runKeys, s.starters, s.workers, s'.t.runKeys, s'.starters, s.workers, id);
  }

  lemma FinishStartKeeps(s: State, id: TaskId)
    requires Inv(s) && id in s.starters && !HoldsSlot(s, id)
    ensures Inv(DoFinishStart(s, id))
  {
    hide PendingAgree, RunningAgree, HandedAgree, CountsAgree, Inverse, SlotsAgree, ResumesOwned;
    hide MaybeResumed;
    var s' := DoFinishStart(s, id);
    Facts(s, id);
    PendingRemove(s.t.pending, s.starters, id);
    HandedRemove(s.starters, s.workers, s.used, id);
    CountsRemoveStart(s.t, s.workers, id);
    SlotsChange(s.t.runKeys, s.starters, s.workers, s.t.runKeys, s'.starters, s.workers, id);
    ResumesRemove(s.t, s.t.(pending := s.t.pending - {id}, startWg := s.t.startWg - 1), id, s.t.pending[id]);
  }

  lemma FinishRunKeeps(s: State, id: TaskId)
    requires Inv(s) && WorkerAt(s, id, Registered)
    ensures Inv(DoFinishRun(s, id))
  {
    hide PendingAgree, RunningAgree, HandedAgree, CountsAgree, Inverse, SlotsAgree, ResumesOwned;
    hide MaybeResumed;
    var s' := DoFinishRun(s, id);
    Facts(s, id);
    RunningRemove(s.t.running, s.workers, id, Finished);
    CountsPc(s.t, s.workers, id, Finished);
    HandedWorkerPc(s.starters, s.workers, s.used, id, Finished);
    InverseRemove(s.t.byKey, s.t.runKeys, id);
    SlotsChange(s.t.runKeys, s.starters, s.workers, s'.t.runKeys, s.starters, s'.workers, id);
    ResumesRemove(s.t, Released(s.t.(running := s.t.running - {id}), id), id, s.t.running[id]);
  }

  lemma WorkerPcKeeps(s: State, id: TaskId, s': State, pc: WorkerPc)
    requires Inv(s) && (WorkerAt(s, id, Finished) || WorkerAt(s, id, DoneClosed)) && (pc == DoneClosed || pc == Exited)
    requires s' == SetWorker(s.(t := s.t.(wg := s.t.wg - if pc == Exited then 1 else 0)), id, pc)
    ensures Inv(s')
  {
    hide PendingAgree, RunningAgree, HandedAgree, CountsAgree, Inverse, SlotsAgree, ResumesOwned;
    Facts(s, id);
    RunningPc(s.t.running, s.workers, id, pc);
    CountsPc(s.t, s.workers, id, pc);
    HandedWorkerPc(s.starters, s.workers, s.used, id, pc);
    SlotsChange(s.t.runKeys, s.starters, s.workers, s.t.runKeys, s.starters, s'.workers, id);
  }

  lemma LifecycleKeeps(s: State, e: Event, s': State)
    requires Inv(s) && (e.Quiesce? || e.Resume? || e.Forget? || e.Shutdown?)
    requires s' == s.(t := Lifecycle(s.t, e))
    ensures Inv(s')
  {
    hide PendingAgree, RunningAgree, HandedAgree, CountsAgree, Inverse, SlotsAgree;
  }

  lemma StepKeepsInv(s: State, e: Event)
    requires Inv(s) && Enabled(s, e)
    ensures Inv(Step(s, e))
  {
    hide Inv;
    match e
    case Begin(id, v, kind) => BeginKeeps(s, id, v, kind);
    case Reserve(id) => ReserveKeeps(s, id);
    case Admit(id, stored) => AdmitKeeps(s, id, stored);
    case Release(id) => ReleaseKeeps(s, id);
    case FinishStart(id) => FinishStartKeeps(s, id);
    case FinishRun(id) => FinishRunKeeps(s, id);
    case CloseDone(id) => WorkerPcKeeps(s, id, Step(s, e), DoneClosed);
    case ExitWorker(id) => WorkerPcKeeps(s, id, Step(s, e), Exited);
    case _ => LifecycleKeeps(s, e, Step(s, e));
  }
}
