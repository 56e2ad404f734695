/** Safety over whole runs of the task manager. */
module TaskTheorems {
  import opened TaskManager
  import opened TaskProtocol

  // ---- Runs ----

  ghost predicate StepAt(ss: seq<State>, es: seq<Event>, i: nat)
    requires |ss| == |es| + 1 && i < |es|
  {
    Enabled(ss[i], es[i]) && ss[i + 1] == Step(ss[i], es[i])
  }

  /** A finite run from the initial state: state i+1 follows from state i by event i. */
  ghost predicate IsRun(ss: seq<State>, es: seq<Event>) {
    && |ss| == |es| + 1 && ss[0] == INIT
    && forall i: nat {:trigger StepAt(ss, es, i)} :: i < |es| ==> StepAt(ss, es, i)
  }

  lemma InitInv()
    ensures Inv(INIT)
  {
  }

  lemma {:induction false} InvOnRun(ss: seq<State>, es: seq<Event>, k: nat)
    requires IsRun(ss, es) && k < |ss|
    ensures Inv(ss[k])
  {
    hide Inv, Step, Enabled;
    InitInv();
    if k > 0 {
      InvOnRun(ss, es, k - 1);
      assert StepAt(ss, es, k - 1);
      StepKeepsInv(ss[k - 1], es[k - 1]);
    }
  }

  // ---- Exclusive slots ----

  /** In every reachable state the slot maps are mutually inverse and two workers of one vault and type are one. */
  lemma ExclusiveSlots(ss: seq<State>, es: seq<Event>, k: nat, a: TaskId, b: TaskId)
    requires IsRun(ss, es) && k < |ss|
    requires Runs(ss[k].workers, a) && Runs(ss[k].workers, b)
    requires ss[k].workers[a].vault == ss[k].workers[b].vault && ss[k].workers[a].kind == ss[k].workers[b].kind
    ensures a == b
    ensures Inverse(ss[k].t.byKey, ss[k].t.runKeys)
  {
    InvOnRun(ss, es, k);
    Facts(ss[k], a);
    Facts(ss[k], b);
  }

  /**
   * The slot of (v, kind) is held if and only if a registered worker or an unfinished start of exactly
   * that vault and type exists, so a Start call is refused for nothing else.
   */
  lemma SlotHeldExactly(ss: seq<State>, es: seq<Event>, k: nat, v: VaultId, kind: Kind)
    requires IsRun(ss, es) && k < |ss|
    ensures var s := ss[k];
            RunKey(v, kind) in s.t.byKey <==>
              exists id :: (Runs(s.workers, id) && s.workers[id].vault == v && s.workers[id].kind == kind)
                        || (Holds(s.starters, id) && s.starters[id].vault == v && s.starters[id].kind == kind)
  {
    var s := ss[k];
    InvOnRun(ss, es, k);
    var key := RunKey(v, kind);
    if key in s.t.byKey {
      var id := s.t.byKey[key];
      Facts(s, id);
      assert s.t.runKeys[id] == key;
      if Runs(s.workers, id) {
        RunKeyInjective(s.workers[id].vault, s.workers[id].kind, v, kind);
      } else {
        RunKeyInjective(s.starters[id].vault, s.starters[id].kind, v, kind);
      }
    }
    forall id | (Runs(s.workers, id) && s.workers[id].vault == v && s.workers[id].kind == kind)
             || (Holds(s.starters, id) && s.starters[id].vault == v && s.starters[id].kind == kind)
      ensures key in s.t.byKey
    {
      Facts(s, id);
    }
  }

  // ---- The quiesce barrier ----

  ghost predicate Tombstoned(t: Tables, v: VaultId) {
    v in t.quiescing && v !in t.resume
  }

  /** m' has no entry of v that m lacks. */
  ghost predicate NoneNew(m: map<TaskId, VaultId>, m': map<TaskId, VaultId>, v: VaultId) {
    forall id :: id in m' && m'[id] == v ==> id in m && m[id] == v
  }

  /** The sections that end a start or a run leave a tombstone without a deferred resume alone. */
  lemma TombstoneSurvivesExit(t: Tables, id: TaskId, v: VaultId)
    requires Tombstoned(t, v)
    ensures Tombstoned(StartFinished(t, id), v) && Tombstoned(RunFinished(t, id), v)
  {
    hide MaybeResumed;
  }

  lemma TombstoneSurvivesLifecycle(t: Tables, e: Event, v: VaultId)
    requires Tombstoned(t, v) && e != Resume(v) && e != Forget(v)
    requires e.Quiesce? || e.Resume? || e.Forget? || e.Shutdown?
    ensures Tombstoned(Lifecycle(t, e), v)
  {
    hide HasOwner;
  }

  /** A tombstone without a deferred resume stays until Resume or Forget of its vault. */
  lemma TombstoneStep(s: State, e: Event, v: VaultId)
    requires Enabled(s, e) && Tombstoned(s.t, v) && e != Resume(v) && e != Forget(v)
    ensures Tombstoned(Step(s, e).t, v)
  {
    hide StartFinished, RunFinished, Lifecycle;
    match e
    case FinishStart(id) => TombstoneSurvivesExit(s.t, id, v);
    case FinishRun(id) => TombstoneSurvivesExit(s.t, id, v);
    case Quiesce(_) => TombstoneSurvivesLifecycle(s.t, e, v);
    case Resume(_) => TombstoneSurvivesLifecycle(s.t, e, v);
    case Forget(_) => TombstoneSurvivesLifecycle(s.t, e, v);
    case Shutdown => TombstoneSurvivesLifecycle(s.t, e, v);
    case _ =>
  }

  lemma {:induction false} TombstoneRun(ss: seq<State>, es: seq<Event>, v: VaultId, i: nat, k: nat)
    requires IsRun(ss, es) && i <= k < |ss| && Tombstoned(ss[i].t, v)
    requires forall m :: i <= m < k ==> es[m] != Resume(v) && es[m] != Forget(v)
    ensures Tombstoned(ss[k].t, v)
    decreases k
  {
    hide Step, Enabled;
    if i < k {
      TombstoneRun(ss, es, v, i, k - 1);
      assert StepAt(ss, es, k - 1);
      TombstoneStep(ss[k - 1], es[k - 1], v);
    }
  }

  lemma ExitAdmitsNone(t: Tables, id: TaskId, v: VaultId)
    ensures var t' := StartFinished(t, id); t'.running == t.running && NoneNew(t.pending, t'.pending, v)
    ensures var t' := RunFinished(t, id); t'.pending == t.pending && NoneNew(t.running, t'.running, v)
  {
    hide MaybeResumed;
  }

  /** A quiescing vault admits nothing. */
  lemma QuiescingStep(s: State, e: Event, v: VaultId)
    requires Inv(s) && Enabled(s, e) && v in s.t.quiescing
    ensures var t := Step(s, e).t; NoneNew(s.t.running, t.running, v) && NoneNew(s.t.pending, t.pending, v)
  {
    hide Inv, Lifecycle, StartFinished, RunFinished;
    match e
    case Begin(id, _, _) => Facts(s, id);
    case Admit(id, _) => Facts(s, id);
    case FinishStart(id) => ExitAdmitsNone(s.t, id, v);
    case FinishRun(id) => ExitAdmitsNone(s.t, id, v);
    case _ =>
  }

  ghost predicate QuiescingFromTo(ss: seq<State>, v: VaultId, i: nat, k: nat) {
    forall m :: i <= m < k < |ss| ==> v in ss[m].t.quiescing
  }

  lemma {:induction false} QuiescingRun(ss: seq<State>, es: seq<Event>, v: VaultId, i: nat, k: nat)
    requires IsRun(ss, es) && i <= k < |ss| && QuiescingFromTo(ss, v, i, k)
    ensures NoneNew(ss[i].t.running, ss[k].t.running, v) && NoneNew(ss[i].t.pending, ss[k].t.pending, v)
    decreases k
  {
    hide Inv, Step, Enabled;
    if i < k {
      QuiescingRun(ss, es, v, i, k - 1);
      InvOnRun(ss, es, k - 1);
      assert StepAt(ss, es, k - 1);
      QuiescingStep(ss[k - 1], es[k - 1], v);
    }
  }

  /** run.done of a worker is closed. */
  predicate DoneClosedAt(s: State, id: TaskId) {
    WorkerAt(s, id, DoneClosed) || WorkerAt(s, id, Exited)
  }

  /** A task seen done at state m is not running or starting later while the vault stays quiescing. */
  lemma DoneStaysGone(ss: seq<State>, es: seq<Event>, v: VaultId, m: nat, k: nat, id: TaskId)
    requires IsRun(ss, es) && m <= k < |ss| && QuiescingFromTo(ss, v, m, k)
    ensures DoneClosedAt(ss[m], id) ==> !(id in ss[k].t.running && ss[k].t.running[id] == v)
    ensures id !in ss[m].t.pending ==> !(id in ss[k].t.pending && ss[k].t.pending[id] == v)
  {
    hide Inv, Step, Enabled;
    QuiescingRun(ss, es, v, m, k);
    InvOnRun(ss, es, m);
    Facts(ss[m], id);
  }

  /**
   * QuiesceVault(v), called at step i of an open manager, returns nil by state j: each run it collected was
   * seen with its done channel closed, and each start it collected was seen finished, at some state up to j.
   */
  ghost predicate QuiesceReturned(ss: seq<State>, es: seq<Event>, v: VaultId, i: nat, j: nat)
    requires IsRun(ss, es)
  {
    && i < j < |ss| && es[i] == Quiesce(v) && !ss[i].t.closed
    && (forall id :: id in Of(ss[i].t.running, v) ==> exists m :: i < m <= j && DoneClosedAt(ss[m], id))
    && (forall id :: id in Of(ss[i].t.pending, v) ==> exists m :: i < m <= j && id !in ss[m].t.pending)
  }

  lemma OwnersGone(ss: seq<State>, es: seq<Event>, v: VaultId, i: nat, j: nat, k: nat)
    requires IsRun(ss, es) && QuiesceReturned(ss, es, v, i, j) && j <= k < |ss|
    requires QuiescingFromTo(ss, v, i + 1, k)
    ensures !HasOwner(ss[k].t, v)
  {
    hide Inv, Enabled;
    assert StepAt(ss, es, i);
    assert ss[i + 1].t == ss[i].t.(quiescing := ss[i].t.quiescing + {v});
    QuiescingRun(ss, es, v, i + 1, k);
    forall id ensures !(id in ss[k].t.running && ss[k].t.running[id] == v) {
      if id in Of(ss[i].t.running, v) {
        var m :| i < m <= j && DoneClosedAt(ss[m], id);
        DoneStaysGone(ss, es, v, m, k, id);
      }
    }
    forall id ensures !(id in ss[k].t.pending && ss[k].t.pending[id] == v) {
      if id in Of(ss[i].t.pending, v) {
        var m :| i < m <= j && id !in ss[m].t.pending;
        DoneStaysGone(ss, es, v, m, k, id);
      }
    }
  }

  /**
   * The barrier: a QuiesceVault that found no deferred resume and returned nil leaves its vault without a
   * running worker or an in-flight start, and none is admitted until Resume or Forget of the vault.
   */
  lemma QuiesceBarrier(ss: seq<State>, es: seq<Event>, v: VaultId, i: nat, j: nat, k: nat)
    requires IsRun(ss, es) && QuiesceReturned(ss, es, v, i, j) && j <= k < |ss| && v !in ss[i].t.resume
    requires forall m :: i < m < k ==> es[m] != Resume(v) && es[m] != Forget(v)
    ensures !HasOwner(ss[k].t, v) && v in ss[k].t.quiescing
  {
    hide Inv, Enabled;
    assert StepAt(ss, es, i);
    assert Tombstoned(ss[i + 1].t, v);
    forall m | i < m <= k ensures v in ss[m].t.quiescing {
      TombstoneRun(ss, es, v, i + 1, m);
    }
    OwnersGone(ss, es, v, i, j, k);
  }

  // ---- Reopening ----

  /** A step reopens a vault only when nothing of the vault is left running or starting. */
  lemma ReopenIsOwnerFree(s: State, e: Event, v: VaultId)
    requires Inv(s) && Enabled(s, e) && v in s.t.quiescing && v !in Step(s, e).t.quiescing
    ensures !HasOwner(Step(s, e).t, v)
  {
    hide Inv;
  }

  /** A deferred resume disappears only in a step that reopens its vault or forgets its tombstone. */
  lemma ResumeConsumed(s: State, e: Event, v: VaultId)
    requires Enabled(s, e) && v in s.t.resume && v !in Step(s, e).t.resume
    ensures v !in Step(s, e).t.quiescing
  {
    hide HasOwner;
  }

  lemma DeferredHasOwner(s: State, v: VaultId)
    requires Inv(s) && !s.t.closed && v in s.t.resume && v != ""
    ensures HasOwner(s.t, v)
  {
    hide PendingAgree, RunningAgree, HandedAgree, CountsAgree, Inverse, SlotsAgree;
  }

  /** m' has every entry of m, so the owners in m stay. */
  lemma OwnersStay(m: map<TaskId, VaultId>, m': map<TaskId, VaultId>, v: VaultId)
    requires Owns(m, v) && forall id :: id in m ==> id in m' && m'[id] == m[id]
    ensures Owns(m', v)
  {
  }

  /** The sections in which a vault can lose its last owner. */
  lemma LastOwnerLeaves(s: State, e: Event, v: VaultId)
    requires Inv(s) && Enabled(s, e) && HasOwner(s.t, v) && !HasOwner(Step(s, e).t, v)
    ensures e.FinishStart? || e.FinishRun?
  {
    hide Inv, MaybeResumed, Owns;
    match e
    case Begin(id, _, _) =>
      Facts(s, id);
      if Owns(s.t.pending, v) {
        OwnersStay(s.t.pending, Step(s, e).t.pending, v);
      }
    case Admit(id, _) =>
      Facts(s, id);
      if Owns(s.t.running, v) {
        OwnersStay(s.t.running, Step(s, e).t.running, v);
      }
    case Quiesce(_) => hide Lifecycle;
    case Resume(_) => hide Lifecycle;
    case Forget(_) => hide Lifecycle;
    case _ =>
  }

  /** Removing an entry takes away the last owner only if the entry is the vault's. */
  lemma LastEntry(m: map<TaskId, VaultId>, id: TaskId, v: VaultId)
    requires Owns(m, v) && !Owns(m - {id}, v)
    ensures id in m && m[id] == v
  {
    var x :| x in m && m[x] == v;
    assert x in (m - {id}).Keys + {id};
  }

  lemma StartExit(t: Tables, id: TaskId, v: VaultId)
    requires !t.closed && v in t.resume && HasOwner(t, v) && !HasOwner(StartFinished(t, id), v)
    ensures var t' := StartFinished(t, id); v !in t'.resume && v !in t'.quiescing
  {
    hide Owns;
    if id in t.pending {
      LastEntry(t.pending, id, v);
    }
  }

  lemma RunExit(t: Tables, id: TaskId, v: VaultId)
    requires !t.closed && v in t.resume && HasOwner(t, v) && !HasOwner(RunFinished(t, id), v)
    ensures var t' := RunFinished(t, id); (v in t'.resume <==> v == "") && (v !in t'.resume ==> v !in t'.quiescing)
  {
    hide Owns;
    LastEntry(t.running, id, v);
  }

  /**
   * Exactly when the exit of a vault's last owner leaves its deferred resume behind in an open manager: when
   * the vault's id is empty and the owner was a run. Otherwise the vault has been reopened.
   */
  lemma LastExitAppliesResume(s: State, e: Event, v: VaultId)
    requires Inv(s) && Enabled(s, e) && !Step(s, e).t.closed
    requires v in s.t.resume && HasOwner(s.t, v) && !HasOwner(Step(s, e).t, v)
    ensures var t' := Step(s, e).t;
            && (v in t'.resume <==> v == "" && e.FinishRun?)
            && (v !in t'.resume ==> v !in t'.quiescing)
  {
    hide Inv, HasOwner, StartFinished, RunFinished;
    LastOwnerLeaves(s, e, v);
    if s.t.closed {
      ClosedNotUndone(s, e);
    }
    if e.FinishStart? {
      StartExit(s.t, e.id, v);
    } else {
      RunExit(s.t, e.id, v);
    }
  }

  lemma ClosedNotUndone(s: State, e: Event)
    requires Enabled(s, e) && s.t.closed
    ensures Step(s, e).t.closed
  {
    hide HasOwner, MaybeResumed;
  }

  /** So in every reachable open state a deferred resume of a named vault is waiting for a live owner. */
  lemma DeferredResumeNeverLost(ss: seq<State>, es: seq<Event>, k: nat, v: VaultId)
    requires IsRun(ss, es) && k < |ss| && !ss[k].t.closed && v in ss[k].t.resume && v != ""
    ensures HasOwner(ss[k].t, v)
  {
    InvOnRun(ss, es, k);
    DeferredHasOwner(ss[k], v);
  }

  /** No step but Quiesce of the vault makes it quiescing, and a deferred resume goes only with the tombstone. */
  lemma {:induction false} DeferredReopens(ss: seq<State>, es: seq<Event>, v: VaultId, i: nat, k: nat)
    requires IsRun(ss, es) && i <= k < |ss| && (v in ss[i].t.resume || v !in ss[i].t.quiescing)
    requires forall m :: i <= m < k ==> es[m] != Quiesce(v)
    ensures v in ss[k].t.resume || v !in ss[k].t.quiescing
    decreases k
  {
    hide HasOwner;
    if i < k {
      DeferredReopens(ss, es, v, i, k - 1);
      assert StepAt(ss, es, k - 1);
      if v in ss[k - 1].t.resume && v !in ss[k].t.resume {
        ResumeConsumed(ss[k - 1], es[k - 1], v);
      } else if v !in ss[k - 1].t.quiescing {
        OnlyQuiesceCloses(ss[k - 1], es[k - 1], v);
      }
    }
  }

  lemma OnlyQuiesceCloses(s: State, e: Event, v: VaultId)
    requires Enabled(s, e) && v !in s.t.quiescing
    ensures v in Step(s, e).t.quiescing <==> e == Quiesce(v) && !s.t.closed
  {
    hide HasOwner, MaybeResumed;
  }

  /**
   * Exactly when the barrier stands: a QuiesceVault of a named vault that returned nil still finds its
   * tombstone in place, while the manager is open and nobody resumes, forgets or quiesces the vault again,
   * if and only if it found no deferred resume on entry. QuiesceVault does not clear an earlier one.
   */
  lemma QuiesceBarrierExactly(ss: seq<State>, es: seq<Event>, v: VaultId, i: nat, j: nat, k: nat)
    requires IsRun(ss, es) && QuiesceReturned(ss, es, v, i, j) && j <= k < |ss| && v != "" && !ss[k].t.closed
    requires forall m :: i < m < k ==> es[m] != Resume(v) && es[m] != Forget(v) && es[m] != Quiesce(v)
    ensures v in ss[k].t.quiescing <==> v !in ss[i].t.resume
  {
    hide Inv, Enabled;
    if v !in ss[i].t.resume {
      QuiesceBarrier(ss, es, v, i, j, k);
    } else if v in ss[k].t.quiescing {
      assert StepAt(ss, es, i);
      forall m | i < m <= k ensures v in ss[m].t.quiescing {
        StillQuiescing(ss, es, v, m, k);
      }
      OwnersGone(ss, es, v, i, j, k);
      DeferredReopens(ss, es, v, i + 1, k);
      DeferredResumeNeverLost(ss, es, k, v);
    }
  }

  /** The step takes the vault's last owner away in an open manager, which reopens it if a resume is deferred. */
  ghost predicate LastExitAt(ss: seq<State>, es: seq<Event>, v: VaultId, m: nat)
    requires |ss| == |es| + 1 && m < |es|
  {
    && !ss[m].t.closed && HasOwner(ss[m].t, v) && !HasOwner(ss[m + 1].t, v)
    && (v != "" || es[m].FinishStart?)
  }

  ghost predicate LastExitBetween(ss: seq<State>, es: seq<Event>, v: VaultId, i: nat, k: nat)
    requires |ss| == |es| + 1 && k <= |es|
  {
    exists m :: i < m < k && LastExitAt(ss, es, v, m)
  }

  /** A vault leaves quiescing by itself only when a deferred resume is applied by its last owner's exit. */
  lemma ReopensByExit(s: State, e: Event, v: VaultId)
    requires Enabled(s, e) && e != Resume(v) && e != Forget(v)
    requires v in s.t.quiescing && v !in Step(s, e).t.quiescing
    ensures v in s.t.resume && !s.t.closed && HasOwner(s.t, v) && !HasOwner(Step(s, e).t, v)
    ensures v != "" || e.FinishStart?
  {
    hide Lifecycle;
    match e
    case FinishStart(id) => ExitReopens(s.t, id, v);
    case FinishRun(id) => ExitReopens(s.t, id, v);
    case Quiesce(_) => LifecycleReopens(s.t, e, v);
    case Resume(_) => LifecycleReopens(s.t, e, v);
    case Forget(_) => LifecycleReopens(s.t, e, v);
    case Shutdown => LifecycleReopens(s.t, e, v);
    case _ =>
  }

  lemma LifecycleReopens(t: Tables, e: Event, v: VaultId)
    requires e.Quiesce? || e.Resume? || e.Forget? || e.Shutdown?
    requires e != Resume(v) && e != Forget(v)
    ensures v in t.quiescing ==> v in Lifecycle(t, e).quiescing
    ensures v !in t.resume ==> v !in Lifecycle(t, e).resume
  {
    hide HasOwner;
  }

  lemma ExitReopens(t: Tables, id: TaskId, v: VaultId)
    requires v in t.quiescing
    ensures v !in StartFinished(t, id).quiescing ==>
              v in t.resume && !t.closed && HasOwner(t, v) && !HasOwner(StartFinished(t, id), v)
    ensures v !in RunFinished(t, id).quiescing ==>
              v in t.resume && !t.closed && HasOwner(t, v) && !HasOwner(RunFinished(t, id), v) && v != ""
  {
  }

  /** Only Resume of the vault defers a resume. */
  lemma NoNewResume(s: State, e: Event, v: VaultId)
    requires Enabled(s, e) && e != Resume(v) && e != Forget(v) && v !in s.t.resume
    ensures v !in Step(s, e).t.resume
  {
    hide HasOwner, MaybeResumed, Lifecycle;
    match e
    case Quiesce(_) => LifecycleReopens(s.t, e, v);
    case Resume(_) => LifecycleReopens(s.t, e, v);
    case Forget(_) => LifecycleReopens(s.t, e, v);
    case Shutdown => LifecycleReopens(s.t, e, v);
    case _ =>
  }

  /** Nobody resumes, forgets or quiesces the vault in these steps. */
  ghost predicate Undisturbed(es: seq<Event>, v: VaultId, i: nat, k: nat) {
    forall m :: i <= m < k && m < |es| ==> es[m] != Resume(v) && es[m] != Forget(v) && es[m] != Quiesce(v)
  }

  lemma {:induction false} NoNewResumes(ss: seq<State>, es: seq<Event>, v: VaultId, i: nat, k: nat)
    requires IsRun(ss, es) && i <= k < |ss| && Undisturbed(es, v, i, k) && v in ss[k].t.resume
    ensures v in ss[i].t.resume
    decreases k
  {
    hide Step, Enabled;
    if i < k {
      assert StepAt(ss, es, k - 1);
      if v !in ss[k - 1].t.resume {
        NoNewResume(ss[k - 1], es[k - 1], v);
      }
      NoNewResumes(ss, es, v, i, k - 1);
    }
  }

  /** The step between i and k in which a quiescing vault is reopened. */
  lemma {:induction false} ReopeningStep(ss: seq<State>, es: seq<Event>, v: VaultId, i: nat, k: nat) returns (m: nat)
    requires IsRun(ss, es) && i <= k < |ss| && v in ss[i].t.quiescing && v !in ss[k].t.quiescing
    ensures i <= m < k && v in ss[m].t.quiescing && v !in ss[m + 1].t.quiescing
    decreases k
  {
    m := k - 1;
    if v !in ss[k - 1].t.quiescing {
      m := ReopeningStep(ss, es, v, i, k - 1);
    }
  }

  /**
   * Exactly when a tombstone set by QuiesceVault at step i is gone in state k, for every vault and whatever
   * becomes of the manager, while nobody resumes, forgets or quiesces the vault again: when a deferred resume was
   * outstanding on entry and the vault's last owner has left since while the manager was open; for the vault
   * with the empty id that owner must have been a start.
   */
  lemma TombstoneExactly(ss: seq<State>, es: seq<Event>, v: VaultId, i: nat, k: nat)
    requires IsRun(ss, es) && i < k < |ss| && es[i] == Quiesce(v) && !ss[i].t.closed && Undisturbed(es, v, i + 1, k)
    ensures v !in ss[k].t.quiescing <==> v in ss[i].t.resume && LastExitBetween(ss, es, v, i, k)
  {
    hide Inv, Enabled, Step, HasOwner, LastExitBetween;
    QuiesceSets(ss, es, v, i);
    ExitDecides(ss, es, v, i, k);
  }

  /** From a tombstone on, the deferred resume at its start and the exit of the last owner decide. */
  lemma ExitDecides(ss: seq<State>, es: seq<Event>, v: VaultId, i: nat, k: nat)
    requires IsRun(ss, es) && i < k < |ss| && Undisturbed(es, v, i + 1, k) && v in ss[i + 1].t.quiescing
    ensures v !in ss[k].t.quiescing <==> v in ss[i + 1].t.resume && LastExitBetween(ss, es, v, i, k)
  {
    hide Inv, Enabled, Step, HasOwner, LastExitAt;
    if v !in ss[k].t.quiescing {
      var m := ReopeningStep(ss, es, v, i + 1, k);
      assert StepAt(ss, es, m);
      ReopensByExit(ss[m], es[m], v);
      NoNewResumes(ss, es, v, i + 1, m);
      ExitHappens(ss, es, v, m);
    }
    if v in ss[i + 1].t.resume && LastExitBetween(ss, es, v, i, k) {
      var m :| i < m < k && LastExitAt(ss, es, v, m);
      DeferredReopens(ss, es, v, i + 1, m);
      InvOnRun(ss, es, m);
      assert StepAt(ss, es, m);
      AfterLastExit(ss, es, v, m);
      if v in ss[k].t.quiescing {
        StillQuiescing(ss, es, v, m + 1, k);
      }
    }
  }

  /** What ResumeVault and ForgetVault do to a vault at once: without an owner they open it. */
  lemma CallOpens(ss: seq<State>, es: seq<Event>, v: VaultId, i: nat)
    requires IsRun(ss, es) && i < |es| && (es[i] == Resume(v) || es[i] == Forget(v))
    ensures v in ss[i + 1].t.quiescing <==> v in ss[i].t.quiescing && HasOwner(ss[i].t, v)
    ensures v in ss[i + 1].t.resume <==> HasOwner(ss[i].t, v) && (es[i] == Resume(v) || v in ss[i].t.resume)
  {
    hide HasOwner;
    assert StepAt(ss, es, i);
  }

  lemma OpenStaysOpen(ss: seq<State>, es: seq<Event>, v: VaultId, i: nat, k: nat)
    requires IsRun(ss, es) && i <= k < |ss| && Undisturbed(es, v, i, k) && v !in ss[i].t.quiescing
    ensures v !in ss[k].t.quiescing
  {
    hide Step, Enabled;
    if v in ss[k].t.quiescing {
      StillQuiescing(ss, es, v, i, k);
    }
  }

  /**
   * Exactly when ResumeVault, called at step i, has opened its vault by state k, while nobody resumes, forgets or
   * quiesces it again: when the vault was open, had no owner at the call, or its last owner has left since while
   * the manager was open (as a start, if the vault id is empty).
   */
  lemma ResumeTakesEffectExactly(ss: seq<State>, es: seq<Event>, v: VaultId, i: nat, k: nat)
    requires IsRun(ss, es) && i < k < |ss| && es[i] == Resume(v) && Undisturbed(es, v, i + 1, k)
    ensures v !in ss[k].t.quiescing
            <==> v !in ss[i].t.quiescing || !HasOwner(ss[i].t, v) || LastExitBetween(ss, es, v, i, k)
    ensures !HasOwner(ss[i].t, v) ==> v !in ss[k].t.resume
  {
    hide Inv, Enabled, Step, HasOwner, LastExitBetween;
    CallOpens(ss, es, v, i);
    if v in ss[k].t.resume {
      NoNewResumes(ss, es, v, i + 1, k);
    }
    if v in ss[i + 1].t.quiescing {
      ExitDecides(ss, es, v, i, k);
    } else {
      OpenStaysOpen(ss, es, v, i + 1, k);
    }
  }

  /**
   * And ForgetVault: when the vault was open or had no owner at the call, which removes the tombstone at once; a
   * vault with an owner is refused, so that it takes a resume deferred earlier and the last owner's exit.
   */
  lemma ForgetTakesEffectExactly(ss: seq<State>, es: seq<Event>, v: VaultId, i: nat, k: nat)
    requires IsRun(ss, es) && i < k < |ss| && es[i] == Forget(v) && Undisturbed(es, v, i + 1, k)
    ensures v !in ss[k].t.quiescing
            <==> v !in ss[i].t.quiescing || !HasOwner(ss[i].t, v)
                 || (v in ss[i].t.resume && LastExitBetween(ss, es, v, i, k))
    ensures !HasOwner(ss[i].t, v) ==> v !in ss[k].t.resume
  {
    hide Inv, Enabled, Step, HasOwner, LastExitBetween;
    CallOpens(ss, es, v, i);
    if v in ss[k].t.resume {
      NoNewResumes(ss, es, v, i + 1, k);
    }
    if v in ss[i + 1].t.quiescing {
      ExitDecides(ss, es, v, i, k);
    } else {
      OpenStaysOpen(ss, es, v, i + 1, k);
    }
  }

  /** A vault is closed only by QuiesceVault, of an open manager. */
  lemma {:induction false} OnlyQuiescedVaultsAreClosed(ss: seq<State>, es: seq<Event>, v: VaultId, k: nat)
    requires IsRun(ss, es) && k < |ss| && v in ss[k].t.quiescing
    ensures exists i :: 0 <= i < k && es[i] == Quiesce(v) && !ss[i].t.closed
  {
    hide Step, Enabled;
    if k > 0 {
      assert StepAt(ss, es, k - 1);
      if v in ss[k - 1].t.quiescing {
        OnlyQuiescedVaultsAreClosed(ss, es, v, k - 1);
      } else {
        OnlyQuiesceCloses(ss[k - 1], es[k - 1], v);
      }
    }
  }

  lemma ExitHappens(ss: seq<State>, es: seq<Event>, v: VaultId, m: nat)
    requires |ss| == |es| + 1 && m < |es| && !ss[m].t.closed && HasOwner(ss[m].t, v) && !HasOwner(ss[m + 1].t, v)
    requires v != "" || es[m].FinishStart?
    ensures LastExitAt(ss, es, v, m)
  {
  }

  /** After such an exit the vault is open, if its resume was still deferred or it was open already. */
  lemma AfterLastExit(ss: seq<State>, es: seq<Event>, v: VaultId, m: nat)
    requires IsRun(ss, es) && m < |es| && LastExitAt(ss, es, v, m) && StepAt(ss, es, m) && Inv(ss[m])
    requires es[m] != Quiesce(v) && (v in ss[m].t.resume || v !in ss[m].t.quiescing)
    ensures v !in ss[m + 1].t.quiescing
  {
    hide Inv, Step, Enabled, HasOwner;
    LastOwnerLeaves(ss[m], es[m], v);
    if v in ss[m].t.resume {
      ExitKeepsOpen(ss[m], es[m]);
      LastExitAppliesResume(ss[m], es[m], v);
    } else {
      OnlyQuiesceCloses(ss[m], es[m], v);
    }
  }

  lemma ExitKeepsOpen(s: State, e: Event)
    requires Enabled(s, e) && (e.FinishStart? || e.FinishRun?)
    ensures Step(s, e).t.closed == s.t.closed
  {
    hide MaybeResumed;
  }

  lemma QuiesceSets(ss: seq<State>, es: seq<Event>, v: VaultId, i: nat)
    requires IsRun(ss, es) && i < |es| && es[i] == Quiesce(v) && !ss[i].t.closed
    ensures v in ss[i + 1].t.quiescing && ss[i + 1].t.resume == ss[i].t.resume
  {
    assert StepAt(ss, es, i);
  }

  /** A vault quiescing at k, not quiesced since m, was quiescing at m. */
  lemma {:induction false} StillQuiescing(ss: seq<State>, es: seq<Event>, v: VaultId, m: nat, k: nat)
    requires IsRun(ss, es) && m <= k < |ss| && v in ss[k].t.quiescing
    requires forall n :: m <= n < k ==> es[n] != Quiesce(v)
    ensures v in ss[m].t.quiescing
    decreases k - m
  {
    hide Step, Enabled;
    if m < k {
      StillQuiescing(ss, es, v, m + 1, k);
      assert StepAt(ss, es, m);
      if v !in ss[m].t.quiescing {
        OnlyQuiesceCloses(ss[m], es[m], v);
      }
    }
  }

  function Last(ss: seq<State>): State
    requires ss != []
  {
    ss[|ss| - 1]
  }

  lemma RunMore(ss: seq<State>, es: seq<Event>, e: Event)
    requires IsRun(ss, es) && Enabled(Last(ss), e)
    ensures IsRun(ss + [Step(Last(ss), e)], es + [e])
  {
    hide Step, Enabled;
    var ss', es' := ss + [Step(Last(ss), e)], es + [e];
    forall i: nat | i < |es'| ensures StepAt(ss', es', i) {
      assert i < |es| ==> StepAt(ss, es, i);
    }
  }

  /** A run that starts one task for the vault named "" and returns from the Start call. */
  lemma UnnamedVaultRun() returns (ss: seq<State>, es: seq<Event>)
    ensures IsRun(ss, es) && ss != []
    ensures var s := Last(ss);
            && s.t.running == map["t" := ""] && s.t.pending == map[] && s.t.resume == {} && !s.t.closed
            && WorkerAt(s, "t", Registered)
  {
    hide IsRun, RunKey;
    ss, es := [INIT], [];
    InitRun();
    RunMore(ss, es, Begin("t", "", Import));
    ss, es := ss + [Step(Last(ss), Begin("t", "", Import))], es + [Begin("t", "", Import)];
    RunMore(ss, es, Reserve("t"));
    ss, es := ss + [Step(Last(ss), Reserve("t"))], es + [Reserve("t")];
    RunMore(ss, es, Admit("t", true));
    ss, es := ss + [Step(Last(ss), Admit("t", true))], es + [Admit("t", true)];
    RunMore(ss, es, FinishStart("t"));
    ss, es := ss + [Step(Last(ss), FinishStart("t"))], es + [FinishStart("t")];
  }

  lemma InitRun()
    ensures IsRun([INIT], [])
  {
  }

  /** For the vault named "" a deferred resume can outlive the last owner: this run ends with it stuck. */
  lemma UnnamedVaultStaysClosed() returns (ss: seq<State>, es: seq<Event>)
    ensures IsRun(ss, es) && ss != []
    ensures var s := Last(ss); !s.t.closed && "" in s.t.resume && "" in s.t.quiescing && !HasOwner(s.t, "")
  {
    hide IsRun, RunKey;
    ss, es := UnnamedVaultRun();
    RunMore(ss, es, Quiesce(""));
    ss, es := ss + [Step(Last(ss), Quiesce(""))], es + [Quiesce("")];
    assert Last(ss).t.running["t"] == "";
    RunMore(ss, es, Resume(""));
    ss, es := ss + [Step(Last(ss), Resume(""))], es + [Resume("")];
    RunMore(ss, es, FinishRun("t"));
    ss, es := ss + [Step(Last(ss), FinishRun("t"))], es + [FinishRun("t")];
  }

  /** A run that starts one task of the vault "v" and returns from the Start call. */
  lemma NamedVaultRun() returns (ss: seq<State>, es: seq<Event>)
    ensures IsRun(ss, es) && |ss| == |es| + 1
    ensures var s := Last(ss);
            && s.t.running == map["t" := "v"] && s.t.pending == map[] && s.t.resume == {} && !s.t.closed
            && s.workers == map["t" := Worker("v", Import, Registered)]
  {
    hide IsRun, RunKey;
    ss, es := [INIT], [];
    InitRun();
    RunMore(ss, es, Begin("t", "v", Import));
    ss, es := ss + [Step(Last(ss), Begin("t", "v", Import))], es + [Begin("t", "v", Import)];
    RunMore(ss, es, Reserve("t"));
    ss, es := ss + [Step(Last(ss), Reserve("t"))], es + [Reserve("t")];
    RunMore(ss, es, Admit("t", true));
    ss, es := ss + [Step(Last(ss), Admit("t", true))], es + [Admit("t", true)];
    RunMore(ss, es, FinishStart("t"));
    ss, es := ss + [Step(Last(ss), FinishStart("t"))], es + [FinishStart("t")];
  }

  /**
   * A run in which a resume of "v" is deferred behind its worker, QuiesceVault is called and returns nil with the
   * worker's done channel closed, and the vault is open: the barrier fails for a named vault of an open manager.
   */
  lemma QuiesceBarrierCanFail() returns (ss: seq<State>, es: seq<Event>, i: nat)
    ensures IsRun(ss, es) && QuiesceReturned(ss, es, "v", i, |es|) && Undisturbed(es, "v", i + 1, |es|)
    ensures !Last(ss).t.closed && "v" !in Last(ss).t.quiescing
  {
    hide IsRun, Step, QuiesceReturned, Of, DoneClosedAt;
    var ss0, es0 := NamedVaultRun();
    var s := Last(ss0);
    DeferThenQuiesce(s);
    RunMore(ss0, es0, Resume("v"));
    var ss1, es1 := ss0 + [Step(s, Resume("v"))], es0 + [Resume("v")];
    RunMore(ss1, es1, Quiesce("v"));
    var ss2, es2 := ss1 + [Step(Last(ss1), Quiesce("v"))], es1 + [Quiesce("v")];
    ThenDone(Last(ss2));
    RunMore(ss2, es2, FinishRun("t"));
    var ss3, es3 := ss2 + [Step(Last(ss2), FinishRun("t"))], es2 + [FinishRun("t")];
    RunMore(ss3, es3, CloseDone("t"));
    ss, es, i := ss3 + [Step(Last(ss3), CloseDone("t"))], es3 + [CloseDone("t")], |es1|;
    assert ss[i] == Last(ss1) && ss[|es|] == Last(ss);
    assert es == es1 + [Quiesce("v"), FinishRun("t"), CloseDone("t")];
    assert es[i..] == [Quiesce("v"), FinishRun("t"), CloseDone("t")];
    assert forall n :: i < n < |es| ==> es[n] == es[i..][n - i];
    ReturnsAfter(ss, es, i);
  }

  lemma ReturnsAfter(ss: seq<State>, es: seq<Event>, i: nat)
    requires IsRun(ss, es) && |es| == i + 3 && |ss| == i + 4 && es[i] == Quiesce("v") && !ss[i].t.closed
    requires Of(ss[i].t.running, "v") == {"t"} && Of(ss[i].t.pending, "v") == {} && DoneClosedAt(ss[i + 3], "t")
    ensures QuiesceReturned(ss, es, "v", i, |es|)
  {
    hide IsRun, Of, DoneClosedAt;
  }

  lemma DeferThenQuiesce(s: State)
    requires s.t.running == map["t" := "v"] && s.t.pending == map[] && s.t.resume == {} && !s.t.closed
    requires s.workers == map["t" := Worker("v", Import, Registered)]
    ensures var s1 := Step(s, Resume("v"));
            && !s1.t.closed && Of(s1.t.running, "v") == {"t"} && Of(s1.t.pending, "v") == {}
            && Step(s1, Quiesce("v")).t == s.t.(resume := {"v"}, quiescing := s.t.quiescing + {"v"})
            && Step(s1, Quiesce("v")).workers == s.workers
  {
    assert s.t.running["t"] == "v";
  }

  lemma ThenDone(s: State)
    requires s.t.running == map["t" := "v"] && s.t.pending == map[] && s.t.resume == {"v"} && !s.t.closed
    requires s.workers == map["t" := Worker("v", Import, Registered)]
    ensures var s1 := Step(s, FinishRun("t"));
            && WorkerAt(s1, "t", Finished)
            && var s2 := Step(s1, CloseDone("t"));
               DoneClosedAt(s2, "t") && !s2.t.closed && "v" !in s2.t.quiescing
  {
    assert s.t.running - {"t"} == map[];
  }

  // ---- Admission ----

  /**
   * In every interleaving a start begins, takes its slot and becomes a worker exactly under these conditions, each
   * looked at again in its own section.
   */
  lemma AdmissionExactly(s: State, e: Event, id: TaskId)
    requires Inv(s) && Enabled(s, e)
    ensures id !in s.starters && id in Step(s, e).starters
            <==> e.Begin? && e.id == id && !s.t.closed && e.vault !in s.t.quiescing && id != ""
    ensures !HoldsSlot(s, id) && HoldsSlot(Step(s, e), id)
            <==> e == Reserve(id) && !s.t.closed && s.starters[id].vault !in s.t.quiescing
                 && RunKey(s.starters[id].vault, s.starters[id].kind) !in s.t.runKeys.Values
    ensures id !in s.workers && id in Step(s, e).workers
            <==> e == Admit(id, true) && !s.t.closed && s.starters[id].vault !in s.t.quiescing
  {
    hide Inv, Enabled, Step, RunKey;
    StarterStep(s, e, id);
    SlotStep(s, e, id);
    WorkerStep(s, e, id);
  }

  lemma StarterStep(s: State, e: Event, id: TaskId)
    requires Inv(s) && Enabled(s, e)
    ensures id !in s.starters && id in Step(s, e).starters
            <==> e.Begin? && e.id == id && !s.t.closed && e.vault !in s.t.quiescing && id != ""
  {
    hide HasOwner, RunKey, MaybeResumed, StartFinished, RunFinished, Released;
    hide RunningAgree, CountsAgree, Inverse, SlotsAgree, ResumesOwned;
  }

  lemma SlotStep(s: State, e: Event, id: TaskId)
    requires Inv(s) && Enabled(s, e)
    ensures !HoldsSlot(s, id) && HoldsSlot(Step(s, e), id)
            <==> e == Reserve(id) && !s.t.closed && s.starters[id].vault !in s.t.quiescing
                 && RunKey(s.starters[id].vault, s.starters[id].kind) !in s.t.runKeys.Values
  {
    hide HasOwner, RunKey, MaybeResumed, StartFinished, RunFinished, Released, Inv;
    match e
    case Reserve(x) => SlotFree(s, RunKey(s.starters[x].vault, s.starters[x].kind));
    case _ =>
  }

  lemma WorkerStep(s: State, e: Event, id: TaskId)
    requires Inv(s) && Enabled(s, e)
    ensures id !in s.workers && id in Step(s, e).workers
            <==> e == Admit(id, true) && !s.t.closed && s.starters[id].vault !in s.t.quiescing
  {
    hide HasOwner, RunKey, MaybeResumed, StartFinished, RunFinished, Released;
    hide RunningAgree, CountsAgree, Inverse, SlotsAgree, ResumesOwned, PendingAgree;
  }

  lemma SlotFree(s: State, key: string)
    requires Inv(s)
    ensures key in s.t.byKey <==> key in s.t.runKeys.Values
  {
    hide PendingAgree, RunningAgree, HandedAgree, CountsAgree, SlotsAgree, ResumesOwned;
  }

  // ---- The shutdown barrier ----

  /** Closed is permanent, and a closed manager takes in no start and no worker. */
  lemma ClosedStep(s: State, e: Event)
    requires Inv(s) && Enabled(s, e) && s.t.closed
    ensures var s' := Step(s, e);
            && s'.t.closed && s'.starters.Keys <= s.starters.Keys
            && Live(s'.workers) <= Live(s.workers)
  {
    hide Inv, HasOwner;
    match e
    case Admit(id, _) => Facts(s, id);
    case _ =>
  }

  lemma {:induction false} ClosedRun(ss: seq<State>, es: seq<Event>, i: nat, k: nat)
    requires IsRun(ss, es) && i <= k < |ss| && ss[i].t.closed
    ensures ss[k].t.closed && ss[k].starters.Keys <= ss[i].starters.Keys
    ensures Live(ss[k].workers) <= Live(ss[i].workers)
    decreases k
  {
    hide Inv, Step, Enabled;
    if i < k {
      ClosedRun(ss, es, i, k - 1);
      InvOnRun(ss, es, k - 1);
      assert StepAt(ss, es, k - 1);
      ClosedStep(ss[k - 1], es[k - 1]);
    }
  }

  /** The two wait counters count exactly the in-flight starts and the workers that have not exited. */
  lemma CountersAgree(s: State)
    requires Inv(s)
    ensures s.t.startWg == |s.starters| && s.t.wg == |Live(s.workers)|
    ensures forall id :: id in s.t.running ==> id in Live(s.workers)
  {
    hide HandedAgree, Inverse, SlotsAgree, ResumesOwned;
    assert s.t.pending.Keys == s.starters.Keys;
  }

  /**
   * Wait observes startWg at zero in state i of a closed manager and then wg at zero in state j. From j on
   * there is no start, no registered worker, and every worker goroutine has exited.
   */
  lemma ShutdownBarrier(ss: seq<State>, es: seq<Event>, i: nat, j: nat, k: nat)
    requires IsRun(ss, es) && i <= j <= k < |ss|
    requires ss[i].t.closed && ss[i].t.startWg == 0 && ss[j].t.wg == 0
    ensures ss[k].t.closed && ss[k].starters == map[] && ss[k].t.running == map[] && Live(ss[k].workers) == {}
  {
    hide Inv, Step, Enabled;
    InvOnRun(ss, es, i);
    InvOnRun(ss, es, j);
    InvOnRun(ss, es, k);
    CountersAgree(ss[i]);
    CountersAgree(ss[j]);
    CountersAgree(ss[k]);
    ClosedRun(ss, es, i, j);
    ClosedRun(ss, es, j, k);
  }
}
