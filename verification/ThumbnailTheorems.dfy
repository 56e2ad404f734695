/** Safety over whole runs of the thumbnail generator. */
module ThumbnailTheorems {
  import opened ThumbnailGenerator
  import opened ThumbnailProtocol

  ghost predicate StepAt(ss: seq<State>, es: seq<Event>, i: nat)
    requires |ss| == |es| + 1 && i < |es|
  {
    Enabled(ss[i], es[i]) && ss[i + 1] == Step(ss[i], es[i])
  }

  /** A finite run from the initial state: state i+1 follows from state i by event i. */
  ghost predicate IsRun(ss: seq<State>, es: seq<Event>) {
    && |ss| == |es| + 1 && ss[0] == INIT
    && forall i: nat {:trigger StepAt(ss, es, i)} :: i < |es| ==> StepAt(ss, es, i)
  }

  lemma InitInv()
    ensures Inv(INIT)
  {
  }

  lemma {:induction false} InvOnRun(ss: seq<State>, es: seq<Event>, k: nat)
    requires IsRun(ss, es) && k < |ss|
    ensures Inv(ss[k]) && ss[k].history == es[..k]
  {
    hide Inv, Do, Enabled;
    InitInv();
    if k > 0 {
      InvOnRun(ss, es, k - 1);
      assert StepAt(ss, es, k - 1);
      StepKeepsInv(ss[k - 1], es[k - 1]);
    }
  }

  // ---- No stale commit ----

  /**
   * The commit check, exactly: a job's thumbnail is committed if and only if no DeleteThumbnail of its path
   * ran between the Enqueue that created the job and the commit.
   */
  lemma NoStaleCommit(ss: seq<State>, es: seq<Event>, k: nat)
    requires IsRun(ss, es) && k < |es| && es[k].Commit?
    ensures ss[k].worker.Active?
    ensures var job := ss[k].worker.job;
            && job.at < k && es[job.at].Enqueue? && es[job.at].key == job.key
            && (Commits(ss[k]) <==> forall i :: job.at < i < k ==> es[i] != Delete(job.key))
  {
    hide RefsAgree, QueuedAgree, TokensHeld, Lifecycles, Ordered, DiskAgrees;
    assert StepAt(ss, es, k);
    InvOnRun(ss, es, k);
    var s, job := ss[k], ss[k].worker.job;
    assert Outstanding(s.t.jobs, s.worker)[0] == job;
    assert TokenAgrees(s.t.generations, job, s.history);
    CurrentIffUndeleted(s.t.generations, job, s.history);
    DeletesZero(s.history, job.key, job.at);
    assert forall i :: job.at <= i < k ==> s.history[i] == es[i];
  }

  /** So in every reachable state each cached thumbnail comes from a job enqueued after its path's last deletion. */
  lemma CacheIsNeverStale(ss: seq<State>, es: seq<Event>, k: nat, key: Key)
    requires IsRun(ss, es) && k < |ss| && key in ss[k].disk
    ensures var at := ss[k].disk[key];
            at < k && es[at].Enqueue? && es[at].key == key && forall i :: at < i < k ==> es[i] != Delete(key)
  {
    hide Book, Lifecycles;
    InvOnRun(ss, es, k);
    var at := ss[k].disk[key];
    DeletesZero(ss[k].history, key, at);
    assert forall i :: at <= i < k ==> ss[k].history[i] == es[i];
  }

  // ---- Exact bookkeeping ----

  /** Index i of the outstanding jobs holds one of the path with the current token. */
  ghost predicate FreshAt(s: State, key: Key, i: nat) {
    var out := Outstanding(s.t.jobs, s.worker);
    i < |out| && out[i].key == key && Fresh(s.t.generations, out[i])
  }

  /**
   * In every reachable state a path's reference count is its number of outstanding jobs, the path is marked
   * queued if and only if exactly one of them is current, and without any it has neither token nor count.
   */
  lemma BookkeepingIsExact(ss: seq<State>, es: seq<Event>, k: nat, key: Key)
    requires IsRun(ss, es) && k < |ss|
    ensures var s := ss[k];
            var n := Count(Outstanding(s.t.jobs, s.worker), key);
            && At(s.t.refs, key) == n
            && (key in s.t.queued <==> exists i: nat :: FreshAt(s, key, i))
            && (forall a: nat, b: nat :: FreshAt(s, key, a) && FreshAt(s, key, b) ==> a == b)
            && (n == 0 ==> key !in s.t.generations && key !in s.t.refs && key !in s.t.queued)
  {
    hide TokensAgree, Lifecycles, DiskAgrees;
    InvOnRun(ss, es, k);
    var s := ss[k];
    var out := Outstanding(s.t.jobs, s.worker);
    CountPositive(out, key);
    assert At(s.t.refs, key) == Count(out, key);
    if key in s.t.queued {
      var j :| j in out && j.key == key && Fresh(s.t.generations, j);
      var i :| 0 <= i < |out| && out[i] == j;
      assert FreshAt(s, key, i);
    }
    forall a: nat, b: nat | a < b < |out| ensures !(FreshAt(s, key, a) && FreshAt(s, key, b)) {
    }
  }

  /** pending is exactly the number of the vault's jobs enqueued and not yet claimed, so it never underflows. */
  lemma PendingIsExact(ss: seq<State>, es: seq<Event>, k: nat, v: VaultId)
    requires IsRun(ss, es) && k < |ss|
    ensures var s := ss[k];
            var life := LifeOf(s.t.vaults, v);
            life.pending == CountOf(Unclaimed(s.t.jobs, s.worker), v) && life.active == ActiveOf(s.worker, v)
  {
    hide Book, RetireAgree, WorkerAgrees, DiskAgrees;
    InvOnRun(ss, es, k);
    assert LifeAgrees(LifeOf(ss[k].t.vaults, v), ss[k].t.jobs, ss[k].worker, v);
  }

  // ---- Cooldowns ----

  /** The step ends a job of the path that carries the path's current token. */
  predicate EndsCurrent(s: State, e: Event, key: Key) {
    e.Finish? && s.worker.Active? && s.worker.job.key == key && IsCurrent(s.t, s.worker.job)
  }

  /** The job was skipped or failed, so that its path is left alone until the deadline. */
  predicate Cools(e: Event) {
    e.Finish? && (e.outcome == Skipped || e.outcome == Failed)
  }

  /** The step gets past an enqueue's checks of the generator and the vault to the pruning of cooldowns. */
  predicate Prunes(s: State, e: Event) {
    e.Enqueue? && !s.t.stopped
    && !LifeOf(s.t.vaults, e.key.vault).quiescing && !LifeOf(s.t.vaults, e.key.vault).retiring
  }

  /** The vault is retired between the two tables. */
  predicate Retired(t: Tables, t': Tables, v: VaultId) {
    v in t.vaults && v !in t'.vaults
  }

  /** A cooldown goes only with its vault, and keeps its deadline. */
  predicate KeptUnlessRetired(t: Tables, t': Tables, key: Key) {
    && (key in t'.failed <==> key in t.failed && !Retired(t, t', key.vault))
    && (key in t'.failed ==> t'.failed[key] == t.failed[key])
  }

  lemma RetireCooldowns(t: Tables, t1: Tables, v: VaultId, key: Key)
    requires t1.failed == t.failed && t1.vaults.Keys == t.vaults.Keys
    ensures KeptUnlessRetired(t, MaybeRetired(t1, v), key)
  {
  }

  lemma BeginCooldowns(t: Tables, job: Job, key: Key)
    requires job.key.vault in t.vaults
    ensures KeptUnlessRetired(t, BegunJob(t, job).0, key)
  {
    hide MaybeRetired, KeptUnlessRetired;
    var v := job.key.vault;
    var life0 := LifeOf(t.vaults, v);
    var life := if job.queueID != 0 && life0.pending > 0 then life0.(pending := life0.pending - 1) else life0;
    var t1 := t.(vaults := t.vaults[v := life]);
    assert t1.vaults.Keys == t.vaults.Keys;
    RetireCooldowns(t, t1, v, key);
    if BegunJob(t, job).1.Some? {
      NothingRetired(t, BegunJob(t, job).0, key);
    }
  }

  lemma NothingRetired(t: Tables, t': Tables, key: Key)
    requires t'.failed == t.failed && t.vaults.Keys <= t'.vaults.Keys
    ensures KeptUnlessRetired(t, t', key)
  {
  }

  lemma EndCooldowns(t: Tables, v: VaultId, runID: nat, key: Key)
    ensures KeptUnlessRetired(t, EndedJob(t, v, runID), key)
  {
    hide MaybeRetired;
    if v in t.vaults {
      var life := t.vaults[v].(active := t.vaults[v].active - {runID});
      var replays := Vacant(life) && v in t.resumePending && !life.retiring;
      var t1 := t.(vaults := t.vaults[v := if replays then life.(quiescing := false) else life],
                   resumePending := if replays then t.resumePending - {v} else t.resumePending);
      assert t1.vaults.Keys == t.vaults.Keys;
      RetireCooldowns(t, t1, v, key);
    }
  }

  lemma ForgetCooldowns(t: Tables, v: VaultId, key: Key)
    ensures KeptUnlessRetired(t, Forgotten(t, v), key)
  {
    hide MaybeRetired;
    if v in t.vaults {
      var t1 := t.(vaults := t.vaults[v := t.vaults[v].(retiring := true, quiescing := true)]);
      assert t1.vaults.Keys == t.vaults.Keys;
      RetireCooldowns(t, t1, v, key);
    }
  }

  lemma EnqueueCooldowns(t: Tables, k: Key, left: map<Key, int>, at: nat)
    ensures var life := LifeOf(t.vaults, k.vault);
            var t' := Enqueued(t, k, left, at).0;
            && t'.failed == (if t.stopped || life.quiescing || life.retiring then t.failed else left)
            && t.vaults.Keys <= t'.vaults.Keys
  {
  }

  lemma ClaimedHasVault(s: State)
    requires Inv(s) && s.worker.Claimed?
    ensures s.worker.job.key.vault in s.t.vaults
  {
    hide Book, RetireAgree, WorkerAgrees, DiskAgrees, Ordered;
    ClaimedIsPending(s);
  }

  lemma FinishCooldowns(t: Tables, job: Job, outcome: Outcome, until: int, key: Key)
    ensures var t' := FinishedJob(t, job, outcome, until);
            && t'.vaults == t.vaults
            && if job.key == key && IsCurrent(t, job) then
                 var cools := outcome == Skipped || outcome == Failed;
                 (key in t'.failed <==> cools) && (cools ==> t'.failed[key] == until)
               else
                 (key in t'.failed <==> key in t.failed) && (key in t'.failed ==> t'.failed[key] == t.failed[key])
  {
    hide MaybePurgedToken;
  }

  lemma DeleteCooldowns(t: Tables, k: Key)
    ensures Deleted(t, k).failed == t.failed - {k} && Deleted(t, k).vaults == t.vaults
  {
  }

  /** The step leaves the path's cooldown alone: no deletion, no end of a current job, no pruning, no retirement. */
  ghost predicate Spares(s: State, e: Event, key: Key)
    requires Enabled(s, e)
  {
    && e != Delete(key) && !EndsCurrent(s, e, key) && !(Prunes(s, e) && key !in e.left)
    && !Retired(s.t, Step(s, e).t, key.vault)
  }

  lemma PrunedCooldowns(s: State, e: Event, key: Key)
    requires Enabled(s, e) && Prunes(s, e) && key in e.left
    ensures key in s.t.failed && s.t.failed[key] == e.left[key]
  {
  }

  /** What one step makes of a path's cooldown. */
  lemma CooldownStep(s: State, e: Event, key: Key)
    requires Inv(s) && Enabled(s, e)
    ensures var f, f' := s.t.failed, Step(s, e).t.failed;
            if EndsCurrent(s, e, key) then (key in f' <==> Cools(e)) && (Cools(e) ==> f'[key] == e.until)
            else (key in f' <==> key in f && Spares(s, e, key)) && (key in f' ==> f'[key] == f[key])
  {
    hide Inv, Enqueued, BegunJob, DiscardedJob, FinishedJob, EndedJob, Deleted, Forgotten, PrunedTo, DeletesLeft;
    match e
    case Enqueue(k, _, left) =>
      EnqueueCooldowns(s.t, k, left, |s.history|);
      if Prunes(s, e) && key in left {
        PrunedCooldowns(s, e, key);
      }
    case Begin =>
      ClaimedHasVault(s);
      BeginCooldowns(s.t, s.worker.job, key);
    case Discard => DiscardChangesNoFailure(s);
    case Finish(outcome, until) => FinishCooldowns(s.t, s.worker.job, outcome, until, key);
    case End => EndCooldowns(s.t, s.worker.job.key.vault, s.worker.runID, key);
    case Delete(k) => DeleteCooldowns(s.t, k);
    case Forget(v) => ForgetCooldowns(s.t, v, key);
    case _ =>
  }

  lemma DiscardChangesNoFailure(s: State)
    requires Inv(s) && Enabled(s, Discard)
    ensures var t' := Step(s, Discard).t; t'.vaults == s.t.vaults && t'.failed == s.t.failed
  {
    hide Book, DiskAgrees, Ordered, ReleasedToken;
    DiscardShape(s.t, s.worker.job);
  }

  /** A current job of the path was skipped or failed at step i, and every step since has spared the cooldown. */
  ghost predicate CooledAt(ss: seq<State>, es: seq<Event>, key: Key, i: nat, k: nat)
    requires IsRun(ss, es) && k < |ss|
  {
    && i < k && EndsCurrent(ss[i], es[i], key) && Cools(es[i])
    && forall m: nat :: i < m < k ==> SparedAt(ss, es, key, m)
  }

  ghost predicate SparedAt(ss: seq<State>, es: seq<Event>, key: Key, m: nat)
    requires |ss| == |es| + 1 && m < |es|
  {
    StepAt(ss, es, m) && Spares(ss[m], es[m], key)
  }

  /**
   * Cooldowns, exactly: in every reachable state a path has one if and only if a current job of it was skipped or
   * failed, and since then it was not deleted, no other current job of it has ended, no pruning has dropped the
   * cooldown, and its vault was not retired. Its deadline is the one set then.
   */
  lemma {:induction false} CooldownExactly(ss: seq<State>, es: seq<Event>, k: nat, key: Key)
    requires IsRun(ss, es) && k < |ss|
    ensures key in ss[k].t.failed <==> exists i: nat :: CooledAt(ss, es, key, i, k)
    ensures forall i: nat :: CooledAt(ss, es, key, i, k) ==> key in ss[k].t.failed && ss[k].t.failed[key] == es[i].until
  {
    hide Inv, Step, Enabled, EndsCurrent, Spares;
    if k > 0 {
      var s, e := ss[k - 1], es[k - 1];
      assert StepAt(ss, es, k - 1);
      InvOnRun(ss, es, k - 1);
      CooldownExactly(ss, es, k - 1, key);
      CooldownStep(s, e, key);
      EndsSparesNot(s, e, key);
      LatestEnd(ss, es, key, k);
      if key in ss[k].t.failed && !EndsCurrent(s, e, key) {
        var i: nat :| CooledAt(ss, es, key, i, k - 1);
        CooledLonger(ss, es, key, i, k);
      }
      forall i: nat | CooledAt(ss, es, key, i, k)
        ensures key in ss[k].t.failed && ss[k].t.failed[key] == es[i].until
      {
        if i < k - 1 {
          CooledLonger(ss, es, key, i, k);
        }
      }
    }
  }

  lemma EndsSparesNot(s: State, e: Event, key: Key)
    requires Enabled(s, e)
    ensures EndsCurrent(s, e, key) ==> !Spares(s, e, key)
  {
  }

  lemma LatestEnd(ss: seq<State>, es: seq<Event>, key: Key, k: nat)
    requires IsRun(ss, es) && 0 < k < |ss|
    ensures CooledAt(ss, es, key, k - 1, k) <==> EndsCurrent(ss[k - 1], es[k - 1], key) && Cools(es[k - 1])
  {
  }

  lemma CooledLonger(ss: seq<State>, es: seq<Event>, key: Key, i: nat, k: nat)
    requires IsRun(ss, es) && i + 1 < k < |ss| && StepAt(ss, es, k - 1)
    ensures CooledAt(ss, es, key, i, k) <==> CooledAt(ss, es, key, i, k - 1) && Spares(ss[k - 1], es[k - 1], key)
  {
    hide Inv, Step, Enabled, EndsCurrent, Spares;
    assert SparedAt(ss, es, key, k - 1) <==> Spares(ss[k - 1], es[k - 1], key);
  }

  /**
   * So an enqueue that is not refused by the generator or the vault, of a path not marked queued, is answered
   * CoolingDown exactly when such a deadline lies ahead and the cap of 5000 has not just evicted it.
   */
  lemma CoolingDownExactly(ss: seq<State>, es: seq<Event>, k: nat)
    requires IsRun(ss, es) && k < |es| && Prunes(ss[k], es[k]) && es[k].key !in ss[k].t.queued
    ensures var key, left := es[k].key, es[k].left;
            Enqueued(ss[k].t, key, left, k).1 == CoolingDown
            <==> (exists i: nat :: CooledAt(ss, es, key, i, k) && es[k].now < es[i].until)
                 && (|left| == MAX_FAILED_JOBS ==> key in left)
  {
    hide Inv, CooledAt;
    assert StepAt(ss, es, k);
    var key := es[k].key;
    CooldownExactly(ss, es, k, key);
    LeftExactly(ss[k], es[k]);
    if Enqueued(ss[k].t, key, es[k].left, k).1 == CoolingDown {
      var i: nat :| CooledAt(ss, es, key, i, k);
    }
  }

  lemma LeftExactly(s: State, e: Event)
    requires Enabled(s, e) && Prunes(s, e) && e.key !in s.t.queued
    ensures Enqueued(s.t, e.key, e.left, |s.history|).1 == CoolingDown <==> e.key in e.left
    ensures e.key in e.left <==>
              e.key in s.t.failed && e.now < s.t.failed[e.key] && (|e.left| == MAX_FAILED_JOBS ==> e.key in e.left)
  {
  }

  /**
   * After an enqueue that got to the check of the cooldowns at most 5000 are left, none of them over, and those
   * that are not over are all left unless they are more than that.
   */
  lemma PruningExactly(s: State, e: Event, key: Key)
    requires Enabled(s, e) && Prunes(s, e)
    ensures var failed, failed' := s.t.failed, Step(s, e).t.failed;
            && |failed'| <= 5000
            && (key in failed' ==> key in failed && e.now < failed[key] == failed'[key])
            && (key in failed && e.now < failed[key] ==> key in failed' || |failed'| == 5000)
  {
    hide DeletesLeft;
    EnqueueCooldowns(s.t, e.key, e.left, |s.history|);
    hide Enqueued;
  }

  /** After a current job has succeeded or gone stale, and none was skipped or failed since, there is no cooldown. */
  lemma SuccessDoesNotCool(ss: seq<State>, es: seq<Event>, i: nat, k: nat, key: Key)
    requires IsRun(ss, es) && i < k < |ss| && EndsCurrent(ss[i], es[i], key) && !Cools(es[i])
    requires forall m :: i < m < k ==> !(EndsCurrent(ss[m], es[m], key) && Cools(es[m]))
    ensures key !in ss[k].t.failed
  {
    hide Inv, Step, Enabled, EndsCurrent, Spares;
    CooldownExactly(ss, es, k, key);
    assert StepAt(ss, es, i);
    EndsSparesNot(ss[i], es[i], key);
    assert !SparedAt(ss, es, key, i);
  }

  // ---- Quiesce ----

  predicate IsQuiescing(t: Tables, v: VaultId) {
    v in t.vaults && t.vaults[v].quiescing
  }

  lemma OpensVacant(s: State, e: Event, v: VaultId)
    requires Enabled(s, e) && IsQuiescing(s.t, v) && !IsQuiescing(Step(s, e).t, v)
    ensures Vacant(LifeOf(Step(s, e).t.vaults, v))
  {
    hide PrunedTo, DeletesLeft, ReleasedToken, MaybeRetired, MaybePurgedToken, Commits, Enqueued;
    if e.Enqueue? {
      EnqueueShape(s.t, e.key, e.left, |s.history|);
    }
  }

  /** A vault leaves quiescing only when none of its jobs is waiting in the channel and none is running. */
  lemma ReopenIsVacant(s: State, e: Event, v: VaultId)
    requires Inv(s) && Enabled(s, e) && IsQuiescing(s.t, v) && !IsQuiescing(Step(s, e).t, v)
    ensures var s' := Step(s, e); !HasVault(Unclaimed(s'.t.jobs, s'.worker), v) && ActiveOf(s'.worker, v) == {}
  {
    var s' := Step(s, e);
    OpensVacant(s, e, v);
    StepKeepsInv(s, e);
    hide Step, Enabled, Book, RetireAgree, WorkerAgrees, DiskAgrees;
    assert LifeAgrees(LifeOf(s'.t.vaults, v), s'.t.jobs, s'.worker, v);
    CountOfPositive(Unclaimed(s'.t.jobs, s'.worker), v);
  }

  /** A vault is closed exactly by QuiesceVault of a running generator and by ForgetVault of a vault it knows. */
  lemma ClosesExactly(s: State, e: Event, v: VaultId)
    requires Inv(s) && Enabled(s, e) && !IsQuiescing(s.t, v)
    ensures IsQuiescing(Step(s, e).t, v) ==> (e == Quiesce(v) && !s.t.stopped) || e == Forget(v)
    ensures e == Quiesce(v) && !s.t.stopped ==> IsQuiescing(Step(s, e).t, v)
    ensures e == Forget(v) && v in s.t.vaults && !Vacant(s.t.vaults[v]) ==> IsQuiescing(Step(s, e).t, v)
  {
    hide Inv, PrunedTo, DeletesLeft, ReleasedToken, MaybeRetired, MaybePurgedToken, Commits, Enqueued;
    if e.Enqueue? {
      EnqueueShape(s.t, e.key, e.left, |s.history|);
    }
  }

  /** The vault has a lifecycle that is not being retired. */
  predicate Kept(t: Tables, v: VaultId) {
    v in t.vaults && !t.vaults[v].retiring
  }

  /**
   * The deferred resumes, exactly: ResumeVault of a kept vault with work left records one, and it goes when
   * ResumeVault or the end of a run finds the vault without work, or with the retired vault.
   */
  lemma DeferredExactly(s: State, e: Event, v: VaultId)
    requires Inv(s) && Enabled(s, e)
    ensures var t, t' := s.t, Step(s, e).t;
            var ends := e == Resume(v) || (e == End && s.worker.job.key.vault == v);
            v in t'.resumePending <==>
              if e == Resume(v) && Kept(t, v) && !Vacant(t.vaults[v]) then true
              else v in t.resumePending && !(ends && Kept(t', v) && Vacant(t'.vaults[v])) && !Retired(t, t', v)
  {
    hide Inv, PrunedTo, DeletesLeft, ReleasedToken, MaybePurgedToken, Commits, Enqueued, Purged;
    match e
    case Enqueue(k, _, left) => EnqueueShape(s.t, k, left, |s.history|);
    case Begin => BeginDefers(s.t, s.worker.job, v);
    case Discard => DiscardDefers(s.t, s.worker.job, v);
    case _ =>
  }

  lemma BeginDefers(t: Tables, job: Job, v: VaultId)
    ensures var t' := BegunJob(t, job).0; v in t'.resumePending <==> v in t.resumePending && !Retired(t, t', v)
  {
  }

  lemma DiscardDefers(t: Tables, job: Job, v: VaultId)
    ensures var t' := DiscardedJob(t, job); v in t'.resumePending <==> v in t.resumePending && !Retired(t, t', v)
  {
    hide ReleasedToken;
  }

  /** The job is gone, refused, or waiting for a worker that will refuse it. */
  predicate Doomed(s: State, j: Job) {
    j in Line(s.t.jobs, s.worker) ==>
      || ((s.worker.Refused? || s.worker.Orphaned?) && s.worker.job == j)
      || (j in Unclaimed(s.t.jobs, s.worker) && (s.t.stopped || IsQuiescing(s.t, j.key.vault)))
  }

  /** The worker has claimed the job for execution. */
  predicate Runs(s: State, j: Job) {
    (s.worker.Active? || s.worker.Finished?) && s.worker.job == j
  }

  /** No step brings an old job back to the channel, and Stop is final. */
  lemma OldJobs(s: State, e: Event, j: Job)
    requires Enabled(s, e) && j.at < |s.history|
    ensures var s' := Step(s, e);
            && (j in Line(s'.t.jobs, s'.worker) ==> j in Line(s.t.jobs, s.worker))
            && (j in Unclaimed(s'.t.jobs, s'.worker) ==> j in Unclaimed(s.t.jobs, s.worker))
            && (s.t.stopped ==> s'.t.stopped)
  {
    hide Do, Enabled;
    LineStep(s, e);
    if j in Unclaimed(Step(s, e).t.jobs, Step(s, e).worker) {
      UnclaimedStep(s, e, j);
    }
    StopIsFinal(s, e);
  }

  lemma UnclaimedStep(s: State, e: Event, j: Job)
    requires Enabled(s, e) && j.at < |s.history| && j in Unclaimed(Step(s, e).t.jobs, Step(s, e).worker)
    ensures j in Unclaimed(s.t.jobs, s.worker)
  {
    hide PrunedTo, DeletesLeft, ReleasedToken, MaybeRetired, MaybePurgedToken, Commits, Enqueued;
    if e.Enqueue? {
      EnqueueShape(s.t, e.key, e.left, |s.history|);
    }
  }

  lemma StopIsFinal(s: State, e: Event)
    requires Enabled(s, e)
    ensures s.t.stopped ==> Step(s, e).t.stopped
  {
    hide ReleasedToken, MaybeRetired, MaybePurgedToken, Commits;
  }

  /** The line is the unclaimed jobs, behind the one the worker has claimed or refused. */
  lemma LineParts(s: State, j: Job)
    requires j in Line(s.t.jobs, s.worker)
    ensures j in Unclaimed(s.t.jobs, s.worker) || (!s.worker.Idle? && !s.worker.Claimed? && s.worker.job == j)
    ensures Inv(s) && j in Unclaimed(s.t.jobs, s.worker) ==>
              !Runs(s, j) && !((s.worker.Refused? || s.worker.Orphaned?) && s.worker.job == j)
  {
    hide Tallies;
    var line := Line(s.t.jobs, s.worker);
    if j in Unclaimed(s.t.jobs, s.worker) && Inv(s) && !s.worker.Idle? && !s.worker.Claimed? {
      var i :| 0 <= i < |s.t.jobs| && s.t.jobs[i] == j;
      assert line[0].at < line[i + 1].at;
    }
  }

  /** What a step makes of a worker and an old waiting job: claimed jobs of a closed vault are refused. */
  lemma DoomedWorker(s: State, e: Event, j: Job)
    requires Inv(s) && Enabled(s, e) && Doomed(s, j) && j in Line(s.t.jobs, s.worker)
    ensures !Runs(Step(s, e), j)
  {
    hide Inv, ReleasedToken, MaybeRetired, MaybePurgedToken, Commits;
    LineParts(s, j);
  }

  lemma DoomedStep(s: State, e: Event, j: Job)
    requires Inv(s) && Enabled(s, e) && j.at < |s.history| && Doomed(s, j)
    ensures Doomed(Step(s, e), j)
  {
    hide Inv, Step, Enabled;
    var s' := Step(s, e);
    OldJobs(s, e, j);
    StepKeepsInv(s, e);
    if j in Line(s'.t.jobs, s'.worker) {
      DoomedWorker(s, e, j);
      LineParts(s, j);
      LineParts(s', j);
      if IsQuiescing(s.t, j.key.vault) && !IsQuiescing(s'.t, j.key.vault) {
        ReopenIsVacant(s, e, j.key.vault);
      }
    }
  }

  lemma {:induction false} DoomedRun(ss: seq<State>, es: seq<Event>, j: Job, i: nat, k: nat)
    requires IsRun(ss, es) && i <= k < |ss| && j.at < i && Doomed(ss[i], j)
    ensures Doomed(ss[k], j)
    decreases k
  {
    hide Inv, Step, Enabled;
    if i < k {
      DoomedRun(ss, es, j, i, k - 1);
      InvOnRun(ss, es, k - 1);
      assert StepAt(ss, es, k - 1);
      DoomedStep(ss[k - 1], es[k - 1], j);
    }
  }

  lemma QuiesceDooms(s: State, j: Job)
    requires Inv(s) && j in Unclaimed(s.t.jobs, s.worker)
    ensures j.at < |s.history| && Doomed(Step(s, Quiesce(j.key.vault)), j)
  {
    hide Tallies;
    assert j in Line(s.t.jobs, s.worker);
  }

  lemma DoomedDoesNotRun(s: State, j: Job)
    requires Inv(s) && Doomed(s, j)
    ensures !Runs(s, j)
  {
    hide Tallies;
    if j in Line(s.t.jobs, s.worker) {
      LineParts(s, j);
    }
  }

  /** Every job waiting when its vault is quiesced is discarded: no later state has it running. */
  lemma QuiesceDoomsQueue(ss: seq<State>, es: seq<Event>, v: VaultId, j: Job, i: nat, k: nat)
    requires IsRun(ss, es) && i < |es| && es[i] == Quiesce(v) && i < k < |ss|
    requires j in Unclaimed(ss[i].t.jobs, ss[i].worker) && j.key.vault == v
    ensures !Runs(ss[k], j)
  {
    hide Inv, Step, Enabled, Doomed, Runs, Unclaimed, Line;
    InvOnRun(ss, es, i);
    InvOnRun(ss, es, k);
    assert StepAt(ss, es, i);
    QuiesceDooms(ss[i], j);
    DoomedRun(ss, es, j, i + 1, k);
    DoomedDoesNotRun(ss[k], j);
  }

  // ---- What an enqueue is answered ----

  lemma StopStep(s: State, e: Event)
    requires Enabled(s, e)
    ensures Step(s, e).t.stopped <==> s.t.stopped || e == Stop
  {
    hide ReleasedToken, MaybeRetired, MaybePurgedToken, Commits;
  }

  lemma {:induction false} StoppedExactly(ss: seq<State>, es: seq<Event>, k: nat)
    requires IsRun(ss, es) && k < |ss|
    ensures ss[k].t.stopped <==> exists i :: 0 <= i < k && es[i] == Stop
  {
    hide Step, Enabled;
    if k > 0 {
      assert StepAt(ss, es, k - 1);
      StoppedExactly(ss, es, k - 1);
      StopStep(ss[k - 1], es[k - 1]);
    }
  }

  /**
   * The answers, each exactly: Stopped after Stop; VaultUnavailable behind a tombstone; AlreadyQueued while a
   * current job of the path is outstanding; CoolingDown with a cooldown left by the pruning; QueueFull and
   * Admitted by the length of the channel. Only an admitted call adds a job, a current one, at the channel's end.
   */
  lemma EnqueueAnswersExactly(ss: seq<State>, es: seq<Event>, k: nat)
    requires IsRun(ss, es) && k < |es| && es[k].Enqueue?
    ensures var s, key := ss[k], es[k].key;
            var answer := Enqueued(s.t, key, es[k].left, k).1;
            var wanted := Prunes(s, es[k]) && key !in es[k].left && !(exists i: nat :: FreshAt(s, key, i));
            && (answer == Stopped <==> exists i :: 0 <= i < k && es[i] == Stop)
            && (answer == VaultUnavailable <==> !s.t.stopped && IsQuiescing(s.t, key.vault))
            && (answer == AlreadyQueued <==> Prunes(s, es[k]) && exists i: nat :: FreshAt(s, key, i))
            && (answer == CoolingDown <==>
                  Prunes(s, es[k]) && key in es[k].left && !(exists i: nat :: FreshAt(s, key, i)))
            && (answer == QueueFull <==> wanted && |s.t.jobs| >= QUEUE_SIZE)
            && (answer == Admitted <==> wanted && |s.t.jobs| < QUEUE_SIZE)
            && (answer != Admitted ==> ss[k + 1].t.jobs == s.t.jobs)
            && (answer == Admitted ==> exists j: Job ::
                  j.key == key && j.at == k && Fresh(ss[k + 1].t.generations, j) && ss[k + 1].t.jobs == s.t.jobs + [j])
  {
    hide Inv, Enabled, FreshAt;
    assert StepAt(ss, es, k);
    InvOnRun(ss, es, k);
    StoppedExactly(ss, es, k);
    BookkeepingIsExact(ss, es, k, es[k].key);
    RetiringQuiesces(ss[k], es[k].key.vault);
    AnswersOf(ss[k].t, es[k].key, es[k].left, k);
    hide Enqueued;
  }

  lemma RetiringQuiesces(s: State, v: VaultId)
    requires Inv(s)
    ensures IsQuiescing(s.t, v) <==> LifeOf(s.t.vaults, v).quiescing || LifeOf(s.t.vaults, v).retiring
  {
    hide Book, LivesAgree, WorkerAgrees, DiskAgrees, Ordered;
  }

  lemma AnswersOf(t: Tables, k: Key, left: map<Key, int>, at: nat)
    ensures var (t', answer) := Enqueued(t, k, left, at);
            var life := LifeOf(t.vaults, k.vault);
            var prunes := !t.stopped && !life.quiescing && !life.retiring;
            && (answer == Stopped <==> t.stopped)
            && (answer == VaultUnavailable <==> !t.stopped && !prunes)
            && (answer == AlreadyQueued <==> prunes && k in t.queued)
            && (answer == CoolingDown <==> prunes && k !in t.queued && k in left)
            && (answer == QueueFull <==> prunes && k !in t.queued && k !in left && |t.jobs| >= QUEUE_SIZE)
            && (answer == Admitted <==> prunes && k !in t.queued && k !in left && |t.jobs| < QUEUE_SIZE)
            && (answer != Admitted ==> t'.jobs == t.jobs)
            && (answer == Admitted ==>
                  && t'.jobs == t.jobs + [Job(k, Token(t.generations, k), LifeOf(t.vaults, k.vault).nextID + 1, at)]
                  && t'.generations == t.generations)
  {
  }

  // ---- When a tombstone stands, and when a deferred resume takes it away ----

  /** A deferred resume of the vault is outstanding, none of its jobs is waiting, and one of them is running. */
  predicate Replays(t: Tables, v: VaultId) {
    var life := LifeOf(t.vaults, v);
    v in t.resumePending && life.pending == 0 && life.active != {}
  }

  /** Quiescing, not being forgotten, and with no run whose end would replay a deferred resume. */
  predicate Stands(t: Tables, v: VaultId) {
    IsQuiescing(t, v) && !t.vaults[v].retiring && !Replays(t, v)
  }

  /** Open, or about to be opened by the end of the vault's run. */
  predicate Due(t: Tables, v: VaultId) {
    !IsQuiescing(t, v) || (!t.vaults[v].retiring && Replays(t, v))
  }

  /** What the invariant says of a vault's jobs and runs. */
  lemma WorkerLife(s: State, v: VaultId)
    requires Inv(s)
    ensures LifeOf(s.t.vaults, v).pending >= 0 && LifeOf(s.t.vaults, v).active == ActiveOf(s.worker, v)
  {
    hide Book, RetireAgree, WorkerAgrees, DiskAgrees, Ordered;
    assert LifeAgrees(LifeOf(s.t.vaults, v), s.t.jobs, s.worker, v);
  }

  lemma EndStands(t: Tables, w: VaultId, runID: nat, v: VaultId)
    requires LifeOf(t.vaults, v).pending >= 0 && (w == v ==> LifeOf(t.vaults, v).active == {runID})
    ensures Stands(t, v) ==> Stands(EndedJob(t, w, runID), v)
    ensures Due(t, v) ==> Due(EndedJob(t, w, runID), v)
    ensures !IsQuiescing(t, v) ==> !IsQuiescing(EndedJob(t, w, runID), v)
  {
    hide MaybeRetired;
  }

  lemma BeginStands(t: Tables, job: Job, v: VaultId)
    requires job.key.vault == v ==> LifeOf(t.vaults, v).active == {}
    ensures Stands(t, v) ==> Stands(BegunJob(t, job).0, v)
    ensures Due(t, v) ==> Due(BegunJob(t, job).0, v)
    ensures !IsQuiescing(t, v) ==> !IsQuiescing(BegunJob(t, job).0, v)
  {
    hide MaybeRetired;
  }

  /** Calls for other vaults do not concern v. */
  lemma SwitchStands(t: Tables, w: VaultId, v: VaultId)
    requires w != v
    ensures forall t' :: t' == Quiesced(t, w) || t' == Resumed(t, w) || t' == Forgotten(t, w) ==>
              && (IsQuiescing(t', v) <==> IsQuiescing(t, v)) && LifeOf(t'.vaults, v) == LifeOf(t.vaults, v)
              && (v in t'.resumePending <==> v in t.resumePending)
  {
  }

  lemma QuiesceStands(t: Tables, v: VaultId)
    ensures Stands(t, v) ==> Stands(Quiesced(t, v), v)
  {
  }

  /** An enqueue adds a job to an open vault only. */
  lemma EnqueueStands(t: Tables, k: Key, left: map<Key, int>, at: nat, v: VaultId)
    ensures var t' := Enqueued(t, k, left, at).0;
            && (Stands(t, v) ==> Stands(t', v)) && (Due(t, v) ==> Due(t', v))
            && (!IsQuiescing(t, v) ==> !IsQuiescing(t', v))
  {
    EnqueueShape(t, k, left, at);
    EnqueueResumes(t, k, left, at);
    hide Enqueued;
  }

  lemma EnqueueResumes(t: Tables, k: Key, left: map<Key, int>, at: nat)
    ensures Enqueued(t, k, left, at).0.resumePending == t.resumePending
  {
  }

  /** Discarding, finishing and deleting leave the vaults alone. */
  lemma OtherStands(s: State, e: Event)
    requires Inv(s) && Enabled(s, e) && (e.Discard? || e.Finish? || e.Delete? || e.Receive? || e.Commit? || e.Stop?)
    ensures var t, t' := s.t, Step(s, e).t; t'.vaults == t.vaults && t'.resumePending == t.resumePending
  {
    hide Inv, PrunedTo, DeletesLeft, ReleasedToken, MaybePurgedToken, Commits, DiscardedJob;
    if e.Discard? {
      DiscardLives(s);
    }
  }

  lemma DiscardLives(s: State)
    requires Inv(s) && Enabled(s, Discard)
    ensures var t' := Step(s, Discard).t; t'.vaults == s.t.vaults && t'.resumePending == s.t.resumePending
  {
    hide Book, DiskAgrees, Ordered, ReleasedToken;
    DiscardShape(s.t, s.worker.job);
  }

  /**
   * Without Resume or Forget of the vault a tombstone that stands keeps standing; without Quiesce as well, one
   * whose replay is due stays so until it is gone, and then stays gone.
   */
  lemma StandsStep(s: State, e: Event, v: VaultId)
    requires Inv(s) && Enabled(s, e) && e != Resume(v) && e != Forget(v)
    ensures Stands(s.t, v) ==> Stands(Step(s, e).t, v)
    ensures e != Quiesce(v) && Due(s.t, v) ==> Due(Step(s, e).t, v)
    ensures e != Quiesce(v) && !IsQuiescing(s.t, v) ==> !IsQuiescing(Step(s, e).t, v)
  {
    hide Inv, Stands, Due, IsQuiescing, EndedJob, BegunJob, DiscardedJob, Quiesced, Resumed, Forgotten;
    hide PrunedTo, DeletesLeft, Commits, Enqueued;
    WorkerLife(s, v);
    match e
    case Begin => BeginStands(s.t, s.worker.job, v);
    case End => EndStands(s.t, s.worker.job.key.vault, s.worker.runID, v);
    case Quiesce(w) => OtherVault(s.t, w, v);
    case Resume(w) => OtherVault(s.t, w, v);
    case Forget(w) => OtherVault(s.t, w, v);
    case Enqueue(k, _, left) => EnqueueStands(s.t, k, left, |s.history|, v);
    case _ => OtherStands(s, e); SameVaults(s.t, Step(s, e).t, v);
  }

  lemma SameVaults(t: Tables, t': Tables, v: VaultId)
    requires t'.vaults == t.vaults && t'.resumePending == t.resumePending
    ensures Stands(t', v) == Stands(t, v) && Due(t', v) == Due(t, v) && IsQuiescing(t', v) == IsQuiescing(t, v)
  {
  }

  lemma OtherVault(t: Tables, w: VaultId, v: VaultId)
    ensures w == v ==> (Stands(t, v) ==> Stands(Quiesced(t, v), v))
    ensures w != v ==> (Stands(t, v) ==>
              Stands(Quiesced(t, w), v) && Stands(Resumed(t, w), v) && Stands(Forgotten(t, w), v))
    ensures w != v ==> (Due(t, v) ==> Due(Quiesced(t, w), v) && Due(Resumed(t, w), v) && Due(Forgotten(t, w), v))
    ensures w != v && !IsQuiescing(t, v) ==>
              !IsQuiescing(Quiesced(t, w), v) && !IsQuiescing(Resumed(t, w), v) && !IsQuiescing(Forgotten(t, w), v)
  {
    hide Quiesced, Resumed, Forgotten;
    if w == v {
      QuiesceStands(t, v);
    } else {
      SwitchStands(t, w, v);
    }
  }

  lemma NoNewRun(s: State, e: Event, v: VaultId)
    requires Enabled(s, e) && IsQuiescing(s.t, v)
    ensures ActiveOf(Step(s, e).worker, v) <= ActiveOf(s.worker, v)
  {
    hide PrunedTo, DeletesLeft, ReleasedToken, MaybeRetired, MaybePurgedToken, Commits, Enqueued;
  }

  /** No call of v between the states: neither Resume nor Forget, and no Quiesce if that is asked for too. */
  ghost predicate Undisturbed(es: seq<Event>, v: VaultId, i: nat, k: nat, quiesce: bool) {
    forall n :: i <= n < k && n < |es| ==> es[n] != Resume(v) && es[n] != Forget(v) && (quiesce ==> es[n] != Quiesce(v))
  }

  lemma {:induction false} StandsRun(ss: seq<State>, es: seq<Event>, v: VaultId, i: nat, k: nat)
    requires IsRun(ss, es) && i <= k < |ss| && Stands(ss[i].t, v) && Undisturbed(es, v, i, k, false)
    ensures Stands(ss[k].t, v) && ActiveOf(ss[k].worker, v) <= ActiveOf(ss[i].worker, v)
    decreases k
  {
    hide Inv, Step, Enabled, Replays;
    if i < k {
      StandsRun(ss, es, v, i, k - 1);
      assert StepAt(ss, es, k - 1);
      InvOnRun(ss, es, k - 1);
      StandsStep(ss[k - 1], es[k - 1], v);
      NoNewRun(ss[k - 1], es[k - 1], v);
    }
  }

  lemma {:induction false} DueRun(ss: seq<State>, es: seq<Event>, v: VaultId, i: nat, k: nat)
    requires IsRun(ss, es) && i <= k < |ss| && Due(ss[i].t, v) && Undisturbed(es, v, i, k, true)
    ensures Due(ss[k].t, v) && (!IsQuiescing(ss[i].t, v) ==> !IsQuiescing(ss[k].t, v))
    decreases k
  {
    hide Inv, Step, Enabled, Due, IsQuiescing;
    if i < k {
      DueRun(ss, es, v, i, k - 1);
      assert StepAt(ss, es, k - 1);
      InvOnRun(ss, es, k - 1);
      StandsStep(ss[k - 1], es[k - 1], v);
    }
  }

  // ---- The quiesce barrier ----

  /**
   * QuiesceVault(v) is called at step i and has returned nil by state m: on a running generator the run it
   * collected has ended by then, a stopped one answers at once.
   */
  ghost predicate QuiesceReturned(ss: seq<State>, es: seq<Event>, v: VaultId, i: nat, m: nat)
    requires IsRun(ss, es)
  {
    && i < m < |ss| && es[i] == Quiesce(v)
    && (!ss[i].t.stopped ==> ActiveOf(ss[m].worker, v) == {})
  }

  /** The call sets the tombstone and keeps everything else the vault has, a deferred resume included. */
  lemma QuiesceSets(ss: seq<State>, es: seq<Event>, v: VaultId, i: nat)
    requires IsRun(ss, es) && i < |es| && es[i] == Quiesce(v)
    ensures ss[i + 1].worker == ss[i].worker && ss[i + 1].t.stopped == ss[i].t.stopped
    ensures !ss[i].t.stopped && !LifeOf(ss[i].t.vaults, v).retiring ==>
              if Replays(ss[i].t, v) then Due(ss[i + 1].t, v) else Stands(ss[i + 1].t, v)
  {
    hide Enabled;
    assert StepAt(ss, es, i);
  }

  // ---- Vaults for which no run can begin any more ----

  /** The generator is stopped, or the vault was forgotten and its last jobs wait behind the tombstone. */
  predicate ClosedFor(s: State, v: VaultId) {
    || s.t.stopped
    || (v in s.forgotten
        && (HasVault(Unclaimed(s.t.jobs, s.worker), v) ==> v in s.t.vaults && s.t.vaults[v].retiring))
  }

  lemma RetiringIsClosed(s: State, v: VaultId)
    requires Inv(s) && LifeOf(s.t.vaults, v).retiring
    ensures ClosedFor(s, v)
  {
    hide Book, LivesAgree, WorkerAgrees, DiskAgrees, Ordered;
  }

  /** A retiring vault is gone only when none of its jobs is left. */
  lemma RetiringEnds(s: State, e: Event, v: VaultId)
    requires Inv(s) && Enabled(s, e) && v in s.t.vaults && s.t.vaults[v].retiring
    ensures var s' := Step(s, e);
            HasVault(Unclaimed(s'.t.jobs, s'.worker), v) ==> v in s'.t.vaults && s'.t.vaults[v].retiring
  {
    var s' := Step(s, e);
    RetiringIsQuiescing(s, v);
    if !IsQuiescing(s'.t, v) {
      ReopenIsVacant(s, e, v);
    } else {
      RetiringStays(s, e, v);
    }
  }

  lemma RetiringIsQuiescing(s: State, v: VaultId)
    requires Inv(s) && v in s.t.vaults && s.t.vaults[v].retiring
    ensures IsQuiescing(s.t, v) && v in s.forgotten
  {
    hide Book, LivesAgree, WorkerAgrees, DiskAgrees, Ordered;
  }

  lemma RetiringStays(s: State, e: Event, v: VaultId)
    requires Enabled(s, e) && v in s.t.vaults && s.t.vaults[v].retiring && v in Step(s, e).t.vaults
    ensures Step(s, e).t.vaults[v].retiring
  {
    hide PrunedTo, DeletesLeft, ReleasedToken, MaybeRetired, MaybePurgedToken, Commits, Enqueued;
    if e.Enqueue? {
      EnqueueShape(s.t, e.key, e.left, |s.history|);
    }
  }

  /** Without its tombstone a forgotten vault gets no new job. */
  lemma NoNewJob(s: State, e: Event, v: VaultId)
    requires Inv(s) && Enabled(s, e) && v in s.forgotten && !HasVault(Unclaimed(s.t.jobs, s.worker), v)
    ensures !HasVault(Unclaimed(Step(s, e).t.jobs, Step(s, e).worker), v)
  {
    hide Inv, PrunedTo, DeletesLeft, ReleasedToken, MaybeRetired, MaybePurgedToken, Commits, Enqueued;
    if e.Enqueue? {
      EnqueueShape(s.t, e.key, e.left, |s.history|);
    }
  }

  lemma ForgottenStays(s: State, e: Event, v: VaultId)
    requires Enabled(s, e) && v in s.forgotten
    ensures v in Step(s, e).forgotten
  {
    hide PrunedTo, DeletesLeft, ReleasedToken, MaybeRetired, MaybePurgedToken, Commits, Enqueued;
  }

  lemma ClosedNoRun(s: State, e: Event, v: VaultId)
    requires Enabled(s, e) && ClosedFor(s, v)
    ensures ActiveOf(Step(s, e).worker, v) <= ActiveOf(s.worker, v)
  {
    hide PrunedTo, DeletesLeft, ReleasedToken, MaybeRetired, MaybePurgedToken, Commits, Enqueued;
    if e.Begin? {
      assert s.worker.job in Unclaimed(s.t.jobs, s.worker);
    }
  }

  lemma ClosedStep(s: State, e: Event, v: VaultId)
    requires Inv(s) && Enabled(s, e) && ClosedFor(s, v)
    ensures ClosedFor(Step(s, e), v) && ActiveOf(Step(s, e).worker, v) <= ActiveOf(s.worker, v)
  {
    hide Inv, Step, Enabled, HasVault;
    ClosedNoRun(s, e, v);
    StopIsFinal(s, e);
    if v in s.forgotten {
      ForgottenStays(s, e, v);
      if HasVault(Unclaimed(s.t.jobs, s.worker), v) && !s.t.stopped {
        RetiringEnds(s, e, v);
      } else if !s.t.stopped {
        NoNewJob(s, e, v);
      }
    }
  }

  lemma {:induction false} ClosedRun(ss: seq<State>, es: seq<Event>, v: VaultId, i: nat, k: nat)
    requires IsRun(ss, es) && i <= k < |ss| && ClosedFor(ss[i], v)
    ensures ClosedFor(ss[k], v) && ActiveOf(ss[k].worker, v) <= ActiveOf(ss[i].worker, v)
    decreases k
  {
    hide Inv, Step, Enabled, ClosedFor;
    if i < k {
      ClosedRun(ss, es, v, i, k - 1);
      assert StepAt(ss, es, k - 1);
      InvOnRun(ss, es, k - 1);
      ClosedStep(ss[k - 1], es[k - 1], v);
    }
  }

  /** No mark, cooldown, token, count or deferred resume. */
  predicate NothingOf(t: Tables, key: Key) {
    && key !in t.queued && key !in t.failed && key !in t.generations && key !in t.refs
    && key.vault !in t.resumePending
  }

  lemma RetireLeavesNothing(t: Tables, v: VaultId, key: Key)
    requires Retires(t, v) && key.vault == v
    ensures NothingOf(MaybeRetired(t, v), key)
  {
  }

  lemma BeginRetires(t: Tables, job: Job, key: Key)
    requires Retired(t, BegunJob(t, job).0, key.vault)
    ensures NothingOf(BegunJob(t, job).0, key)
  {
    var v := job.key.vault;
    var life0 := LifeOf(t.vaults, v);
    var life := if job.queueID != 0 && life0.pending > 0 then life0.(pending := life0.pending - 1) else life0;
    var t1 := t.(vaults := t.vaults[v := life]);
    if Retires(t1, v) && key.vault == v {
      RetireLeavesNothing(t1, v, key);
    }
    hide MaybeRetired, NothingOf;
  }

  lemma EndRetires(t: Tables, v: VaultId, runID: nat, key: Key)
    requires Retired(t, EndedJob(t, v, runID), key.vault)
    ensures NothingOf(EndedJob(t, v, runID), key)
  {
    var life := t.vaults[v].(active := t.vaults[v].active - {runID});
    var replays := Vacant(life) && v in t.resumePending && !life.retiring;
    var t1 := t.(vaults := t.vaults[v := if replays then life.(quiescing := false) else life],
                 resumePending := if replays then t.resumePending - {v} else t.resumePending);
    if Retires(t1, v) && key.vault == v {
      RetireLeavesNothing(t1, v, key);
    }
    hide MaybeRetired, NothingOf;
  }

  lemma ForgetRetires(t: Tables, v: VaultId, key: Key)
    requires Retired(t, Forgotten(t, v), key.vault)
    ensures NothingOf(Forgotten(t, v), key)
  {
    var t1 := t.(vaults := t.vaults[v := t.vaults[v].(retiring := true, quiescing := true)]);
    if Retires(t1, v) && key.vault == v {
      RetireLeavesNothing(t1, v, key);
    }
    hide MaybeRetired, NothingOf;
  }

  /** A vault that is retired leaves nothing behind. */
  lemma RetirementLeavesNothing(s: State, e: Event, key: Key)
    requires Inv(s) && Enabled(s, e) && Retired(s.t, Step(s, e).t, key.vault)
    ensures NothingOf(Step(s, e).t, key)
  {
    hide Inv, PrunedTo, DeletesLeft, Enqueued, BegunJob, EndedJob, DiscardedJob, Forgotten, NothingOf;
    match e
    case Enqueue(k, _, left) => EnqueueCooldowns(s.t, k, left, |s.history|);
    case Begin => BeginRetires(s.t, s.worker.job, key);
    case Discard => DiscardLives(s);
    case End => EndRetires(s.t, s.worker.job.key.vault, s.worker.runID, key);
    case Forget(v) => ForgetRetires(s.t, v, key);
    case _ =>
  }

  /** The vault was forgotten, and its entry, if any, is the retiring one. */
  predicate Leaving(s: State, v: VaultId) {
    v in s.forgotten && (v in s.t.vaults ==> s.t.vaults[v].retiring)
  }

  lemma LeavingStep(s: State, e: Event, v: VaultId)
    requires Inv(s) && Enabled(s, e) && Leaving(s, v) && e != Quiesce(v)
    ensures Leaving(Step(s, e), v)
  {
    hide Inv, PrunedTo, DeletesLeft, ReleasedToken, MaybeRetired, MaybePurgedToken, Commits, Enqueued;
    match e
    case Enqueue(k, _, left) => EnqueueShape(s.t, k, left, |s.history|);
    case Begin => ClaimedHasVault(s);
    case Discard => DiscardLives(s);
    case _ =>
  }

  lemma {:induction false} LeavingRun(ss: seq<State>, es: seq<Event>, v: VaultId, i: nat, k: nat)
    requires IsRun(ss, es) && i <= k < |ss| && Leaving(ss[i], v)
    requires forall n :: i <= n < k ==> es[n] != Quiesce(v)
    ensures Leaving(ss[k], v)
    decreases k
  {
    hide Inv, Step, Enabled, Leaving;
    if i < k {
      LeavingRun(ss, es, v, i, k - 1);
      assert StepAt(ss, es, k - 1);
      InvOnRun(ss, es, k - 1);
      LeavingStep(ss[k - 1], es[k - 1], v);
    }
  }

  lemma LeavingDrains(s: State, v: VaultId)
    requires Inv(s) && Leaving(s, v)
    ensures v in s.t.vaults <==> HasVault(Unclaimed(s.t.jobs, s.worker), v) || ActiveOf(s.worker, v) != {}
    ensures v in s.t.vaults ==> IsQuiescing(s.t, v)
  {
    hide Book, WorkerAgrees, DiskAgrees, Ordered;
    assert LifeAgrees(LifeOf(s.t.vaults, v), s.t.jobs, s.worker, v);
    CountOfPositive(Unclaimed(s.t.jobs, s.worker), v);
  }

  /**
   * ForgetVault: from the call on the vault has a tombstone exactly as long as one of its jobs waits or runs,
   * until somebody quiesces it again, and no new run of it begins, ever.
   */
  lemma ForgetDrainsExactly(ss: seq<State>, es: seq<Event>, v: VaultId, i: nat, k: nat)
    requires IsRun(ss, es) && i < k < |ss| && es[i] == Forget(v) && v in ss[i].t.vaults
    ensures ActiveOf(ss[k].worker, v) <= ActiveOf(ss[i].worker, v)
    ensures (forall n :: i < n < k ==> es[n] != Quiesce(v)) ==>
              (v in ss[k].t.vaults <==>
                 HasVault(Unclaimed(ss[k].t.jobs, ss[k].worker), v) || ActiveOf(ss[k].worker, v) != {})
  {
    hide Inv, Step, Enabled, Leaving, ClosedFor, HasVault;
    ForgetSets(ss, es, v, i);
    InvOnRun(ss, es, i + 1);
    LeavingIsClosed(ss[i + 1], v);
    ClosedRun(ss, es, v, i + 1, k);
    if forall n :: i < n < k ==> es[n] != Quiesce(v) {
      LeavingRun(ss, es, v, i + 1, k);
      InvOnRun(ss, es, k);
      LeavingDrains(ss[k], v);
    }
  }

  lemma ForgetSets(ss: seq<State>, es: seq<Event>, v: VaultId, i: nat)
    requires IsRun(ss, es) && i < |es| && es[i] == Forget(v) && v in ss[i].t.vaults
    ensures Leaving(ss[i + 1], v) && ActiveOf(ss[i + 1].worker, v) == ActiveOf(ss[i].worker, v)
  {
    hide Enabled, MaybeRetired;
    assert StepAt(ss, es, i);
  }

  lemma LeavingIsClosed(s: State, v: VaultId)
    requires Inv(s) && Leaving(s, v)
    ensures ClosedFor(s, v)
  {
    LeavingDrains(s, v);
    hide Inv, HasVault;
  }

  /**
   * The barrier: once QuiesceVault(v), called at step i, has returned nil, no job of v runs. On a stopped
   * generator this holds if none was running at the call, for a vault being forgotten always, and otherwise
   * until Resume or Forget of v unless the collected run replays a deferred resume; then the tombstone is
   * still in place as well.
   */
  lemma QuiesceBarrier(ss: seq<State>, es: seq<Event>, v: VaultId, i: nat, m: nat, k: nat)
    requires IsRun(ss, es) && QuiesceReturned(ss, es, v, i, m) && m <= k < |ss|
    requires ss[i].t.stopped ==> ActiveOf(ss[i].worker, v) == {}
    requires !ss[i].t.stopped && !LifeOf(ss[i].t.vaults, v).retiring ==>
               !Replays(ss[i].t, v) && Undisturbed(es, v, i + 1, k, false)
    ensures ActiveOf(ss[k].worker, v) == {}
    ensures !ss[i].t.stopped && !LifeOf(ss[i].t.vaults, v).retiring ==> IsQuiescing(ss[k].t, v)
  {
    hide Replays, Enabled, Step, Inv, ClosedFor;
    QuiesceSets(ss, es, v, i);
    if ss[i].t.stopped {
      StoppedIsClosed(ss[i + 1], v);
      ClosedRun(ss, es, v, i + 1, k);
    } else if LifeOf(ss[i].t.vaults, v).retiring {
      InvOnRun(ss, es, i);
      RetiringIsClosed(ss[i], v);
      ClosedRun(ss, es, v, i, m);
      ClosedRun(ss, es, v, m, k);
    } else {
      StandsRun(ss, es, v, i + 1, m);
      StandsRun(ss, es, v, m, k);
    }
  }

  lemma StoppedIsClosed(s: State, v: VaultId)
    requires s.t.stopped
    ensures ClosedFor(s, v)
  {
  }

  /**
   * Exactly when the barrier stands on a stopped generator, where QuiesceVault does not wait: no job of the
   * vault runs after the call if and only if none was running at the call.
   */
  lemma StoppedQuiesceExactly(ss: seq<State>, es: seq<Event>, v: VaultId, i: nat)
    requires IsRun(ss, es) && i < |es| && es[i] == Quiesce(v) && ss[i].t.stopped
    ensures (forall k :: i < k < |ss| ==> ActiveOf(ss[k].worker, v) == {}) <==> ActiveOf(ss[i].worker, v) == {}
  {
    hide Enabled, Step, Inv, ClosedFor, ActiveOf;
    QuiesceSets(ss, es, v, i);
    if ActiveOf(ss[i].worker, v) == {} {
      forall k | i < k < |ss| ensures ActiveOf(ss[k].worker, v) == {} {
        QuiesceBarrier(ss, es, v, i, i + 1, k);
      }
    } else {
      assert ActiveOf(ss[i + 1].worker, v) != {};
    }
  }

  /**
   * Exactly when the tombstone stands on a running generator, for a vault that is not being forgotten: after the
   * wait it is in place, while nobody resumes, forgets or quiesces the vault again, if and only if it was not the
   * case at the call that a deferred resume was outstanding, no job of the vault waiting, and one of them
   * running. QuiesceVault does not clear an earlier deferred resume, and the end of the run it waits for
   * replays it.
   */
  lemma QuiesceBarrierExactly(ss: seq<State>, es: seq<Event>, v: VaultId, i: nat, m: nat, k: nat)
    requires IsRun(ss, es) && QuiesceReturned(ss, es, v, i, m) && m <= k < |ss|
    requires !ss[i].t.stopped && !LifeOf(ss[i].t.vaults, v).retiring && Undisturbed(es, v, i + 1, k, true)
    ensures var life := LifeOf(ss[i].t.vaults, v);
            IsQuiescing(ss[k].t, v) <==> !(v in ss[i].t.resumePending && life.pending == 0 && life.active != {})
  {
    if Replays(ss[i].t, v) {
      hide Enabled, Step, Inv;
      QuiesceSets(ss, es, v, i);
      DueRun(ss, es, v, i + 1, m);
      InvOnRun(ss, es, m);
      WorkerLife(ss[m], v);
      DueRun(ss, es, v, m, k);
    } else {
      QuiesceBarrier(ss, es, v, i, m, k);
    }
  }

  // ---- Deferred resumes ----

  /**
   * Exactly when a deferred resume is honoured: once the vault has no job and no run left, and nobody resumed,
   * forgot or quiesced it in between, it is open if and only if at state i one of its jobs was running and none
   * was waiting. A resume deferred while a job waits is never replayed.
   */
  lemma DeferredResumeHonouredExactly(ss: seq<State>, es: seq<Event>, v: VaultId, i: nat, k: nat)
    requires IsRun(ss, es) && i <= k < |ss| && Undisturbed(es, v, i, k, true)
    requires IsQuiescing(ss[i].t, v) && !ss[i].t.vaults[v].retiring && v in ss[i].t.resumePending
    requires Vacant(LifeOf(ss[k].t.vaults, v))
    ensures var life := LifeOf(ss[i].t.vaults, v);
            !IsQuiescing(ss[k].t, v) <==> life.pending == 0 && life.active != {}
  {
    hide Enabled, Step, Inv;
    if Replays(ss[i].t, v) {
      DueRun(ss, es, v, i, k);
    } else {
      StandsRun(ss, es, v, i, k);
    }
  }

  /**
   * In the terms of the caller: a ResumeVault of a quiescing vault that is not being forgotten has opened it by
   * the time its last job is gone if and only if no job of the vault was waiting when it was called.
   */
  lemma ResumeTakesEffectExactly(ss: seq<State>, es: seq<Event>, v: VaultId, i: nat, k: nat)
    requires IsRun(ss, es) && i < k < |ss| && es[i] == Resume(v) && Undisturbed(es, v, i + 1, k, true)
    requires IsQuiescing(ss[i].t, v) && !ss[i].t.vaults[v].retiring && Vacant(LifeOf(ss[k].t.vaults, v))
    ensures !IsQuiescing(ss[k].t, v) <==> LifeOf(ss[i].t.vaults, v).pending == 0
  {
    ResumeSets(ss, es, v, i);
    hide Enabled, Step, Inv;
    if Vacant(LifeOf(ss[i].t.vaults, v)) {
      DueRun(ss, es, v, i + 1, k);
    } else {
      DeferredResumeHonouredExactly(ss, es, v, i + 1, k);
    }
  }

  /** ResumeVault opens a vacant vault at once, and defers otherwise. */
  lemma ResumeSets(ss: seq<State>, es: seq<Event>, v: VaultId, i: nat)
    requires IsRun(ss, es) && i < |es| && es[i] == Resume(v)
    requires IsQuiescing(ss[i].t, v) && !ss[i].t.vaults[v].retiring
    ensures LifeOf(ss[i + 1].t.vaults, v).(quiescing := true) == LifeOf(ss[i].t.vaults, v)
    ensures if Vacant(LifeOf(ss[i].t.vaults, v)) then !IsQuiescing(ss[i + 1].t, v)
            else IsQuiescing(ss[i + 1].t, v) && v in ss[i + 1].t.resumePending
  {
    hide Enabled;
    assert StepAt(ss, es, i);
  }

  lemma RunMore(ss: seq<State>, es: seq<Event>, e: Event)
    requires IsRun(ss, es) && Enabled(Last(ss), e)
    ensures IsRun(ss + [Step(Last(ss), e)], es + [e])
  {
    hide Step, Enabled;
    var ss', es' := ss + [Step(Last(ss), e)], es + [e];
    forall i: nat | i < |es'| ensures StepAt(ss', es', i) {
      assert i < |es| ==> StepAt(ss, es, i);
    }
  }

  /** A run that enqueues a job of "v". */
  lemma OneJobQueued() returns (ss: seq<State>, es: seq<Event>, job: Job)
    ensures IsRun(ss, es) && |ss| == 2 && |es| == 1 && job == Job(Key("v", "p"), 0, 1, 0)
    ensures var s := Last(ss);
            && s.worker == Idle && s.t.jobs == [job] && !s.t.stopped && s.t.generations == map[] && s.disk == map[]
            && s.t.vaults == map["v" := Life(false, false, 1, 1, {})] && s.t.resumePending == {}
  {
    var e := Enqueue(Key("v", "p"), 0, map[]);
    job := Job(Key("v", "p"), 0, 1, 0);
    ss, es := [INIT, Step(INIT, e)], [e];
    assert StepAt(ss, es, 0);
    assert Last(ss).t.vaults == map["v" := Life(false, false, 1, 1, {})];
  }

  /** A run that ends with a queued job of "v" behind a quiesce and a deferred resume. */
  lemma DeferredBehindQueue() returns (ss: seq<State>, es: seq<Event>, job: Job)
    ensures IsRun(ss, es) && ss != []
    ensures var s := Last(ss);
            && job.key == Key("v", "p") && job.queueID == 1
            && s.worker == Idle && s.t.jobs == [job] && !s.t.stopped
            && s.t.vaults == map["v" := Life(true, false, 1, 1, {})] && s.t.resumePending == {"v"}
  {
    hide IsRun;
    ss, es, job := OneJobQueued();
    RunMore(ss, es, Quiesce("v"));
    ss, es := ss + [Step(Last(ss), Quiesce("v"))], es + [Quiesce("v")];
    assert Last(ss).t.vaults == map["v" := Life(true, false, 1, 1, {})];
    RunMore(ss, es, Resume("v"));
    ss, es := ss + [Step(Last(ss), Resume("v"))], es + [Resume("v")];
  }

  /** After this run nothing of "v" is queued or running, and its deferred resume still waits: nothing replays it. */
  lemma DeferredResumeCanGetStuck() returns (ss: seq<State>, es: seq<Event>)
    ensures IsRun(ss, es) && ss != []
    ensures var s := Last(ss);
            && s.worker == Idle && s.t.jobs == [] && Vacant(LifeOf(s.t.vaults, "v"))
            && IsQuiescing(s.t, "v") && "v" in s.t.resumePending
  {
    hide IsRun;
    var job;
    ss, es, job := DeferredBehindQueue();
    RunMore(ss, es, Receive);
    ss, es := ss + [Step(Last(ss), Receive)], es + [Receive];
    RunMore(ss, es, Begin);
    ss, es := ss + [Step(Last(ss), Begin)], es + [Begin];
    RunMore(ss, es, Discard);
    ss, es := ss + [Step(Last(ss), Discard)], es + [Discard];
  }

  /**
   * A run in which a ResumeVault of the open vault "v" is deferred behind its running job, QuiesceVault is then
   * called, and the end of that job opens the vault again: QuiesceVault returns nil with no barrier in place.
   */
  lemma QuiesceBarrierCanFail() returns (ss: seq<State>, es: seq<Event>, i: nat)
    ensures IsRun(ss, es) && QuiesceReturned(ss, es, "v", i, |es|) && Undisturbed(es, "v", i + 1, |es|, true)
    ensures !ss[i].t.stopped && !LifeOf(ss[i].t.vaults, "v").retiring && !IsQuiescing(Last(ss).t, "v")
  {
    hide IsRun, Step;
    var ss0, es0, job := ResumeBehindRun();
    var s := Last(ss0);
    var q, done := Quiesce("v"), Finish(Generated, 0);
    RunEnds(s, job);
    RunMore(ss0, es0, q);
    var ss1, es1 := ss0 + [Step(s, q)], es0 + [q];
    RunMore(ss1, es1, done);
    var ss2, es2 := ss1 + [Step(Last(ss1), done)], es1 + [done];
    RunMore(ss2, es2, End);
    ss, es, i := ss2 + [Step(Last(ss2), End)], es2 + [End], |es0|;
    assert ss[i] == s && es[i..] == [q, done, End];
    assert forall n :: i < n < |es| ==> es[n] == es[i..][n - i];
  }

  /** Quiescing behind the running job and letting the job end. */
  lemma RunEnds(s: State, job: Job)
    requires job.key == Key("v", "p") && s.worker == Active(job, 2) && !s.t.stopped
    requires s.t.vaults == map["v" := Life(false, false, 0, 2, {2})] && s.t.resumePending == {"v"}
    ensures var s1 := Step(s, Quiesce("v"));
            && s1.worker.Active?
            && var s2 := Step(s1, Finish(Generated, 0));
               s2.worker.Finished? && var s3 := Step(s2, End); ActiveOf(s3.worker, "v") == {} && !IsQuiescing(s3.t, "v")
  {
    var s1 := Step(s, Quiesce("v"));
    assert s1.t.vaults == map["v" := Life(true, false, 0, 2, {2})];
  }

  /**
   * A run in which the generator is stopped while a job of "v" runs. QuiesceVault then returns nil at once, and
   * after it the job still writes its thumbnail.
   */
  lemma StoppedQuiesceCanFail() returns (ss: seq<State>, es: seq<Event>, i: nat)
    ensures IsRun(ss, es) && i + 2 == |es| && es[i] == Quiesce("v") && ss[i].t.stopped
    ensures ActiveOf(ss[i + 1].worker, "v") != {}
    ensures Key("v", "p") !in ss[i + 1].disk && Key("v", "p") in Last(ss).disk
  {
    hide IsRun, Step;
    var ss0, es0, job := OneJobRunning();
    var s := Last(ss0);
    StopThenCommit(s, job);
    RunMore(ss0, es0, Stop);
    var ss1, es1 := ss0 + [Step(s, Stop)], es0 + [Stop];
    RunMore(ss1, es1, Quiesce("v"));
    var ss2, es2 := ss1 + [Step(Last(ss1), Quiesce("v"))], es1 + [Quiesce("v")];
    RunMore(ss2, es2, Commit(true));
    ss, es, i := ss2 + [Step(Last(ss2), Commit(true))], es2 + [Commit(true)], |es1|;
    assert ss[i] == Last(ss1) && ss[i + 1] == Last(ss2);
  }

  lemma StopThenCommit(s: State, job: Job)
    requires job.key == Key("v", "p") && s.worker == Active(job, 2) && job.generation == 0
    requires s.t.generations == map[] && s.disk == map[]
    ensures var s1 := Step(s, Stop);
            && s1.t.stopped
            && var s2 := Step(s1, Quiesce("v"));
               && s2.worker == Active(job, 2) && job.key !in s2.disk
               && job.key in Step(s2, Commit(true)).disk
  {
  }

  /** A run that leaves a job of "v" running. */
  lemma OneJobRunning() returns (ss: seq<State>, es: seq<Event>, job: Job)
    ensures IsRun(ss, es) && |ss| == |es| + 1
    ensures var s := Last(ss);
            && job.key == Key("v", "p") && job.generation == 0 && s.worker == Active(job, 2)
            && s.t.generations == map[] && s.disk == map[] && !s.t.stopped && s.t.jobs == []
            && s.t.vaults == map["v" := Life(false, false, 0, 2, {2})] && s.t.resumePending == {}
  {
    hide IsRun;
    ss, es, job := OneJobQueued();
    RunMore(ss, es, Receive);
    ss, es := ss + [Step(Last(ss), Receive)], es + [Receive];
    assert Last(ss).t.vaults == map["v" := Life(false, false, 1, 1, {})];
    RunMore(ss, es, Begin);
    ss, es := ss + [Step(Last(ss), Begin)], es + [Begin];
    assert Life(false, false, 0, 1, {}).active + {2} == {2};
  }

  /** A run that leaves a job of "v" running and a resume of "v" deferred behind it. */
  lemma ResumeBehindRun() returns (ss: seq<State>, es: seq<Event>, job: Job)
    ensures IsRun(ss, es) && |ss| == |es| + 1
    ensures var s := Last(ss);
            && job.key == Key("v", "p") && s.worker == Active(job, 2) && !s.t.stopped && s.t.jobs == []
            && s.t.vaults == map["v" := Life(false, false, 0, 2, {2})] && s.t.resumePending == {"v"}
  {
    hide IsRun;
    ss, es, job := OneJobRunning();
    RunMore(ss, es, Resume("v"));
    ss, es := ss + [Step(Last(ss), Resume("v"))], es + [Resume("v")];
  }

  function Last(ss: seq<State>): State
    requires ss != []
  {
    ss[|ss| - 1]
  }
}
