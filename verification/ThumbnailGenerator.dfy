/** The thumbnail generator's tables and its mutex sections (internal/thumbnail/thumbnail.go). */
module ThumbnailGenerator {
  import opened Wrappers

  type VaultId = string

  /** A virtual path of a vault; the code joins the two into one string, see ThumbJobKey. */
  datatype Key = Key(vault: VaultId, path: string)

  /** vaultID + NUL + path. */
  function ThumbJobKey(k: Key): string {
    k.vault + [0 as char] + k.path
  }

  predicate NulFree(v: VaultId) {
    forall i :: 0 <= i < |v| ==> v[i] != 0 as char
  }

  /** For vault ids without NUL the joined keys are injective, and the prefix test of a purge picks one vault's keys. */
  lemma JobKeysSeparateVaults(k: Key, k': Key)
    requires NulFree(k.vault) && NulFree(k'.vault)
    ensures ThumbJobKey(k) == ThumbJobKey(k') <==> k == k'
    ensures k.vault + [0 as char] <= ThumbJobKey(k') <==> k.vault == k'.vault
  {
    var s, s' := ThumbJobKey(k), ThumbJobKey(k');
    var n, n' := |k.vault|, |k'.vault|;
    assert s[n] == 0 as char && s'[n'] == 0 as char;
    assert s[..n] == k.vault && s'[..n'] == k'.vault && s[n + 1..] == k.path && s'[n' + 1..] == k'.path;
    if k.vault + [0 as char] <= s' {
      assert s'[..n] == (k.vault + [0 as char])[..n] == k.vault;
      assert s'[n] == (k.vault + [0 as char])[n];
      assert forall i :: 0 <= i < n ==> s'[i] == (k.vault + [0 as char])[i] == k.vault[i];
      assert forall i :: 0 <= i < n' ==> s'[i] == k'.vault[i];
      assert n == n';
    }
  }

  /** generation tokens are unsigned 64-bit and wrap. */
  const TOKENS: nat := 0x1_0000_0000_0000_0000
  const QUEUE_SIZE: nat := 1000
  const MAX_FAILED_JOBS: nat := 5000

  /** A job in the channel; at names the call that enqueued it and is only carried along. */
  datatype Job = Job(key: Key, generation: nat, queueID: nat, at: nat)

  datatype Life = Life(quiescing: bool, retiring: bool, pending: int, nextID: nat, active: set<nat>)

  const NEW_LIFE := Life(false, false, 0, 0, {})

  /** The fields of Generator that its mutex guards, and its job channel. */
  datatype Tables = Tables(
    queued: set<Key>,
    failed: map<Key, int>,
    generations: map<Key, nat>,
    refs: map<Key, int>,
    vaults: map<VaultId, Life>,
    resumePending: set<VaultId>,
    stopped: bool,
    jobs: seq<Job>)

  const EMPTY_TABLES := Tables({}, map[], map[], map[], map[], {}, false, [])

  datatype Admission = Admitted | AlreadyQueued | CoolingDown | Stopped | VaultUnavailable | QueueFull

  /** How generate ended: success, a stale token, a skipped file, or another failure. */
  datatype Outcome = Generated | Stale | Skipped | Failed

  /** A missing counter or token reads as zero. */
  function At(m: map<Key, int>, k: Key): int {
    if k in m then m[k] else 0
  }

  function Token(generations: map<Key, nat>, k: Key): nat {
    if k in generations then generations[k] else 0
  }

  function LifeOf(vaults: map<VaultId, Life>, v: VaultId): Life {
    if v in vaults then vaults[v] else NEW_LIFE
  }

  function Without<V>(m: map<Key, V>, v: VaultId): map<Key, V> {
    map k | k in m && k.vault != v :: m[k]
  }

  /** No pending job and no active run. */
  predicate Vacant(life: Life) {
    life.pending == 0 && life.active == {}
  }

  // ---- What each mutex-held section does to the tables ----

  function Purged(t: Tables, v: VaultId): (t': Tables) {
    t.(queued := (set k | k in t.queued && k.vault != v), failed := Without(t.failed, v),
       generations := Without(t.generations, v), refs := Without(t.refs, v))
  }

  predicate Retires(t: Tables, v: VaultId) {
    v in t.vaults && t.vaults[v].retiring && Vacant(t.vaults[v])
  }

  function MaybeRetired(t: Tables, v: VaultId): (t': Tables)
    ensures t'.vaults == if Retires(t, v) then t.vaults - {v} else t.vaults
    ensures t'.jobs == t.jobs && t'.stopped == t.stopped
    ensures t'.resumePending <= t.resumePending <= t'.resumePending + {v} && (!Retires(t, v) ==> t' == t)
  {
    if Retires(t, v)
    then Purged(t, v).(resumePending := t.resumePending - {v}, vaults := t.vaults - {v})
    else t
  }

  function Retained(t: Tables, k: Key): (t': Tables) {
    t.(refs := t.refs[k := At(t.refs, k) + 1])
  }

  function MaybePurgedToken(t: Tables, k: Key): (t': Tables)
    ensures t' == t.(generations := t'.generations)
  {
    if At(t.refs, k) == 0 && k !in t.queued then t.(generations := t.generations - {k}) else t
  }

  function ReleasedToken(t: Tables, k: Key): (t': Tables)
    ensures t' == t.(generations := t'.generations, refs := t'.refs)
  {
    if At(t.refs, k) > 1 then t.(refs := t.refs[k := t.refs[k] - 1])
    else MaybePurgedToken(t.(refs := t.refs - {k}), k)
  }

  /** What pruning may leave of the cooldowns: none expired, none changed, and at most MAX_FAILED_JOBS of them. */
  predicate PrunedTo(failed: map<Key, int>, now: int, left: map<Key, int>) {
    && (forall k :: k in left ==> k in failed && left[k] == failed[k] && now < left[k])
    && |left| <= MAX_FAILED_JOBS
    && (|left| < MAX_FAILED_JOBS ==> forall k :: k in failed && now < failed[k] ==> k in left)
  }

  /** Queues the job and sends it unless the channel is full. */
  function Submitted(t: Tables, k: Key, life: Life, at: nat): (r: (Tables, Admission)) {
    var id := life.nextID + 1;
    if |t.jobs| >= QUEUE_SIZE then (t.(vaults := t.vaults[k.vault := life.(nextID := id)]), QueueFull)
    else
      (Retained(t.(queued := t.queued + {k},
                   vaults := t.vaults[k.vault := life.(nextID := id, pending := life.pending + 1)],
                   jobs := t.jobs + [Job(k, Token(t.generations, k), id, at)]), k), Admitted)
  }

  /** left is what pruning made of the cooldowns. */
  function Enqueued(t: Tables, k: Key, left: map<Key, int>, at: nat): (r: (Tables, Admission)) {
    if t.stopped then (t, Stopped)
    else
      var life := LifeOf(t.vaults, k.vault);
      var t1 := t.(vaults := t.vaults[k.vault := life]);
      if life.quiescing || life.retiring then (t1, VaultUnavailable)
      else
        var t2 := t1.(failed := left);
        if k in t.queued then (t2, AlreadyQueued)
        else if k in left then (t2, CoolingDown)
        else Submitted(t2, k, life, at)
  }

  /** The run id is Some when the job was claimed for execution. */
  function BegunJob(t: Tables, job: Job): (r: (Tables, Option<nat>)) {
    var v := job.key.vault;
    var life0 := LifeOf(t.vaults, v);
    var life := if job.queueID != 0 && life0.pending > 0 then life0.(pending := life0.pending - 1) else life0;
    if t.stopped || life.quiescing || life.retiring
    then (MaybeRetired(t.(vaults := t.vaults[v := life]), v), None)
    else
      var id := life.nextID + 1;
      (t.(vaults := t.vaults[v := life.(nextID := id, active := life.active + {id})]), Some(id))
  }

  predicate IsCurrent(t: Tables, job: Job) {
    Token(t.generations, job.key) == job.generation
  }

  function DiscardedJob(t: Tables, job: Job): (t': Tables) {
    var t1 := if IsCurrent(t, job) then t.(queued := t.queued - {job.key}) else t;
    MaybeRetired(ReleasedToken(t1, job.key), job.key.vault)
  }

  /** until is the end of a new cooldown. */
  function FinishedJob(t: Tables, job: Job, outcome: Outcome, until: int): (t': Tables) {
    var k := job.key;
    var t1 := if !IsCurrent(t, job) then t
              else t.(queued := t.queued - {k},
                      failed := if outcome == Skipped || outcome == Failed then t.failed[k := until]
                                else t.failed - {k});
    ReleasedToken(t1, k)
  }

  function EndedJob(t: Tables, v: VaultId, runID: nat): (t': Tables) {
    if v !in t.vaults then t
    else
      var life := t.vaults[v].(active := t.vaults[v].active - {runID});
      var replays := Vacant(life) && v in t.resumePending && !life.retiring;
      MaybeRetired(t.(vaults := t.vaults[v := if replays then life.(quiescing := false) else life],
                      resumePending := if replays then t.resumePending - {v} else t.resumePending), v)
  }

  function Quiesced(t: Tables, v: VaultId): (t': Tables) {
    if t.stopped then t else t.(vaults := t.vaults[v := LifeOf(t.vaults, v).(quiescing := true)])
  }

  function Resumed(t: Tables, v: VaultId): (t': Tables) {
    if v !in t.vaults || t.vaults[v].retiring then t
    else if Vacant(t.vaults[v])
    then t.(vaults := t.vaults[v := t.vaults[v].(quiescing := false)], resumePending := t.resumePending - {v})
    else t.(resumePending := t.resumePending + {v})
  }

  function Forgotten(t: Tables, v: VaultId): (t': Tables) {
    if v !in t.vaults then t
    else MaybeRetired(t.(vaults := t.vaults[v := t.vaults[v].(retiring := true, quiescing := true)]), v)
  }

  function Deleted(t: Tables, k: Key): (t': Tables) {
    MaybePurgedToken(
      t.(generations := t.generations[k := (Token(t.generations, k) + 1) % TOKENS],
         queued := t.queued - {k}, failed := t.failed - {k}), k)
  }

  // ---- The generator ----

  class Generator {
    var queued: set<Key>
    var failed: map<Key, int>
    var generations: map<Key, nat>
    var generationRefs: map<Key, int>
    var vaults: map<VaultId, Life>
    var resumePending: set<VaultId>
    var stopped: bool
    var jobs: seq<Job>

    ghost function View(): Tables
      reads this
    {
      Tables(queued, failed, generations, generationRefs, vaults, resumePending, stopped, jobs)
    }

    constructor ()
      ensures View() == EMPTY_TABLES
    {
      queued, failed, generations, generationRefs := {}, map[], map[], map[];
      vaults, resumePending, stopped, jobs := map[], {}, false, [];
    }

    method LifecycleLocked(vaultID: VaultId) returns (state: Life)
      modifies this
      ensures state == LifeOf(old(vaults), vaultID)
      ensures View() == old(View()).(vaults := old(vaults)[vaultID := state])
    {
      if vaultID !in vaults {
        vaults := vaults[vaultID := NEW_LIFE];
      }
      state := vaults[vaultID];
      assert vaults == vaults[vaultID := state];
    }

    /** Deletes the vault's entries from a map while ranging over it. */
    method DropVault<V>(m: map<Key, V>, vaultID: VaultId) returns (left: map<Key, V>)
      ensures left == Without(m, vaultID)
    {
      left := m;
      var rest := m.Keys;
      while rest != {}
        invariant rest <= m.Keys
        invariant left == map k | k in m && (k in rest || k.vault != vaultID) :: m[k]
        decreases |rest|
      {
        var key :| key in rest;
        if key.vault == vaultID {
          left := left - {key};
        }
        rest := rest - {key};
      }
    }

    method PurgeVaultCachesLocked(vaultID: VaultId)
      modifies this
      ensures View() == Purged(old(View()), vaultID)
    {
      var rest := queued;
      ghost var was := queued;
      while rest != {}
        invariant rest <= was
        invariant queued == set k | k in was && (k in rest || k.vault != vaultID)
        invariant View() == old(View()).(queued := queued)
        decreases |rest|
      {
        var key :| key in rest;
        if key.vault == vaultID {
          queued := queued - {key};
        }
        rest := rest - {key};
      }
      failed := DropVault(failed, vaultID);
      generations := DropVault(generations, vaultID);
      generationRefs := DropVault(generationRefs, vaultID);
    }

    method MaybeRetireLocked(vaultID: VaultId)
      modifies this
      ensures View() == MaybeRetired(old(View()), vaultID)
    {
      if vaultID !in vaults || !vaults[vaultID].retiring {
        return;
      }
      if vaults[vaultID].pending == 0 && vaults[vaultID].active == {} {
        PurgeVaultCachesLocked(vaultID);
        resumePending := resumePending - {vaultID};
        vaults := vaults - {vaultID};
      }
    }

    method RetainGenerationLocked(key: Key)
      modifies this
      ensures View() == Retained(old(View()), key)
    {
      generationRefs := generationRefs[key := (if key in generationRefs then generationRefs[key] else 0) + 1];
    }

    method ReleaseGenerationLocked(key: Key)
      modifies this
      ensures View() == ReleasedToken(old(View()), key)
    {
      var refs := if key in generationRefs then generationRefs[key] else 0;
      if refs > 1 {
        generationRefs := generationRefs[key := refs - 1];
        return;
      }
      generationRefs := generationRefs - {key};
      MaybePurgeGenerationLocked(key);
    }

    method MaybePurgeGenerationLocked(key: Key)
      modifies this
      ensures View() == MaybePurgedToken(old(View()), key)
    {
      if key in generationRefs && generationRefs[key] != 0 {
        return;
      }
      if key in queued {
        return;
      }
      generations := generations - {key};
    }

    method DropExpired(now: int)
      modifies this
      ensures failed == map k | k in old(failed) && now < old(failed)[k] :: old(failed)[k]
      ensures View() == old(View()).(failed := failed)
    {
      var left := failed;
      var rest := failed.Keys;
      while rest != {}
        invariant rest <= failed.Keys
        invariant left == map k | k in failed && (k in rest || now < failed[k]) :: failed[k]
        decreases |rest|
      {
        var key :| key in rest;
        if !(now < left[key]) {
          left := left - {key};
        }
        rest := rest - {key};
      }
      failed := left;
    }

    method EvictExcess()
      modifies this
      ensures forall k :: k in failed ==> k in old(failed) && failed[k] == old(failed)[k]
      ensures |failed| <= MAX_FAILED_JOBS && (|failed| < MAX_FAILED_JOBS ==> failed == old(failed))
      ensures View() == old(View()).(failed := failed)
    {
      var left := failed;
      while |left| > MAX_FAILED_JOBS
        invariant forall k :: k in left ==> k in failed && left[k] == failed[k]
        invariant |left| < MAX_FAILED_JOBS ==> left == failed
        decreases |left|
      {
        var key :| key in left;
        assert |(left - {key}).Keys| == |left.Keys - {key}|;
        left := left - {key};
      }
      failed := left;
    }

    method PruneFailedLocked(now: int)
      modifies this
      ensures PrunedTo(old(failed), now, failed)
      ensures View() == old(View()).(failed := failed)
    {
      DropExpired(now);
      EvictExcess();
    }

    /** left is what pruning kept of the cooldowns, once the call gets that far. */
    method TryEnqueue(key: Key, now: int, at: nat) returns (answer: Admission, ghost left: map<Key, int>)
      modifies this
      ensures answer != Stopped && answer != VaultUnavailable ==> PrunedTo(old(failed), now, left)
      ensures (View(), answer) == Enqueued(old(View()), key, left, at)
    {
      left := failed;
      if stopped {
        return Stopped, left;
      }
      var state := LifecycleLocked(key.vault);
      if state.quiescing || state.retiring {
        return VaultUnavailable, left;
      }
      PruneFailedLocked(now);
      left := failed;
      if key in queued {
        return AlreadyQueued, left;
      }
      if key in failed {
        // Pruning has dropped every expired cooldown, so the code's check of the deadline never fails here.
        assert now < failed[key];
        return CoolingDown, left;
      }
      answer := SubmitLocked(key, at, state);
    }

    /** Queues the job and tries the channel, which never blocks; a full channel takes everything back but the id. */
    method SubmitLocked(key: Key, at: nat, state: Life) returns (answer: Admission)
      requires key !in queued && key.vault in vaults && vaults[key.vault] == state && !state.retiring
      modifies this
      ensures (View(), answer) == Submitted(old(View()), key, state, at)
    {
      ghost var before := queued;
      queued := queued + {key};
      vaults := vaults[key.vault := state.(nextID := state.nextID + 1, pending := state.pending + 1)];
      var job := Job(key, if key in generations then generations[key] else 0, state.nextID + 1, at);
      if |jobs| < QUEUE_SIZE {
        jobs := jobs + [job];
        assert vaults == old(vaults)[key.vault := state.(nextID := state.nextID + 1, pending := state.pending + 1)];
        RetainGenerationLocked(key);
        return Admitted;
      } else {
        queued := queued - {key};
        assert queued == before;
        vaults := vaults[key.vault := vaults[key.vault].(pending := vaults[key.vault].pending - 1)];
        assert vaults == old(vaults)[key.vault := state.(nextID := state.nextID + 1)];
        assert !Retires(View(), key.vault);
        MaybeRetireLocked(key.vault);
        return QueueFull;
      }
    }

    method BeginJob(job: Job) returns (run: Option<nat>)
      modifies this
      ensures (View(), run) == BegunJob(old(View()), job)
    {
      var v := job.key.vault;
      var state := LifecycleLocked(v);
      if job.queueID != 0 && state.pending > 0 {
        state := state.(pending := state.pending - 1);
        vaults := vaults[v := state];
      }
      assert vaults == old(vaults)[v := state];
      if stopped || state.quiescing || state.retiring {
        MaybeRetireLocked(v);
        return None;
      }
      var runID := state.nextID + 1;
      vaults := vaults[v := state.(nextID := runID, active := state.active + {runID})];
      assert vaults == old(vaults)[v := vaults[v]];
      return Some(runID);
    }

    method DiscardJob(job: Job)
      modifies this
      ensures View() == DiscardedJob(old(View()), job)
    {
      var current := ThumbnailJobCurrent(job);
      if current {
        queued := queued - {job.key};
      }
      ReleaseGenerationLocked(job.key);
      MaybeRetireLocked(job.key.vault);
    }

    method ThumbnailJobCurrent(job: Job) returns (current: bool)
      ensures current == IsCurrent(View(), job)
    {
      current := (if job.key in generations then generations[job.key] else 0) == job.generation;
    }

    method FinishJob(job: Job, outcome: Outcome, until: int)
      modifies this
      ensures View() == FinishedJob(old(View()), job, outcome, until)
    {
      var key := job.key;
      var isCurrent := ThumbnailJobCurrent(job);
      if isCurrent {
        queued := queued - {key};
      }
      if outcome == Stale {
        if isCurrent {
          failed := failed - {key};
        }
      } else if outcome == Skipped {
        if isCurrent {
          failed := failed[key := until];
        }
      } else if isCurrent {
        if outcome == Failed {
          failed := failed[key := until];
        } else {
          failed := failed - {key};
        }
      }
      ReleaseGenerationLocked(key);
    }

    /** A job that was never claimed has run id 0. */
    method EndJob(job: Job, runID: nat)
      modifies this
      ensures View() == if runID == 0 then old(View()) else EndedJob(old(View()), job.key.vault, runID)
    {
      if runID == 0 {
        return;
      }
      var v := job.key.vault;
      if v !in vaults {
        return;
      }
      var state := vaults[v];
      if runID in state.active {
        state := state.(active := state.active - {runID});
        vaults := vaults[v := state];
      }
      assert state.active == old(vaults)[v].active - {runID};
      if state.active == {} && state.pending == 0 {
        if v in resumePending && !state.retiring {
          vaults := vaults[v := state.(quiescing := false)];
          resumePending := resumePending - {v};
        }
      }
      assert vaults == vaults[v := vaults[v]];
      MaybeRetireLocked(v);
    }

    /** The locked section of QuiesceVault; runs are the active owners the call then cancels and waits for. */
    method QuiesceVault(vaultID: VaultId) returns (runs: set<nat>)
      modifies this
      ensures View() == Quiesced(old(View()), vaultID)
      ensures runs == if old(stopped) then {} else LifeOf(old(vaults), vaultID).active
    {
      if stopped {
        return {};
      }
      var state := LifecycleLocked(vaultID);
      vaults := vaults[vaultID := state.(quiescing := true)];
      return state.active;
    }

    method ResumeVault(vaultID: VaultId)
      modifies this
      ensures View() == Resumed(old(View()), vaultID)
    {
      if vaultID !in vaults || vaults[vaultID].retiring {
        return;
      }
      var state := vaults[vaultID];
      if state.active == {} && state.pending == 0 {
        vaults := vaults[vaultID := state.(quiescing := false)];
        resumePending := resumePending - {vaultID};
      } else {
        resumePending := resumePending + {vaultID};
      }
    }

    method ForgetVault(vaultID: VaultId)
      modifies this
      ensures View() == Forgotten(old(View()), vaultID)
    {
      if vaultID !in vaults {
        return;
      }
      vaults := vaults[vaultID := vaults[vaultID].(retiring := true, quiescing := true)];
      MaybeRetireLocked(vaultID);
    }

    method Stop()
      modifies this
      ensures View() == old(View()).(stopped := true)
    {
      stopped := true;
    }

    /** The locked section of DeleteThumbnail; removing the cached file is the caller's step. */
    method DeleteThumbnail(key: Key)
      modifies this
      ensures View() == Deleted(old(View()), key)
    {
      generations := generations[key := ((if key in generations then generations[key] else 0) + 1) % TOKENS];
      queued := queued - {key};
      failed := failed - {key};
      MaybePurgeGenerationLocked(key);
    }
  }
}
