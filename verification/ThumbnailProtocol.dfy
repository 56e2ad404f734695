/**
 * All interleavings of the thumbnail generator's callers and its single worker. Every step is one mutex-held
 * section, or the receive from the job channel, or the commit section under the commit mutex.
 */
module ThumbnailProtocol {
  import opened ThumbnailGenerator
  import opened Wrappers

  /**
   * Where the worker is with the job it received. Orphaned is a refused job whose vault was retired and purged
   * before the job's bookkeeping was dropped.
   */
  datatype Worker =
    | Idle
    | Claimed(job: Job)
    | Refused(job: Job)
    | Orphaned(job: Job)
    | Active(job: Job, runID: nat)
    | Finished(job: Job, runID: nat)

  datatype Event =
    | Enqueue(key: Key, now: int, left: map<Key, int>)
    | Receive
    | Begin
    | Discard
    | Commit(written: bool)
    | Finish(outcome: Outcome, until: int)
    | End
    | Delete(key: Key)
    | Quiesce(vault: VaultId)
    | Resume(vault: VaultId)
    | Forget(vault: VaultId)
    | Stop

  /**
   * forgotten: the vaults ForgetVault found. disk: for each cached thumbnail, the Enqueue it comes from.
   * history: all events so far; an Enqueue is identified by its position.
   */
  datatype State = State(t: Tables, worker: Worker, forgotten: set<VaultId>, disk: map<Key, nat>, history: seq<Event>)

  const INIT := State(EMPTY_TABLES, Idle, {}, map[], [])

  /** The jobs whose bookkeeping is outstanding, oldest first. */
  function Outstanding(jobs: seq<Job>, worker: Worker): seq<Job> {
    if worker.Claimed? || worker.Refused? || worker.Active? then [worker.job] + jobs else jobs
  }

  /** The jobs enqueued and not yet claimed by beginJob. */
  function Unclaimed(jobs: seq<Job>, worker: Worker): seq<Job> {
    if worker.Claimed? then [worker.job] + jobs else jobs
  }

  /** How many deletions of k are in the history from position at on. */
  function Deletes(history: seq<Event>, k: Key, at: nat): nat {
    var n := |history|;
    if n <= at then 0
    else Deletes(history[..n - 1], k, at) + if history[n - 1] == Delete(k) then 1 else 0
  }

  /** A forgotten vault is enqueued only while its tombstone is there to refuse the call. */
  predicate MayEnqueue(s: State, v: VaultId) {
    v in s.forgotten ==> v in s.t.vaults && s.t.vaults[v].retiring
  }

  /** The enqueues are those MayEnqueue allows, and no job outlives 2^64 deletions of its path. */
  ghost predicate Enabled(s: State, e: Event) {
    match e
    case Enqueue(k, now, left) => MayEnqueue(s, k.vault) && PrunedTo(s.t.failed, now, left)
    case Receive => s.worker.Idle? && s.t.jobs != []
    case Begin => s.worker.Claimed?
    case Discard => s.worker.Refused? || s.worker.Orphaned?
    case Commit(_) => s.worker.Active?
    case Finish(_, _) => s.worker.Active?
    case End => s.worker.Finished?
    case Delete(k) => DeletesLeft(s, k)
    case _ => true
  }

  ghost predicate DeletesLeft(s: State, k: Key) {
    forall j :: j in Outstanding(s.t.jobs, s.worker) && j.key == k ==> Deletes(s.history, k, j.at) + 1 < TOKENS
  }

  function DoReceive(s: State): (s': State)
    requires s.t.jobs != []
  {
    s.(t := s.t.(jobs := s.t.jobs[1..]), worker := Claimed(s.t.jobs[0]))
  }

  function DoBegin(s: State): (s': State)
    requires s.worker.Claimed?
  {
    var job := s.worker.job;
    var (t, run) := BegunJob(s.t, job);
    s.(t := t,
       worker := if run.Some? then Active(job, run.value)
                 else if job.key.vault in t.vaults then Refused(job) else Orphaned(job))
  }

  function DoDiscard(s: State): (s': State)
    requires s.worker.Refused? || s.worker.Orphaned?
  {
    s.(t := DiscardedJob(s.t, s.worker.job), worker := Idle)
  }

  /** The check and the rename happen under the commit mutex, which DeleteThumbnail also holds. */
  predicate Commits(s: State) {
    s.worker.Active? && IsCurrent(s.t, s.worker.job)
  }

  function DoCommit(s: State, written: bool): (s': State)
    requires s.worker.Active?
  {
    if Commits(s) && written then s.(disk := s.disk[s.worker.job.key := s.worker.job.at]) else s
  }

  function DoFinish(s: State, outcome: Outcome, until: int): (s': State)
    requires s.worker.Active?
  {
    s.(t := FinishedJob(s.t, s.worker.job, outcome, until), worker := Finished(s.worker.job, s.worker.runID))
  }

  function DoEnd(s: State): (s': State)
    requires s.worker.Finished?
  {
    s.(t := EndedJob(s.t, s.worker.job.key.vault, s.worker.runID), worker := Idle)
  }

  function DoForget(s: State, v: VaultId): (s': State) {
    if v !in s.t.vaults then s
    else
      var t := Forgotten(s.t, v);
      s.(t := t, forgotten := s.forgotten + {v},
         worker := if s.worker.Refused? && s.worker.job.key.vault == v && v !in t.vaults
                   then Orphaned(s.worker.job) else s.worker)
  }

  function Do(s: State, e: Event): (s': State)
    requires Enabled(s, e)
  {
    match e
    case Enqueue(k, _, left) => s.(t := Enqueued(s.t, k, left, |s.history|).0)
    case Receive => DoReceive(s)
    case Begin => DoBegin(s)
    case Discard => DoDiscard(s)
    case Commit(written) => DoCommit(s, written)
    case Finish(outcome, until) => DoFinish(s, outcome, until)
    case End => DoEnd(s)
    case Delete(k) => s.(t := Deleted(s.t, k), disk := s.disk - {k})
    case Quiesce(v) => s.(t := Quiesced(s.t, v))
    case Resume(v) => s.(t := Resumed(s.t, v))
    case Forget(v) => DoForget(s, v)
    case Stop => s.(t := s.t.(stopped := true))
  }

  function Step(s: State, e: Event): (s': State)
    requires Enabled(s, e)
  {
    Do(s, e).(history := s.history + [e])
  }

  // ---- The bookkeeping invariant ----

  function Count(out: seq<Job>, k: Key): nat {
    if out == [] then 0 else (if out[0].key == k then 1 else 0) + Count(out[1..], k)
  }

  function CountOf(out: seq<Job>, v: VaultId): nat {
    if out == [] then 0 else (if out[0].key.vault == v then 1 else 0) + CountOf(out[1..], v)
  }

  predicate HasVault(out: seq<Job>, v: VaultId) {
    exists j :: j in out && j.key.vault == v
  }

  predicate Fresh(generations: map<Key, nat>, j: Job) {
    Token(generations, j.key) == j.generation
  }

  /** Reference counts are exact, and there is no entry for a path without outstanding jobs. */
  ghost predicate RefsAgree(refs: map<Key, int>, out: seq<Job>) {
    && (forall k :: At(refs, k) == Count(out, k))
    && (forall k :: k in refs ==> refs[k] > 0)
  }

  /** A path is marked queued if and only if exactly one outstanding job carries its current token. */
  ghost predicate QueuedAgree(queued: set<Key>, generations: map<Key, nat>, out: seq<Job>) {
    && (forall k :: k in queued ==> exists j :: j in out && j.key == k && Fresh(generations, j))
    && (forall j :: j in out && Fresh(generations, j) ==> j.key in queued)
    && (forall a, b :: 0 <= a < b < |out| && out[a].key == out[b].key ==>
          !(Fresh(generations, out[a]) && Fresh(generations, out[b])))
  }

  ghost predicate TokensHeld(generations: map<Key, nat>, out: seq<Job>) {
    forall k :: k in generations ==> generations[k] < TOKENS && exists j :: j in out && j.key == k
  }

  /** The path's token is the job's token advanced once per deletion since the job was enqueued. */
  ghost predicate TokenAgrees(generations: map<Key, nat>, j: Job, history: seq<Event>) {
    && j.at < |history| && history[j.at].Enqueue? && history[j.at].key == j.key
    && j.queueID != 0 && j.generation < TOKENS && Deletes(history, j.key, j.at) < TOKENS
    && Token(generations, j.key) == (j.generation + Deletes(history, j.key, j.at)) % TOKENS
  }

  ghost predicate TokensAgree(generations: map<Key, nat>, out: seq<Job>, history: seq<Event>) {
    forall j :: j in out ==> TokenAgrees(generations, j, history)
  }

  ghost predicate Book(
    queued: set<Key>, generations: map<Key, nat>, refs: map<Key, int>, out: seq<Job>, history: seq<Event>)
  {
    && RefsAgree(refs, out) && QueuedAgree(queued, generations, out)
    && TokensHeld(generations, out) && TokensAgree(generations, out, history)
  }

  // ---- The lifecycle invariant ----

  function ActiveOf(worker: Worker, v: VaultId): set<nat> {
    if (worker.Active? || worker.Finished?) && worker.job.key.vault == v then {worker.runID} else {}
  }

  /** pending counts the vault's unclaimed jobs, and active holds the worker's run. */
  ghost predicate LifeAgrees(life: Life, jobs: seq<Job>, worker: Worker, v: VaultId) {
    life.pending == CountOf(Unclaimed(jobs, worker), v) && life.active == ActiveOf(worker, v)
  }

  ghost predicate LivesAgree(vaults: map<VaultId, Life>, jobs: seq<Job>, worker: Worker) {
    forall v :: LifeAgrees(LifeOf(vaults, v), jobs, worker, v)
  }

  /** A retiring vault is a forgotten one that still has work to drain. */
  ghost predicate RetireAgree(vaults: map<VaultId, Life>, forgotten: set<VaultId>) {
    forall v :: v in vaults && vaults[v].retiring ==> v in forgotten && !Vacant(vaults[v]) && vaults[v].quiescing
  }

  ghost predicate WorkerAgrees(worker: Worker, vaults: map<VaultId, Life>, jobs: seq<Job>, forgotten: set<VaultId>) {
    && (worker.Refused? ==> worker.job.key.vault in vaults)
    && (worker.Active? || worker.Finished? ==> worker.runID != 0)
    && (worker.Orphaned? ==> worker.job.key.vault in forgotten && !HasVault(jobs, worker.job.key.vault))
  }

  ghost predicate Lifecycles(vaults: map<VaultId, Life>, jobs: seq<Job>, worker: Worker, forgotten: set<VaultId>) {
    LivesAgree(vaults, jobs, worker) && RetireAgree(vaults, forgotten) && WorkerAgrees(worker, vaults, jobs, forgotten)
  }

  /** The worker's job, if any, and then the channel. */
  function Line(jobs: seq<Job>, worker: Worker): seq<Job> {
    if worker.Idle? then jobs else [worker.job] + jobs
  }

  /** Jobs come in the order of the calls that enqueued them, each call at most once. */
  ghost predicate Ordered(line: seq<Job>, now: nat) {
    && (forall a, b :: 0 <= a < b < |line| ==> line[a].at < line[b].at)
    && (forall j :: j in line ==> j.at < now)
  }

  /** A cached thumbnail comes from a job enqueued after the last deletion of its path. */
  ghost predicate DiskAgrees(disk: map<Key, nat>, history: seq<Event>) {
    forall k :: k in disk ==>
      && disk[k] < |history| && history[disk[k]].Enqueue? && history[disk[k]].key == k
      && Deletes(history, k, disk[k]) == 0
  }

  /** The invariant without the order of the jobs. */
  ghost predicate Tallies(s: State) {
    && Book(s.t.queued, s.t.generations, s.t.refs, Outstanding(s.t.jobs, s.worker), s.history)
    && Lifecycles(s.t.vaults, s.t.jobs, s.worker, s.forgotten)
    && DiskAgrees(s.disk, s.history)
  }

  ghost predicate Inv(s: State) {
    Tallies(s) && Ordered(Line(s.t.jobs, s.worker), |s.history|)
  }

  // ---- Counting ----

  lemma DeletesSnoc(h: seq<Event>, e: Event, k: Key, at: nat)
    requires at <= |h|
    ensures Deletes(h + [e], k, at) == Deletes(h, k, at) + if e == Delete(k) then 1 else 0
  {
    assert (h + [e])[..|h|] == h;
  }

  lemma {:induction false} DeletesZero(h: seq<Event>, k: Key, at: nat)
    ensures Deletes(h, k, at) == 0 <==> forall i :: at <= i < |h| ==> h[i] != Delete(k)
  {
    var n := |h|;
    if n > at {
      DeletesZero(h[..n - 1], k, at);
      assert forall i :: at <= i < n - 1 ==> h[..n - 1][i] == h[i];
    }
  }

  lemma {:induction false} CountSnoc(out: seq<Job>, j: Job, k: Key)
    ensures Count(out + [j], k) == Count(out, k) + if j.key == k then 1 else 0
  {
    if out != [] {
      CountSnoc(out[1..], j, k);
      assert (out + [j])[1..] == out[1..] + [j];
    }
  }

  lemma {:induction false} CountOfSnoc(out: seq<Job>, j: Job, v: VaultId)
    ensures CountOf(out + [j], v) == CountOf(out, v) + if j.key.vault == v then 1 else 0
  {
    if out != [] {
      CountOfSnoc(out[1..], j, v);
      assert (out + [j])[1..] == out[1..] + [j];
    }
  }

  lemma {:induction false} CountPositive(out: seq<Job>, k: Key)
    ensures Count(out, k) > 0 <==> exists j :: j in out && j.key == k
  {
    if out != [] {
      CountPositive(out[1..], k);
      assert out == [out[0]] + out[1..];
    }
  }

  lemma {:induction false} CountOfPositive(out: seq<Job>, v: VaultId)
    ensures CountOf(out, v) > 0 <==> HasVault(out, v)
  {
    if out != [] {
      CountOfPositive(out[1..], v);
      assert out == [out[0]] + out[1..];
    }
  }

  // ---- What each bookkeeping operation keeps ----

  lemma RefsEnqueue(refs: map<Key, int>, out: seq<Job>, j: Job)
    requires RefsAgree(refs, out)
    ensures RefsAgree(refs[j.key := At(refs, j.key) + 1], out + [j])
  {
    var refs' := refs[j.key := At(refs, j.key) + 1];
    assert At(refs, j.key) == Count(out, j.key);
    forall x ensures At(refs', x) == Count(out + [j], x) {
      assert At(refs, x) == Count(out, x);
      CountSnoc(out, j, x);
    }
  }

  lemma QueuedEnqueue(queued: set<Key>, generations: map<Key, nat>, out: seq<Job>, j: Job)
    requires QueuedAgree(queued, generations, out) && j.key !in queued && Fresh(generations, j)
    ensures QueuedAgree(queued + {j.key}, generations, out + [j])
  {
    var out' := out + [j];
    assert out'[|out|] == j && forall i :: 0 <= i < |out| ==> out'[i] == out[i] && out[i] in out;
  }

  lemma BookEnqueue(queued: set<Key>, generations: map<Key, nat>, refs: map<Key, int>, out: seq<Job>, h: seq<Event>,
                    e: Event, id: nat)
    requires Book(queued, generations, refs, out, h) && e.Enqueue? && e.key !in queued && id != 0
    ensures Book(queued + {e.key}, generations, refs[e.key := At(refs, e.key) + 1],
                 out + [Job(e.key, Token(generations, e.key), id, |h|)], h + [e])
  {
    hide RefsAgree, QueuedAgree;
    var k := e.key;
    var j := Job(k, Token(generations, k), id, |h|);
    RefsEnqueue(refs, out, j);
    QueuedEnqueue(queued, generations, out, j);
    HistoryKeeps(generations, out, h, e);
    assert Deletes(h + [e], k, |h|) == 0 by {
      DeletesSnoc(h, e, k, |h|);
    }
    assert TokenAgrees(generations, j, h + [e]) by {
      assert k in generations ==> generations[k] < TOKENS;
    }
  }

  lemma HistoryKeeps(generations: map<Key, nat>, out: seq<Job>, h: seq<Event>, e: Event)
    requires TokensAgree(generations, out, h) && !e.Delete?
    ensures TokensAgree(generations, out, h + [e])
  {
    forall j | j in out ensures TokenAgrees(generations, j, h + [e]) {
      DeletesSnoc(h, e, j.key, j.at);
    }
  }

  /** Two outstanding jobs of one path are not both current. */
  lemma OneFresh(queued: set<Key>, generations: map<Key, nat>, out: seq<Job>)
    requires out != [] && QueuedAgree(queued, generations, out) && Fresh(generations, out[0])
    ensures forall j :: j in out[1..] && j.key == out[0].key ==> !Fresh(generations, j)
  {
    forall j | j in out[1..] && j.key == out[0].key ensures !Fresh(generations, j) {
      var b :| 0 <= b < |out| - 1 && out[1..][b] == j;
      assert out[b + 1] == j;
    }
  }

  /** In exact books a release takes the token along if and only if the path has no other outstanding job. */
  lemma ReleaseShape(t: Tables, out: seq<Job>)
    requires out != [] && RefsAgree(t.refs, out) && QueuedAgree(t.queued, t.generations, out)
    ensures var k := out[0].key;
            var current := IsCurrent(t, out[0]);
            var r := ReleasedToken(if current then t.(queued := t.queued - {k}) else t, k);
            var more := Count(out[1..], k) > 0;
            && r.queued == (if current then t.queued - {k} else t.queued)
            && r.generations == (if more then t.generations else t.generations - {k})
            && r.refs == (if more then t.refs[k := At(t.refs, k) - 1] else t.refs - {k})
            && (k in r.queued ==> more)
  {
    var k := out[0].key;
    assert At(t.refs, k) == Count(out, k);
    CountPositive(out[1..], k);
    assert out == [out[0]] + out[1..];
  }

  lemma RefsRelease(refs: map<Key, int>, out: seq<Job>)
    requires out != [] && RefsAgree(refs, out)
    ensures var k := out[0].key;
            RefsAgree(if Count(out[1..], k) > 0 then refs[k := At(refs, k) - 1] else refs - {k}, out[1..])
  {
    var k := out[0].key;
    var refs' := if Count(out[1..], k) > 0 then refs[k := At(refs, k) - 1] else refs - {k};
    forall x ensures At(refs', x) == Count(out[1..], x) {
      assert At(refs, x) == Count(out, x);
    }
  }

  lemma QueuedRelease(queued: set<Key>, generations: map<Key, nat>, out: seq<Job>,
                      queued': set<Key>, generations': map<Key, nat>)
    requires out != [] && QueuedAgree(queued, generations, out)
    requires queued' == if Fresh(generations, out[0]) then queued - {out[0].key} else queued
    requires forall j :: j in out[1..] ==> Fresh(generations', j) == Fresh(generations, j)
    ensures QueuedAgree(queued', generations', out[1..])
  {
    var rest, k := out[1..], out[0].key;
    assert out == [out[0]] + rest;
    if Fresh(generations, out[0]) {
      OneFresh(queued, generations, out);
    }
    forall x | x in queued' ensures exists j :: j in rest && j.key == x && Fresh(generations', j) {
      var j :| j in out && j.key == x && Fresh(generations, j);
      assert j in rest;
    }
  }

  /** Dropping the oldest job: discardJob and finishJob. */
  lemma BookRelease(t: Tables, out: seq<Job>, h: seq<Event>)
    requires out != [] && Book(t.queued, t.generations, t.refs, out, h)
    ensures var k := out[0].key;
            var r := ReleasedToken(if IsCurrent(t, out[0]) then t.(queued := t.queued - {k}) else t, k);
            Book(r.queued, r.generations, r.refs, out[1..], h)
  {
    hide RefsAgree, QueuedAgree, TokenAgrees, ReleasedToken;
    var k, rest := out[0].key, out[1..];
    assert out == [out[0]] + rest;
    ReleaseShape(t, out);
    RefsRelease(t.refs, out);
    CountPositive(rest, k);
    var r := ReleasedToken(if IsCurrent(t, out[0]) then t.(queued := t.queued - {k}) else t, k);
    forall j | j in rest ensures Token(r.generations, j.key) == Token(t.generations, j.key) {
    }
    QueuedRelease(t.queued, t.generations, out, r.queued, r.generations);
    TokensKept(t.generations, r.generations, out, rest, h);
  }

  lemma TokensKept(generations: map<Key, nat>, generations': map<Key, nat>, out: seq<Job>, out': seq<Job>,
                   h: seq<Event>)
    requires TokensAgree(generations, out, h)
    requires forall j :: j in out' ==> j in out && Token(generations', j.key) == Token(generations, j.key)
    ensures TokensAgree(generations', out', h)
  {
  }

  lemma TokensDelete(generations: map<Key, nat>, out: seq<Job>, h: seq<Event>, k: Key, generations': map<Key, nat>)
    requires TokensAgree(generations, out, h)
    requires forall j :: j in out && j.key == k ==> Deletes(h, k, j.at) + 1 < TOKENS
    requires forall j :: j in out && j.key == k ==> Token(generations', k) == (Token(generations, k) + 1) % TOKENS
    requires forall j :: j in out && j.key != k ==> Token(generations', j.key) == Token(generations, j.key)
    ensures TokensAgree(generations', out, h + [Delete(k)])
    ensures forall j :: j in out && j.key == k ==> !Fresh(generations', j)
  {
    hide TokenAgrees, Fresh;
    forall j | j in out
      ensures TokenAgrees(generations', j, h + [Delete(k)]) && (j.key == k ==> !Fresh(generations', j))
    {
      TokenDelete(generations, j, h, k, generations');
    }
  }

  lemma TokenDelete(generations: map<Key, nat>, j: Job, h: seq<Event>, k: Key, generations': map<Key, nat>)
    requires TokenAgrees(generations, j, h) && (j.key == k ==> Deletes(h, k, j.at) + 1 < TOKENS)
    requires Token(generations', j.key)
          == if j.key == k then (Token(generations, k) + 1) % TOKENS else Token(generations, j.key)
    ensures TokenAgrees(generations', j, h + [Delete(k)]) && (j.key == k ==> !Fresh(generations', j))
  {
    DeletesSnoc(h, Delete(k), j.key, j.at);
    if j.key == k {
      NextToken(j.generation, Deletes(h, k, j.at));
    }
  }

  lemma QueuedDelete(queued: set<Key>, generations: map<Key, nat>, out: seq<Job>, k: Key, generations': map<Key, nat>)
    requires QueuedAgree(queued, generations, out)
    requires forall j :: j in out && j.key == k ==> !Fresh(generations', j)
    requires forall x :: x != k ==> Token(generations', x) == Token(generations, x)
    ensures QueuedAgree(queued - {k}, generations', out)
  {
    assert forall j :: j in out && j.key != k ==> Fresh(generations', j) == Fresh(generations, j);
  }

  /** A deletion leaves a token behind if and only if the path has an outstanding job. */
  lemma DeleteShape(t: Tables, out: seq<Job>, k: Key)
    requires RefsAgree(t.refs, out)
    ensures var t' := Deleted(t, k);
            && t'.refs == t.refs && t'.queued == t.queued - {k}
            && t'.generations == if Count(out, k) > 0
                                 then t.generations[k := (Token(t.generations, k) + 1) % TOKENS]
                                 else t.generations - {k}
  {
    assert At(t.refs, k) == Count(out, k);
  }

  lemma BookDelete(t: Tables, out: seq<Job>, h: seq<Event>, k: Key)
    requires Book(t.queued, t.generations, t.refs, out, h)
    requires forall j :: j in out && j.key == k ==> Deletes(h, k, j.at) + 1 < TOKENS
    ensures var t' := Deleted(t, k); Book(t'.queued, t'.generations, t'.refs, out, h + [Delete(k)])
  {
    hide RefsAgree, QueuedAgree, TokensAgree, Deleted;
    var t' := Deleted(t, k);
    DeleteShape(t, out, k);
    CountPositive(out, k);
    TokensDelete(t.generations, out, h, k, t'.generations);
    QueuedDelete(t.queued, t.generations, out, k, t'.generations);
  }

  /** Tokens do not come back to the job's own within 2^64 deletions. */
  lemma NextToken(generation: nat, deletes: nat)
    requires generation < TOKENS && deletes + 1 < TOKENS
    ensures ((generation + deletes) % TOKENS + 1) % TOKENS == (generation + deletes + 1) % TOKENS != generation
  {
  }

  lemma RefsPurge(refs: map<Key, int>, v: VaultId, out: seq<Job>, out': seq<Job>)
    requires RefsAgree(refs, out) && !HasVault(out', v)
    requires out' == out || (out != [] && out[0].key.vault == v && out' == out[1..])
    ensures RefsAgree(Without(refs, v), out')
  {
    forall x ensures At(Without(refs, v), x) == Count(out', x) {
      assert At(refs, x) == Count(out, x);
      CountPositive(out', x);
    }
  }

  lemma QueuedPurge(queued: set<Key>, generations: map<Key, nat>, v: VaultId, out: seq<Job>, out': seq<Job>)
    requires QueuedAgree(queued, generations, out) && !HasVault(out', v)
    requires out' == out || (out != [] && out[0].key.vault == v && out' == out[1..])
    ensures QueuedAgree((set k | k in queued && k.vault != v), Without(generations, v), out')
  {
    assert forall j :: j in out' ==> j in out && j.key.vault != v;
    assert forall j :: j in out && j.key.vault != v ==> j in out';
    assert forall j :: j in out' ==> Fresh(Without(generations, v), j) == Fresh(generations, j);
  }

  /** Purging a vault none of whose jobs stay outstanding. */
  lemma BookPurge(t: Tables, v: VaultId, out: seq<Job>, out': seq<Job>, h: seq<Event>)
    requires Book(t.queued, t.generations, t.refs, out, h)
    requires out' == out || (out != [] && out[0].key.vault == v && out' == out[1..])
    requires !HasVault(out', v)
    ensures var p := Purged(t, v); Book(p.queued, p.generations, p.refs, out', h)
  {
    hide RefsAgree, QueuedAgree, TokensAgree;
    var p := Purged(t, v);
    assert forall j :: j in out' ==> j in out && j.key.vault != v;
    assert forall j :: j in out && j.key.vault != v ==> j in out';
    RefsPurge(t.refs, v, out, out');
    QueuedPurge(t.queued, t.generations, v, out, out');
    TokensKept(t.generations, p.generations, out, out', h);
  }

  // ---- Every step keeps the invariant ----

  lemma DiskKept(disk: map<Key, nat>, h: seq<Event>, e: Event)
    requires DiskAgrees(disk, h) && (e.Delete? ==> e.key !in disk)
    ensures DiskAgrees(disk, h + [e])
  {
    forall k | k in disk ensures Deletes(h + [e], k, disk[k]) == 0 {
      DeletesSnoc(h, e, k, disk[k]);
    }
  }

  lemma BookHistory(t: Tables, out: seq<Job>, h: seq<Event>, e: Event)
    requires Book(t.queued, t.generations, t.refs, out, h) && !e.Delete?
    ensures Book(t.queued, t.generations, t.refs, out, h + [e])
  {
    hide RefsAgree, QueuedAgree, TokensHeld, TokensAgree;
    HistoryKeeps(t.generations, out, h, e);
  }

  /** One vault's entry changes; every other vault keeps its jobs, its runs and its entry. */
  lemma LivesChange(vaults: map<VaultId, Life>, jobs: seq<Job>, worker: Worker,
                    vaults': map<VaultId, Life>, jobs': seq<Job>, worker': Worker, v: VaultId)
    requires LivesAgree(vaults, jobs, worker)
    requires LifeAgrees(LifeOf(vaults', v), jobs', worker', v)
    requires forall w :: w != v ==> LifeOf(vaults', w).pending == LifeOf(vaults, w).pending
    requires forall w :: w != v ==> LifeOf(vaults', w).active == LifeOf(vaults, w).active
    requires forall w :: w != v ==> CountOf(Unclaimed(jobs', worker'), w) == CountOf(Unclaimed(jobs, worker), w)
    requires forall w :: w != v ==> ActiveOf(worker', w) == ActiveOf(worker, w)
    ensures LivesAgree(vaults', jobs', worker')
  {
    forall w | w != v ensures LifeAgrees(LifeOf(vaults', w), jobs', worker', w) {
      assert LifeAgrees(LifeOf(vaults, w), jobs, worker, w);
    }
  }

  lemma EnqueueLives(s: State, k: Key, j: Job, life: Life)
    requires Lifecycles(s.t.vaults, s.t.jobs, s.worker, s.forgotten)
    requires j.key == k && k.vault !in s.forgotten && !life.retiring
    requires life.active == LifeOf(s.t.vaults, k.vault).active
    requires life.pending == LifeOf(s.t.vaults, k.vault).pending + 1
    ensures Lifecycles(s.t.vaults[k.vault := life], s.t.jobs + [j], s.worker, s.forgotten)
  {
    var vaults', jobs' := s.t.vaults[k.vault := life], s.t.jobs + [j];
    assert Unclaimed(jobs', s.worker) == Unclaimed(s.t.jobs, s.worker) + [j];
    forall w
      ensures CountOf(Unclaimed(jobs', s.worker), w)
           == CountOf(Unclaimed(s.t.jobs, s.worker), w) + if k.vault == w then 1 else 0
    {
      CountOfSnoc(Unclaimed(s.t.jobs, s.worker), j, w);
    }
    assert LifeAgrees(LifeOf(s.t.vaults, k.vault), s.t.jobs, s.worker, k.vault);
    LivesChange(s.t.vaults, s.t.jobs, s.worker, vaults', jobs', s.worker, k.vault);
  }

  /** A vault's entry is replaced by one with the same pending jobs and runs. */
  lemma LifeReplaced(vaults: map<VaultId, Life>, jobs: seq<Job>, worker: Worker, forgotten: set<VaultId>,
                     v: VaultId, life: Life)
    requires Lifecycles(vaults, jobs, worker, forgotten)
    requires life.active == LifeOf(vaults, v).active && life.pending == LifeOf(vaults, v).pending
    requires life.retiring ==> v in forgotten && !Vacant(life) && life.quiescing
    ensures Lifecycles(vaults[v := life], jobs, worker, forgotten)
  {
    assert LifeAgrees(LifeOf(vaults, v), jobs, worker, v);
    LivesChange(vaults, jobs, worker, vaults[v := life], jobs, worker, v);
  }

  /** What an enqueue does to the vault entries and the channel. */
  lemma EnqueueShape(t: Tables, k: Key, left: map<Key, int>, at: nat)
    ensures var (t', answer) := Enqueued(t, k, left, at);
            var life := LifeOf(t.vaults, k.vault);
            if answer == Admitted then
              && !life.quiescing && !life.retiring && k !in t.queued
              && t'.vaults == t.vaults[k.vault := life.(nextID := life.nextID + 1, pending := life.pending + 1)]
              && t'.jobs == t.jobs + [Job(k, Token(t.generations, k), life.nextID + 1, at)]
              && t'.queued == t.queued + {k} && t'.refs == t.refs[k := At(t.refs, k) + 1]
              && t'.resumePending == t.resumePending && t'.generations == t.generations
            else
              && t' == t.(vaults := t'.vaults, failed := t'.failed)
              && (t'.vaults == t.vaults || t'.vaults == t.vaults[k.vault := life]
                  || t'.vaults == t.vaults[k.vault := life.(nextID := life.nextID + 1)])
  {
  }

  lemma RetiringIsForgotten(vaults: map<VaultId, Life>, jobs: seq<Job>, worker: Worker, forgotten: set<VaultId>,
                            v: VaultId)
    requires Lifecycles(vaults, jobs, worker, forgotten)
    ensures var life := LifeOf(vaults, v); life.retiring ==> v in forgotten && !Vacant(life) && life.quiescing
  {
  }

  lemma EnqueueKeeps(s: State, e: Event)
    requires Tallies(s) && e.Enqueue? && Enabled(s, e)
    ensures Tallies(Step(s, e))
  {
    hide Book, Lifecycles, DiskAgrees, Enqueued, PrunedTo;
    var k, left := e.key, e.left;
    var s' := Step(s, e);
    var life := LifeOf(s.t.vaults, k.vault);
    DiskKept(s.disk, s.history, e);
    EnqueueShape(s.t, k, left, |s.history|);
    if Enqueued(s.t, k, left, |s.history|).1 == Admitted {
      var j := Job(k, Token(s.t.generations, k), life.nextID + 1, |s.history|);
      BookEnqueue(s.t.queued, s.t.generations, s.t.refs, Outstanding(s.t.jobs, s.worker), s.history, e, j.queueID);
      assert Outstanding(s'.t.jobs, s.worker) == Outstanding(s.t.jobs, s.worker) + [j];
      EnqueueLives(s, k, j, life.(nextID := life.nextID + 1, pending := life.pending + 1));
    } else {
      BookHistory(s.t, Outstanding(s.t.jobs, s.worker), s.history, e);
      RetiringIsForgotten(s.t.vaults, s.t.jobs, s.worker, s.forgotten, k.vault);
      LifeReplaced(s.t.vaults, s.t.jobs, s.worker, s.forgotten, k.vault, life);
      LifeReplaced(s.t.vaults, s.t.jobs, s.worker, s.forgotten, k.vault, life.(nextID := life.nextID + 1));
    }
  }

  lemma ReceiveKeeps(s: State)
    requires Tallies(s) && s.worker.Idle? && s.t.jobs != []
    ensures Tallies(Step(s, Receive))
  {
    hide Book, DiskAgrees;
    var job, rest := s.t.jobs[0], s.t.jobs[1..];
    assert s.t.jobs == [job] + rest;
    DiskKept(s.disk, s.history, Receive);
    BookHistory(s.t, s.t.jobs, s.history, Receive);
    forall v ensures LifeAgrees(LifeOf(s.t.vaults, v), rest, Claimed(job), v) {
      assert LifeAgrees(LifeOf(s.t.vaults, v), s.t.jobs, Idle, v);
    }
  }

  /** finishJob releases the token as discardJob does, and otherwise only sets or clears a cooldown. */
  lemma FinishShape(t: Tables, job: Job, outcome: Outcome, until: int)
    ensures var r := ReleasedToken(if IsCurrent(t, job) then t.(queued := t.queued - {job.key}) else t, job.key);
            var t' := FinishedJob(t, job, outcome, until);
            t' == r.(failed := t'.failed)
  {
  }

  lemma FinishKeeps(s: State, e: Event)
    requires Tallies(s) && s.worker.Active? && e.Finish?
    ensures Tallies(Step(s, e))
  {
    hide Book, DiskAgrees, ReleasedToken, FinishedJob;
    var job, jobs := s.worker.job, s.t.jobs;
    var s' := Step(s, e);
    FinishShape(s.t, job, e.outcome, e.until);
    assert Outstanding(jobs, s.worker)[0] == job && Outstanding(jobs, s.worker)[1..] == jobs;
    DiskKept(s.disk, s.history, e);
    BookRelease(s.t, Outstanding(jobs, s.worker), s.history);
    BookHistory(s'.t, jobs, s.history, e);
    forall v ensures LifeAgrees(LifeOf(s.t.vaults, v), jobs, s'.worker, v) {
      assert LifeAgrees(LifeOf(s.t.vaults, v), jobs, s.worker, v);
    }
  }

  /** A discard never finds its vault ready to retire: whatever made it so has retired it already. */
  lemma DiscardShape(t: Tables, job: Job)
    requires !Retires(t, job.key.vault)
    ensures DiscardedJob(t, job)
         == ReleasedToken(if IsCurrent(t, job) then t.(queued := t.queued - {job.key}) else t, job.key)
    ensures var k := job.key; k !in t.queued && k !in t.generations && k !in t.refs ==> DiscardedJob(t, job) == t
  {
    var k := job.key;
    if k !in t.queued && k !in t.generations && k !in t.refs {
      assert t.queued - {k} == t.queued && t.refs - {k} == t.refs && t.generations - {k} == t.generations;
    }
  }

  lemma DiscardKeeps(s: State)
    requires Tallies(s) && (s.worker.Refused? || s.worker.Orphaned?)
    ensures Tallies(Step(s, Discard))
  {
    hide Book, DiskAgrees, ReleasedToken, DiscardedJob;
    var job, jobs := s.worker.job, s.t.jobs;
    var s' := Step(s, Discard);
    DiskKept(s.disk, s.history, Discard);
    assert !Retires(s.t, job.key.vault);
    DiscardShape(s.t, job);
    if s.worker.Refused? {
      assert Outstanding(jobs, s.worker)[0] == job && Outstanding(jobs, s.worker)[1..] == jobs;
      BookRelease(s.t, Outstanding(jobs, s.worker), s.history);
      BookHistory(s'.t, jobs, s.history, Discard);
    } else {
      OrphanHasNoEntries(s.t, jobs, s.history, job.key);
      BookHistory(s.t, jobs, s.history, Discard);
    }
    forall v ensures LifeAgrees(LifeOf(s.t.vaults, v), jobs, Idle, v) {
      assert LifeAgrees(LifeOf(s.t.vaults, v), jobs, s.worker, v);
    }
  }

  lemma OrphanHasNoEntries(t: Tables, out: seq<Job>, h: seq<Event>, k: Key)
    requires Book(t.queued, t.generations, t.refs, out, h) && !HasVault(out, k.vault)
    ensures k !in t.queued && k !in t.generations && k !in t.refs
  {
    CountPositive(out, k);
    assert At(t.refs, k) == Count(out, k);
  }

  lemma DiskShrinks(disk: map<Key, nat>, h: seq<Event>, k: Key)
    requires DiskAgrees(disk, h)
    ensures DiskAgrees(disk - {k}, h)
  {
  }

  lemma DeleteKeeps(s: State, k: Key)
    requires Tallies(s) && DeletesLeft(s, k)
    ensures Tallies(Step(s, Delete(k)))
  {
    hide Book, Lifecycles, DiskAgrees;
    BookDelete(s.t, Outstanding(s.t.jobs, s.worker), s.history, k);
    DiskShrinks(s.disk, s.history, k);
    DiskKept(s.disk - {k}, s.history, Delete(k));
  }

  lemma CommitKeeps(s: State, e: Event)
    requires Tallies(s) && s.worker.Active? && e.Commit?
    ensures Tallies(Step(s, e))
  {
    hide Lifecycles, RefsAgree, QueuedAgree, TokensHeld;
    var job := s.worker.job;
    var s' := Step(s, e);
    assert job == Outstanding(s.t.jobs, s.worker)[0];
    assert TokenAgrees(s.t.generations, job, s.history);
    if Commits(s) {
      CurrentIffUndeleted(s.t.generations, job, s.history);
    }
    DiskKept(s'.disk, s.history, e);
    BookHistory(s.t, Outstanding(s.t.jobs, s.worker), s.history, e);
  }

  /** A job's token is current if and only if its path was not deleted since the job was enqueued. */
  lemma CurrentIffUndeleted(generations: map<Key, nat>, j: Job, h: seq<Event>)
    requires TokenAgrees(generations, j, h)
    ensures Fresh(generations, j) <==> Deletes(h, j.key, j.at) == 0
  {
    TokenRepeats(j.generation, Deletes(h, j.key, j.at));
  }

  lemma TokenRepeats(generation: nat, deletes: nat)
    requires generation < TOKENS && deletes < TOKENS
    ensures (generation + deletes) % TOKENS == generation <==> deletes == 0
  {
  }

  /** Quiesce, Resume and Stop replace at most one entry by one with the same pending jobs and runs. */
  lemma SwitchKeeps(s: State, e: Event)
    requires Tallies(s) && (e.Quiesce? || e.Resume? || e.Stop?)
    ensures Tallies(Step(s, e))
  {
    hide Book, DiskAgrees;
    DiskKept(s.disk, s.history, e);
    BookHistory(s.t, Outstanding(s.t.jobs, s.worker), s.history, e);
    if !e.Stop? {
      var v := e.vault;
      var life := LifeOf(s.t.vaults, v);
      if e.Quiesce? {
        LifeReplaced(s.t.vaults, s.t.jobs, s.worker, s.forgotten, v, life.(quiescing := true));
      } else if v in s.t.vaults && !life.retiring {
        LifeReplaced(s.t.vaults, s.t.jobs, s.worker, s.forgotten, v, life.(quiescing := false));
      }
    }
  }

  /** The job at the worker counts as pending until beginJob claims or refuses it. */
  lemma ClaimedIsPending(s: State)
    requires Tallies(s) && s.worker.Claimed?
    ensures var v := s.worker.job.key.vault; var life := LifeOf(s.t.vaults, v);
            life.pending == 1 + CountOf(s.t.jobs, v) && life.active == {} && s.worker.job.queueID != 0
    ensures forall w :: w != s.worker.job.key.vault ==>
              CountOf(Unclaimed(s.t.jobs, s.worker), w) == CountOf(s.t.jobs, w)
  {
    hide RefsAgree, QueuedAgree, TokensHeld, DiskAgrees;
    var out := [s.worker.job] + s.t.jobs;
    assert out[0] == s.worker.job && out[1..] == s.t.jobs;
    assert TokenAgrees(s.t.generations, out[0], s.history);
    assert LifeAgrees(LifeOf(s.t.vaults, s.worker.job.key.vault), s.t.jobs, s.worker, s.worker.job.key.vault);
  }

  /** What claiming a pending job of an otherwise idle vault does. */
  lemma BeginShape(t: Tables, job: Job)
    requires var life := LifeOf(t.vaults, job.key.vault);
             job.queueID != 0 && life.pending > 0 && life.active == {}
    ensures var v := job.key.vault;
            var life0 := LifeOf(t.vaults, v);
            var life := life0.(pending := life0.pending - 1);
            var (t', run) := BegunJob(t, job);
            if !(t.stopped || life.quiescing || life.retiring) then
              && run == Some(life.nextID + 1)
              && t' == t.(vaults := t.vaults[v := life.(nextID := life.nextID + 1, active := {life.nextID + 1})])
            else if life.retiring && life.pending == 0 then
              run == None && t' == Purged(t, v).(resumePending := t.resumePending - {v}, vaults := t.vaults - {v})
            else
              run == None && t' == t.(vaults := t.vaults[v := life])
  {
    var v := job.key.vault;
    var life := LifeOf(t.vaults, v).(pending := LifeOf(t.vaults, v).pending - 1);
    assert t.vaults[v := life] - {v} == t.vaults - {v};
    assert life.active + {life.nextID + 1} == {life.nextID + 1};
  }

  lemma BeginLives(s: State)
    requires Tallies(s) && s.worker.Claimed?
    ensures var s' := Step(s, Begin); Lifecycles(s'.t.vaults, s.t.jobs, s'.worker, s.forgotten)
    ensures var s' := Step(s, Begin); s'.worker.Orphaned? ==> CountOf(s.t.jobs, s.worker.job.key.vault) == 0
  {
    hide Book, DiskAgrees, BegunJob, Purged;
    var v := s.worker.job.key.vault;
    var s' := Step(s, Begin);
    ClaimedIsPending(s);
    BeginShape(s.t, s.worker.job);
    LivesChange(s.t.vaults, s.t.jobs, s.worker, s'.t.vaults, s.t.jobs, s'.worker, v);
    if s'.worker.Orphaned? {
      CountOfPositive(s.t.jobs, v);
    }
  }

  lemma BeginKeeps(s: State)
    requires Tallies(s) && s.worker.Claimed?
    ensures Tallies(Step(s, Begin))
  {
    hide Book, DiskAgrees, BegunJob, Lifecycles;
    var jobs, v := s.t.jobs, s.worker.job.key.vault;
    var s' := Step(s, Begin);
    ClaimedIsPending(s);
    BeginShape(s.t, s.worker.job);
    BeginLives(s);
    DiskKept(s.disk, s.history, Begin);
    if s'.worker.Orphaned? {
      CountOfPositive(jobs, v);
      var out := [s.worker.job] + jobs;
      assert out[0].key.vault == v && out[1..] == jobs;
      BookPurge(s.t, v, out, jobs, s.history);
      BookHistory(s'.t, jobs, s.history, Begin);
    } else {
      BookHistory(s.t, Outstanding(jobs, s.worker), s.history, Begin);
    }
  }

  lemma EndKeeps(s: State)
    requires Tallies(s) && s.worker.Finished?
    ensures Tallies(Step(s, End))
  {
    hide Book, DiskAgrees;
    var jobs, v := s.t.jobs, s.worker.job.key.vault;
    var s' := Step(s, End);
    assert LifeAgrees(LifeOf(s.t.vaults, v), jobs, s.worker, v);
    DiskKept(s.disk, s.history, End);
    if v !in s'.t.vaults {
      CountOfPositive(jobs, v);
      BookPurge(s.t, v, jobs, jobs, s.history);
      BookHistory(s'.t, jobs, s.history, End);
    } else {
      BookHistory(s.t, jobs, s.history, End);
    }
    LivesChange(s.t.vaults, jobs, s.worker, s'.t.vaults, jobs, Idle, v);
  }

  lemma ForgetLives(s: State, v: VaultId)
    requires Tallies(s)
    ensures var s' := Step(s, Forget(v)); Lifecycles(s'.t.vaults, s.t.jobs, s'.worker, s'.forgotten)
    ensures v in s.t.vaults && v !in Step(s, Forget(v)).t.vaults ==> Vacant(s.t.vaults[v])
  {
    hide Book, DiskAgrees, Purged;
    var jobs, worker := s.t.jobs, s.worker;
    var s' := Step(s, Forget(v));
    assert LifeAgrees(LifeOf(s.t.vaults, v), jobs, worker, v);
    CountOfPositive(Unclaimed(jobs, worker), v);
    LivesChange(s.t.vaults, jobs, worker, s'.t.vaults, jobs, s'.worker, v);
  }

  lemma ForgetKeeps(s: State, v: VaultId)
    requires Tallies(s)
    ensures Tallies(Step(s, Forget(v)))
  {
    hide Book, DiskAgrees, RetireAgree, WorkerAgrees;
    var jobs, worker := s.t.jobs, s.worker;
    var s' := Step(s, Forget(v));
    var out := Outstanding(jobs, worker);
    ForgetLives(s, v);
    DiskKept(s.disk, s.history, Forget(v));
    if v in s.t.vaults && v !in s'.t.vaults {
      var out' := Outstanding(jobs, s'.worker);
      assert LifeAgrees(LifeOf(s.t.vaults, v), jobs, worker, v);
      CountOfPositive(Unclaimed(jobs, worker), v);
      assert s'.worker != worker ==> out[0] == worker.job && out[1..] == jobs == out';
      assert !HasVault(out', v);
      BookPurge(s.t, v, out, out', s.history);
      BookHistory(s'.t, out', s.history, Forget(v));
    } else {
      BookHistory(s.t, out, s.history, Forget(v));
    }
  }

  /** A step shortens the line at its front or lengthens it at its end by a job of its own. */
  lemma LineStep(s: State, e: Event)
    requires Enabled(s, e)
    ensures var line, line' := Line(s.t.jobs, s.worker), Line(Step(s, e).t.jobs, Step(s, e).worker);
            || line' == line || (line != [] && line' == line[1..])
            || (exists j: Job :: j.at == |s.history| && line' == line + [j])
  {
    hide PrunedTo, DeletesLeft, ReleasedToken, MaybeRetired, MaybePurgedToken, Commits;
    match e
    case Enqueue(k, _, left) =>
      hide Enqueued;
      EnqueueShape(s.t, k, left, |s.history|);
      if Enqueued(s.t, k, left, |s.history|).1 == Admitted {
        var j := Job(k, Token(s.t.generations, k), LifeOf(s.t.vaults, k.vault).nextID + 1, |s.history|);
        assert Line(s.t.jobs + [j], s.worker) == Line(s.t.jobs, s.worker) + [j];
      }
    case Receive => assert s.t.jobs == [s.t.jobs[0]] + s.t.jobs[1..];
    case Discard => assert Line(s.t.jobs, s.worker)[1..] == s.t.jobs;
    case End => assert Line(s.t.jobs, s.worker)[1..] == s.t.jobs;
    case _ =>
  }

  lemma OrderedAppend(line: seq<Job>, j: Job, now: nat)
    requires Ordered(line, now) && j.at == now
    ensures Ordered(line + [j], now + 1)
  {
    assert forall i :: 0 <= i < |line| ==> line[i] in line && (line + [j])[i] == line[i];
  }

  lemma OrderedLater(line: seq<Job>, now: nat)
    requires Ordered(line, now)
    ensures Ordered(line, now + 1) && (line != [] ==> Ordered(line[1..], now + 1))
  {
  }

  lemma OrderedStep(s: State, e: Event)
    requires Enabled(s, e) && Ordered(Line(s.t.jobs, s.worker), |s.history|)
    ensures Ordered(Line(Step(s, e).t.jobs, Step(s, e).worker), |Step(s, e).history|)
  {
    hide Do, Enabled, Ordered, Line;
    LineStep(s, e);
    var line, line' := Line(s.t.jobs, s.worker), Line(Step(s, e).t.jobs, Step(s, e).worker);
    OrderedLater(line, |s.history|);
    if line' != line && !(line != [] && line' == line[1..]) {
      var j: Job :| j.at == |s.history| && line' == line + [j];
      OrderedAppend(line, j, |s.history|);
    }
  }

  lemma StepKeepsInv(s: State, e: Event)
    requires Inv(s) && Enabled(s, e)
    ensures Inv(Step(s, e))
  {
    hide Tallies, Step, Ordered;
    OrderedStep(s, e);
    match e
    case Enqueue(_, _, _) => EnqueueKeeps(s, e);
    case Receive => ReceiveKeeps(s);
    case Begin => BeginKeeps(s);
    case Discard => DiscardKeeps(s);
    case Commit(_) => CommitKeeps(s, e);
    case Finish(_, _) => FinishKeeps(s, e);
    case End => EndKeeps(s);
    case Delete(k) => DeleteKeeps(s, k);
    case Quiesce(_) => SwitchKeeps(s, e);
    case Resume(_) => SwitchKeeps(s, e);
    case Forget(v) => ForgetKeeps(s, v);
    case Stop => SwitchKeeps(s, e);
  }
}
