/**
 * All interleavings of start, completion, stop, cleanup and replacement of video streams. Every step is one
 * section under hlsMu; processes, deadlines, idle and retention timers only decide which enabled step comes next.
 */
module HlsProtocol {
  import opened HlsStreams
  import opened Wrappers

  /**
   * lifeHeld: hlsLifeMu is write-held. readers: the sessions of the starts that hold it for reading, checked to
   * be active. homes: every session there ever was and its vault. live: the sessions not deleted. used: ids handed
   * out. published: ids that ever named a stream. done: streams whose doneCh is closed.
   */
  datatype State = State(
    t: Tables,
    lifeHeld: bool,
    readers: multiset<SessionId>,
    homes: map<SessionId, VaultId>,
    live: set<SessionId>,
    used: set<StreamId>,
    published: set<StreamId>,
    done: set<StreamId>)

  datatype Event =
    | Login(who: SessionId, vault: VaultId)
    | DeleteSession(who: SessionId)
    | CheckSession(who: SessionId)
    | StartCall(key: Key, owner: SessionId, newID: StreamId, hit: Option<StreamId>)
    | CompleteStart(key: Key, ready: bool)
    | Timeout(key: Key)
    | StopCall(c: Stop)
    | Idle(id: StreamId)
    | Finish(id: StreamId, complete: bool)
    | Expire(id: StreamId)
    | CloseDone(id: StreamId)
    | Lock
    | Unlock
    | Close

  const INIT := State(EMPTY_TABLES, false, multiset{}, map[], {}, {}, {}, {})

  /** Stream ids and session ids are fresh, and a start is for the vault of its session. */
  ghost predicate Enabled(s: State, e: Event) {
    match e
    case Login(who, _) => who != "" && who !in s.homes
    case CheckSession(who) => !s.lifeHeld && who in s.live
    case StartCall(key, owner, newID, hit) =>
      && owner in s.readers && owner in s.homes && s.homes[owner] == key.vault
      && newID !in s.used && Found(s.t.hls, key, hit)
    case CompleteStart(key, _) => key in s.t.pending
    case Idle(id) => id in s.t.hls && !s.t.hls[id].finished
    case Finish(id, _) => id in s.t.hls && !s.t.hls[id].finished
    case Expire(id) => id in s.t.hls && s.t.hls[id].finished
    case CloseDone(id) => id in s.published && id !in s.t.hls
    case Lock => !s.lifeHeld && s.readers == multiset{}
    case Unlock => s.lifeHeld
    case Close => s.lifeHeld
    case _ => true
  }

  function DoComplete(s: State, key: Key, ready: bool): (s': State)
    requires key in s.t.pending
  {
    var id := s.t.pending[key].streamID;
    var (t, accepted) := Complete(s.t, key, id, ready);
    s.(t := t, published := if accepted then s.published + {id} else s.published)
  }

  function Step(s: State, e: Event): (s': State)
    requires Enabled(s, e)
  {
    match e
    case Login(who, vault) => s.(homes := s.homes[who := vault], live := s.live + {who})
    case DeleteSession(who) => s.(live := s.live - {who})
    case CheckSession(who) => s.(readers := s.readers + multiset{who})
    case StartCall(key, owner, newID, hit) =>
      s.(t := Start(s.t, key, owner, newID, hit).0, used := s.used + {newID}, readers := s.readers - multiset{owner})
    case CompleteStart(key, ready) => DoComplete(s, key, ready)
    case Timeout(key) => s.(t := TimedOut(s.t, key))
    case StopCall(c) => s.(t := Stopped(s.t, c))
    case Idle(id) => s.(t := IdleStopped(s.t, id))
    case Finish(id, complete) => s.(t := Finished(s.t, id, complete))
    case Expire(id) => s.(t := Expired(s.t, id))
    case CloseDone(id) => s.(done := s.done + {id})
    case Lock => s.(lifeHeld := true)
    case Unlock => s.(lifeHeld := false)
    case Close => s.(t := s.t.(closing := true))
  }

  // ---- The invariant ----

  type Streams = map<StreamId, Stream>
  type Pendings = map<Key, Pending>

  ghost predicate IdsAgree(
    hls: Streams, pending: Pendings, used: set<StreamId>, published: set<StreamId>, done: set<StreamId>)
  {
    && (forall k :: k in pending ==> pending[k].streamID in used && pending[k].streamID !in published)
    && (forall a, b :: a in pending && b in pending && pending[a].streamID == pending[b].streamID ==> a == b)
    && hls.Keys <= published <= used && done <= published && done !! hls.Keys
  }

  function Unfinished(hls: Streams): set<StreamId> {
    set id | id in hls && !hls[id].finished
  }

  ghost predicate BudgetAgrees(hls: Streams, pending: Pendings, active: int, starts: int) {
    starts == |pending| && active == |Unfinished(hls)| && active + starts <= MAX_STREAMS
  }

  /** A path has at most one pending start or usable stream in total. */
  ghost predicate OneUsable(hls: Streams, pending: Pendings) {
    && (forall id :: id in hls && Usable(hls, hls[id].key, id) ==> hls[id].key !in pending)
    && (forall a, b :: a in hls && b in hls && Usable(hls, hls[a].key, a) && Usable(hls, hls[b].key, b) ==>
          hls[a].key == hls[b].key ==> a == b)
  }

  /** The owners are exactly the sessions with references, and every reference count is positive. */
  ghost predicate OwnersAgree(o: Owners) {
    o.ids == o.refs.Keys && "" !in o.ids && forall id :: id in o.refs ==> o.refs[id] > 0
  }

  /** An entry nobody owns has been stopped. */
  ghost predicate EntryAgrees(o: Owners, stopped: bool) {
    OwnersAgree(o) && (stopped || o.ids != {})
  }

  ghost predicate EntriesAgree(hls: Streams, pending: Pendings) {
    && (forall id :: id in hls ==> EntryAgrees(hls[id].owners, hls[id].stopRequested))
    && (forall k :: k in pending ==> EntryAgrees(pending[k].owners, pending[k].stopRequested))
  }

  /** stopCh is closed once if and only if the stream was asked to stop. */
  ghost predicate ClosesAgree(hls: Streams) {
    forall id :: id in hls ==> hls[id].stopCloses == if hls[id].stopRequested then 1 else 0
  }

  /** The sessions that own an entry are sessions of its vault. */
  ghost predicate HomesAgree(hls: Streams, pending: Pendings, homes: map<SessionId, VaultId>) {
    && (forall id, who :: id in hls && who in hls[id].owners.ids ==> who in homes && homes[who] == hls[id].key.vault)
    && (forall k, who :: k in pending && who in pending[k].owners.ids ==> who in homes && homes[who] == k.vault)
  }

  /** Readers and live sessions are known ones, and the write lock excludes readers. */
  ghost predicate SessionsAgree(s: State) {
    && "" !in s.homes && s.live <= s.homes.Keys && (forall who :: who in s.readers ==> who in s.homes)
    && (s.lifeHeld ==> s.readers == multiset{})
  }

  /** The invariant without the sessions. */
  ghost predicate Tallies(s: State) {
    && IdsAgree(s.t.hls, s.t.pending, s.used, s.published, s.done)
    && BudgetAgrees(s.t.hls, s.t.pending, s.t.active, s.t.starts)
    && OneUsable(s.t.hls, s.t.pending)
    && EntriesAgree(s.t.hls, s.t.pending)
    && ClosesAgree(s.t.hls)
  }

  ghost predicate Inv(s: State) {
    Tallies(s) && HomesAgree(s.t.hls, s.t.pending, s.homes) && SessionsAgree(s)
  }

  // ---- Owners ----

  lemma AttachAgrees(o: Owners, id: SessionId)
    requires OwnersAgree(o) && id != ""
    ensures OwnersAgree(Attached(o, id)) && Attached(o, id).ids != {}
  {
    assert id in Attached(o, id).ids;
  }

  /** A withdrawal keeps owners and references in step, and stops the entry if it leaves nobody. */
  lemma WithdrawAgrees(c: Stop, o: Owners)
    requires OwnersAgree(o)
    ensures var (o', fires) := Withdrawn(c, o); OwnersAgree(o') && (o'.ids == {} ==> fires)
  {
    var (o', fires) := Withdrawn(c, o);
    if !c.StopBelow? && !c.StopVault? && o.ids != {} && c.owner in o.refs {
      assert o'.ids == o'.refs.Keys;
    }
  }

  // ---- What each kind of update keeps ----

  /** Streams change only in ways that make none usable and finish none. */
  lemma StreamsMarked(hls: Streams, hls': Streams, pending: Pendings, pending': Pendings)
    requires hls'.Keys == hls.Keys && pending'.Keys == pending.Keys
    requires forall id :: id in hls ==> hls'[id].key == hls[id].key && hls'[id].finished == hls[id].finished
    requires forall id :: id in hls && hls[id].stopRequested ==> hls'[id].stopRequested
    requires forall k :: k in pending ==> pending'[k].streamID == pending[k].streamID
    ensures OneUsable(hls, pending) ==> OneUsable(hls', pending')
    ensures forall active, starts ::
              BudgetAgrees(hls, pending, active, starts) ==> BudgetAgrees(hls', pending', active, starts)
    ensures forall used, published, done ::
              IdsAgree(hls, pending, used, published, done) ==> IdsAgree(hls', pending', used, published, done)
  {
    assert Unfinished(hls') == Unfinished(hls);
    assert |pending'| == |pending'.Keys| == |pending.Keys| == |pending|;
    assert forall id :: id in hls && Usable(hls', hls'[id].key, id) ==> Usable(hls, hls[id].key, id);
  }

  lemma StreamRemoved(hls: Streams, pending: Pendings, id: StreamId)
    requires id in hls
    ensures OneUsable(hls, pending) ==> OneUsable(hls - {id}, pending)
    ensures EntriesAgree(hls, pending) ==> EntriesAgree(hls - {id}, pending)
    ensures ClosesAgree(hls) ==> ClosesAgree(hls - {id})
    ensures forall used, published, done ::
              IdsAgree(hls, pending, used, published, done) ==> IdsAgree(hls - {id}, pending, used, published, done)
    ensures hls[id].finished ==> Unfinished(hls - {id}) == Unfinished(hls)
  {
    var hls' := hls - {id};
    assert forall x :: x in hls' && Usable(hls', hls'[x].key, x) ==> Usable(hls, hls[x].key, x);
  }

  lemma StreamFinished(hls: Streams, pending: Pendings, id: StreamId)
    requires id in hls && !hls[id].finished
    ensures var hls' := hls[id := hls[id].(finished := true)];
            && |Unfinished(hls)| > 0 && |Unfinished(hls')| == |Unfinished(hls)| - 1
            && (OneUsable(hls, pending) ==> OneUsable(hls', pending))
            && (EntriesAgree(hls, pending) ==> EntriesAgree(hls', pending))
            && (ClosesAgree(hls) ==> ClosesAgree(hls'))
            && hls'.Keys == hls.Keys
  {
    hide OwnersAgree;
    var hls' := hls[id := hls[id].(finished := true)];
    assert id in Unfinished(hls) && Unfinished(hls') == Unfinished(hls) - {id};
    assert forall x :: x in hls' && Usable(hls', hls'[x].key, x) ==> Usable(hls, hls[x].key, x);
  }

  lemma PendingRemoved(hls: Streams, pending: Pendings, key: Key)
    requires key in pending
    ensures |pending - {key}| == |pending| - 1
    ensures OneUsable(hls, pending) ==> OneUsable(hls, pending - {key})
    ensures EntriesAgree(hls, pending) ==> EntriesAgree(hls, pending - {key})
    ensures forall used, published, done ::
              IdsAgree(hls, pending, used, published, done) ==> IdsAgree(hls, pending - {key}, used, published, done)
  {
    hide OwnersAgree;
    assert (pending - {key})[key := pending[key]] == pending;
  }

  lemma StreamPublished(hls: Streams, pending: Pendings, id: StreamId, s: Stream)
    requires id !in hls && !s.finished && s.key !in pending
    requires OneUsable(hls, pending) && forall x :: x in hls ==> !Usable(hls, s.key, x)
    ensures OneUsable(hls[id := s], pending) && |Unfinished(hls[id := s])| == |Unfinished(hls)| + 1
  {
    var hls' := hls[id := s];
    assert Unfinished(hls') == Unfinished(hls) + {id};
    assert forall x, k :: x in hls ==> Usable(hls', k, x) == Usable(hls, k, x);
  }

  lemma PendingAdded(hls: Streams, pending: Pendings, key: Key, p: Pending)
    requires key !in pending && OneUsable(hls, pending) && forall x :: x in hls ==> !Usable(hls, key, x)
    ensures OneUsable(hls, pending[key := p]) && |pending[key := p]| == |pending| + 1
  {
  }

  // ---- Every step keeps the invariant ----

  lemma StopEntries(hls: Streams, pending: Pendings, c: Stop)
    requires EntriesAgree(hls, pending) && ClosesAgree(hls)
    ensures var hls' := map id | id in hls :: StoppedStream(c, id, hls[id]);
            var pending' := map k | k in pending :: StoppedPending(c, k, pending[k]);
            EntriesAgree(hls', pending') && ClosesAgree(hls')
  {
    hide OwnersAgree, Withdrawn, Covers;
    forall id | id in hls ensures var s := StoppedStream(c, id, hls[id]); EntryAgrees(s.owners, s.stopRequested) {
      WithdrawAgrees(c, hls[id].owners);
    }
    forall k | k in pending ensures var p := StoppedPending(c, k, pending[k]); EntryAgrees(p.owners, p.stopRequested) {
      WithdrawAgrees(c, pending[k].owners);
    }
  }

  lemma StopKeeps(s: State, c: Stop)
    requires Tallies(s)
    ensures Tallies(Step(s, StopCall(c)))
  {
    hide Withdrawn, Covers, IdsAgree, BudgetAgrees, OneUsable, EntriesAgree, ClosesAgree;
    var t' := Stopped(s.t, c);
    StreamsMarked(s.t.hls, t'.hls, s.t.pending, t'.pending);
    StopEntries(s.t.hls, s.t.pending, c);
  }

  lemma MarkKeeps(s: State, e: Event)
    requires Tallies(s) && Enabled(s, e) && (e.Idle? || e.Timeout?)
    ensures Tallies(Step(s, e))
  {
    hide OwnersAgree, IdsAgree, BudgetAgrees, OneUsable;
    var t' := Step(s, e).t;
    StreamsMarked(s.t.hls, t'.hls, s.t.pending, t'.pending);
  }

  lemma FinishKeeps(s: State, id: StreamId, complete: bool)
    requires Tallies(s) && id in s.t.hls && !s.t.hls[id].finished
    ensures Tallies(Step(s, Finish(id, complete)))
  {
    hide OneUsable, EntriesAgree, ClosesAgree;
    var hls1 := s.t.hls[id := s.t.hls[id].(finished := true)];
    StreamFinished(s.t.hls, s.t.pending, id);
    assert IdsAgree(hls1, s.t.pending, s.used, s.published, s.done);
    StreamRemoved(hls1, s.t.pending, id);
  }

  lemma ExpireKeeps(s: State, id: StreamId)
    requires Tallies(s) && id in s.t.hls && s.t.hls[id].finished
    ensures Tallies(Step(s, Expire(id)))
  {
    hide OwnersAgree, IdsAgree, OneUsable, EntriesAgree, ClosesAgree;
    StreamRemoved(s.t.hls, s.t.pending, id);
  }

  /** Publication moves the id from the pending starts to the streams. */
  lemma IdPublished(s: State, key: Key, st: Stream)
    requires IdsAgree(s.t.hls, s.t.pending, s.used, s.published, s.done) && key in s.t.pending
    ensures var id := s.t.pending[key].streamID;
            && id !in s.t.hls
            && IdsAgree(s.t.hls[id := st], s.t.pending - {key}, s.used, s.published + {id}, s.done)
  {
  }

  /** A start that was not stopped has owners, which its stream takes over. */
  lemma OwnersPublished(hls: Streams, pending: Pendings, key: Key)
    requires EntriesAgree(hls, pending) && ClosesAgree(hls) && key in pending && !pending[key].stopRequested
    ensures var hls' := hls[pending[key].streamID := Stream(key, pending[key].owners, false, false, 0)];
            EntriesAgree(hls', pending - {key}) && ClosesAgree(hls')
  {
    hide OwnersAgree;
  }

  lemma CompleteKeeps(s: State, key: Key, ready: bool)
    requires Tallies(s) && key in s.t.pending
    ensures Tallies(Step(s, CompleteStart(key, ready)))
  {
    hide OneUsable, EntriesAgree, ClosesAgree, IdsAgree;
    var s' := Step(s, CompleteStart(key, ready));
    var p := s.t.pending[key];
    PendingRemoved(s.t.hls, s.t.pending, key);
    var st := Stream(key, p.owners, false, false, 0);
    IdPublished(s, key, st);
    if Complete(s.t, key, p.streamID, ready).1 {
      OwnersPublished(s.t.hls, s.t.pending, key);
      NoneUsable(s.t.hls, s.t.pending, key);
      StreamPublished(s.t.hls, s.t.pending - {key}, p.streamID, st);
    }
  }

  lemma NoneUsable(hls: Streams, pending: Pendings, key: Key)
    requires OneUsable(hls, pending) && key in pending
    ensures forall x :: x in hls ==> !Usable(hls, key, x)
  {
  }

  lemma StartKeeps(s: State, e: Event)
    requires Tallies(s) && e.StartCall? && Enabled(s, e) && e.owner != ""
    ensures Tallies(Step(s, e))
  {
    hide OwnersAgree, Attached, OneUsable, IdsAgree, BudgetAgrees, EntriesAgree;
    var s' := Step(s, e);
    var key, owner := e.key, e.owner;
    var answer := Start(s.t, key, owner, e.newID, e.hit).1;
    IdsReserved(s, e.newID);
    match answer
    case Joined(id) =>
      EntryJoined(s, id, key, owner);
      StreamsMarked(s.t.hls, s'.t.hls, s.t.pending, s'.t.pending);
    case JoinedPending(_) =>
      PendingJoined(s, key, owner);
      StreamsMarked(s.t.hls, s'.t.hls, s.t.pending, s'.t.pending);
    case Started(_) =>
      PendingAdded(s.t.hls, s.t.pending, key, s'.t.pending[key]);
      StartedAgrees(s, key, owner, e.newID);
    case _ =>
  }

  lemma IdsReserved(s: State, newID: StreamId)
    requires IdsAgree(s.t.hls, s.t.pending, s.used, s.published, s.done)
    ensures IdsAgree(s.t.hls, s.t.pending, s.used + {newID}, s.published, s.done)
  {
  }

  lemma EntryJoined(s: State, id: StreamId, key: Key, owner: SessionId)
    requires EntriesAgree(s.t.hls, s.t.pending) && id in s.t.hls && owner != ""
    ensures EntriesAgree(s.t.hls[id := s.t.hls[id].(owners := Attached(s.t.hls[id].owners, owner))], s.t.pending)
  {
    hide OwnersAgree, Attached;
    AttachAgrees(s.t.hls[id].owners, owner);
  }

  lemma PendingJoined(s: State, key: Key, owner: SessionId)
    requires EntriesAgree(s.t.hls, s.t.pending) && key in s.t.pending && owner != ""
    ensures var p := s.t.pending[key];
            EntriesAgree(s.t.hls, s.t.pending[key := p.(owners := Attached(p.owners, owner))])
  {
    hide OwnersAgree, Attached;
    AttachAgrees(s.t.pending[key].owners, owner);
  }

  /** A new pending start has the id reserved for it and its caller as only owner. */
  lemma StartedAgrees(s: State, key: Key, owner: SessionId, newID: StreamId)
    requires Tallies(s) && key !in s.t.pending && owner != ""
    requires newID !in s.used && s.t.active + s.t.starts < MAX_STREAMS
    ensures var pending' := s.t.pending[key := Pending(newID, Attached(NOBODY, owner), false, false)];
            && IdsAgree(s.t.hls, pending', s.used + {newID}, s.published, s.done)
            && EntriesAgree(s.t.hls, pending')
            && BudgetAgrees(s.t.hls, pending', s.t.active, s.t.starts + 1)
  {
    hide OwnersAgree, Attached, OneUsable;
    NobodyAgrees();
    AttachAgrees(NOBODY, owner);
  }

  lemma NobodyAgrees()
    ensures OwnersAgree(NOBODY)
  {
  }

  // ---- Sessions ----

  lemma WithdrawShrinks(c: Stop, o: Owners)
    ensures Withdrawn(c, o).0.ids <= o.ids
  {
  }

  lemma StopHomes(s: State, c: Stop)
    requires HomesAgree(s.t.hls, s.t.pending, s.homes)
    ensures var t' := Stopped(s.t, c); HomesAgree(t'.hls, t'.pending, s.homes)
  {
    hide Withdrawn, Covers;
    var t' := Stopped(s.t, c);
    forall id | id in s.t.hls
      ensures t'.hls[id].key == s.t.hls[id].key && t'.hls[id].owners.ids <= s.t.hls[id].owners.ids
    {
      WithdrawShrinks(c, s.t.hls[id].owners);
    }
    forall k | k in s.t.pending ensures t'.pending[k].owners.ids <= s.t.pending[k].owners.ids {
      WithdrawShrinks(c, s.t.pending[k].owners);
    }
  }

  lemma AttachAdds(o: Owners, who: SessionId)
    ensures o.ids <= Attached(o, who).ids <= o.ids + {who}
  {
  }

  lemma StartHomes(s: State, e: Event)
    requires HomesAgree(s.t.hls, s.t.pending, s.homes) && Enabled(s, e) && e.StartCall?
    ensures var s' := Step(s, e); HomesAgree(s'.t.hls, s'.t.pending, s'.homes)
  {
    hide Attached;
    AttachAdds(NOBODY, e.owner);
    if e.hit.Some? {
      AttachAdds(s.t.hls[e.hit.value].owners, e.owner);
    }
    if e.key in s.t.pending {
      AttachAdds(s.t.pending[e.key].owners, e.owner);
    }
  }

  lemma PublicationHomes(s: State, e: Event)
    requires HomesAgree(s.t.hls, s.t.pending, s.homes) && Enabled(s, e) && e.CompleteStart?
    ensures var s' := Step(s, e); HomesAgree(s'.t.hls, s'.t.pending, s'.homes)
  {
    hide Found;
  }

  /** No entry is added, and those that stay keep their key and owners. */
  ghost predicate OnlyFewer(t: Tables, t': Tables) {
    && (forall id :: id in t'.hls ==>
          id in t.hls && t'.hls[id].key == t.hls[id].key && t'.hls[id].owners == t.hls[id].owners)
    && (forall k :: k in t'.pending ==> k in t.pending && t'.pending[k].owners == t.pending[k].owners)
  }

  lemma OthersOnlyFewer(s: State, e: Event)
    requires Enabled(s, e) && !e.StartCall? && !e.StopCall? && !e.CompleteStart?
    ensures OnlyFewer(s.t, Step(s, e).t)
  {
    hide Found;
  }

  lemma OtherHomes(s: State, e: Event)
    requires HomesAgree(s.t.hls, s.t.pending, s.homes) && Enabled(s, e)
    requires !e.StartCall? && !e.StopCall? && !e.CompleteStart?
    ensures var s' := Step(s, e); HomesAgree(s'.t.hls, s'.t.pending, s'.homes)
  {
    OthersOnlyFewer(s, e);
    HomesGrow(s, e);
    hide Step, Enabled;
  }

  lemma HomesGrow(s: State, e: Event)
    requires Enabled(s, e)
    ensures forall who :: who in s.homes ==> who in Step(s, e).homes && Step(s, e).homes[who] == s.homes[who]
  {
    hide Found, Start, Stopped, Complete;
  }

  lemma SessionsKeep(s: State, e: Event)
    requires SessionsAgree(s) && Enabled(s, e)
    ensures SessionsAgree(Step(s, e))
  {
    hide Found, Start, Stopped;
  }

  lemma TalliesKeep(s: State, e: Event)
    requires Tallies(s) && Enabled(s, e) && (e.StartCall? ==> e.owner != "")
    ensures Tallies(Step(s, e))
  {
    match e
    case StartCall(_, _, _, _) => StartKeeps(s, e);
    case CompleteStart(key, ready) => CompleteKeeps(s, key, ready);
    case Timeout(_) => MarkKeeps(s, e);
    case StopCall(c) => StopKeeps(s, c);
    case Idle(_) => MarkKeeps(s, e);
    case Finish(id, complete) => FinishKeeps(s, id, complete);
    case Expire(id) => ExpireKeeps(s, id);
    case _ =>
  }

  lemma StepKeepsInv(s: State, e: Event)
    requires Inv(s) && Enabled(s, e)
    ensures Inv(Step(s, e))
  {
    hide Tallies, HomesAgree, Step;
    TalliesKeep(s, e);
    SessionsKeep(s, e);
    match e
    case StartCall(_, _, _, _) => StartHomes(s, e);
    case StopCall(c) => StopCallHomes(s, c);
    case CompleteStart(_, _) => PublicationHomes(s, e);
    case _ => OtherHomes(s, e);
  }

  lemma StopCallHomes(s: State, c: Stop)
    requires HomesAgree(s.t.hls, s.t.pending, s.homes)
    ensures var s' := Step(s, StopCall(c)); HomesAgree(s'.t.hls, s'.t.pending, s'.homes)
  {
    StopHomes(s, c);
  }
}
