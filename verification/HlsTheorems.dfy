/** Safety over whole runs of the video stream tables. */
module HlsTheorems {
  import opened HlsStreams
  import opened HlsProtocol
  import opened Wrappers

  ghost predicate StepAt(ss: seq<State>, es: seq<Event>, i: nat)
    requires |ss| == |es| + 1 && i < |es|
  {
    Enabled(ss[i], es[i]) && ss[i + 1] == Step(ss[i], es[i])
  }

  /** A finite run from the initial state: state i+1 follows from state i by event i. */
  ghost predicate IsRun(ss: seq<State>, es: seq<Event>) {
    && |ss| == |es| + 1 && ss[0] == INIT
    && forall i: nat {:trigger StepAt(ss, es, i)} :: i < |es| ==> StepAt(ss, es, i)
  }

  lemma InitInv()
    ensures Inv(INIT)
  {
  }

  lemma {:induction false} InvOnRun(ss: seq<State>, es: seq<Event>, k: nat)
    requires IsRun(ss, es) && k < |ss|
    ensures Inv(ss[k])
  {
    hide Inv, Step, Enabled;
    InitInv();
    if k > 0 {
      InvOnRun(ss, es, k - 1);
      assert StepAt(ss, es, k - 1);
      StepKeepsInv(ss[k - 1], es[k - 1]);
    }
  }

  // ---- Budget and uniqueness ----

  /** In every reachable state the counters are exact, their sum is within the budget, and a path has one transcode. */
  lemma OneTranscodeWithinBudget(ss: seq<State>, es: seq<Event>, k: nat, key: Key)
    requires IsRun(ss, es) && k < |ss|
    ensures var t := ss[k].t;
            && t.starts == |t.pending| && t.active == |Unfinished(t.hls)| && t.active + t.starts <= MAX_STREAMS
            && (key in t.pending ==> forall id :: !Usable(t.hls, key, id))
            && forall a, b :: Usable(t.hls, key, a) && Usable(t.hls, key, b) ==> a == b
  {
    hide IdsAgree, EntriesAgree, ClosesAgree;
    InvOnRun(ss, es, k);
  }

  /** A start makes a new transcode exactly when the path has none and the budget has room. */
  lemma StartsNewExactly(s: State, e: Event)
    requires Inv(s) && e.StartCall? && Enabled(s, e)
    ensures Start(s.t, e.key, e.owner, e.newID, e.hit).1.Started? <==>
              && !s.t.closing && e.key !in s.t.pending && (forall id :: !Usable(s.t.hls, e.key, id))
              && |s.t.pending| + |Unfinished(s.t.hls)| < MAX_STREAMS
  {
    hide IdsAgree, EntriesAgree, ClosesAgree;
  }

  // ---- What a start is answered ----

  /** Whether a path's pending start would become a usable stream if it were ready now. */
  predicate Promising(s: State, key: Key) {
    key in s.t.pending && Usable(Step(s, CompleteStart(key, true)).t.hls, key, s.t.pending[key].streamID)
  }

  /** The start a path has pending is promising exactly when nobody stopped it and its deadline has not passed. */
  lemma PromisingExactly(s: State, key: Key)
    requires Inv(s) && key in s.t.pending
    ensures Promising(s, key) <==> !s.t.pending[key].stopRequested && !s.t.pending[key].cancelled
  {
    hide BudgetAgrees, OneUsable, EntriesAgree, ClosesAgree, HomesAgree, SessionsAgree;
  }

  lemma AnswersOf(t: Tables, key: Key, owner: SessionId, newID: StreamId, hit: Option<StreamId>)
    requires hit.Some? ==> hit.value in t.hls
    ensures var answer := Start(t, key, owner, newID, hit).1;
            if t.closing then answer == Closing
            else if hit.Some? then answer == Joined(hit.value)
            else if key in t.pending then
              answer == if t.pending[key].stopRequested || t.pending[key].cancelled then Retry
                        else JoinedPending(t.pending[key].streamID)
            else if t.active + t.starts >= MAX_STREAMS then answer == AtCapacity
            else answer == Started(newID)
  {
  }

  /**
   * The answers to a start, each exactly: Closing after the shutdown began; Joined with the path's usable stream;
   * JoinedPending with its promising pending start; Retry for a pending start that would publish nothing even if
   * it were ready; AtCapacity when three streams and starts leave no room; and otherwise a start of its own.
   */
  lemma StartAnswersExactly(s: State, e: Event, id: StreamId)
    requires Inv(s) && e.StartCall? && Enabled(s, e)
    ensures var answer := Start(s.t, e.key, e.owner, e.newID, e.hit).1;
            var none := forall x :: !Usable(s.t.hls, e.key, x);
            var room := |s.t.pending| + |Unfinished(s.t.hls)| < MAX_STREAMS;
            && (answer == Closing <==> s.t.closing)
            && (answer == Joined(id) <==> !s.t.closing && Usable(s.t.hls, e.key, id))
            && (answer == JoinedPending(id) <==>
                  !s.t.closing && Promising(s, e.key) && s.t.pending[e.key].streamID == id)
            && (answer == Retry <==> !s.t.closing && e.key in s.t.pending && !Promising(s, e.key))
            && (answer == AtCapacity <==> !s.t.closing && none && e.key !in s.t.pending && !room)
            && (answer == Started(id) <==> !s.t.closing && none && e.key !in s.t.pending && room && id == e.newID)
  {
    AnswersOf(s.t, e.key, e.owner, e.newID, e.hit);
    if e.key in s.t.pending {
      PromisingExactly(s, e.key);
    }
    hide Start, Promising, IdsAgree, EntriesAgree, ClosesAgree, HomesAgree, SessionsAgree;
  }

  /** A session whose start was answered with an id has, or gets from a ready completion, a usable stream of that id. */
  lemma AnswerIsServed(s: State, e: Event, id: StreamId, who: SessionId)
    requires Inv(s) && Enabled(s, e) && Joins(s, e, id, who)
    ensures var s' := Step(s, e);
            Usable(s'.t.hls, e.key, id) || (Promising(s', e.key) && s'.t.pending[e.key].streamID == id)
  {
    var s' := Step(s, e);
    StepKeepsInv(s, e);
    AnswersOf(s.t, e.key, e.owner, e.newID, e.hit);
    if e.key in s'.t.pending {
      PromisingExactly(s', e.key);
    }
    AnswerLeaves(s, e);
    hide Start, Step, Promising, Inv;
  }

  /** What a start leaves of the path's stream or pending start it was answered with. */
  lemma AnswerLeaves(s: State, e: Event)
    requires Enabled(s, e) && e.StartCall?
    ensures var answer, t' := Start(s.t, e.key, e.owner, e.newID, e.hit).1, Step(s, e).t;
            && (answer.Joined? ==> Usable(t'.hls, e.key, answer.id))
            && (answer.JoinedPending? || answer.Started? ==>
                  && e.key in t'.pending && t'.pending[e.key].streamID == answer.id
                  && !t'.pending[e.key].stopRequested && !t'.pending[e.key].cancelled)
  {
  }

  /** And a start told to retry waited for one that never becomes a stream. */
  lemma RetryWasHopeless(ss: seq<State>, es: seq<Event>, i: nat, k: nat)
    requires IsRun(ss, es) && i <= k < |ss| && i < |es| && es[i].StartCall?
    requires es[i].hit.Some? ==> es[i].hit.value in ss[i].t.hls
    requires Start(ss[i].t, es[i].key, es[i].owner, es[i].newID, es[i].hit).1 == Retry
    ensures es[i].key in ss[i].t.pending && ss[i].t.pending[es[i].key].streamID !in ss[k].t.hls
  {
    AnswersOf(ss[i].t, es[i].key, es[i].owner, es[i].newID, es[i].hit);
    CancelledNeverPublished(ss, es, es[i].key, i, k);
  }

  // ---- Owner references ----

  function Refs(o: Owners, who: SessionId): int {
    if who in o.refs then o.refs[who] else 0
  }

  /** What a pending start and a published stream have in common. */
  datatype Entry = Entry(key: Key, owners: Owners, stopped: bool)

  /** The id names this pending start or this published stream. */
  predicate Names(t: Tables, id: StreamId, x: Entry) {
    || (id in t.hls && x == Entry(t.hls[id].key, t.hls[id].owners, t.hls[id].stopRequested))
    || (x.key in t.pending && t.pending[x.key].streamID == id
        && x == Entry(x.key, t.pending[x.key].owners, t.pending[x.key].stopRequested))
  }

  ghost predicate HasEntry(t: Tables, id: StreamId) {
    exists x :: Names(t, id, x)
  }

  ghost function EntryOf(t: Tables, id: StreamId): (x: Entry)
    requires HasEntry(t, id)
    ensures Names(t, id, x)
  {
    var x :| Names(t, id, x);
    x
  }

  /** An id names at most one entry, in one of the two tables. */
  lemma EntryIsUnique(s: State, id: StreamId, x: Entry)
    requires IdsAgree(s.t.hls, s.t.pending, s.used, s.published, s.done) && Names(s.t, id, x)
    ensures HasEntry(s.t, id) && EntryOf(s.t, id) == x && id in s.used
  {
  }

  /** The step is a start that who made and that was answered with this id. */
  ghost predicate Joins(s: State, e: Event, id: StreamId, who: SessionId)
    requires Enabled(s, e)
  {
    && e.StartCall? && e.owner == who
    && var answer := Start(s.t, e.key, e.owner, e.newID, e.hit).1;
       answer == Joined(id) || answer == JoinedPending(id) || answer == Started(id)
  }

  /** How many references of who to the entry the step gives back, out of n. */
  function GivenBack(e: Event, key: Key, id: StreamId, who: SessionId, n: int): int {
    if !e.StopCall? || !Covers(e.c, key, id) || e.c.StopBelow? || e.c.StopVault? || e.c.owner != who then 0
    else if e.c.StopSession? || n == 0 then n
    else 1
  }

  /** Withdrawing moves only the named session's count: by one, or to zero when the session ends. */
  lemma WithdrawCounts(c: Stop, key: Key, id: StreamId, o: Owners, who: SessionId)
    requires OwnersAgree(o) && Covers(c, key, id)
    ensures Refs(Withdrawn(c, o).0, who) == Refs(o, who) - GivenBack(StopCall(c), key, id, who, Refs(o, who))
  {
  }

  /** What a call makes of an entry: a start answered with its id attaches, a request that covers it withdraws. */
  ghost function After(s: State, e: Event, id: StreamId, x: Entry): (x': Entry)
    requires Enabled(s, e)
  {
    if e.StartCall? then if Joins(s, e, id, e.owner) then x.(owners := Attached(x.owners, e.owner)) else x
    else if e.StopCall? && Covers(e.c, x.key, id) then
      var (o, fires) := Withdrawn(e.c, x.owners);
      x.(owners := o, stopped := x.stopped || fires)
    else if e == Idle(id) then x.(stopped := true)
    else x
  }

  lemma StopCarries(s: State, c: Stop, id: StreamId, x: Entry, x': Entry)
    requires Inv(s) && Names(s.t, id, x) && Names(Stopped(s.t, c), id, x')
    ensures x' == After(s, StopCall(c), id, x)
  {
    hide Withdrawn, Covers, BudgetAgrees, OneUsable, EntriesAgree, ClosesAgree, HomesAgree, SessionsAgree;
  }

  lemma StartCarries(s: State, e: Event, id: StreamId, x: Entry, x': Entry)
    requires Inv(s) && Enabled(s, e) && e.StartCall? && Names(s.t, id, x) && Names(Step(s, e).t, id, x')
    ensures x' == After(s, e, id, x)
  {
    hide Attached, BudgetAgrees, OneUsable, EntriesAgree, ClosesAgree, HomesAgree, SessionsAgree;
  }

  lemma PublicationCarries(s: State, e: Event, id: StreamId, x: Entry, x': Entry)
    requires Inv(s) && Enabled(s, e) && e.CompleteStart? && Names(s.t, id, x) && Names(Step(s, e).t, id, x')
    ensures x' == x
  {
    hide BudgetAgrees, OneUsable, EntriesAgree, ClosesAgree, HomesAgree, SessionsAgree, Found;
  }

  /** The other steps drop streams, finish them, or stop one; pending starts they leave or cancel. */
  lemma OthersKeepEntries(s: State, e: Event)
    requires Enabled(s, e) && !e.StartCall? && !e.StopCall? && !e.CompleteStart?
    ensures var t, t' := s.t, Step(s, e).t;
            && (forall id :: id in t'.hls ==>
                  && id in t.hls && t'.hls[id].key == t.hls[id].key && t'.hls[id].owners == t.hls[id].owners
                  && t'.hls[id].stopRequested == (t.hls[id].stopRequested || e == Idle(id)))
            && (forall k :: k in t'.pending ==>
                  && k in t.pending && t'.pending[k].streamID == t.pending[k].streamID
                  && t'.pending[k].owners == t.pending[k].owners
                  && t'.pending[k].stopRequested == t.pending[k].stopRequested)
    ensures e.Idle? ==> e.id in s.t.hls
  {
    hide Found;
  }

  lemma OthersCarry(s: State, e: Event, id: StreamId, x: Entry, x': Entry)
    requires Inv(s) && Enabled(s, e) && !e.StartCall? && !e.StopCall? && !e.CompleteStart?
    requires Names(s.t, id, x) && Names(Step(s, e).t, id, x')
    ensures x' == After(s, e, id, x)
  {
    OthersKeepEntries(s, e);
    hide Step, Enabled, BudgetAgrees, OneUsable, EntriesAgree, ClosesAgree, HomesAgree, SessionsAgree;
  }

  /** The entry an id names after a step is the same entry, wherever publication has put it. */
  lemma EntryStep(s: State, e: Event, id: StreamId)
    requires Inv(s) && Enabled(s, e) && HasEntry(s.t, id) && HasEntry(Step(s, e).t, id)
    ensures EntryOf(Step(s, e).t, id) == After(s, e, id, EntryOf(s.t, id))
  {
    hide Inv, Names, After;
    var x, x' := EntryOf(s.t, id), EntryOf(Step(s, e).t, id);
    match e
    case StartCall(_, _, _, _) => StartCarries(s, e, id, x, x');
    case StopCall(c) => StopCarries(s, c, id, x, x');
    case CompleteStart(_, _) => PublicationCarries(s, e, id, x, x'); AfterPublication(s, e, id, x);
    case _ => OthersCarry(s, e, id, x, x');
  }

  lemma AfterPublication(s: State, e: Event, id: StreamId, x: Entry)
    requires Enabled(s, e) && e.CompleteStart?
    ensures After(s, e, id, x) == x
  {
  }

  /** What the invariant says about the owners of an entry. */
  lemma EntryOwners(t: Tables, id: StreamId, x: Entry)
    requires EntriesAgree(t.hls, t.pending) && Names(t, id, x)
    ensures OwnersAgree(x.owners) && (x.stopped || x.owners.ids != {})
  {
    hide OwnersAgree;
  }

  /**
   * Conservation of references. Over every step, a session's references to an entry that is there before and
   * after grow by one for its own start that was answered with the entry's id, shrink by what its own release
   * or its end gives back, and otherwise stay: also when the pending start becomes the published stream.
   */
  lemma ReferencesAreConserved(s: State, e: Event, id: StreamId, who: SessionId)
    requires Inv(s) && Enabled(s, e) && HasEntry(s.t, id) && HasEntry(Step(s, e).t, id)
    ensures var x, x' := EntryOf(s.t, id), EntryOf(Step(s, e).t, id);
            var n := Refs(x.owners, who);
            && x'.key == x.key
            && Refs(x'.owners, who) == n + (if Joins(s, e, id, who) then 1 else 0) - GivenBack(e, x.key, id, who, n)
  {
    hide Step, Names, Withdrawn, Covers, IdsAgree, BudgetAgrees, OneUsable, ClosesAgree, EntriesAgree;
    EntryStep(s, e, id);
    var x := EntryOf(s.t, id);
    EntryOwners(s.t, id, x);
    if e.StopCall? && Covers(e.c, x.key, id) {
      WithdrawCounts(e.c, x.key, id, x.owners, who);
    }
  }

  /** The id is in one of the two tables. */
  predicate Known(t: Tables, id: StreamId) {
    id in t.hls || exists k :: k in t.pending && t.pending[k].streamID == id
  }

  lemma KnownIsEntry(t: Tables, id: StreamId)
    ensures Known(t, id) <==> HasEntry(t, id)
  {
    if id in t.hls {
      assert Names(t, id, Entry(t.hls[id].key, t.hls[id].owners, t.hls[id].stopRequested));
    } else if Known(t, id) {
      var k :| k in t.pending && t.pending[k].streamID == id;
      assert Names(t, id, Entry(k, t.pending[k].owners, t.pending[k].stopRequested));
    }
  }

  lemma IdAppears(s: State, e: Event, id: StreamId)
    requires Enabled(s, e) && !Known(s.t, id) && Known(Step(s, e).t, id)
    ensures e.StartCall? && e.newID == id && Start(s.t, e.key, e.owner, e.newID, e.hit).1 == Started(id)
  {
    hide Withdrawn, Covers, Attached;
  }

  /** An entry appears only by a start that is answered with its id, owned by the caller alone. */
  lemma EntryOrigin(s: State, e: Event, id: StreamId)
    requires Inv(s) && Enabled(s, e) && !HasEntry(s.t, id) && HasEntry(Step(s, e).t, id)
    ensures e.StartCall? && e.newID == id && Start(s.t, e.key, e.owner, e.newID, e.hit).1 == Started(id)
    ensures EntryOf(Step(s, e).t, id) == Entry(e.key, Attached(NOBODY, e.owner), false)
  {
    hide Inv, HasEntry, Known, Attached;
    KnownIsEntry(s.t, id);
    KnownIsEntry(Step(s, e).t, id);
    IdAppears(s, e, id);
    StepKeepsInv(s, e);
    StartedIsNamed(s, e);
    IdsOf(Step(s, e));
    EntryIsUnique(Step(s, e), id, Entry(e.key, Attached(NOBODY, e.owner), false));
  }

  lemma IdsOf(s: State)
    requires Inv(s)
    ensures IdsAgree(s.t.hls, s.t.pending, s.used, s.published, s.done)
  {
  }

  lemma StartedIsNamed(s: State, e: Event)
    requires Enabled(s, e) && e.StartCall? && Start(s.t, e.key, e.owner, e.newID, e.hit).1.Started?
    ensures Names(Step(s, e).t, e.newID, Entry(e.key, Attached(NOBODY, e.owner), false))
  {
  }

  /**
   * The references a session should have to the entry of a key and an id after k steps: one for each start of
   * its own that was answered with the id, the one that created the entry included, less what it gave back.
   */
  ghost function Balance(ss: seq<State>, es: seq<Event>, key: Key, id: StreamId, who: SessionId, k: nat): int
    requires IsRun(ss, es) && k < |ss|
  {
    if k == 0 then 0
    else
      assert StepAt(ss, es, k - 1);
      var n := Balance(ss, es, key, id, who, k - 1);
      n + (if Joins(ss[k - 1], es[k - 1], id, who) then 1 else 0) - GivenBack(es[k - 1], key, id, who, n)
  }

  /** An id that was not handed out has no balance. */
  lemma {:induction false} UnusedBalance(ss: seq<State>, es: seq<Event>, key: Key, id: StreamId, who: SessionId, k: nat)
    requires IsRun(ss, es) && k < |ss| && id !in ss[k].used
    ensures Balance(ss, es, key, id, who, k) == 0
  {
    hide Inv, Step, Enabled;
    if k > 0 {
      assert StepAt(ss, es, k - 1);
      InvOnRun(ss, es, k - 1);
      UsedStep(ss[k - 1], es[k - 1], id, who);
      UnusedBalance(ss, es, key, id, who, k - 1);
    }
  }

  /** Ids stay handed out, and a start is answered with such an id. */
  lemma UsedStep(s: State, e: Event, id: StreamId, who: SessionId)
    requires Inv(s) && Enabled(s, e) && id !in Step(s, e).used
    ensures id !in s.used && !Joins(s, e, id, who)
  {
    hide BudgetAgrees, OneUsable, EntriesAgree, ClosesAgree;
  }

  /** In every reachable state a session's references to an entry are exactly its balance over the whole run. */
  lemma {:induction false} ReferencesOverRun(ss: seq<State>, es: seq<Event>, k: nat, id: StreamId, who: SessionId)
    requires IsRun(ss, es) && k < |ss| && HasEntry(ss[k].t, id)
    ensures var x := EntryOf(ss[k].t, id);
            Refs(x.owners, who) == Balance(ss, es, x.key, id, who, k)
  {
    hide Inv, Step, Enabled, Names;
    NoFirstEntry(id);
    if k > 0 {
      assert StepAt(ss, es, k - 1);
      var s, e := ss[k - 1], es[k - 1];
      InvOnRun(ss, es, k - 1);
      if HasEntry(s.t, id) {
        ReferencesOverRun(ss, es, k - 1, id, who);
        ReferencesAreConserved(s, e, id, who);
      } else {
        EntryOrigin(s, e, id);
        NewIsUnused(s, e);
        NoNamelessSession(s);
        UnusedBalance(ss, es, e.key, id, who, k - 1);
      }
    }
  }

  lemma NoNamelessSession(s: State)
    requires Inv(s)
    ensures "" !in s.homes
  {
  }

  lemma NoFirstEntry(id: StreamId)
    ensures !HasEntry(INIT.t, id)
  {
  }

  lemma NewIsUnused(s: State, e: Event)
    requires Enabled(s, e) && e.StartCall?
    ensures e.newID !in s.used && e.owner in s.homes
  {
  }

  /** A release by stream id touches no other entry. */
  lemma ReleaseTouchesOneEntry(s: State, v: VaultId, owner: SessionId, x: StreamId, id: StreamId)
    requires Inv(s) && id != x && HasEntry(s.t, id)
    ensures HasEntry(Stopped(s.t, StopStream(v, owner, x)), id)
    ensures EntryOf(Stopped(s.t, StopStream(v, owner, x)), id) == EntryOf(s.t, id)
  {
    var c := StopStream(v, owner, x);
    assert Names(Stopped(s.t, c), id, EntryOf(s.t, id));
    StopCarries(s, c, id, EntryOf(s.t, id), EntryOf(Stopped(s.t, c), id));
  }

  /** The request is for something else: another vault, stream or path, or a session that is no owner. */
  ghost predicate Elsewhere(c: Stop, id: StreamId, x: Entry) {
    match c
    case StopStream(v, _, y) => x.key.vault != v || id != y
    case StopPath(v, _, p) => x.key != Key(v, p)
    case StopBelow(v, p) => x.key.vault != v || !HlsPathWithin(p, x.key.path)
    case StopVault(v) => v != "" && x.key.vault != v
    case StopSession(v, owner) => x.key.vault != v || (owner !in x.owners.ids && x.owners.ids != {})
  }

  /** A request leaves alone every entry it is not for. */
  lemma StopTouchesNothingElse(s: State, c: Stop, id: StreamId)
    requires Inv(s) && HasEntry(s.t, id) && Elsewhere(c, id, EntryOf(s.t, id))
    ensures HasEntry(Stopped(s.t, c), id) && EntryOf(Stopped(s.t, c), id) == EntryOf(s.t, id)
  {
    StopKeepsEntries(s.t, c, id);
    hide Names, Tallies, HomesAgree, SessionsAgree;
    StopCarries(s, c, id, EntryOf(s.t, id), EntryOf(Stopped(s.t, c), id));
  }

  lemma StopKeepsEntries(t: Tables, c: Stop, id: StreamId)
    requires HasEntry(t, id)
    ensures HasEntry(Stopped(t, c), id)
  {
    hide Withdrawn, Covers, HasEntry;
    KnownIsEntry(t, id);
    KnownIsEntry(Stopped(t, c), id);
    if id !in t.hls {
      var k :| k in t.pending && t.pending[k].streamID == id;
      assert k in Stopped(t, c).pending && Stopped(t, c).pending[k].streamID == id;
    }
  }

  /** In particular a stop below a directory leaves every entry outside it alone. */
  lemma StopBelowStaysBelow(s: State, v: VaultId, root: seq<string>, id: StreamId, path: seq<string>)
    requires Inv(s) && HasEntry(s.t, id) && EntryOf(s.t, id).key == Key(v, Rendered(path)) && !(root <= path)
    requires forall n :: 0 <= n < |root| ==> IsSegment(root[n])
    requires forall n :: 0 <= n < |path| ==> IsSegment(path[n])
    ensures var t' := Stopped(s.t, StopBelow(v, Rendered(root)));
            HasEntry(t', id) && EntryOf(t', id) == EntryOf(s.t, id)
  {
    hide HlsPathWithin, Rendered, Inv, HasEntry;
    HlsPathWithinIsPrefix(root, path);
    StopTouchesNothingElse(s, StopBelow(v, Rendered(root)), id);
  }

  /** A release by stream id or by path, and the end of a session, take what they should from the entries they name. */
  lemma StopReaches(s: State, c: Stop, owner: SessionId, id: StreamId)
    requires Inv(s) && HasEntry(s.t, id) && owner != ""
    requires var key := EntryOf(s.t, id).key;
             c == StopStream(key.vault, owner, id) || c == StopPath(key.vault, owner, key.path)
             || c == StopSession(key.vault, owner)
    ensures HasEntry(Stopped(s.t, c), id)
    ensures var n := Refs(EntryOf(s.t, id).owners, owner);
            Refs(EntryOf(Stopped(s.t, c), id).owners, owner) == if c.StopSession? || n == 0 then 0 else n - 1
  {
    StopKeepsEntries(s.t, c, id);
    hide Names, IdsAgree, BudgetAgrees, OneUsable, ClosesAgree, EntriesAgree, HomesAgree, SessionsAgree;
    var x := EntryOf(s.t, id);
    StopCarries(s, c, id, x, EntryOf(Stopped(s.t, c), id));
    EntryOwners(s.t, id, x);
    WithdrawCounts(c, x.key, id, x.owners, owner);
  }

  /** On whose behalf an owner-scoped stop request is made. */
  predicate ScopedTo(c: Stop, owner: SessionId) {
    owner != "" && ((c.StopStream? || c.StopPath? || c.StopSession?) && c.owner == owner)
  }

  /**
   * An owner-scoped request stops a covered, unstopped entry exactly when it takes the entry's last reference:
   * the session is the only owner, with one reference left unless the session itself ends.
   */
  lemma LastReferenceStops(s: State, c: Stop, owner: SessionId, id: StreamId)
    requires Inv(s) && ScopedTo(c, owner) && HasEntry(s.t, id) && HasEntry(Stopped(s.t, c), id)
    requires var x := EntryOf(s.t, id); Covers(c, x.key, id) && !x.stopped
    ensures var x, x' := EntryOf(s.t, id), EntryOf(Stopped(s.t, c), id);
            && (x'.stopped <==> x.owners.ids == {owner} && (c.StopSession? || Refs(x.owners, owner) == 1))
            && (x'.stopped <==> x'.owners.ids == {})
  {
    hide Names, IdsAgree, BudgetAgrees, OneUsable, ClosesAgree, EntriesAgree, Covers;
    var x, x' := EntryOf(s.t, id), EntryOf(Stopped(s.t, c), id);
    StopCarries(s, c, id, x, x');
    EntryOwners(s.t, id, x);
    var o := x.owners;
    assert owner in o.ids && o.ids - {owner} == {} ==> o.ids == {owner};
    if owner !in o.ids {
      assert o.ids != {owner} && x'.owners.ids == o.ids;
    }
  }

  /** In every reachable state an unstopped stream's assets go exactly to the sessions that hold a reference to it. */
  lemma AssetsOnlyForOwners(ss: seq<State>, es: seq<Event>, k: nat, v: VaultId, owner: SessionId, id: StreamId)
    requires IsRun(ss, es) && k < |ss| && id in ss[k].t.hls
    ensures var s := ss[k].t.hls[id];
            AssetAllowed(ss[k].t, v, owner, id) <==> s.key.vault == v && !s.stopRequested && Refs(s.owners, owner) > 0
  {
    hide IdsAgree, BudgetAgrees, OneUsable, ClosesAgree;
    InvOnRun(ss, es, k);
  }

  /** So access is earned by starts and lost by giving back, over the whole run. */
  lemma AssetsByBalance(ss: seq<State>, es: seq<Event>, k: nat, v: VaultId, owner: SessionId, id: StreamId)
    requires IsRun(ss, es) && k < |ss| && id in ss[k].t.hls
    ensures var s := ss[k].t.hls[id];
            AssetAllowed(ss[k].t, v, owner, id) <==>
              s.key.vault == v && !s.stopRequested && Balance(ss, es, s.key, id, owner, k) > 0
  {
    hide Inv, IsRun, AssetAllowed;
    var s := ss[k].t.hls[id];
    InvOnRun(ss, es, k);
    IdsOf(ss[k]);
    EntryIsUnique(ss[k], id, Entry(s.key, s.owners, s.stopRequested));
    ReferencesOverRun(ss, es, k, id, owner);
    AssetsOnlyForOwners(ss, es, k, v, owner, id);
  }

  /** Across a run: stopCh is closed at most once, and exactly when the stream was asked to stop. */
  lemma StopChannelClosedOnce(ss: seq<State>, es: seq<Event>, k: nat, id: StreamId)
    requires IsRun(ss, es) && k < |ss| && id in ss[k].t.hls
    ensures ss[k].t.hls[id].stopCloses == if ss[k].t.hls[id].stopRequested then 1 else 0
  {
    hide IdsAgree, BudgetAgrees, OneUsable, EntriesAgree;
    InvOnRun(ss, es, k);
  }

  // ---- Cancelled starts ----

  /** The id names no stream, and any pending start it names is stopped or cancelled. */
  ghost predicate Dead(s: State, id: StreamId) {
    && id in s.used && id !in s.t.hls
    && forall k :: k in s.t.pending && s.t.pending[k].streamID == id ==> !PendingReusable(s.t.pending[k])
  }

  lemma DeadStep(s: State, e: Event, id: StreamId)
    requires Enabled(s, e) && Dead(s, id)
    ensures Dead(Step(s, e), id)
  {
    hide Withdrawn, Covers, Attached;
  }

  lemma {:induction false} DeadRun(ss: seq<State>, es: seq<Event>, id: StreamId, i: nat, k: nat)
    requires IsRun(ss, es) && i <= k < |ss| && Dead(ss[i], id)
    ensures Dead(ss[k], id)
    decreases k
  {
    hide Step, Enabled, Dead;
    if i < k {
      DeadRun(ss, es, id, i, k - 1);
      assert StepAt(ss, es, k - 1);
      DeadStep(ss[k - 1], es[k - 1], id);
    }
  }

  /** A start that was stopped or cancelled while pending never becomes a stream. */
  lemma CancelledNeverPublished(ss: seq<State>, es: seq<Event>, key: Key, i: nat, k: nat)
    requires IsRun(ss, es) && i <= k < |ss| && key in ss[i].t.pending && !PendingReusable(ss[i].t.pending[key])
    ensures ss[i].t.pending[key].streamID !in ss[k].t.hls
  {
    hide BudgetAgrees, OneUsable, EntriesAgree, ClosesAgree;
    InvOnRun(ss, es, i);
    DeadRun(ss, es, ss[i].t.pending[key].streamID, i, k);
  }

  /** Nor does one whose deadline passed. */
  lemma TimedOutNeverPublished(ss: seq<State>, es: seq<Event>, key: Key, i: nat, k: nat)
    requires IsRun(ss, es) && i < k < |ss| && es[i] == Timeout(key) && key in ss[i].t.pending
    ensures ss[i].t.pending[key].streamID !in ss[k].t.hls
  {
    assert StepAt(ss, es, i);
    CancelledNeverPublished(ss, es, key, i + 1, k);
  }

  /**
   * When the process of a stream ends: the stream is retained if its playlist is complete and nobody stopped it,
   * and else gone; either way its place in the budget is free, and no other stream is touched.
   */
  lemma FinishExactly(s: State, id: StreamId, complete: bool)
    requires Inv(s) && id in s.t.hls && !s.t.hls[id].finished
    ensures var t' := Step(s, Finish(id, complete)).t;
            && (id in t'.hls <==> complete && !s.t.hls[id].stopRequested)
            && (forall key :: !Usable(t'.hls, key, id))
            && t'.active == |Unfinished(s.t.hls)| - 1
            && (forall x :: x != id ==> (x in t'.hls <==> x in s.t.hls) && (x in t'.hls ==> t'.hls[x] == s.t.hls[x]))
  {
    hide IdsAgree, OneUsable, EntriesAgree, ClosesAgree, HomesAgree, SessionsAgree;
    assert id in Unfinished(s.t.hls);
  }

  /**
   * A stream appears exactly by a ready completion of a start nobody stopped and whose deadline has not passed, and
   * goes exactly by its process's end, unless it is retained, or by the end of its retention.
   */
  lemma StreamsComeAndGoExactly(s: State, e: Event, id: StreamId)
    requires Inv(s) && Enabled(s, e)
    ensures id !in s.t.hls && id in Step(s, e).t.hls
            <==> e.CompleteStart? && e.ready && s.t.pending[e.key].streamID == id
                 && !s.t.pending[e.key].stopRequested && !s.t.pending[e.key].cancelled
    ensures id in s.t.hls && id !in Step(s, e).t.hls
            <==> (e.Finish? && e.id == id && (s.t.hls[id].stopRequested || !e.complete)) || e == Expire(id)
  {
    hide Attached, Withdrawn, Covers, BudgetAgrees, OneUsable, EntriesAgree, ClosesAgree, HomesAgree;
    hide SessionsAgree;
    match e
    case CompleteStart(key, ready) => assert s.t.pending[key].streamID !in s.t.hls;
    case _ =>
  }

  /** A retained stream serves its owners until its retention ends or somebody stops it. */
  lemma RetainedIsServed(s: State, e: Event, id: StreamId, v: VaultId, owner: SessionId)
    requires Inv(s) && Enabled(s, e) && AssetAllowed(s.t, v, owner, id) && s.t.hls[id].finished
    requires e != Expire(id) && !e.StopCall?
    ensures AssetAllowed(Step(s, e).t, v, owner, id)
  {
    OwnersOfStream(s, id);
    RetainedStays(s, e, id);
    hide Inv, Step, Enabled;
  }

  lemma OwnersOfStream(s: State, id: StreamId)
    requires Inv(s) && id in s.t.hls && !s.t.hls[id].stopRequested
    ensures s.t.hls[id].owners.ids != {}
  {
    hide IdsAgree, BudgetAgrees, OneUsable, ClosesAgree, HomesAgree, SessionsAgree;
  }

  lemma RetainedStays(s: State, e: Event, id: StreamId)
    requires Inv(s) && Enabled(s, e) && id in s.t.hls && s.t.hls[id].finished && e != Expire(id) && !e.StopCall?
    ensures id in Step(s, e).t.hls && Step(s, e).t.hls[id] == s.t.hls[id]
  {
    hide Attached, BudgetAgrees, OneUsable, EntriesAgree, ClosesAgree, HomesAgree, SessionsAgree, Stopped;
    match e
    case CompleteStart(key, ready) => assert s.t.pending[key].streamID !in s.t.hls;
    case _ =>
  }

  /** A ready start that nobody stopped is published with its owners, and the next start of the path finds just it. */
  lemma ReadyStartIsServed(s: State, key: Key, hit: Option<StreamId>)
    requires Inv(s) && key in s.t.pending && PendingReusable(s.t.pending[key])
    requires Found(Step(s, CompleteStart(key, true)).t.hls, key, hit)
    ensures var p := s.t.pending[key];
            hit == Some(p.streamID) && Step(s, CompleteStart(key, true)).t.hls[p.streamID].owners == p.owners
  {
    hide BudgetAgrees, EntriesAgree, ClosesAgree;
    var s' := Step(s, CompleteStart(key, true));
    var id := s.t.pending[key].streamID;
    assert Usable(s'.t.hls, key, id);
    NoneUsable(s.t.hls, s.t.pending, key);
  }

  // ---- The stop barrier ----

  /** No start is admitted: hlsLifeMu is write-held, or the server is closing. */
  predicate Shut(s: State) {
    s.lifeHeld || s.t.closing
  }

  /** Requests that stop everything they cover, whoever owns it. */
  predicate Unconditional(c: Stop) {
    c.StopBelow? || c.StopVault?
  }

  /** The pending starts the request covers will not be published. */
  ghost predicate Sealed(t: Tables, c: Stop) {
    forall k :: k in t.pending && Covers(c, k, "") ==> t.pending[k].stopRequested
  }

  /** What the request covers in t' it covered in t. */
  ghost predicate NoneNew(t: Tables, t': Tables, c: Stop) {
    && (forall k :: k in t'.pending && Covers(c, k, "") ==> k in t.pending)
    && (forall id :: id in t'.hls && Covers(c, t'.hls[id].key, "") ==> id in t.hls && Covers(c, t.hls[id].key, ""))
  }

  lemma ShutStart(s: State, e: Event)
    requires Inv(s) && Enabled(s, e) && Shut(s) && e.StartCall?
    ensures Step(s, e).t == s.t
  {
    hide Tallies, HomesAgree, Found, Attached;
  }

  lemma SealedStep(s: State, e: Event, c: Stop)
    requires Inv(s) && Enabled(s, e) && Shut(s) && Unconditional(c) && Sealed(s.t, c)
    ensures Sealed(Step(s, e).t, c) && NoneNew(s.t, Step(s, e).t, c)
  {
    hide Inv, Withdrawn, Covers, Start;
    if e.StartCall? {
      ShutStart(s, e);
    }
  }

  lemma {:induction false} SealedRun(ss: seq<State>, es: seq<Event>, c: Stop, i: nat, k: nat)
    requires IsRun(ss, es) && i <= k < |ss| && Unconditional(c) && Sealed(ss[i].t, c)
    requires forall m :: i <= m < k ==> Shut(ss[m])
    ensures Sealed(ss[k].t, c) && NoneNew(ss[i].t, ss[k].t, c)
    decreases k
  {
    hide Inv, Step, Enabled, Covers;
    if i < k {
      SealedRun(ss, es, c, i, k - 1);
      assert StepAt(ss, es, k - 1);
      InvOnRun(ss, es, k - 1);
      SealedStep(ss[k - 1], es[k - 1], c);
    }
  }

  /**
   * The stop request c is made at step i, and by state j each entry it collected was seen finished: the stream's
   * doneCh closed, or the pending start gone.
   */
  ghost predicate StopReturned(ss: seq<State>, es: seq<Event>, c: Stop, i: nat, j: nat)
    requires IsRun(ss, es)
  {
    && i < j < |ss| && es[i] == StopCall(c)
    && (forall id :: id in StreamTargets(ss[i].t, c) ==> exists m :: i < m <= j && id in ss[m].done)
    && (forall k :: k in PendingTargets(ss[i].t, c) ==> exists m :: i < m <= j && k !in ss[m].t.pending)
  }

  /** An unconditional request collects and stops all it covers. */
  lemma CollectsAll(t: Tables, c: Stop)
    requires Unconditional(c)
    ensures Sealed(Stopped(t, c), c) && NoneNew(t, Stopped(t, c), c)
    ensures forall id :: id in t.hls && Covers(c, t.hls[id].key, "") ==> id in StreamTargets(t, c)
    ensures forall k :: k in t.pending && Covers(c, k, "") ==> k in PendingTargets(t, c)
  {
    assert forall k, id :: Covers(c, k, id) == Covers(c, k, "");
    hide Covers;
  }

  /** Nothing the request covers is left, as long as no start is admitted. */
  lemma StopBarrier(ss: seq<State>, es: seq<Event>, c: Stop, i: nat, j: nat, k: nat)
    requires IsRun(ss, es) && Unconditional(c) && StopReturned(ss, es, c, i, j) && j <= k < |ss|
    requires forall m :: i <= m < k ==> Shut(ss[m])
    ensures forall key :: key in ss[k].t.pending ==> !Covers(c, key, "")
    ensures forall id :: id in ss[k].t.hls ==> !Covers(c, ss[k].t.hls[id].key, "")
  {
    hide Inv, Enabled, Covers;
    assert StepAt(ss, es, i);
    CollectsAll(ss[i].t, c);
    SealedRun(ss, es, c, i + 1, k);
    forall key | key in ss[k].t.pending ensures !Covers(c, key, "") {
      if key in PendingTargets(ss[i].t, c) {
        var m :| i < m <= j && key !in ss[m].t.pending;
        SealedRun(ss, es, c, i + 1, m);
        SealedRun(ss, es, c, m, k);
      }
    }
    forall id | id in ss[k].t.hls ensures !Covers(c, ss[k].t.hls[id].key, "") {
      if id in StreamTargets(ss[i].t, c) {
        var m :| i < m <= j && id in ss[m].done;
        DoneIsRemoved(ss, es, m, id);
        SealedRun(ss, es, c, i + 1, m);
        SealedRun(ss, es, c, m, k);
      }
    }
  }

  lemma DoneIsRemoved(ss: seq<State>, es: seq<Event>, m: nat, id: StreamId)
    requires IsRun(ss, es) && m < |ss| && id in ss[m].done
    ensures id !in ss[m].t.hls
  {
    hide BudgetAgrees, OneUsable, EntriesAgree, ClosesAgree;
    InvOnRun(ss, es, m);
  }

  lemma {:induction false} LifeHeldRun(ss: seq<State>, es: seq<Event>, i: nat, k: nat)
    requires IsRun(ss, es) && i <= k < |ss| && ss[i].lifeHeld
    requires forall m :: i <= m < k ==> es[m] != Unlock
    ensures ss[k].lifeHeld
    decreases k
  {
    if i < k {
      LifeHeldRun(ss, es, i, k - 1);
      assert StepAt(ss, es, k - 1);
    }
  }

  /**
   * BeginFileReplacement of the absolute path with the segments root: stopHLSForPath runs while hlsLifeMu is
   * write-held and returns true. Until the lock is released no stream or pending start of the vault is at or
   * below that path.
   */
  lemma ReplacementBarrier(ss: seq<State>, es: seq<Event>, v: VaultId, root: seq<string>, i: nat, j: nat, k: nat,
                           path: seq<string>)
    requires IsRun(ss, es) && StopReturned(ss, es, StopBelow(v, Rendered(root)), i, j) && j <= k < |ss|
    requires ss[i].lifeHeld && forall m :: i <= m < k ==> es[m] != Unlock
    requires forall n :: 0 <= n < |root| ==> IsSegment(root[n])
    requires forall n :: 0 <= n < |path| ==> IsSegment(path[n])
    requires root <= path
    ensures Key(v, Rendered(path)) !in ss[k].t.pending
    ensures forall id :: id in ss[k].t.hls ==> ss[k].t.hls[id].key != Key(v, Rendered(path))
  {
    forall m | i <= m < k ensures Shut(ss[m]) {
      LifeHeldRun(ss, es, i, m);
    }
    StopBarrier(ss, es, StopBelow(v, Rendered(root)), i, j, k);
    HlsPathWithinIsPrefix(root, path);
  }

  lemma {:induction false} ClosingRun(ss: seq<State>, es: seq<Event>, i: nat, k: nat)
    requires IsRun(ss, es) && i <= k < |ss| && ss[i].t.closing
    ensures ss[k].t.closing
    decreases k
  {
    if i < k {
      ClosingRun(ss, es, i, k - 1);
      assert StepAt(ss, es, k - 1);
    }
  }

  /** Shutdown: once its wait for everything has returned, there is no stream and no start, ever. */
  lemma ShutdownBarrier(ss: seq<State>, es: seq<Event>, i: nat, j: nat, k: nat)
    requires IsRun(ss, es) && StopReturned(ss, es, StopVault(""), i, j) && j <= k < |ss| && ss[i].t.closing
    ensures ss[k].t.pending == map[] && ss[k].t.hls == map[]
  {
    forall m | i <= m < k ensures Shut(ss[m]) {
      ClosingRun(ss, es, i, m);
    }
    StopBarrier(ss, es, StopVault(""), i, j, k);
  }

  // ---- The logout barrier ----

  /** The session owns no entry. */
  ghost predicate OwnsNothing(t: Tables, who: SessionId) {
    && (forall id :: id in t.hls ==> who !in t.hls[id].owners.ids)
    && (forall k :: k in t.pending ==> who !in t.pending[k].owners.ids)
  }

  /** The session was deleted, and no start of it is under way. */
  predicate LoggedOut(s: State, who: SessionId) {
    who in s.homes && who !in s.live && who !in s.readers
  }

  lemma LoggedOutStays(s: State, e: Event, who: SessionId)
    requires Enabled(s, e) && LoggedOut(s, who)
    ensures LoggedOut(Step(s, e), who) && (e.StartCall? ==> e.owner != who)
  {
    hide Found, Start, Stopped, Complete, Finished;
  }

  /** Only a start of the session itself makes it an owner. */
  lemma OwnsNothingStep(s: State, e: Event, who: SessionId)
    requires Enabled(s, e) && OwnsNothing(s.t, who) && (e.StartCall? ==> e.owner != who)
    ensures OwnsNothing(Step(s, e).t, who)
  {
    if e.StartCall? {
      OthersStart(s, e, who);
    } else if e.StopCall? {
      StopOwnsNothing(s.t, e.c, who);
    } else {
      OthersOwnNothing(s, e, who);
    }
  }

  lemma OthersStart(s: State, e: Event, who: SessionId)
    requires Enabled(s, e) && OwnsNothing(s.t, who) && e.StartCall? && e.owner != who
    ensures OwnsNothing(Step(s, e).t, who)
  {
    hide Attached;
    AttachAdds(NOBODY, e.owner);
    if e.hit.Some? {
      AttachAdds(s.t.hls[e.hit.value].owners, e.owner);
    }
    if e.key in s.t.pending {
      AttachAdds(s.t.pending[e.key].owners, e.owner);
    }
  }

  lemma StopOwnsNothing(t: Tables, c: Stop, who: SessionId)
    requires OwnsNothing(t, who)
    ensures OwnsNothing(Stopped(t, c), who)
  {
    hide Withdrawn, Covers;
    forall id | id in t.hls ensures who !in Stopped(t, c).hls[id].owners.ids {
      WithdrawShrinks(c, t.hls[id].owners);
    }
    forall k | k in t.pending ensures who !in Stopped(t, c).pending[k].owners.ids {
      WithdrawShrinks(c, t.pending[k].owners);
    }
  }

  lemma OthersOwnNothing(s: State, e: Event, who: SessionId)
    requires Enabled(s, e) && OwnsNothing(s.t, who) && !e.StartCall? && !e.StopCall?
    ensures OwnsNothing(Step(s, e).t, who)
  {
    if !e.CompleteStart? {
      OthersOnlyFewer(s, e);
      hide Step, Enabled;
    }
  }

  /** Stopping for the session in its own vault leaves it owner of nothing anywhere. */
  lemma SessionStopped(s: State, v: VaultId, who: SessionId)
    requires Inv(s) && who in s.homes && s.homes[who] == v
    ensures OwnsNothing(Stopped(s.t, StopSession(v, who)), who)
  {
    hide Tallies, SessionsAgree;
    var t' := Stopped(s.t, StopSession(v, who));
    forall id | id in s.t.hls ensures who !in t'.hls[id].owners.ids {
      WithdrawShrinks(StopSession(v, who), s.t.hls[id].owners);
    }
    forall k | k in s.t.pending ensures who !in t'.pending[k].owners.ids {
      WithdrawShrinks(StopSession(v, who), s.t.pending[k].owners);
    }
  }

  lemma LockedOut(s: State, e: Event)
    requires Inv(s) && Enabled(s, e) && s.lifeHeld
    ensures !e.StartCall? && s.readers == multiset{}
  {
    hide Tallies, HomesAgree;
  }

  /** While the write lock is held nobody starts anything. */
  lemma {:induction false} OwnsNothingLocked(ss: seq<State>, es: seq<Event>, who: SessionId, i: nat, k: nat)
    requires IsRun(ss, es) && i <= k < |ss| && OwnsNothing(ss[i].t, who) && ss[i].lifeHeld
    requires forall m :: i <= m < k ==> es[m] != Unlock
    ensures OwnsNothing(ss[k].t, who)
    decreases k
  {
    hide Inv, Step, Enabled, OwnsNothing;
    if i < k {
      OwnsNothingLocked(ss, es, who, i, k - 1);
      LifeHeldRun(ss, es, i, k - 1);
      assert StepAt(ss, es, k - 1);
      InvOnRun(ss, es, k - 1);
      LockedOut(ss[k - 1], es[k - 1]);
      OwnsNothingStep(ss[k - 1], es[k - 1], who);
    }
  }

  lemma {:induction false} OwnsNothingEver(ss: seq<State>, es: seq<Event>, who: SessionId, i: nat, k: nat)
    requires IsRun(ss, es) && i <= k < |ss| && OwnsNothing(ss[i].t, who) && LoggedOut(ss[i], who)
    ensures OwnsNothing(ss[k].t, who) && LoggedOut(ss[k], who)
    decreases k
  {
    hide Step, Enabled, OwnsNothing, LoggedOut;
    if i < k {
      OwnsNothingEver(ss, es, who, i, k - 1);
      assert StepAt(ss, es, k - 1);
      LoggedOutStays(ss[k - 1], es[k - 1], who);
      OwnsNothingStep(ss[k - 1], es[k - 1], who);
    }
  }

  /** A session that exists goes on having existed, in the same vault. */
  lemma {:induction false} HomesStay(ss: seq<State>, es: seq<Event>, who: SessionId, i: nat, k: nat)
    requires IsRun(ss, es) && i <= k < |ss| && who in ss[i].homes
    ensures who in ss[k].homes
    decreases k
  {
    hide Found;
    if i < k {
      HomesStay(ss, es, who, i, k - 1);
      assert StepAt(ss, es, k - 1);
    }
  }

  lemma Deletion(s: State, who: SessionId)
    requires Inv(s) && s.lifeHeld && who in s.homes
    ensures LoggedOut(Step(s, DeleteSession(who)), who) && Step(s, DeleteSession(who)).t == s.t
  {
    hide Tallies, HomesAgree;
  }

  /**
   * Logout: while hlsLifeMu is write-held, everything of the session is stopped and the session is deleted.
   * From then on the session owns no stream and no pending start, and holds no reference, in any later state.
   */
  lemma LogoutBarrier(ss: seq<State>, es: seq<Event>, v: VaultId, who: SessionId, i: nat, d: nat, k: nat)
    requires IsRun(ss, es) && i < d < k < |ss| && ss[i].lifeHeld && who in ss[i].homes && ss[i].homes[who] == v
    requires es[i] == StopCall(StopSession(v, who)) && es[d] == DeleteSession(who)
    requires forall m :: i <= m < d ==> es[m] != Unlock
    ensures OwnsNothing(ss[k].t, who)
    ensures forall id :: HasEntry(ss[k].t, id) ==> Refs(EntryOf(ss[k].t, id).owners, who) == 0
  {
    hide Inv, Enabled, Step, OwnsNothing, LoggedOut, HasEntry;
    StopStep(ss, es, v, who, i);
    InvOnRun(ss, es, i);
    SessionStopped(ss[i], v, who);
    LifeHeldRun(ss, es, i, i + 1);
    OwnsNothingLocked(ss, es, who, i + 1, d);
    LifeHeldRun(ss, es, i, d);
    HomesStay(ss, es, who, i, d);
    InvOnRun(ss, es, d);
    assert StepAt(ss, es, d);
    Deletion(ss[d], who);
    OwnsNothingEver(ss, es, who, d + 1, k);
    InvOnRun(ss, es, k);
    forall id | HasEntry(ss[k].t, id) ensures Refs(EntryOf(ss[k].t, id).owners, who) == 0 {
      NoReference(ss[k], id, who);
    }
  }

  lemma StopStep(ss: seq<State>, es: seq<Event>, v: VaultId, who: SessionId, i: nat)
    requires IsRun(ss, es) && i < |es| && es[i] == StopCall(StopSession(v, who))
    ensures ss[i + 1].t == Stopped(ss[i].t, StopSession(v, who))
  {
    hide Enabled, Stopped;
    assert StepAt(ss, es, i);
  }

  lemma NoReference(s: State, id: StreamId, who: SessionId)
    requires Inv(s) && HasEntry(s.t, id) && OwnsNothing(s.t, who)
    ensures Refs(EntryOf(s.t, id).owners, who) == 0
  {
    hide IdsAgree, BudgetAgrees, OneUsable, ClosesAgree, HomesAgree, SessionsAgree;
    EntryOwners(s.t, id, EntryOf(s.t, id));
  }

  // ---- Paths ----

  lemma {:induction false} SlashedAppend(a: seq<string>, b: seq<string>)
    ensures Slashed(a + b) == Slashed(a) + Slashed(b)
  {
    if a == [] {
      assert a + b == b;
    } else {
      SlashedAppend(a[1..], b);
      assert (a + b)[1..] == a[1..] + b;
    }
  }

  /** A rendered path does not end in the separator. */
  lemma {:induction false} NoTrailingSlash(a: seq<string>)
    requires a != [] && forall i :: 0 <= i < |a| ==> IsSegment(a[i])
    ensures Slashed(a) != "" && Slashed(a)[|Slashed(a)| - 1] != '/'
  {
    if |a| > 1 {
      NoTrailingSlash(a[1..]);
    } else {
      assert Slashed(a) == "/" + a[0];
    }
  }

  /** On rendered paths the string test means: same path, or a segment-wise prefix. */
  lemma {:induction false} SlashedPrefix(r: seq<string>, c: seq<string>)
    requires forall i :: 0 <= i < |r| ==> IsSegment(r[i])
    requires forall i :: 0 <= i < |c| ==> IsSegment(c[i])
    requires Slashed(r) == Slashed(c) || Slashed(r) + "/" <= Slashed(c)
    ensures r <= c
  {
    if r != [] {
      var x, y := Slashed(r), Slashed(c);
      assert c != [];
      var n, m := |r[0]|, |c[0]|;
      var x', y' := Slashed(r[1..]), Slashed(c[1..]);
      assert x == "/" + r[0] + x' && y == "/" + c[0] + y';
      SameHead(r[0], c[0], x', y');
      SlashedPrefix(r[1..], c[1..]);
    }
  }

  /** Slashed remainders separate equal first segments. */
  lemma SameHead(a: string, b: string, x: string, y: string)
    requires IsSegment(a) && IsSegment(b)
    requires (x == "" || x[0] == '/') && (y == "" || y[0] == '/')
    requires "/" + a + x == "/" + b + y || "/" + a + x + "/" <= "/" + b + y
    ensures a == b && (x == y || x + "/" <= y)
  {
    var l, r := "/" + a + x, "/" + b + y;
    var n, m := |a|, |b|;
    assert forall i :: 0 <= i < n ==> l[i + 1] == a[i];
    assert forall i :: 0 <= i < m ==> r[i + 1] == b[i];
    assert l[n + 1..] == x && r[m + 1..] == y;
    if l == r {
      assert n == m;
    } else {
      assert (l + "/")[n + 1] == '/';
      assert forall i :: 0 <= i <= |l| ==> (l + "/")[i] == r[i];
      assert n == m;
      assert (l + "/")[n + 1..] == x + "/";
      assert (l + "/")[n + 1..] <= r[n + 1..];
    }
    assert a == l[1..n + 1] && b == r[1..n + 1];
  }

  /** For absolute normalized paths, "at or below" is the prefix order on segments. */
  lemma HlsPathWithinIsPrefix(r: seq<string>, c: seq<string>)
    requires forall i :: 0 <= i < |r| ==> IsSegment(r[i])
    requires forall i :: 0 <= i < |c| ==> IsSegment(c[i])
    ensures HlsPathWithin(Rendered(r), Rendered(c)) <==> r <= c
  {
    if r != [] {
      NoTrailingSlash(r);
      RootOnly(r);
      if r <= c {
        var d := c[|r|..];
        assert c == r + d;
        SlashedAppend(r, d);
        assert d == [] ==> c == r;
        assert d != [] ==> Slashed(r) + "/" <= Slashed(c);
      } else if HlsPathWithin(Rendered(r), Rendered(c)) {
        SlashedPrefix(r, c);
      }
    }
  }

  /** Only the root renders to a bare separator. */
  lemma RootOnly(r: seq<string>)
    requires r != [] && IsSegment(r[0])
    ensures |Slashed(r)| >= 2
  {
  }
}
