/** Admission and ownership of video streams, and the mutex sections that change them (internal/api/files_hls.go). */
module HlsStreams {
  import opened Wrappers

  type VaultId = string
  type StreamId = string
  type SessionId = string

  /** path is a normalized virtual path. */
  datatype Key = Key(vault: VaultId, path: string)

  /** The sessions attached to an entry, and how many requests of each. */
  datatype Owners = Owners(ids: set<SessionId>, refs: map<SessionId, int>)

  datatype Pending = Pending(streamID: StreamId, owners: Owners, stopRequested: bool, cancelled: bool)

  /** stopCloses counts the closings of stopCh. */
  datatype Stream = Stream(key: Key, owners: Owners, stopRequested: bool, finished: bool, stopCloses: nat)

  const MAX_STREAMS := 3
  const NOBODY := Owners({}, map[])

  /** The fields of Server that hlsMu guards. */
  datatype Tables = Tables(
    hls: map<StreamId, Stream>,
    pending: map<Key, Pending>,
    active: int,
    starts: int,
    closing: bool)

  const EMPTY_TABLES := Tables(map[], map[], 0, 0, false)

  // ---- Paths ----

  predicate HlsPathWithin(root: string, candidate: string) {
    root == "/" || candidate == root || TrimSlash(root) + "/" <= candidate
  }

  /** strings.TrimSuffix(root, "/") */
  function TrimSlash(root: string): string {
    if root != "" && root[|root| - 1] == '/' then root[..|root| - 1] else root
  }

  /** A path segment: not empty, no separator. */
  predicate IsSegment(s: string) {
    s != "" && forall i :: 0 <= i < |s| ==> s[i] != '/'
  }

  function Slashed(segments: seq<string>): string {
    if segments == [] then "" else "/" + segments[0] + Slashed(segments[1..])
  }

  /** An absolute normalized path. */
  function Rendered(segments: seq<string>): string {
    if segments == [] then "/" else Slashed(segments)
  }

  // ---- Owner references ----

  function Attached(o: Owners, id: SessionId): (r: Owners) {
    if id == "" then o
    else Owners(o.ids + {id}, o.refs[id := (if id in o.refs then o.refs[id] else 0) + 1])
  }

  /** The second result tells the caller to stop the entry. */
  function Released(o: Owners, id: SessionId): (r: (Owners, bool)) {
    if id == "" || o.ids == {} then (o, true)
    else if id in o.refs then
      if o.refs[id] > 1 then (o.(refs := o.refs[id := o.refs[id] - 1]), false)
      else (Owners(o.ids - {id}, o.refs - {id}), o.ids - {id} == {})
    else if id !in o.ids then (o, false)
    else (o.(ids := o.ids - {id}), o.ids - {id} == {})
  }

  /** A session that ends gives up all its references. */
  function Dropped(o: Owners, id: SessionId): (r: (Owners, bool)) {
    if o.ids == {} then (o, true)
    else if id !in o.ids then (o, false)
    else (Owners(o.ids - {id}, o.refs - {id}), o.ids - {id} == {})
  }

  // ---- Stop requests ----

  /** Which entries a stop request concerns and on whose behalf it is made. */
  datatype Stop =
    | StopStream(vault: VaultId, owner: SessionId, streamID: StreamId)
    | StopPath(vault: VaultId, owner: SessionId, path: string)
    | StopBelow(vault: VaultId, path: string)
    | StopVault(vault: VaultId)
    | StopSession(vault: VaultId, owner: SessionId)

  predicate Covers(c: Stop, key: Key, id: StreamId) {
    match c
    case StopStream(v, _, x) => key.vault == v && id == x
    case StopPath(v, _, p) => key == Key(v, p)
    case StopBelow(v, p) => key.vault == v && HlsPathWithin(p, key.path)
    case StopVault(v) => v == "" || key.vault == v
    case StopSession(v, _) => key.vault == v
  }

  /** What a stop request that covers an entry does to its owners, and whether it stops the entry. */
  function Withdrawn(c: Stop, o: Owners): (r: (Owners, bool)) {
    match c
    case StopStream(_, owner, _) => Released(o, owner)
    case StopPath(_, owner, _) => Released(o, owner)
    case StopBelow(_, _) => (o, true)
    case StopVault(_) => (o, true)
    case StopSession(_, owner) => Dropped(o, owner)
  }

  predicate Fires(c: Stop, key: Key, id: StreamId, o: Owners) {
    Covers(c, key, id) && Withdrawn(c, o).1
  }

  /** Sets stopRequested, closing stopCh if it was not set. */
  function MarkStream(s: Stream): (r: Stream) {
    if s.stopRequested then s else s.(stopRequested := true, stopCloses := s.stopCloses + 1)
  }

  function StoppedStream(c: Stop, id: StreamId, s: Stream): (r: Stream) {
    if !Covers(c, s.key, id) then s
    else
      var (o, fires) := Withdrawn(c, s.owners);
      if fires then MarkStream(s.(owners := o)) else s.(owners := o)
  }

  function StoppedPending(c: Stop, key: Key, p: Pending): (r: Pending) {
    if !Covers(c, key, p.streamID) then p
    else
      var (o, fires) := Withdrawn(c, p.owners);
      p.(owners := o, stopRequested := p.stopRequested || fires)
  }

  function Stopped(t: Tables, c: Stop): (t': Tables) {
    t.(hls := map id | id in t.hls :: StoppedStream(c, id, t.hls[id]),
       pending := map key | key in t.pending :: StoppedPending(c, key, t.pending[key]))
  }

  /** The entries the caller then cancels and waits for. */
  function StreamTargets(t: Tables, c: Stop): (r: set<StreamId>) {
    set id | id in t.hls && Fires(c, t.hls[id].key, id, t.hls[id].owners)
  }

  function PendingTargets(t: Tables, c: Stop): (r: set<Key>) {
    set key | key in t.pending && Fires(c, key, t.pending[key].streamID, t.pending[key].owners)
  }

  // ---- Starts ----

  predicate Usable(hls: map<StreamId, Stream>, key: Key, id: StreamId) {
    id in hls && hls[id].key == key && !hls[id].stopRequested && !hls[id].finished
  }

  /** What the loop over the streams may have found. */
  ghost predicate Found(hls: map<StreamId, Stream>, key: Key, hit: Option<StreamId>) {
    match hit
    case Some(id) => Usable(hls, key, id)
    case None => forall id :: id in hls ==> !Usable(hls, key, id)
  }

  datatype Answer =
    | Closing
    | Joined(id: StreamId)
    | JoinedPending(id: StreamId)
    | Retry
    | AtCapacity
    | Started(id: StreamId)

  predicate PendingReusable(p: Pending) {
    !p.stopRequested && !p.cancelled
  }

  function Start(t: Tables, key: Key, owner: SessionId, newID: StreamId, hit: Option<StreamId>): (r: (Tables, Answer))
    requires hit.Some? ==> hit.value in t.hls
  {
    if t.closing then (t, Closing)
    else if hit.Some? then
      var s := t.hls[hit.value];
      (t.(hls := t.hls[hit.value := s.(owners := Attached(s.owners, owner))]), Joined(hit.value))
    else if key in t.pending then
      var p := t.pending[key];
      if !PendingReusable(p) then (t, Retry)
      else (t.(pending := t.pending[key := p.(owners := Attached(p.owners, owner))]), JoinedPending(p.streamID))
    else if t.active + t.starts >= MAX_STREAMS then (t, AtCapacity)
    else
      var p := Pending(newID, Attached(NOBODY, owner), false, false);
      (t.(pending := t.pending[key := p], starts := t.starts + 1), Started(newID))
  }

  /** The stream is published exactly when it became ready and nobody stopped or cancelled the start. */
  function Complete(t: Tables, key: Key, newID: StreamId, ready: bool): (r: (Tables, bool)) {
    if key !in t.pending || t.pending[key].streamID != newID then (t, false)
    else
      var p := t.pending[key];
      var t1 := t.(pending := t.pending - {key}, starts := if t.starts > 0 then t.starts - 1 else t.starts);
      if ready && !p.stopRequested && !p.cancelled
      then (t1.(hls := t.hls[newID := Stream(key, p.owners, false, false, 0)], active := t.active + 1), true)
      else (t1, false)
  }

  /** The deadline of a pending start passes, or its context is cancelled. */
  function TimedOut(t: Tables, key: Key): (t': Tables) {
    if key in t.pending then t.(pending := t.pending[key := t.pending[key].(cancelled := true)]) else t
  }

  function IdleStopped(t: Tables, id: StreamId): (t': Tables) {
    if id in t.hls && !t.hls[id].stopRequested then t.(hls := t.hls[id := MarkStream(t.hls[id])]) else t
  }

  /** complete: the process ended without error and its playlist is whole. */
  function Finished(t: Tables, id: StreamId, complete: bool): (t': Tables)
    requires id in t.hls
  {
    var s := t.hls[id];
    var t1 := if s.finished then t
              else t.(hls := t.hls[id := s.(finished := true)],
                      active := if t.active > 0 then t.active - 1 else t.active);
    if s.stopRequested || !complete then t1.(hls := t1.hls - {id}) else t1
  }

  function Expired(t: Tables, id: StreamId): (t': Tables) {
    t.(hls := t.hls - {id})
  }

  /** handleHLSAsset's check. */
  predicate AssetAllowed(t: Tables, v: VaultId, owner: SessionId, id: StreamId) {
    && id in t.hls && t.hls[id].key.vault == v && !t.hls[id].stopRequested
    && (t.hls[id].owners.ids == {} || owner in t.hls[id].owners.ids)
  }

  // ---- The server ----

  class Server {
    var hls: map<StreamId, Stream>
    var hlsPending: map<Key, Pending>
    var hlsActive: int
    var hlsStarts: int
    var hlsClosing: bool

    ghost function View(): Tables
      reads this
    {
      Tables(hls, hlsPending, hlsActive, hlsStarts, hlsClosing)
    }

    constructor ()
      ensures View() == EMPTY_TABLES
    {
      hls, hlsPending, hlsActive, hlsStarts, hlsClosing := map[], map[], 0, 0, false;
    }

    /** The locked section of handleHLSStart. */
    method HandleHLSStart(key: Key, ownerID: SessionId, streamID: StreamId)
      returns (answer: Answer, hit: Option<StreamId>)
      modifies this
      ensures Found(old(hls), key, hit) || old(hlsClosing)
      ensures hit.Some? ==> hit.value in old(hls)
      ensures (View(), answer) == Start(old(View()), key, ownerID, streamID, hit)
    {
      hit := None;
      if hlsClosing {
        return Closing, None;
      }
      var rest := hls.Keys;
      while rest != {}
        invariant rest <= hls.Keys
        invariant forall id :: id in hls.Keys - rest ==> !Usable(hls, key, id)
        invariant View() == old(View())
        decreases |rest|
      {
        var id :| id in rest;
        if hls[id].key == key && !hls[id].stopRequested && !hls[id].finished {
          hls := hls[id := hls[id].(owners := Attached(hls[id].owners, ownerID))];
          return Joined(id), Some(id);
        }
        rest := rest - {id};
      }
      if key in hlsPending {
        var pending := hlsPending[key];
        if pending.stopRequested || pending.cancelled {
          return Retry, None;
        }
        hlsPending := hlsPending[key := pending.(owners := Attached(pending.owners, ownerID))];
        return JoinedPending(pending.streamID), None;
      }
      if hlsActive + hlsStarts >= MAX_STREAMS {
        return AtCapacity, None;
      }
      hlsPending := hlsPending[key := Pending(streamID, Attached(NOBODY, ownerID), false, false)];
      hlsStarts := hlsStarts + 1;
      return Started(streamID), None;
    }

    method CompleteHLSStart(key: Key, streamID: StreamId, ready: bool) returns (accepted: bool)
      modifies this
      ensures (View(), accepted) == Complete(old(View()), key, streamID, ready)
    {
      accepted := false;
      if key in hlsPending && hlsPending[key].streamID == streamID {
        var pending := hlsPending[key];
        hlsPending := hlsPending - {key};
        if hlsStarts > 0 {
          hlsStarts := hlsStarts - 1;
        }
        var cancelled := pending.stopRequested || pending.cancelled;
        if ready && !cancelled {
          hls := hls[streamID := Stream(key, pending.owners, false, false, 0)];
          hlsActive := hlsActive + 1;
          accepted := true;
        }
      }
    }

    /** Visits every entry, withdrawing the request's owner and marking what it stops. */
    method CollectHLSStopTargets(c: Stop) returns (streams: set<StreamId>, pending: set<Key>)
      modifies this
      ensures View() == Stopped(old(View()), c)
      ensures streams == StreamTargets(old(View()), c) && pending == PendingTargets(old(View()), c)
    {
      hide Withdrawn, Covers, StoppedPending, StoppedStream, Fires;
      hlsPending, pending := VisitPendings(c, hlsPending);
      hls, streams := VisitStreams(c, hls);
    }

    method VisitPending(c: Stop, key: Key, p: Pending) returns (visited: Pending, fired: bool)
      ensures visited == StoppedPending(c, key, p) && fired == Fires(c, key, p.streamID, p.owners)
    {
      visited, fired := p, false;
      if Covers(c, key, p.streamID) {
        var (owners, fires) := Withdrawn(c, p.owners);
        visited, fired := p.(owners := owners), fires;
        if fires {
          visited := visited.(stopRequested := true);
        }
      }
    }

    /** The loop over the pending starts. */
    method VisitPendings(c: Stop, all: map<Key, Pending>) returns (marked: map<Key, Pending>, targets: set<Key>)
      ensures marked.Keys == all.Keys && forall k :: k in all ==> marked[k] == StoppedPending(c, k, all[k])
      ensures forall k :: k in targets <==> k in all && Fires(c, k, all[k].streamID, all[k].owners)
    {
      hide Withdrawn, Covers, StoppedPending, Fires;
      marked, targets := all, {};
      var rest := all.Keys;
      while rest != {}
        invariant rest <= all.Keys == marked.Keys
        invariant forall k :: k in rest ==> marked[k] == all[k]
        invariant forall k :: k in all && k !in rest ==> marked[k] == StoppedPending(c, k, all[k])
        invariant forall k :: k in targets <==> k in all && k !in rest && Fires(c, k, all[k].streamID, all[k].owners)
        decreases |rest|
      {
        var k :| k in rest;
        var p, fired := VisitPending(c, k, marked[k]);
        marked := marked[k := p];
        if fired {
          targets := targets + {k};
        }
        rest := rest - {k};
      }
    }

    method VisitStream(c: Stop, id: StreamId, s: Stream) returns (visited: Stream, fired: bool)
      ensures visited == StoppedStream(c, id, s) && fired == Fires(c, s.key, id, s.owners)
    {
      visited, fired := s, false;
      if Covers(c, s.key, id) {
        var (owners, fires) := Withdrawn(c, s.owners);
        visited, fired := s.(owners := owners), fires;
        if fires && !visited.stopRequested {
          visited := visited.(stopRequested := true, stopCloses := visited.stopCloses + 1);
        }
      }
    }

    /** The loop over the streams. */
    method VisitStreams(c: Stop, all: map<StreamId, Stream>)
      returns (marked: map<StreamId, Stream>, targets: set<StreamId>)
      ensures marked.Keys == all.Keys && forall id :: id in all ==> marked[id] == StoppedStream(c, id, all[id])
      ensures forall id :: id in targets <==> id in all && Fires(c, all[id].key, id, all[id].owners)
    {
      hide Withdrawn, Covers, StoppedStream, Fires;
      marked, targets := all, {};
      var rest := all.Keys;
      while rest != {}
        invariant rest <= all.Keys == marked.Keys
        invariant forall id :: id in rest ==> marked[id] == all[id]
        invariant forall id :: id in all && id !in rest ==> marked[id] == StoppedStream(c, id, all[id])
        invariant forall id :: id in targets <==> id in all && id !in rest && Fires(c, all[id].key, id, all[id].owners)
        decreases |rest|
      {
        var id :| id in rest;
        var s, fired := VisitStream(c, id, marked[id]);
        marked := marked[id := s];
        if fired {
          targets := targets + {id};
        }
        rest := rest - {id};
      }
    }

    /** One tick of the idle check of cleanupHLSStream; idle: no asset was asked for lately. */
    method StopIdle(streamID: StreamId, idle: bool) returns (shouldStop: bool)
      modifies this
      ensures View() == if idle then IdleStopped(old(View()), streamID) else old(View())
      ensures shouldStop == (idle && streamID in old(hls) && !old(hls)[streamID].stopRequested)
    {
      shouldStop := false;
      if streamID in hls && !hls[streamID].stopRequested && idle {
        hls := hls[streamID := MarkStream(hls[streamID])];
        shouldStop := true;
      }
    }

    /** The section of cleanupHLSStream after the process has ended. */
    method FinishStream(streamID: StreamId, playlistComplete: bool) returns (removed: bool)
      requires streamID in hls
      modifies this
      ensures View() == Finished(old(View()), streamID, playlistComplete)
      ensures removed == (streamID !in hls)
    {
      var stoppedByRequest := hls[streamID].stopRequested;
      if !hls[streamID].finished {
        hls := hls[streamID := hls[streamID].(finished := true)];
        if hlsActive > 0 {
          hlsActive := hlsActive - 1;
        }
      }
      removed := stoppedByRequest || !playlistComplete;
      if removed {
        hls := hls - {streamID};
      }
    }

    /** The end of a finished stream's retention. */
    method ExpireStream(streamID: StreamId)
      modifies this
      ensures View() == Expired(old(View()), streamID)
    {
      hls := hls - {streamID};
    }
  }
}
