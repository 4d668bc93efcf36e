/** The client half of the watch protocol: what one watch record does with the frames it receives,
    and what a stream of frames still in flight is worth to it. */
module Watch {
  import opened History
  import opened Server
  import opened Options

  /** One watch record, together with the consumer's fold of the events sent to it so far. */
  datatype Watch = Watch(
    prefix: string,
    live: set<Key>,
    sync: set<Key>,
    syncing: bool,
    lastRev: nat,
    folded: Store)

  function Opened(prefix: string): Watch { Watch(prefix, {}, {}, true, 0, map[]) }

  /** What reconnecting does to a record before it asks the server to resume. */
  function Resync(w: Watch): Watch { w.(syncing := true, sync := {}) }

  function ResumeFrom(w: Watch): Option<nat> { if w.lastRev > 0 then Some(w.lastRev) else None }

  function Route(w: Watch, f: Frame): Watch {
    match f
    case Put(_, k, e) =>
      w.(live := w.live + {k}, sync := if w.syncing then w.sync + {k} else w.sync,
         lastRev := Max(w.lastRev, e.rev), folded := w.folded[k := e])
    case Delete(_, k, e) =>
      w.(live := w.live - {k}, lastRev := Max(w.lastRev, e.rev), folded := w.folded - {k})
    case Sync(_, snapshot, rev) =>
      if !w.syncing then w
      else
        var w' := w.(sync := {}, syncing := false, lastRev := Max(w.lastRev, rev));
        if snapshot then w'.(live := w.sync, folded := w.folded - (w.live - w.sync)) else w'
  }

  function RouteAll(w: Watch, fs: seq<Frame>): Watch
    decreases fs
  {
    if fs == [] then w else RouteAll(Route(w, fs[0]), fs[1..])
  }

  // ---------- invariants of a record and of the frames on their way to it

  /** The fold is the store as it was at `lastRev`, and `live` is its key set. */
  ghost predicate Safe(w: Watch, h: seq<Event>) {
    w.lastRev <= |h| && w.folded == View(h, w.lastRev, w.prefix) && w.live == w.folded.Keys
  }

  predicate NextSyncIsSnapshot(fs: seq<Frame>) {
    fs != [] && if fs[0].Sync? then fs[0].snapshot else NextSyncIsSnapshot(fs[1..])
  }

  /** Part of a snapshot has been applied and its marker has not arrived. */
  predicate Torn(w: Watch, fs: seq<Frame>) {
    w.syncing && w.sync != {} && NextSyncIsSnapshot(fs)
  }

  /** Delivering `fs` one by one brings the record to the current store, and outside a torn
      snapshot every record on the way is the store at its own `lastRev`. */
  ghost predicate Streams(w: Watch, fs: seq<Frame>, h: seq<Event>)
    decreases fs
  {
    && (!Torn(w, fs) ==> Safe(w, h))
    && w.live == w.folded.Keys
    && if fs == [] then !w.syncing && Covers(h, w.prefix, w.lastRev) else Streams(Route(w, fs[0]), fs[1..], h)
  }

  /** Not registered on this connection yet: nothing in flight, ready for either kind of resync. */
  ghost predicate Waiting(w: Watch, fs: seq<Frame>, h: seq<Event>) {
    fs == [] && w.syncing && w.sync == {} && Safe(w, h)
  }

  // ---------- streams

  lemma {:induction false} RouteAllAppend(w: Watch, fs: seq<Frame>, gs: seq<Frame>)
    ensures RouteAll(w, fs + gs) == RouteAll(RouteAll(w, fs), gs)
    decreases fs
  {
    if fs == [] {
      assert fs + gs == gs;
    } else {
      assert (fs + gs)[1..] == fs[1..] + gs;
      RouteAllAppend(Route(w, fs[0]), fs[1..], gs);
    }
  }

  lemma {:induction false} RouteAllPrefix(w: Watch, fs: seq<Frame>)
    ensures RouteAll(w, fs).prefix == w.prefix
    decreases fs
  {
    if fs != [] { RouteAllPrefix(Route(w, fs[0]), fs[1..]); }
  }

  /** A stream brings its record to the current view of the store. */
  lemma {:induction false} StreamsSettle(w: Watch, fs: seq<Frame>, h: seq<Event>)
    requires Streams(w, fs, h)
    ensures Streams(RouteAll(w, fs), [], h)
    ensures RouteAll(w, fs).folded == View(h, |h|, w.prefix)
    decreases fs
  {
    if fs == [] {
      ViewSkips(h, w.lastRev, |h|, w.prefix);
    } else {
      StreamsSettle(Route(w, fs[0]), fs[1..], h);
    }
  }

  predicate HasSync(fs: seq<Frame>) { exists i :: 0 <= i < |fs| && fs[i].Sync? }

  lemma {:induction false} SyncingHasSync(w: Watch, fs: seq<Frame>, h: seq<Event>)
    requires Streams(w, fs, h) && w.syncing
    ensures HasSync(fs)
    decreases fs
  {
    if !fs[0].Sync? {
      SyncingHasSync(Route(w, fs[0]), fs[1..], h);
      var i :| 0 <= i < |fs[1..]| && fs[1..][i].Sync?;
      assert fs[i + 1].Sync?;
    }
  }

  lemma {:induction false} NextSyncAppend(fs: seq<Frame>, gs: seq<Frame>)
    requires HasSync(fs)
    ensures NextSyncIsSnapshot(fs + gs) == NextSyncIsSnapshot(fs)
  {
    assert (fs + gs)[1..] == fs[1..] + gs;
    if !fs[0].Sync? {
      var i :| 0 <= i < |fs| && fs[i].Sync?;
      assert fs[1..][i - 1].Sync?;
      NextSyncAppend(fs[1..], gs);
    }
  }

  lemma TornAppend(w: Watch, fs: seq<Frame>, gs: seq<Frame>, h: seq<Event>)
    requires Streams(w, fs, h)
    ensures Torn(w, fs + gs) == Torn(w, fs)
  {
    if w.syncing {
      SyncingHasSync(w, fs, h);
      NextSyncAppend(fs, gs);
    }
  }

  /** Frames may be appended to a stream, and the history may grow by `t`, if the settled record
      makes a stream of the new frames. */
  lemma {:induction false} StreamsAppend(w: Watch, fs: seq<Frame>, gs: seq<Frame>, h: seq<Event>, t: seq<Event>)
    requires Streams(w, fs, h) && Streams(RouteAll(w, fs), gs, h + t)
    ensures Streams(w, fs + gs, h + t)
    decreases fs
  {
    if fs == [] {
      assert fs + gs == gs;
    } else {
      assert (fs + gs)[0] == fs[0] && (fs + gs)[1..] == fs[1..] + gs;
      StreamsAppend(Route(w, fs[0]), fs[1..], gs, h, t);
      TornAppend(w, fs, gs, h);
      if !Torn(w, fs) { StoreAtPrefix(h, t, w.lastRev); }
    }
  }

  /** A registered record keeps streaming across one mutation of the store. */
  lemma StreamsMutation(w: Watch, fs: seq<Frame>, id: WatchId, h: seq<Event>, e: Event)
    requires Streams(w, fs, h)
    ensures Streams(w, fs + (if Under(w.prefix, e.key) then [EventFrame(id, e, |h| + 1)] else []), h + [e])
  {
    var s := RouteAll(w, fs);
    var h' := h + [e];
    RouteAllPrefix(w, fs);
    StreamsSettle(w, fs, h);
    StoreAtPrefix(h, [e], s.lastRev);
    assert Safe(s, h');
    if Under(w.prefix, e.key) {
      var f := EventFrame(id, e, |h| + 1);
      var s' := Route(s, f);
      StoreAtPrefix(h, [e], |h|);
      ViewStep(h', |h|, w.prefix);
      assert s'.folded == View(h', |h| + 1, w.prefix) && s'.lastRev == |h| + 1;
      assert [f][1..] == [];
      assert Streams(s', [], h');
      assert Streams(s, [f], h');
      StreamsAppend(w, fs, [f], h, [e]);
    } else {
      assert Streams(s, [], h');
      StreamsAppend(w, fs, [], h, [e]);
    }
  }

  // ---------- resync by replay

  /** The replay frames read off the history instead of the log. */
  function HistoryFrames(h: seq<Event>, from: nat, prefix: string, id: WatchId): seq<Frame>
    decreases |h| - from
  {
    if from >= |h| then []
    else (if Under(prefix, h[from].key) then [EventFrame(id, h[from], from + 1)] else []) + HistoryFrames(h, from + 1, prefix, id)
  }

  lemma {:induction false} ReplayFramesSkip(log: seq<Logged>, n: nat, from: nat, prefix: string, id: WatchId)
    requires n <= |log| && forall i :: 0 <= i < n ==> log[i].rev <= from
    ensures ReplayFrames(log, from, prefix, id) == ReplayFrames(log[n..], from, prefix, id)
  {
    if n == 0 {
      assert log[0..] == log;
    } else {
      ReplayFramesSkip(log[1..], n - 1, from, prefix, id);
      assert log[1..][n - 1..] == log[n..];
    }
  }

  lemma {:induction false} ReplayFramesTail(log: seq<Logged>, h: seq<Event>, r: nat, from: nat, prefix: string,
                                            id: WatchId)
    requires from <= r <= |h| && |log| == |h| - r
    requires forall i :: 0 <= i < |log| ==> log[i] == Logged(r + i + 1, h[r + i])
    ensures ReplayFrames(log, from, prefix, id) == HistoryFrames(h, r, prefix, id)
    decreases log
  {
    if log != [] {
      ReplayFramesTail(log[1..], h, r + 1, from, prefix, id);
    }
  }

  /** When the server agrees to replay, the log holds every later mutation: the replay frames are
      those of the history. */
  lemma ReplayIsComplete(s: Server, from: nat, prefix: string, id: WatchId)
    requires StoreOk(s) && CanReplayFrom(s, from)
    ensures ReplayFrames(s.log, from, prefix, id) == HistoryFrames(s.history, from, prefix, id)
  {
    var h := s.history;
    var first := |h| - |s.log|;
    var n := if from >= |h| then |s.log| else from - first;
    ReplayFramesSkip(s.log, n, from, prefix, id);
    if from < |h| {
      ReplayFramesTail(s.log[n..], h, from, from, prefix, id);
    }
  }

  lemma {:induction false} NextSyncOfEvents(fs: seq<Frame>, gs: seq<Frame>)
    requires !HasSync(fs)
    ensures NextSyncIsSnapshot(fs + gs) == NextSyncIsSnapshot(gs)
  {
    if fs == [] {
      assert fs + gs == gs;
    } else {
      assert (fs + gs)[1..] == fs[1..] + gs;
      assert !HasSync(fs[1..]);
      NextSyncOfEvents(fs[1..], gs);
    }
  }

  lemma {:induction false} HistoryFramesAreEvents(h: seq<Event>, from: nat, prefix: string, id: WatchId)
    ensures !HasSync(HistoryFrames(h, from, prefix, id))
    decreases |h| - from
  {
    if from < |h| { HistoryFramesAreEvents(h, from + 1, prefix, id); }
  }

  /** Replaying from a record that is the store at revision `r` passes only through stores of the
      past and ends at the present one. */
  lemma {:induction false} ReplayStreams(w: Watch, h: seq<Event>, r: nat, id: WatchId)
    requires w.syncing && Safe(w, h) && w.lastRev <= r <= |h|
    requires forall i :: w.lastRev <= i < r ==> !Under(w.prefix, h[i].key)
    ensures Streams(w, HistoryFrames(h, r, w.prefix, id) + [Sync(id, false, |h|)], h)
    decreases |h| - r
  {
    hide StoreAt, Restrict;
    var marker := Sync(id, false, |h|);
    HistoryFramesAreEvents(h, r, w.prefix, id);
    NextSyncOfEvents(HistoryFrames(h, r, w.prefix, id), [marker]);
    if r == |h| {
      var w' := Route(w, marker);
      ViewSkips(h, w.lastRev, |h|, w.prefix);
      assert [] + [marker] == [marker] && [marker][1..] == [];
      assert Streams(w', [], h);
    } else if !Under(w.prefix, h[r].key) {
      ReplayStreams(w, h, r + 1, id);
      assert HistoryFrames(h, r, w.prefix, id) == HistoryFrames(h, r + 1, w.prefix, id);
    } else {
      var f := EventFrame(id, h[r], r + 1);
      var w' := Route(w, f);
      ViewSkips(h, w.lastRev, r, w.prefix);
      ViewStep(h, r, w.prefix);
      ReplayStreams(w', h, r + 1, id);
      var rest := HistoryFrames(h, r + 1, w.prefix, id) + [marker];
      assert HistoryFrames(h, r, w.prefix, id) + [marker] == [f] + rest;
      assert ([f] + rest)[1..] == rest;
    }
  }

  // ---------- resync by snapshot

  lemma {:induction false} SnapshotIsPuts(kvs: Store, order: seq<Key>, id: WatchId)
    requires forall k :: k in order ==> k in kvs
    ensures !HasSync(SnapshotFrames(kvs, order, id))
  {
    if order != [] { SnapshotIsPuts(kvs, order[1..], id); }
  }

  /** Routing the rest of a snapshot: `sync` collects the keys seen, the fold agrees with the store
      on them, and the marker drops every key that was not seen. */
  lemma {:induction false} SnapshotSettles(w: Watch, kvs: Store, order: seq<Key>, id: WatchId, rev: nat)
    requires w.syncing && w.live == w.folded.Keys
    requires forall k :: k in order ==> k in kvs
    requires forall k :: k in w.sync ==> k in kvs && k in w.folded && w.folded[k] == kvs[k]
    requires forall k :: k in order || k in w.sync <==> k in kvs && Under(w.prefix, k)
    requires w.lastRev <= rev && forall k :: k in kvs ==> kvs[k].rev <= rev
    ensures var r := RouteAll(w, SnapshotFrames(kvs, order, id) + [Sync(id, true, rev)]);
            && r == w.(sync := {}, syncing := false, lastRev := rev, folded := Restrict(kvs, w.prefix), live := r.folded.Keys)
    decreases order
  {
    var fs := SnapshotFrames(kvs, order, id) + [Sync(id, true, rev)];
    if order == [] {
      assert fs == [Sync(id, true, rev)] && fs[1..] == [];
      var r := Route(w, fs[0]);
      assert RouteAll(w, fs) == r;
      assert r.folded == Restrict(kvs, w.prefix);
    } else {
      var rest := SnapshotFrames(kvs, order[1..], id) + [Sync(id, true, rev)];
      assert fs == [Put(id, order[0], kvs[order[0]])] + rest;
      assert fs[0] == Put(id, order[0], kvs[order[0]]) && fs[1..] == rest;
      SnapshotSettles(Route(w, fs[0]), kvs, order[1..], id, rev);
    }
  }

  lemma {:induction false} SnapshotStreamsRest(w: Watch, s: Server, order: seq<Key>, id: WatchId)
    requires StoreOk(s) && w.syncing && w.live == w.folded.Keys
    requires w.sync == {} ==> Safe(w, s.history)
    requires forall k :: k in order ==> k in s.kvs
    requires RouteAll(w, SnapshotFrames(s.kvs, order, id) + [Sync(id, true, s.revision)]).folded == View(s.history, |s.history|, w.prefix)
    requires RouteAll(w, SnapshotFrames(s.kvs, order, id) + [Sync(id, true, s.revision)]).lastRev == |s.history|
    requires var r := RouteAll(w, SnapshotFrames(s.kvs, order, id) + [Sync(id, true, s.revision)]);
             r.live == r.folded.Keys && !r.syncing
    ensures Streams(w, SnapshotFrames(s.kvs, order, id) + [Sync(id, true, s.revision)], s.history)
    decreases order
  {
    var marker := Sync(id, true, s.revision);
    var fs := SnapshotFrames(s.kvs, order, id) + [marker];
    SnapshotIsPuts(s.kvs, order, id);
    NextSyncOfEvents(SnapshotFrames(s.kvs, order, id), [marker]);
    assert NextSyncIsSnapshot(fs);
    if order == [] {
      assert fs == [marker] && fs[1..] == [];
      var r := Route(w, marker);
      assert RouteAll(w, fs) == r;
      assert r.prefix == w.prefix;
      assert Streams(r, [], s.history);
    } else {
      var rest := SnapshotFrames(s.kvs, order[1..], id) + [marker];
      assert fs == [Put(id, order[0], s.kvs[order[0]])] + rest;
      assert fs[0] == Put(id, order[0], s.kvs[order[0]]) && fs[1..] == rest;
      SnapshotStreamsRest(Route(w, fs[0]), s, order[1..], id);
    }
  }

  lemma EntriesBounded(s: Server)
    requires StoreOk(s)
    ensures forall k :: k in s.kvs ==> s.kvs[k].rev <= s.revision
  {
    forall k | k in s.kvs ensures s.kvs[k].rev <= s.revision { EntryRevision(s.history, |s.history|, k); }
  }

  lemma SnapshotStreams(w: Watch, s: Server, order: seq<Key>, id: WatchId)
    requires StoreOk(s) && Waiting(w, [], s.history) && Enumerates(order, s.kvs, w.prefix)
    ensures Streams(w, SnapshotFrames(s.kvs, order, id) + [Sync(id, true, s.revision)], s.history)
  {
    EntriesBounded(s);
    SnapshotSettles(w, s.kvs, order, id, s.revision);
    SnapshotStreamsRest(w, s, order, id);
  }

  /** A second registration on a live connection: its snapshot repeats what the record already has
      and its marker is ignored. */
  lemma {:induction false} RepeatedSnapshotStreams(w: Watch, s: Server, order: seq<Key>, id: WatchId)
    requires StoreOk(s) && Streams(w, [], s.history)
    requires forall k :: k in order ==> k in s.kvs && Under(w.prefix, k)
    ensures Streams(w, SnapshotFrames(s.kvs, order, id) + [Sync(id, true, s.revision)], s.history)
    decreases order
  {
    var h := s.history;
    var fs := SnapshotFrames(s.kvs, order, id) + [Sync(id, true, s.revision)];
    if order == [] {
      assert fs == [Sync(id, true, s.revision)] && fs[1..] == [];
      assert Route(w, fs[0]) == w;
    } else {
      var k := order[0];
      var rest := SnapshotFrames(s.kvs, order[1..], id) + [Sync(id, true, s.revision)];
      assert fs == [Put(id, k, s.kvs[k])] + rest;
      assert fs[0] == Put(id, k, s.kvs[k]) && fs[1..] == rest;
      EntryRevision(h, |h|, k);
      assert s.kvs[k].rev <= w.lastRev by { assert Under(w.prefix, h[s.kvs[k].rev - 1].key); }
      ViewSkips(h, w.lastRev, |h|, w.prefix);
      assert w.folded[k] == s.kvs[k];
      assert Route(w, fs[0]) == w;
      RepeatedSnapshotStreams(w, s, order[1..], id);
    }
  }

  /** Either kind of resync turns a waiting record into a streaming one. */
  lemma WatchStreams(w: Watch, s: Server, from: Option<nat>, order: seq<Key>, id: WatchId)
    requires StoreOk(s) && Waiting(w, [], s.history) && Enumerates(order, s.kvs, w.prefix)
    requires from.Some? ==> from.value == w.lastRev
    ensures Streams(w, WatchFrames(s, id, w.prefix, from, order), s.history)
  {
    if from.Some? && CanReplayFrom(s, from.value) {
      ReplayIsComplete(s, from.value, w.prefix, id);
      ReplayStreams(w, s.history, w.lastRev, id);
    } else {
      SnapshotStreams(w, s, order, id);
    }
  }

  /** Replay refines snapshot: from the same record both resyncs end in the same record, current
      with the store. */
  lemma ReplayRefinesSnapshot(w: Watch, s: Server, order: seq<Key>, id: WatchId)
    requires StoreOk(s) && Waiting(w, [], s.history) && CanReplayFrom(s, w.lastRev)
    requires Enumerates(order, s.kvs, w.prefix)
    ensures RouteAll(w, ReplayFrames(s.log, w.lastRev, w.prefix, id) + [Sync(id, false, s.revision)])
         == RouteAll(w, SnapshotFrames(s.kvs, order, id) + [Sync(id, true, s.revision)])
         == w.(syncing := false, lastRev := s.revision, folded := Restrict(s.kvs, w.prefix), live := Restrict(s.kvs, w.prefix).Keys)
  {
    var fs := ReplayFrames(s.log, w.lastRev, w.prefix, id);
    var marker := Sync(id, false, s.revision);
    EntriesBounded(s);
    SnapshotSettles(w, s.kvs, order, id, s.revision);
    ReplayIsComplete(s, w.lastRev, w.prefix, id);
    ReplayStreams(w, s.history, w.lastRev, id);
    StreamsSettle(w, fs + [marker], s.history);
    RouteAllAppend(w, fs, [marker]);
    HistoryFramesAreEvents(s.history, w.lastRev, w.prefix, id);
    ReplayKeepsSyncing(w, s.history, w.lastRev, id);
    RouteAllPrefix(w, fs);
    assert RouteAll(RouteAll(w, fs), [marker]) == Route(RouteAll(w, fs), marker) by { assert [marker][1..] == []; }
  }

  lemma {:induction false} ReplayKeepsSyncing(w: Watch, h: seq<Event>, r: nat, id: WatchId)
    requires w.lastRev <= Max(|h|, w.lastRev)
    ensures var x := RouteAll(w, HistoryFrames(h, r, w.prefix, id));
            x.syncing == w.syncing && x.lastRev <= Max(|h|, w.lastRev) && x.prefix == w.prefix
    decreases |h| - r
  {
    if r < |h| {
      if Under(w.prefix, h[r].key) {
        var f := EventFrame(id, h[r], r + 1);
        assert HistoryFrames(h, r, w.prefix, id) == [f] + HistoryFrames(h, r + 1, w.prefix, id);
        ReplayKeepsSyncing(Route(w, f), h, r + 1, id);
      } else {
        assert HistoryFrames(h, r, w.prefix, id) == HistoryFrames(h, r + 1, w.prefix, id);
        ReplayKeepsSyncing(w, h, r + 1, id);
      }
    }
  }

  // ---------- exactly when a resync repairs an arbitrary record

  ghost predicate TouchedSince(h: seq<Event>, r: nat, k: Key) {
    exists i :: r <= i < |h| && h[i].key == k
  }

  predicate SameAt(a: Store, b: Store, k: Key) {
    (k in a <==> k in b) && (k in a && k in b ==> a[k] == b[k])
  }

  lemma SameEverywhere(a: Store, b: Store)
    requires forall k :: SameAt(a, b, k)
    ensures a == b
  {
    forall k ensures k in a.Keys <==> k in b.Keys { assert SameAt(a, b, k); }
    assert a.Keys == b.Keys;
    forall k | k in a ensures a[k] == b[k] { assert SameAt(a, b, k); }
  }

  /** What a replay from `r` leaves at one key: the store's value if the key was touched since `r`,
      otherwise whatever the record had. */
  lemma {:induction false} ReplayAt(w: Watch, h: seq<Event>, r: nat, id: WatchId, k: Key)
    requires Under(w.prefix, k)
    ensures var f := RouteAll(w, HistoryFrames(h, r, w.prefix, id)).folded;
            SameAt(f, if TouchedSince(h, r, k) then StoreAt(h, |h|) else w.folded, k)
    decreases |h| - r
  {
    if r < |h| {
      if Under(w.prefix, h[r].key) {
        var f := EventFrame(id, h[r], r + 1);
        assert HistoryFrames(h, r, w.prefix, id) == [f] + HistoryFrames(h, r + 1, w.prefix, id);
        ReplayAt(Route(w, f), h, r + 1, id, k);
      } else {
        assert HistoryFrames(h, r, w.prefix, id) == HistoryFrames(h, r + 1, w.prefix, id);
        ReplayAt(w, h, r + 1, id, k);
      }
      if !TouchedSince(h, r + 1, k) {
        KeyUntouched(h, r + 1, |h|, k);
        assert TouchedSince(h, r, k) <==> h[r].key == k;
      } else {
        assert TouchedSince(h, r, k);
      }
    }
  }

  lemma {:induction false} ReplayStaysUnder(w: Watch, h: seq<Event>, r: nat, id: WatchId)
    requires forall k :: k in w.folded ==> Under(w.prefix, k)
    ensures forall k :: k in RouteAll(w, HistoryFrames(h, r, w.prefix, id)).folded ==> Under(w.prefix, k)
    decreases |h| - r
  {
    if r < |h| {
      if Under(w.prefix, h[r].key) {
        var f := EventFrame(id, h[r], r + 1);
        assert HistoryFrames(h, r, w.prefix, id) == [f] + HistoryFrames(h, r + 1, w.prefix, id);
        ReplayStaysUnder(Route(w, f), h, r + 1, id);
      } else {
        assert HistoryFrames(h, r, w.prefix, id) == HistoryFrames(h, r + 1, w.prefix, id);
        ReplayStaysUnder(w, h, r + 1, id);
      }
    }
  }

  /** Reconnecting with any record at all, even one left by a torn snapshot or by an earlier server
      incarnation, brings it to the current store exactly when the server answers with a snapshot
      or the record is already right about every key untouched since its `lastRev`. */
  lemma ResyncConvergesIff(w: Watch, s: Server, order: seq<Key>, id: WatchId)
    requires StoreOk(s) && Enumerates(order, s.kvs, w.prefix)
    requires w.live == w.folded.Keys && forall k :: k in w.folded ==> Under(w.prefix, k)
    ensures RouteAll(Resync(w), WatchFrames(s, id, w.prefix, ResumeFrom(w), order)).folded == Restrict(s.kvs, w.prefix)
       <==> (|| w.lastRev == 0
             || !CanReplayFrom(s, w.lastRev)
             || forall k :: Under(w.prefix, k) && !TouchedSince(s.history, w.lastRev, k) ==> SameAt(w.folded, s.kvs, k))
  {
    var h, v := s.history, Resync(w);
    if w.lastRev == 0 || !CanReplayFrom(s, w.lastRev) {
      EntriesBounded(s);
      SnapshotSettles(v, s.kvs, order, id, s.revision);
    } else {
      var fs := HistoryFrames(h, w.lastRev, w.prefix, id);
      var marker := Sync(id, false, s.revision);
      ReplayIsComplete(s, w.lastRev, w.prefix, id);
      RouteAllAppend(v, fs, [marker]);
      var x := RouteAll(v, fs);
      assert RouteAll(x, [marker]) == Route(x, marker) by { assert [marker][1..] == []; }
      ReplayStaysUnder(v, h, w.lastRev, id);
      forall k | Under(w.prefix, k)
        ensures SameAt(x.folded, if TouchedSince(h, w.lastRev, k) then s.kvs else w.folded, k)
      {
        ReplayAt(v, h, w.lastRev, id, k);
      }
      var target := Restrict(s.kvs, w.prefix);
      if x.folded == target {
        forall k | Under(w.prefix, k) && !TouchedSince(h, w.lastRev, k) ensures SameAt(w.folded, s.kvs, k) {
          assert SameAt(x.folded, w.folded, k);
        }
      } else {
        assert exists k :: !SameAt(x.folded, target, k) by {
          if forall k :: SameAt(x.folded, target, k) { SameEverywhere(x.folded, target); }
        }
        var k :| !SameAt(x.folded, target, k);
        assert Under(w.prefix, k);
      }
    }
  }

  // ---------- exactly when a cut in a snapshot does no harm

  lemma {:induction false} SnapshotFramesAt(kvs: Store, order: seq<Key>, id: WatchId)
    requires forall k :: k in order ==> k in kvs
    ensures |SnapshotFrames(kvs, order, id)| == |order|
    ensures forall i :: 0 <= i < |order| ==> SnapshotFrames(kvs, order, id)[i] == Put(id, order[i], kvs[order[i]])
  {
    if order != [] { SnapshotFramesAt(kvs, order[1..], id); }
  }

  /** The record of a watch that asked again and got the first `j` keys of a snapshot. */
  function CutShort(v: Watch, kvs: Store, order: seq<Key>, j: nat, id: WatchId): Watch
    requires (forall k :: k in order ==> k in kvs) && j <= |order|
  {
    SnapshotFramesAt(kvs, order, id);
    RouteAll(Resync(v), SnapshotFrames(kvs, order, id)[..j])
  }

  lemma CutAtOnce(v: Watch, kvs: Store, order: seq<Key>, id: WatchId)
    requires forall k :: k in order ==> k in kvs
    ensures CutShort(v, kvs, order, 0, id) == Resync(v)
  {
  }

  lemma CutLater(v: Watch, kvs: Store, order: seq<Key>, j: nat, id: WatchId)
    requires (forall k :: k in order ==> k in kvs) && 0 < j <= |order|
    ensures CutShort(v, kvs, order, j, id)
         == Route(CutShort(v, kvs, order, j - 1, id), Put(id, order[j - 1], kvs[order[j - 1]]))
  {
    hide Resync, Route;
    SnapshotFramesAt(kvs, order, id);
    var fs := SnapshotFrames(kvs, order, id);
    assert fs[..j] == fs[..j - 1] + [fs[j - 1]];
    RouteAllAppend(Resync(v), fs[..j - 1], [fs[j - 1]]);
    assert [fs[j - 1]][1..] == [];
  }

  /** What was delivered is known, and the rest is as it was. */
  lemma {:induction false} CutFolds(v: Watch, kvs: Store, order: seq<Key>, j: nat, id: WatchId)
    requires (forall k :: k in order ==> k in kvs) && j <= |order| && v.live == v.folded.Keys
    ensures var w := CutShort(v, kvs, order, j, id);
            w.prefix == v.prefix && w.folded == v.folded + (map k | k in order[..j] :: kvs[k]) && w.live == w.folded.Keys
  {
    hide CutShort;
    if j == 0 {
      CutAtOnce(v, kvs, order, id);
    } else {
      CutFolds(v, kvs, order, j - 1, id);
      CutLater(v, kvs, order, j, id);
      assert order[..j] == order[..j - 1] + [order[j - 1]];
    }
  }

  /** And `lastRev` is the newest revision of it. */
  lemma {:induction false} CutMoves(v: Watch, kvs: Store, order: seq<Key>, j: nat, id: WatchId)
    requires (forall k :: k in order ==> k in kvs) && j <= |order|
    ensures var r := CutShort(v, kvs, order, j, id).lastRev;
            && v.lastRev <= r && (forall i :: 0 <= i < j ==> kvs[order[i]].rev <= r)
            && (r == v.lastRev || exists i :: 0 <= i < j && r == kvs[order[i]].rev)
  {
    hide CutShort;
    if j == 0 {
      CutAtOnce(v, kvs, order, id);
    } else {
      CutMoves(v, kvs, order, j - 1, id);
      CutLater(v, kvs, order, j, id);
    }
  }

  /** A key untouched since `r` has had its value ever since, also in the earlier store. */
  lemma UntouchedSame(s0: Server, s: Server, r: nat, k: Key)
    requires StoreOk(s0) && StoreOk(s) && s0.history <= s.history && r <= |s0.history| && !TouchedSince(s.history, r, k)
    ensures SameAt(s0.kvs, s.kvs, k)
  {
    var h0, h := s0.history, s.history;
    KeyUntouched(h, r, |h|, k);
    StoreAtPrefix(h0, h[|h0|..], r);
    assert h0 + h[|h0|..] == h;
    assert forall i :: r <= i < |h0| ==> h0[i] == h[i];
    KeyUntouched(h0, r, |h0|, k);
  }

  lemma UntouchedIsOld(s: Server, r: nat, k: Key)
    requires StoreOk(s) && k in s.kvs
    ensures !TouchedSince(s.history, r, k) <==> s.kvs[k].rev <= r
  {
    EntryRevision(s.history, |s.history|, k);
    if s.kvs[k].rev > r { assert s.history[s.kvs[k].rev - 1].key == k; }
  }

  ghost predicate TouchedWithin(h: seq<Event>, r: nat, r': nat, k: Key) {
    exists i :: r <= i < r' && i < |h| && h[i].key == k
  }

  /** The key changed after the record's own revision, and not after the newest key delivered. */
  ghost predicate Missed(v: Watch, s: Server, upTo: nat, k: Key) {
    && Under(v.prefix, k) && TouchedWithin(s.history, v.lastRev, upTo, k) && !TouchedSince(s.history, upTo, k)
    && (k in v.folded || k in s.kvs)
  }

  /** A key of the record and of the store differ if the key changed in between, and only then. */
  lemma ChangedDiffers(v: Watch, s0: Server, s: Server, upTo: nat, k: Key)
    requires StoreOk(s0) && StoreOk(s) && s0.history <= s.history && Safe(v, s0.history) && v.lastRev <= upTo <= |s0.history|
    requires Under(v.prefix, k) && !TouchedSince(s.history, upTo, k)
    ensures SameAt(v.folded, s.kvs, k) <==> !Missed(v, s, upTo, k)
  {
    var h0, h := s0.history, s.history;
    StoreAtPrefix(h0, h[|h0|..], v.lastRev);
    assert h0 + h[|h0|..] == h;
    assert SameAt(v.folded, StoreAt(h, v.lastRev), k);
    if TouchedWithin(h, v.lastRev, upTo, k) {
      if k in v.folded { EntryRevision(h, v.lastRev, k); }
      if k in s.kvs { EntryRevision(h, |h|, k); }
    } else {
      KeyUntouched(h, v.lastRev, |h|, k);
    }
  }

  /** A snapshot is cut after `j` keys and the watch resumes later, with any mutations in between: it
      converges exactly when it resumes from nothing, the log no longer reaches, or every key that changed
      between the record's own revision and the newest one delivered, and not since, was itself delivered. */
  lemma TornResyncConvergesIff(v: Watch, s0: Server, order0: seq<Key>, j: nat, s: Server, order: seq<Key>, id: WatchId)
    requires StoreOk(s0) && StoreOk(s) && s0.history <= s.history && Safe(v, s0.history)
    requires Enumerates(order0, s0.kvs, v.prefix) && Enumerates(order, s.kvs, v.prefix) && j <= |order0|
    ensures var w := CutShort(v, s0.kvs, order0, j, id);
            RouteAll(Resync(w), WatchFrames(s, id, v.prefix, ResumeFrom(w), order)).folded == Restrict(s.kvs, v.prefix)
            <==> (|| w.lastRev == 0
                  || !CanReplayFrom(s, w.lastRev)
                  || forall k :: Missed(v, s, w.lastRev, k) ==> k in order0[..j])
  {
    hide RouteAll, WatchFrames, StoreOk, CanReplayFrom, CutShort, TouchedSince, TouchedWithin, StoreAt;
    EntriesPositive(s0);
    CutFolds(v, s0.kvs, order0, j, id);
    CutMoves(v, s0.kvs, order0, j, id);
    var w := CutShort(v, s0.kvs, order0, j, id);
    ResyncConvergesIff(w, s, order, id);
    forall k | Under(v.prefix, k) && !TouchedSince(s.history, w.lastRev, k)
      ensures SameAt(w.folded, s.kvs, k) <==> (Missed(v, s, w.lastRev, k) ==> k in order0[..j])
    {
      UntouchedSame(s0, s, w.lastRev, k);
      ChangedDiffers(v, s0, s, w.lastRev, k);
    }
  }

  /** The first snapshot of a watch: every key that is not newer than the newest one delivered was itself
      delivered. */
  lemma TornSnapshotConvergesIff(s0: Server, order0: seq<Key>, j: nat, s: Server, order: seq<Key>, prefix: string, id: WatchId)
    requires StoreOk(s0) && StoreOk(s) && s0.history <= s.history
    requires Enumerates(order0, s0.kvs, prefix) && Enumerates(order, s.kvs, prefix) && j <= |order0|
    ensures var w := CutShort(Opened(prefix), s0.kvs, order0, j, id);
            RouteAll(Resync(w), WatchFrames(s, id, prefix, ResumeFrom(w), order)).folded == Restrict(s.kvs, prefix)
            <==> (|| j == 0
                  || !CanReplayFrom(s, w.lastRev)
                  || forall k :: k in s.kvs && Under(prefix, k) && s.kvs[k].rev <= w.lastRev ==> k in order0[..j])
  {
    hide RouteAll, WatchFrames, StoreOk, CanReplayFrom, CutShort, TouchedSince, TouchedWithin;
    var v := Opened(prefix);
    EntriesPositive(s0);
    CutFolds(v, s0.kvs, order0, j, id);
    CutMoves(v, s0.kvs, order0, j, id);
    var w := CutShort(v, s0.kvs, order0, j, id);
    assert j > 0 ==> order0[0] in order0 && 0 < s0.kvs[order0[0]].rev <= w.lastRev;
    TornResyncConvergesIff(v, s0, order0, j, s, order, id);
    forall k ensures Missed(v, s, w.lastRev, k) <==> k in s.kvs && Under(prefix, k) && s.kvs[k].rev <= w.lastRev {
      if k in s.kvs {
        UntouchedIsOld(s, w.lastRev, k);
        if s.kvs[k].rev <= w.lastRev { WrittenBy(s, w.lastRev, k); }
      }
    }
  }

  lemma WrittenBy(s: Server, r: nat, k: Key)
    requires StoreOk(s) && k in s.kvs && s.kvs[k].rev <= r
    ensures TouchedWithin(s.history, 0, r, k)
  {
    EntryRevision(s.history, |s.history|, k);
  }

  lemma EntriesPositive(s: Server)
    requires StoreOk(s)
    ensures forall k :: k in s.kvs ==> 0 < s.kvs[k].rev <= |s.history|
  {
    forall k | k in s.kvs ensures 0 < s.kvs[k].rev <= |s.history| { EntryRevision(s.history, |s.history|, k); }
  }

  /** A snapshot cut after its first key loses the second for good: the delivered key already moved
      `lastRev` past the missing one, and the server has nothing left to replay. */
  lemma TornSnapshotLosesAKey(s: Server)
    requires s == Mutate(Mutate(Empty, Event(true, "b", 0, "1")), Event(true, "a", 0, "1"))
    ensures var half := Route(Opened(""), SnapshotFrames(s.kvs, ["a", "b"], 1)[0]);
            && Torn(half, (SnapshotFrames(s.kvs, ["a", "b"], 1) + [Sync(1, true, 2)])[1..])
            && RouteAll(Resync(half), WatchFrames(s, 1, "", ResumeFrom(half), ["a", "b"])).folded != Restrict(s.kvs, "")
  {
    var h := [Event(true, "b", 0, "1"), Event(true, "a", 0, "1")];
    MutateOk(Empty, h[0]);
    MutateOk(Mutate(Empty, h[0]), h[1]);
    assert s.history == h;
    assert s.kvs == map["b" := Entry("1", 0, 1), "a" := Entry("1", 0, 2)];
    var half := Route(Opened(""), SnapshotFrames(s.kvs, ["a", "b"], 1)[0]);
    assert ["a", "b"][1..] == ["b"] && ["b"][1..] == [];
    assert SnapshotFrames(s.kvs, ["a", "b"], 1) == [Put(1, "a", s.kvs["a"]), Put(1, "b", s.kvs["b"])];
    var rest := [Put(1, "b", s.kvs["b"]), Sync(1, true, 2)];
    assert (SnapshotFrames(s.kvs, ["a", "b"], 1) + [Sync(1, true, 2)])[1..] == rest;
    assert rest[1..] == [Sync(1, true, 2)];
    assert NextSyncIsSnapshot(rest[1..]) && NextSyncIsSnapshot(rest);
    ResyncConvergesIff(half, s, ["a", "b"], 1);
    assert !TouchedSince(h, 2, "b") && !SameAt(half.folded, s.kvs, "b");
  }

  /** `n` writes of the same key. */
  function Busy(s: Server, n: nat): Server { if n == 0 then s else Mutate(Busy(s, n - 1), Event(true, "b", 0, "1")) }

  lemma {:induction false} BusyIs(s: Server, n: nat)
    requires StoreOk(s) && s.kvs == map[]
    ensures var r := Busy(s, n);
            && StoreOk(r) && |r.history| == |s.history| + n && s.history <= r.history
            && r.kvs == if n == 0 then map[] else map["b" := Entry("1", 0, |r.history|)]
  {
    hide StoreOk, Fanout;
    if n > 0 {
      BusyIs(s, n - 1);
      var r, e := Busy(s, n - 1), Event(true, "b", 0, "1");
      assert r.revision == |r.history| by { RevisionIs(r); }
      MutateOk(r, e);
      assert Busy(s, n) == Mutate(r, e);
    }
  }

  lemma RevisionIs(s: Server)
    requires StoreOk(s)
    ensures s.revision == |s.history| && s.kvs == StoreAt(s.history, |s.history|)
    ensures |s.log| == (if |s.history| < LOG_CAPACITY then |s.history| else LOG_CAPACITY)
    ensures s.log != [] ==> s.log[0].rev == |s.history| - |s.log| + 1
  {
  }

  /** A server answers a watch that knows its newest revision with the marker alone. */
  lemma NothingToReplay(s: Server, w: Watch, order: seq<Key>, id: WatchId)
    requires StoreOk(s) && w.lastRev == |s.history| > 0 && forall k :: k in order ==> k in s.kvs
    ensures RouteAll(Resync(w), WatchFrames(s, id, w.prefix, ResumeFrom(w), order)) == w.(syncing := false, sync := {})
  {
    var marker := Sync(id, false, s.revision);
    ReplayIsComplete(s, w.lastRev, w.prefix, id);
    assert WatchFrames(s, id, w.prefix, ResumeFrom(w), order) == [marker];
    assert [marker][1..] == [];
  }

  /** A resync snapshot cut after its first key keeps a deleted key for good: the watch was away for so long
      that the delete has left the log, and the key that did arrive moved `lastRev` past it. */
  lemma TornResyncKeepsADeletedKey(s1: Server, s: Server, v: Watch, n: nat)
    requires s1 == Mutate(Empty, Event(true, "a", 0, "1"))
    requires n >= LOG_CAPACITY && s == Busy(Mutate(s1, Event(false, "a", 0, "")), n)
    requires v == Watch("", {"a"}, {}, false, 1, s1.kvs)
    ensures StoreOk(s) && Safe(v, s.history) && !CanReplayFrom(s, v.lastRev) && Enumerates(["b"], s.kvs, "")
    ensures var w := CutShort(v, s.kvs, ["b"], 1, 1);
            var r := RouteAll(Resync(w), WatchFrames(s, 1, "", ResumeFrom(w), ["b"]));
            !r.syncing && r.lastRev == s.revision && "a" in r.folded && "a" !in s.kvs
  {
    hide StoreOk, Busy, RouteAll, WatchFrames, Mutate, Notify, CutShort, StoreAt;
    var s2 := Mutate(s1, Event(false, "a", 0, ""));
    Deleted(s1, s2);
    BusyIs(s2, n);
    RevisionIs(s);
    var h := s.history;
    assert h == s2.history + h[2..];
    StoreAtPrefix(s2.history, h[2..], 1);
    assert Safe(v, h);
    CutFolds(v, s.kvs, ["b"], 1, 1);
    CutMoves(v, s.kvs, ["b"], 1, 1);
    assert ["b"][0] in s.kvs && s.kvs[["b"][0]].rev == |h|;
    NothingToReplay(s, CutShort(v, s.kvs, ["b"], 1, 1), ["b"], 1);
  }

  lemma Deleted(s1: Server, s2: Server)
    requires s1 == Mutate(Empty, Event(true, "a", 0, "1")) && s2 == Mutate(s1, Event(false, "a", 0, ""))
    ensures StoreOk(s2) && |s2.history| == 2 && s2.kvs == map[]
    ensures s1.kvs == map["a" := Entry("1", 0, 1)] == StoreAt(s2.history, 1)
  {
    MutateOk(Empty, Event(true, "a", 0, "1"));
    MutateOk(s1, Event(false, "a", 0, ""));
    assert s2.history == [Event(true, "a", 0, "1"), Event(false, "a", 0, "")];
    assert StoreAt(s2.history, 0) == map[];
    assert StoreAt(s2.history, 1) == map["a" := Entry("1", 0, 1)];
  }

  /** A restarted server counts revisions from zero again, so a record of the old incarnation asks
      to resume from the future and is told it missed nothing. */
  lemma RestartLosesAKey(w: Watch, s: Server)
    requires s == Mutate(Empty, Event(true, "new", 0, "1"))
    requires w == Watch("", {"old"}, {}, false, 5, map["old" := Entry("1", 0, 5)])
    ensures RouteAll(Resync(w), WatchFrames(s, 1, "", ResumeFrom(w), ["new"])).folded != Restrict(s.kvs, "")
  {
    MutateOk(Empty, Event(true, "new", 0, "1"));
    ResyncConvergesIff(w, s, ["new"], 1);
    assert !TouchedSince(s.history, 5, "old") && !SameAt(w.folded, s.kvs, "old");
  }
}
