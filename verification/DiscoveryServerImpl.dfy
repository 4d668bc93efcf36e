/** discoveryd in place: the fields its handlers mutate under the lock, and the handlers as loops
    over them. Each method is proved to have the effect that `Server` specifies. */
module DiscoveryServerImpl {
  import opened History
  import opened S = Server
  import opened Options

  lemma ReplayNext(log: seq<Logged>, i: nat, from: nat, prefix: string, id: WatchId)
    requires i <= |log|
    ensures log[0..] == log && (i == |log| ==> ReplayFrames(log[i..], from, prefix, id) == [])
    ensures i < |log| ==>
              ReplayFrames(log[i..], from, prefix, id) ==
              (if log[i].rev <= from || !Under(prefix, log[i].event.key) then [] else [EventFrame(id, log[i].event, log[i].rev)])
              + ReplayFrames(log[i + 1..], from, prefix, id)
  {
    if i < |log| { assert log[i..][1..] == log[i + 1..]; }
  }

  lemma UnregisterNext(ws: seq<Watcher>, i: nat, id: WatchId, conn: ConnId)
    requires i <= |ws|
    ensures ws[0..] == ws && (i == |ws| ==> Unregister(ws[i..], id, conn) == [])
    ensures i < |ws| ==>
              Unregister(ws[i..], id, conn) ==
              (if ws[i].id == id && ws[i].conn == conn then [] else [ws[i]]) + Unregister(ws[i + 1..], id, conn)
  {
    if i < |ws| { assert ws[i..][1..] == ws[i + 1..]; }
  }

  lemma UnregisterIdNext(ws: seq<Watcher>, i: nat, id: WatchId)
    requires i <= |ws|
    ensures ws[0..] == ws && (i == |ws| ==> UnregisterId(ws[i..], id) == [])
    ensures i < |ws| ==> UnregisterId(ws[i..], id) == (if ws[i].id == id then [] else [ws[i]]) + UnregisterId(ws[i + 1..], id)
  {
    if i < |ws| { assert ws[i..][1..] == ws[i + 1..]; }
  }

  class DiscoveryServer {
    var kvs: Store
    var revision: nat
    var eventLog: seq<Logged>
    var leases: map<int, seq<Key>>
    var nextLeaseId: int
    var watchers: seq<Watcher>
    var conns: map<ConnId, seq<Frame>>
    ghost var history: seq<Event>

    ghost function State(): S.Server
      reads this
    {
      S.Server(kvs, revision, eventLog, leases, nextLeaseId, watchers, conns, history)
    }

    constructor ()
      ensures State() == S.Empty && S.Valid(State())
    {
      kvs, revision, eventLog, leases, nextLeaseId := map[], 0, [], map[], 1;
      watchers, conns, history := [], map[], [];
    }

    /** Says whether every mutation after `from` is still in the log. */
    method CanReplayFrom(from: nat) returns (ok: bool)
      requires StoreOk(State())
      ensures ok <==> forall i :: from <= i < |history| ==> InLog(eventLog, history[i], i + 1)
      ensures ok == S.CanReplayFrom(State(), from)
    {
      ok := from >= revision || (eventLog != [] && eventLog[0].rev <= from + 1);
      ghost var first := |history| - |eventLog|;
      if ok {
        forall i | from <= i < |history| ensures InLog(eventLog, history[i], i + 1) {
          assert eventLog[i - first] == Logged(i + 1, history[i]);
        }
      } else {
        assert !InLog(eventLog, history[from], from + 1);
      }
    }

    method LogMutation(e: Event) returns (rev: nat)
      modifies this`revision, this`eventLog, this`history
      ensures rev == revision == old(revision) + 1
      ensures history == old(history) + [e]
      ensures eventLog == PushLog(old(eventLog), Logged(rev, e))
    {
      revision := revision + 1;
      rev := revision;
      history := history + [e];
      eventLog := eventLog + [Logged(rev, e)];
      if |eventLog| > LOG_CAPACITY { eventLog := eventLog[1..]; }
    }

    /** Writes the event to every watcher under whose prefix the key is. */
    method NotifyWatchers(e: Event, rev: nat)
      modifies this`watchers, this`conns
      ensures (watchers, conns) == Fanout(old(watchers), old(conns), e, rev)
    {
      hide Under, EventFrame;
      var kept: seq<Watcher> := [];
      var i := 0;
      ghost var all := Fanout(watchers, conns, e, rev);
      while i < |watchers|
        invariant 0 <= i <= |watchers| && watchers == old(watchers)
        invariant all.0 == kept + Fanout(watchers[i..], conns, e, rev).0
        invariant all.1 == Fanout(watchers[i..], conns, e, rev).1
        modifies this`conns
      {
        var w := watchers[i];
        assert watchers[i..][1..] == watchers[i + 1..];
        ghost var one := FanoutOne(w, conns, e, rev);
        ghost var rest := Fanout(watchers[i + 1..], one.1, e, rev);
        assert kept + (one.0 + rest.0) == (kept + one.0) + rest.0;
        if !Under(w.prefix, e.key) {
          kept := kept + [w];
        } else if w.conn in conns {
          conns := conns[w.conn := conns[w.conn] + [EventFrame(w.id, e, rev)]];
          kept := kept + [w];
        }
        i := i + 1;
      }
      assert kept + [] == kept;
      watchers := kept;
    }

    method MutateAndNotify(e: Event)
      modifies this`revision, this`eventLog, this`history, this`watchers, this`conns
      ensures State() == Notify(old(State()), e)
    {
      hide PushLog, Fanout;
      var rev := LogMutation(e);
      NotifyWatchers(e, rev);
    }

    method UnbindLease(key: Key, lease: int)
      modifies this`leases
      ensures leases == Unbind(old(leases), key, lease)
    {
      if lease != 0 && lease in leases {
        leases := leases[lease := Without(leases[lease], key)];
      }
    }

    method ExpireLease(lease: int)
      modifies this
      ensures State() == S.ExpireLease(old(State()), lease)
    {
      if lease !in leases { return; }
      var keys := leases[lease];
      var i := 0;
      while i < |keys|
        invariant 0 <= i <= |keys| && leases == old(leases)
        invariant ExpireKeys(State(), keys[i..], lease) == ExpireKeys(old(State()), keys, lease)
      {
        assert keys[i..][1..] == keys[i + 1..];
        if keys[i] in kvs {
          MutateAndNotify(Event(false, keys[i], lease, kvs[keys[i]].value));
          kvs := kvs - {keys[i]};
        }
        i := i + 1;
      }
      leases := leases - {lease};
    }

    method CreateLease() returns (id: int)
      modifies this`leases, this`nextLeaseId
      ensures State() == Exec(old(State()), Op.CreateLease).0 && id == old(nextLeaseId)
    {
      id := nextLeaseId;
      nextLeaseId := nextLeaseId + 1;
      leases := leases[id := []];
    }

    method PutEntry(key: Key, value: string, lease: int)
      modifies this`kvs, this`revision, this`eventLog, this`history, this`watchers, this`conns
      ensures State() == Mutate(old(State()), Event(true, key, lease, value))
    {
      MutateAndNotify(Event(true, key, lease, value));
      kvs := kvs[key := Entry(value, lease, revision)];
    }

    method KvCreate(key: Key, value: string, lease: int) returns (reply: Reply)
      modifies this
      ensures (State(), reply) == Exec(old(State()), Op.KvCreate(key, value, lease))
    {
      if key in kvs { return KeyExists; }
      if lease != 0 && lease !in leases { return LeaseUnknown; }
      if lease != 0 { leases := leases[lease := leases[lease] + [key]]; }
      PutEntry(key, value, lease);
      reply := Ok;
    }

    method KvPut(key: Key, value: string, lease: int) returns (reply: Reply)
      modifies this
      ensures (State(), reply) == Exec(old(State()), Op.KvPut(key, value, lease))
    {
      if lease != 0 && lease !in leases { return LeaseUnknown; }
      if key in kvs {
        if kvs[key].lease != lease {
          UnbindLease(key, kvs[key].lease);
          if lease != 0 { leases := leases[lease := leases[lease] + [key]]; }
        }
      } else if lease != 0 {
        leases := leases[lease := leases[lease] + [key]];
      }
      PutEntry(key, value, lease);
      reply := Ok;
    }

    method KvCreateOrValidate(key: Key, value: string, lease: int) returns (reply: Reply)
      modifies this
      ensures (State(), reply) == Exec(old(State()), Op.KvCreateOrValidate(key, value, lease))
    {
      if key in kvs {
        reply := if kvs[key].value != value then ValueDiffers else Ok;
        return;
      }
      if lease != 0 && lease !in leases { return LeaseUnknown; }
      if lease != 0 { leases := leases[lease := leases[lease] + [key]]; }
      PutEntry(key, value, lease);
      reply := Ok;
    }

    /** The keys under `prefix`, each once. */
    method KeysUnder(prefix: string) returns (order: seq<Key>)
      ensures Enumerates(order, kvs, prefix)
    {
      order := [];
      var todo := kvs.Keys;
      while todo != {}
        invariant todo <= kvs.Keys
        invariant NoDup(order) && forall k :: k in order <==> k in kvs && k !in todo && Under(prefix, k)
        decreases todo
      {
        var k :| k in todo;
        todo := todo - {k};
        if Under(prefix, k) { order := order + [k]; }
      }
    }

    method ReplayLog(from: nat, prefix: string, id: WatchId) returns (frames: seq<Frame>)
      ensures frames == ReplayFrames(eventLog, from, prefix, id)
    {
      hide ReplayFrames;
      frames := [];
      var i := 0;
      ReplayNext(eventLog, 0, from, prefix, id);
      while i < |eventLog|
        invariant 0 <= i <= |eventLog|
        invariant frames + ReplayFrames(eventLog[i..], from, prefix, id) == ReplayFrames(eventLog, from, prefix, id)
      {
        ReplayNext(eventLog, i, from, prefix, id);
        if !(eventLog[i].rev <= from || !Under(prefix, eventLog[i].event.key)) {
          frames := frames + [EventFrame(id, eventLog[i].event, eventLog[i].rev)];
        }
        i := i + 1;
      }
      ReplayNext(eventLog, i, from, prefix, id);
    }

    method SnapshotKeys(keys: seq<Key>, id: WatchId) returns (frames: seq<Frame>)
      requires forall k :: k in keys ==> k in kvs
      ensures frames == SnapshotFrames(kvs, keys, id)
    {
      frames := [];
      var i := 0;
      while i < |keys|
        invariant 0 <= i <= |keys|
        invariant frames + SnapshotFrames(kvs, keys[i..], id) == SnapshotFrames(kvs, keys, id)
      {
        assert keys[i..][1..] == keys[i + 1..];
        frames := frames + [Put(id, keys[i], kvs[keys[i]])];
        i := i + 1;
      }
    }

    method Watch(conn: ConnId, id: WatchId, prefix: string, from: Option<nat>) returns (ghost order: seq<Key>)
      requires StoreOk(State()) && conn in conns
      modifies this`conns, this`watchers
      ensures Enumerates(order, kvs, prefix)
      ensures State() == ServeWatch(old(State()), conn, id, prefix, from, order)
    {
      var keys := KeysUnder(prefix);
      order := keys;
      var replay := false;
      if from.Some? { replay := CanReplayFrom(from.value); }
      var frames;
      if replay {
        frames := ReplayLog(from.value, prefix, id);
        frames := frames + [Sync(id, false, revision)];
      } else {
        frames := SnapshotKeys(keys, id);
        frames := frames + [Sync(id, true, revision)];
      }
      conns := conns[conn := conns[conn] + frames];
      var kept := Remaining(id, conn);
      watchers := kept + [Watcher(id, prefix, conn)];
    }

    /** The watchers left when that of `id` on `conn` goes. */
    method Remaining(id: WatchId, conn: ConnId) returns (kept: seq<Watcher>)
      ensures kept == Unregister(watchers, id, conn)
    {
      hide Unregister;
      kept := [];
      var i := 0;
      UnregisterNext(watchers, 0, id, conn);
      while i < |watchers|
        invariant 0 <= i <= |watchers| && Unregister(watchers, id, conn) == kept + Unregister(watchers[i..], id, conn)
      {
        UnregisterNext(watchers, i, id, conn);
        kept := kept + if watchers[i].id == id && watchers[i].conn == conn then [] else [watchers[i]];
        i := i + 1;
      }
      UnregisterNext(watchers, i, id, conn);
    }

    /** Drops the watchers of `id`, on whatever connection they are. */
    method Unwatch(id: WatchId)
      modifies this`watchers
      ensures watchers == UnregisterId(old(watchers), id)
    {
      hide UnregisterId;
      var kept: seq<Watcher> := [];
      var i := 0;
      UnregisterIdNext(watchers, 0, id);
      while i < |watchers|
        invariant 0 <= i <= |watchers| && watchers == old(watchers)
        invariant UnregisterId(watchers, id) == kept + UnregisterId(watchers[i..], id)
      {
        UnregisterIdNext(watchers, i, id);
        kept := kept + if watchers[i].id == id then [] else [watchers[i]];
        i := i + 1;
      }
      UnregisterIdNext(watchers, i, id);
      watchers := kept;
    }
  }
}
