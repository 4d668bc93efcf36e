/** The in-process store: the same lease bindings without a network. Watchers are notified under
    the store's lock, so every open watcher's fold is the store under its prefix at all times. */
module InProcess {
  import opened History
  import opened Server
  import opened DiscoveryClient
  import T = LeaseTokens

  datatype Sink = Sink(prefix: string, events: seq<WatchEvent>, open: bool)

  function NotifyOne(w: Sink, e: WatchEvent): seq<Sink> {
    if !Under(w.prefix, e.key) then [w] else if w.open then [w.(events := w.events + [e])] else []
  }

  /** Sends one event to every matching watcher and drops those whose receiver is gone. */
  function NotifyAll(ws: seq<Sink>, e: WatchEvent): seq<Sink> {
    if ws == [] then [] else NotifyOne(ws[0], e) + NotifyAll(ws[1..], e)
  }

  lemma NotifyNext(ws: seq<Sink>, e: WatchEvent, i: nat)
    requires i <= |ws|
    ensures ws[0..] == ws && (i == |ws| ==> NotifyAll(ws[i..], e) == [])
    ensures i < |ws| ==> NotifyAll(ws[i..], e) == NotifyOne(ws[i], e) + NotifyAll(ws[i + 1..], e)
  {
    hide NotifyOne;
    if i < |ws| { assert ws[i..][1..] == ws[i + 1..]; }
  }

  ghost predicate Current(w: Sink, kvs: Store) {
    w.open ==> FoldEvents(w.events) == Restrict(kvs, w.prefix)
  }

  ghost predicate AllCurrent(ws: seq<Sink>, kvs: Store) {
    forall w :: w in ws ==> Current(w, kvs)
  }

  lemma NotifyOneCurrent(w: Sink, e: WatchEvent, kvs: Store)
    requires Current(w, kvs)
    ensures AllCurrent(NotifyOne(w, e), FoldEvent(kvs, e))
  {
    var kvs' := FoldEvent(kvs, e);
    if w.open {
      if Under(w.prefix, e.key) {
        FoldAppend(w.events, e);
        assert FoldEvent(Restrict(kvs, w.prefix), e) == Restrict(kvs', w.prefix);
      } else {
        assert Restrict(kvs, w.prefix) == Restrict(kvs', w.prefix);
      }
    }
  }

  lemma {:induction false} NotifyKeepsCurrent(ws: seq<Sink>, e: WatchEvent, kvs: Store)
    requires AllCurrent(ws, kvs)
    ensures AllCurrent(NotifyAll(ws, e), FoldEvent(kvs, e))
  {
    if ws != [] {
      NotifyKeepsCurrent(ws[1..], e, kvs);
      NotifyOneCurrent(ws[0], e, kvs);
    }
  }

  lemma FoldPut(kvs: Store, key: Key, entry: Entry)
    ensures FoldEvent(kvs, PutEvent(key, entry)) == kvs[key := entry]
  {
  }

  /** Removing a dead lease's keys leaves exactly the keys of other leases, and their bindings. */
  lemma DeletedAre(kvs: Store, leases: map<int, seq<Key>>, lease: int)
    requires LeasesOk(kvs, leases) && lease in leases
    ensures NoDup(leases[lease]) && forall k :: k in leases[lease] ==> k in kvs
    ensures kvs - (set k | k in leases[lease]) == map k | k in kvs && kvs[k].lease != lease :: kvs[k]
    ensures LeasesOk(kvs - (set k | k in leases[lease]), leases - {lease})
  {
  }

  /** The keys whose lease is not among the dead. */
  function Spared(kvs: Store, dead: set<int>): Store { map k | k in kvs && kvs[k].lease !in dead :: kvs[k] }

  lemma SparedNone(kvs: Store, leases: map<int, seq<Key>>)
    ensures Spared(kvs, T.Leases({})) == kvs && leases - T.Leases({}) == leases
  {
  }

  lemma SparedMore(kvs: Store, dead: set<int>, l: int)
    ensures Spared(Spared(kvs, dead), {l}) == Spared(kvs, dead + {l})
  {
  }

  /** The keys under the prefix that are not in `todo`. */
  function Seen(kvs: Store, prefix: string, todo: set<Key>): Store {
    map k | k in kvs && k !in todo && Under(prefix, k) :: kvs[k]
  }

  lemma SeenEnds(kvs: Store, prefix: string)
    ensures Seen(kvs, prefix, kvs.Keys) == map[] && Seen(kvs, prefix, {}) == Restrict(kvs, prefix)
  {
    hide Under;
  }

  lemma SeenMore(kvs: Store, prefix: string, todo: set<Key>, k: Key)
    requires k in todo && k in kvs
    ensures var m, m' := Seen(kvs, prefix, todo), Seen(kvs, prefix, todo - {k});
            if Under(prefix, k) then m' == m[k := kvs[k]] && |m'| == |m| + 1 else m' == m
  {
    hide Under;
    var m, m' := Seen(kvs, prefix, todo), Seen(kvs, prefix, todo - {k});
    if Under(prefix, k) { assert m'.Keys == m.Keys + {k}; }
  }

  class InProcessStore {
    var kvs: Store
    var revision: nat
    var nextLeaseId: int
    var leases: map<int, seq<Key>>
    var watchers: seq<Sink>
    var cancelled: set<nat>
    var callbacks: set<T.Callback>
    var firing: set<T.Callback>
    ghost var opening: set<int>

    ghost function Book(): T.Book
      reads this
    {
      T.Book(nextLeaseId, opening, leases.Keys, cancelled, callbacks, firing)
    }

    ghost predicate Valid()
      reads this
    {
      && T.Inv(Book()) && 0 !in opening && 0 !in T.Leases(callbacks + firing)
      && LeasesOk(kvs, leases)
      && nextLeaseId > 0 && (forall l :: l in leases ==> l < nextLeaseId)
      && AllCurrent(watchers, kvs)
    }

    constructor ()
      ensures Valid() && kvs == map[] && leases == map[] && cancelled == {} && callbacks == {} && firing == {}
    {
      kvs, revision, nextLeaseId, leases, watchers := map[], 0, 1, map[], [];
      cancelled, callbacks, firing, opening := {}, {}, {}, {};
    }

    method Notify(e: WatchEvent)
      modifies this`watchers
      ensures watchers == NotifyAll(old(watchers), e)
    {
      hide NotifyAll, NotifyOne;
      var kept: seq<Sink> := [];
      var i := 0;
      NotifyNext(watchers, e, 0);
      while i < |watchers|
        invariant 0 <= i <= |watchers| && watchers == old(watchers)
        invariant NotifyAll(watchers, e) == kept + NotifyAll(watchers[i..], e)
      {
        NotifyNext(watchers, e, i);
        kept := kept + NotifyOne(watchers[i], e);
        i := i + 1;
      }
      NotifyNext(watchers, e, i);
      assert NotifyAll(watchers, e) == kept + [] == kept;
      watchers := kept;
    }

    /** A fresh lease with no keys. Cancelling its token will revoke it, unless the token is cancelled
        already: then the revocation has come and gone before there was anything to revoke. */
    method MakeLease(token: nat) returns (id: int)
      requires Valid()
      modifies this
      ensures Valid() && id !in old(leases) && leases == old(leases)[id := []]
      ensures kvs == old(kvs) && watchers == old(watchers) && cancelled == old(cancelled)
      ensures Book() == T.Next(T.Next(old(Book()), T.Reserve(token)), T.Record(id)) && id == old(nextLeaseId)
      ensures T.Callback(token, id) in callbacks <==> token !in old(cancelled)
    {
      id := ReserveLease(token);
      RecordLease(id);
    }

    /** The first step: an id, and its revocation registered with the token. */
    method ReserveLease(token: nat) returns (id: int)
      requires Valid()
      modifies this
      ensures Valid() && id == old(nextLeaseId) && id in opening && id !in old(leases) && leases == old(leases)
      ensures kvs == old(kvs) && watchers == old(watchers) && cancelled == old(cancelled)
      ensures Book() == T.Next(old(Book()), T.Reserve(token))
    {
      T.StepKeepsInv(Book(), T.Reserve(token));
      id := nextLeaseId;
      nextLeaseId := nextLeaseId + 1;
      opening := opening + {id};
      if token in cancelled {
        assert T.Inv(Book());
        var _ := RevokeLease(id);
        assert kvs == old(kvs) && leases == old(leases);
      } else {
        callbacks := callbacks + {T.Callback(token, id)};
      }
    }

    /** The second step. */
    method RecordLease(id: int)
      requires Valid() && id in opening
      modifies this`leases, this`opening
      ensures Valid() && leases == old(leases)[id := []]
      ensures Book() == T.Next(old(Book()), T.Record(id))
    {
      T.StepKeepsInv(Book(), T.Record(id));
      leases := leases[id := []];
      opening := opening - {id};
    }

    /** Cancels a token without interruption: every lease registered with it dies, and with it exactly the
        keys bound to it. */
    method CancelToken(token: nat)
      requires Valid()
      modifies this
      ensures Valid() && cancelled == old(cancelled) + {token} && firing == old(firing)
      ensures callbacks == old(callbacks) - T.Of(old(callbacks), token)
      ensures var dead := T.Leases(T.Of(old(callbacks), token));
              leases == old(leases) - dead && kvs == Spared(old(kvs), dead)
    {
      hide Spared, Valid;
      var todo := TakeCallbacks(token);
      ghost var taken, done := todo, {};
      SparedNone(kvs, leases);
      while todo != {}
        invariant Valid() && done + todo == taken && done !! todo && firing == old(firing) + todo && old(firing) !! taken
        invariant cancelled == old(cancelled) + {token}
        invariant callbacks == old(callbacks) - T.Of(old(callbacks), token)
        invariant leases == old(leases) - T.Leases(done) && kvs == Spared(old(kvs), T.Leases(done))
        decreases todo
      {
        var c :| c in todo;
        assert T.Leases(done + {c}) == T.Leases(done) + {c.lease};
        SparedMore(old(kvs), T.Leases(done), c.lease);
        FireCallback(c);
        todo, done := todo - {c}, done + {c};
      }
      assert done == taken;
    }

    /** The first step of cancelling, under the token's lock: nothing is revoked yet. */
    method TakeCallbacks(token: nat) returns (taken: set<T.Callback>)
      requires Valid()
      modifies this`cancelled, this`callbacks, this`firing
      ensures Valid() && Book() == T.Next(old(Book()), T.Cancel(token)) && cancelled == old(cancelled) + {token}
      ensures taken == T.Of(old(callbacks), token)
      ensures callbacks == old(callbacks) - taken && firing == old(firing) + taken && old(firing) !! taken
    {
      taken := {};
      if token in cancelled {
        assert T.Of(callbacks, token) == {};
        return;
      }
      T.StepKeepsInv(Book(), T.Cancel(token));
      taken := T.Of(callbacks, token);
      cancelled := cancelled + {token};
      callbacks, firing := callbacks - taken, firing + taken;
      assert callbacks + firing == old(callbacks + firing);
    }

    /** A later step: one callback that was taken revokes its lease, if it is recorded by now. */
    method FireCallback(c: T.Callback)
      requires Valid() && c in firing
      modifies this`kvs, this`leases, this`watchers, this`firing
      ensures Valid() && Book() == T.Next(old(Book()), T.Fire(c)) && firing == old(firing) - {c}
      ensures leases == old(leases) - {c.lease} && kvs == Spared(old(kvs), {c.lease})
    {
      T.StepKeepsInv(Book(), T.Fire(c));
      assert c.lease in T.Leases(callbacks + firing);
      var _ := RevokeLease(c.lease);
      firing := firing - {c};
    }

    /** Creates an absent key. A failed lease lookup leaves the store alone but has already used up
        a revision. */
    method KvCreate(key: Key, value: string, lease: int) returns (reply: Reply)
      requires Valid()
      modifies this
      ensures Valid()
      ensures reply == if key in old(kvs) then KeyExists else if lease != 0 && lease !in old(leases) then LeaseUnknown else Ok
      ensures revision == old(revision) + (if reply == KeyExists then 0 else 1)
      ensures !reply.Ok? ==> kvs == old(kvs) && leases == old(leases) && watchers == old(watchers)
      ensures reply.Ok? ==> kvs == old(kvs)[key := Entry(value, lease, revision)] && leases == Bind(old(leases), key, lease)
    {
      if key in kvs { return KeyExists; }
      revision := revision + 1;
      if lease != 0 && lease !in leases { return LeaseUnknown; }
      var entry := Entry(value, lease, revision);
      RebindOk(kvs, leases, key, entry);
      NotifyKeepsCurrent(watchers, PutEvent(key, entry), kvs);
      if lease != 0 { leases := leases[lease := leases[lease] + [key]]; }
      kvs := kvs[key := entry];
      Notify(PutEvent(key, entry));
      reply := Ok;
    }

    /** Writes a key and moves its binding from its old lease to the new one. */
    method KvPut(key: Key, value: string, lease: int) returns (reply: Reply)
      requires Valid()
      modifies this
      ensures Valid()
      ensures reply == if lease != 0 && lease !in old(leases) then LeaseUnknown else Ok
      ensures revision == old(revision) + (if reply.Ok? then 1 else 0)
      ensures !reply.Ok? ==> kvs == old(kvs) && leases == old(leases) && watchers == old(watchers)
      ensures reply.Ok? ==> kvs == old(kvs)[key := Entry(value, lease, revision)]
      ensures reply.Ok? ==> leases == Rebind(old(kvs), old(leases), key, lease)
    {
      hide LeasesOk, AllCurrent, NotifyAll, FoldEvent;
      if lease != 0 && lease !in leases { return LeaseUnknown; }
      revision := revision + 1;
      var entry := Entry(value, lease, revision);
      RebindOk(kvs, leases, key, entry);
      NotifyKeepsCurrent(watchers, PutEvent(key, entry), kvs);
      FoldPut(kvs, key, entry);
      if key in kvs {
        if kvs[key].lease != lease {
          if kvs[key].lease != 0 && kvs[key].lease in leases {
            leases := leases[kvs[key].lease := Without(leases[kvs[key].lease], key)];
          }
          if lease != 0 { leases := leases[lease := leases[lease] + [key]]; }
        }
      } else if lease != 0 {
        leases := leases[lease := leases[lease] + [key]];
      }
      kvs := kvs[key := entry];
      Notify(PutEvent(key, entry));
      reply := Ok;
    }

    /** Lease death: exactly the keys bound to it go, each with one delete event; a key that was
        rebound survives. */
    method RevokeLease(lease: int) returns (events: seq<WatchEvent>)
      requires Valid()
      modifies this`kvs, this`leases, this`watchers
      ensures Valid() && leases == old(leases) - {lease}
      ensures kvs == map k | k in old(kvs) && (lease !in old(leases) || old(kvs)[k].lease != lease) :: old(kvs)[k]
      ensures lease in old(leases) ==> |events| == |old(leases)[lease]|
      ensures lease in old(leases) ==> forall i :: 0 <= i < |events| ==> events[i] == DeleteEvent(old(leases)[lease][i])
      ensures lease !in old(leases) ==> events == [] && watchers == old(watchers)
    {
      hide FoldEvents, FoldEvent, Restrict, NotifyAll;
      events := [];
      if lease !in leases { return; }
      var keys := leases[lease];
      DeletedAre(kvs, leases, lease);
      events := DeleteKeys(keys);
      leases := leases - {lease};
      NotifyDeletes(keys, events, old(kvs));
    }

    method DeleteKeys(keys: seq<Key>) returns (events: seq<WatchEvent>)
      requires NoDup(keys) && forall k :: k in keys ==> k in kvs
      modifies this`kvs
      ensures kvs == old(kvs) - (set k | k in keys)
      ensures |events| == |keys| && forall i :: 0 <= i < |events| ==> events[i] == DeleteEvent(keys[i])
    {
      events := [];
      var i := 0;
      while i < |keys|
        invariant 0 <= i <= |keys| && |events| == i
        invariant kvs == old(kvs) - (set k | k in keys[..i])
        invariant forall j :: 0 <= j < i ==> events[j] == DeleteEvent(keys[j])
      {
        assert keys[..i + 1] == keys[..i] + [keys[i]];
        if keys[i] in kvs {
          events := events + [DeleteEvent(keys[i])];
          kvs := kvs - {keys[i]};
        }
        i := i + 1;
      }
      assert keys[..i] == keys;
    }

    method NotifyDeletes(keys: seq<Key>, events: seq<WatchEvent>, ghost was: Store)
      requires |events| == |keys| && forall i :: 0 <= i < |events| ==> events[i] == DeleteEvent(keys[i])
      requires AllCurrent(watchers, was) && kvs == was - (set k | k in keys)
      modifies this`watchers
      ensures AllCurrent(watchers, kvs)
    {
      hide AllCurrent, NotifyAll;
      ghost var m := was;
      var i := 0;
      while i < |events|
        invariant 0 <= i <= |events|
        invariant m == was - (set k | k in keys[..i])
        invariant AllCurrent(watchers, m)
      {
        assert keys[..i + 1] == keys[..i] + [keys[i]];
        NotifyKeepsCurrent(watchers, events[i], m);
        Notify(events[i]);
        m := FoldEvent(m, events[i]);
        i := i + 1;
      }
      assert keys[..i] == keys;
    }

    /** Snapshot and registration under one lock: the new watcher starts with the current keys. */
    method GetAndWatchPrefix(prefix: string)
      requires Valid()
      modifies this`watchers
      ensures Valid()
      ensures |watchers| == |old(watchers)| + 1 && watchers[..|old(watchers)|] == old(watchers)
      ensures watchers[|old(watchers)|].prefix == prefix && watchers[|old(watchers)|].open
      ensures |watchers[|old(watchers)|].events| == |Restrict(kvs, prefix)|
    {
      hide FoldEvents, Valid, Restrict;
      var events := SnapshotEvents(prefix);
      AddWatcher(Sink(prefix, events, true));
    }

    /** One put event for each key under the prefix. */
    method SnapshotEvents(prefix: string) returns (events: seq<WatchEvent>)
      ensures FoldEvents(events) == Restrict(kvs, prefix) && |events| == |Restrict(kvs, prefix)|
    {
      hide FoldEvents, Restrict, Under, Seen;
      events := [];
      var todo := kvs.Keys;
      FoldNone();
      SeenEnds(kvs, prefix);
      while todo != {}
        invariant todo <= kvs.Keys
        invariant FoldEvents(events) == Seen(kvs, prefix, todo) && |events| == |Seen(kvs, prefix, todo)|
        decreases todo
      {
        var k :| k in todo;
        SeenMore(kvs, prefix, todo, k);
        todo := todo - {k};
        if Under(prefix, k) {
          FoldAppend(events, PutEvent(k, kvs[k]));
          events := events + [PutEvent(k, kvs[k])];
        }
      }
    }

    method AddWatcher(w: Sink)
      requires Valid() && (w.open ==> FoldEvents(w.events) == Restrict(kvs, w.prefix))
      modifies this`watchers
      ensures Valid() && watchers == old(watchers) + [w]
    {
      hide FoldEvents;
      watchers := watchers + [w];
    }
  }
}
