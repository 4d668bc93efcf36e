/** discoveryd: the key-value store, its leases, its bounded event log and the fan-out to watchers.
    `Server` is the state under the server's mutex; `Exec` and `ServeWatch` say what one request does
    to it; the class `DiscoveryServer` carries the same state in fields and does it in place. */
module Server {
  import opened History
  import opened Options

  type WatchId = nat
  type ConnId = nat

  const LOG_CAPACITY: nat := 4096

  datatype Logged = Logged(rev: nat, event: Event)

  /** A watch frame as written to a connection. */
  datatype Frame =
    | Put(id: WatchId, key: Key, entry: Entry)
    | Delete(id: WatchId, key: Key, entry: Entry)
    | Sync(id: WatchId, snapshot: bool, rev: nat)

  datatype Watcher = Watcher(id: WatchId, prefix: string, conn: ConnId)

  /** `conns` maps each connection that still accepts writes to the frames written so far and not
      yet read by its peer; `history` is every mutation since the server started. */
  datatype Server = Server(
    kvs: Store,
    revision: nat,
    log: seq<Logged>,
    leases: map<int, seq<Key>>,
    nextLease: int,
    watchers: seq<Watcher>,
    conns: map<ConnId, seq<Frame>>,
    history: seq<Event>)

  const Empty := Server(map[], 0, [], map[], 1, [], map[], [])

  // ---------- the event log

  function PushLog(log: seq<Logged>, x: Logged): seq<Logged> {
    var l := log + [x];
    if |l| > LOG_CAPACITY then l[1..] else l
  }

  /** The log is the contiguous run of the newest mutations, at most 4096 of them, ending at `revision`. */
  ghost predicate LogOk(log: seq<Logged>, h: seq<Event>) {
    && |log| == (if |h| < LOG_CAPACITY then |h| else LOG_CAPACITY)
    && forall i :: 0 <= i < |log| ==> log[i] == Logged(|h| - |log| + i + 1, h[|h| - |log| + i])
  }

  predicate InLog(log: seq<Logged>, e: Event, rev: nat) { Logged(rev, e) in log }

  predicate CanReplayFrom(s: Server, from: nat) {
    from >= s.revision || (s.log != [] && s.log[0].rev <= from + 1)
  }

  lemma PushLogOk(log: seq<Logged>, h: seq<Event>, e: Event)
    requires LogOk(log, h)
    ensures LogOk(PushLog(log, Logged(|h| + 1, e)), h + [e])
  {
  }

  // ---------- fan-out

  function EventFrame(id: WatchId, e: Event, rev: nat): Frame {
    var entry := Entry(e.value, e.lease, rev);
    if e.isPut then Put(id, e.key, entry) else Delete(id, e.key, entry)
  }

  /** The event at one watcher: not for it, written to its connection, or refused, which drops it. */
  function FanoutOne(w: Watcher, conns: map<ConnId, seq<Frame>>, e: Event, rev: nat)
    : (r: (seq<Watcher>, map<ConnId, seq<Frame>>))
    ensures r.1.Keys == conns.Keys && (r.0 == [w] || r.0 == [])
  {
    if !Under(w.prefix, e.key) then ([w], conns)
    else if w.conn !in conns then ([], conns)
    else ([w], conns[w.conn := conns[w.conn] + [EventFrame(w.id, e, rev)]])
  }

  /** Writes the event to every matching watcher; one whose connection refuses the write is dropped. */
  function Fanout(ws: seq<Watcher>, conns: map<ConnId, seq<Frame>>, e: Event, rev: nat)
    : (r: (seq<Watcher>, map<ConnId, seq<Frame>>))
    ensures r.1.Keys == conns.Keys
    ensures forall w :: w in r.0 ==> w in ws
  {
    if ws == [] then ([], conns)
    else
      var one := FanoutOne(ws[0], conns, e, rev);
      var rest := Fanout(ws[1..], one.1, e, rev);
      (one.0 + rest.0, rest.1)
  }

  function Notify(s: Server, e: Event): Server {
    var f := Fanout(s.watchers, s.conns, e, s.revision + 1);
    s.(revision := s.revision + 1, log := PushLog(s.log, Logged(s.revision + 1, e)),
       watchers := f.0, conns := f.1, history := s.history + [e])
  }

  /** A mutation as a request performs it: logged, fanned out, and applied to the store. */
  function Mutate(s: Server, e: Event): Server {
    Notify(s, e).(kvs := Apply(s.kvs, e, s.revision + 1))
  }

  // ---------- leases

  function Without(keys: seq<Key>, k: Key): (r: seq<Key>)
    ensures forall x :: x in r <==> x in keys && x != k
    ensures NoDup(keys) ==> NoDup(r)
  {
    if keys == [] then [] else
    var rest := Without(keys[1..], k);
    assert NoDup(keys) ==> NoDup(keys[1..]) && forall i :: 0 < i < |keys| ==> keys[i] != keys[0];
    assert NoDup(keys) ==> keys[0] !in rest;
    if keys[0] == k then rest else [keys[0]] + rest
  }

  predicate NoDup<T(==)>(s: seq<T>) {
    forall i, j :: 0 <= i < j < |s| ==> s[i] != s[j]
  }

  function Bind(leases: map<int, seq<Key>>, k: Key, lease: int): map<int, seq<Key>>
    requires lease == 0 || lease in leases
  {
    if lease == 0 then leases else leases[lease := leases[lease] + [k]]
  }

  function Unbind(leases: map<int, seq<Key>>, k: Key, lease: int): map<int, seq<Key>> {
    if lease == 0 || lease !in leases then leases else leases[lease := Without(leases[lease], k)]
  }

  /** The leases once `k` is written under `lease`, wherever it was bound before. */
  function Rebind(kvs: Store, leases: map<int, seq<Key>>, k: Key, lease: int): map<int, seq<Key>>
    requires lease == 0 || lease in leases
  {
    if k !in kvs then Bind(leases, k, lease)
    else if kvs[k].lease == lease then leases
    else Bind(Unbind(leases, k, kvs[k].lease), k, lease)
  }

  /** A key carries a non-zero lease exactly when that lease is alive and lists the key, and it
      lists it once. */
  ghost predicate LeasesOk(kvs: Store, leases: map<int, seq<Key>>) {
    && 0 !in leases
    && (forall l :: l in leases ==> NoDup(leases[l]))
    && (forall l, k :: l in leases && k in leases[l] ==> k in kvs && kvs[k].lease == l)
    && (forall k :: k in kvs && kvs[k].lease != 0 ==> kvs[k].lease in leases && k in leases[kvs[k].lease])
  }

  function ExpireKeys(s: Server, keys: seq<Key>, lease: int): (r: Server)
    ensures r.leases == s.leases && r.nextLease == s.nextLease
    decreases keys
  {
    if keys == [] then s
    else
      var k := keys[0];
      ExpireKeys(if k in s.kvs then Mutate(s, Event(false, k, lease, s.kvs[k].value)) else s, keys[1..], lease)
  }

  function ExpireLease(s: Server, lease: int): Server {
    if lease !in s.leases then s
    else ExpireKeys(s, s.leases[lease], lease).(leases := s.leases - {lease})
  }

  // ---------- requests that change the store

  datatype Op =
    | CreateLease
    | Revoke(lease: int)
    | KvCreate(key: Key, value: string, lease: int)
    | KvPut(key: Key, value: string, lease: int)
    | KvCreateOrValidate(key: Key, value: string, lease: int)

  datatype Reply = Ok | LeaseGranted(lease: int) | KeyExists | LeaseUnknown | ValueDiffers

  predicate LeaseMissing(s: Server, lease: int) { lease != 0 && lease !in s.leases }

  function PutBound(s: Server, leases: map<int, seq<Key>>, key: Key, value: string, lease: int): Server {
    Mutate(s.(leases := leases), Event(true, key, lease, value))
  }

  function Exec(s: Server, op: Op): (Server, Reply) {
    match op
    case CreateLease =>
      (s.(leases := s.leases[s.nextLease := []], nextLease := s.nextLease + 1), LeaseGranted(s.nextLease))
    case Revoke(lease) => (ExpireLease(s, lease), Ok)
    case KvCreate(key, value, lease) =>
      if key in s.kvs then (s, KeyExists)
      else if LeaseMissing(s, lease) then (s, LeaseUnknown)
      else (PutBound(s, Bind(s.leases, key, lease), key, value, lease), Ok)
    case KvPut(key, value, lease) =>
      if LeaseMissing(s, lease) then (s, LeaseUnknown)
      else (PutBound(s, Rebind(s.kvs, s.leases, key, lease), key, value, lease), Ok)
    case KvCreateOrValidate(key, value, lease) =>
      if key in s.kvs then (s, if s.kvs[key].value != value then ValueDiffers else Ok)
      else if LeaseMissing(s, lease) then (s, LeaseUnknown)
      else (PutBound(s, Bind(s.leases, key, lease), key, value, lease), Ok)
  }

  // ---------- watch and unwatch

  function Unregister(ws: seq<Watcher>, id: WatchId, conn: ConnId): seq<Watcher> {
    if ws == [] then [] else
    (if ws[0].id == id && ws[0].conn == conn then [] else [ws[0]]) + Unregister(ws[1..], id, conn)
  }

  function UnregisterId(ws: seq<Watcher>, id: WatchId): seq<Watcher> {
    if ws == [] then [] else
    (if ws[0].id == id then [] else [ws[0]]) + UnregisterId(ws[1..], id)
  }

  function UnregisterConn(ws: seq<Watcher>, conn: ConnId): seq<Watcher> {
    if ws == [] then [] else
    (if ws[0].conn == conn then [] else [ws[0]]) + UnregisterConn(ws[1..], conn)
  }

  function ReplayFrames(log: seq<Logged>, from: nat, prefix: string, id: WatchId): seq<Frame> {
    if log == [] then []
    else
      (if log[0].rev <= from || !Under(prefix, log[0].event.key) then []
       else [EventFrame(id, log[0].event, log[0].rev)]) + ReplayFrames(log[1..], from, prefix, id)
  }

  function SnapshotFrames(kvs: Store, order: seq<Key>, id: WatchId): seq<Frame>
    requires forall k :: k in order ==> k in kvs
  {
    if order == [] then [] else [Put(id, order[0], kvs[order[0]])] + SnapshotFrames(kvs, order[1..], id)
  }

  /** `order` walks the keys under `prefix`, each once. */
  ghost predicate Enumerates(order: seq<Key>, kvs: Store, prefix: string) {
    && NoDup(order)
    && forall k :: k in order <==> k in kvs && Under(prefix, k)
  }

  function WatchFrames(s: Server, id: WatchId, prefix: string, from: Option<nat>, order: seq<Key>): seq<Frame>
    requires forall k :: k in order ==> k in s.kvs
  {
    if from.Some? && CanReplayFrom(s, from.value)
    then ReplayFrames(s.log, from.value, prefix, id) + [Sync(id, false, s.revision)]
    else SnapshotFrames(s.kvs, order, id) + [Sync(id, true, s.revision)]
  }

  /** A watch request: resync frames first, then registration, replacing one with the same id and connection. */
  function ServeWatch(s: Server, conn: ConnId, id: WatchId, prefix: string, from: Option<nat>, order: seq<Key>): Server
    requires conn in s.conns
    requires forall k :: k in order ==> k in s.kvs
  {
    s.(conns := s.conns[conn := s.conns[conn] + WatchFrames(s, id, prefix, from, order)],
       watchers := Unregister(s.watchers, id, conn) + [Watcher(id, prefix, conn)])
  }

  // ---------- what every request keeps

  /** Store, revision and log are what the history says. */
  ghost predicate Recorded(kvs: Store, revision: nat, log: seq<Logged>, h: seq<Event>) {
    revision == |h| && kvs == StoreAt(h, |h|) && LogOk(log, h)
  }

  ghost predicate StoreOk(s: Server) { Recorded(s.kvs, s.revision, s.log, s.history) }

  ghost predicate Valid(s: Server) {
    && StoreOk(s)
    && LeasesOk(s.kvs, s.leases)
    && s.nextLease > 0 && (forall l :: l in s.leases ==> l < s.nextLease)
  }

  lemma MutateOk(s: Server, e: Event)
    requires StoreOk(s)
    ensures StoreOk(Mutate(s, e))
  {
    PushLogOk(s.log, s.history, e);
    StoreAtAppend(s.history, e);
  }

  lemma RebindOk(kvs: Store, leases: map<int, seq<Key>>, key: Key, entry: Entry)
    requires LeasesOk(kvs, leases) && (entry.lease == 0 || entry.lease in leases)
    ensures LeasesOk(kvs[key := entry], Rebind(kvs, leases, key, entry.lease))
  {
    var kvs' := kvs[key := entry];
    var leases' := Rebind(kvs, leases, key, entry.lease);
    assert forall l :: l in leases' <==> l in leases;
    forall l | l in leases'
      ensures NoDup(leases'[l])
      ensures forall k :: k in leases'[l] ==> k in kvs' && kvs'[k].lease == l
    {
      assert NoDup(leases[l]);
    }
  }

  lemma RebindKeys(kvs: Store, leases: map<int, seq<Key>>, key: Key, lease: int)
    requires lease == 0 || lease in leases
    ensures Rebind(kvs, leases, key, lease).Keys == leases.Keys
  {
  }

  function Deletes(s: Server, keys: seq<Key>, lease: int): seq<Event>
    requires forall k :: k in keys ==> k in s.kvs
  {
    if keys == [] then [] else [Event(false, keys[0], lease, s.kvs[keys[0]].value)] + Deletes(s, keys[1..], lease)
  }

  /** Expiring a list of distinct live keys deletes exactly those, one logged delete per key, in order. */
  lemma {:induction false} ExpireKeysEffect(s: Server, keys: seq<Key>, lease: int)
    requires StoreOk(s) && NoDup(keys) && forall k :: k in keys ==> k in s.kvs
    ensures var r := ExpireKeys(s, keys, lease);
            && StoreOk(r) && r.kvs == s.kvs - (set k | k in keys)
            && r.history == s.history + Deletes(s, keys, lease)
    decreases keys
  {
    hide Recorded, Fanout, PushLog, Apply;
    if keys == [] {
      assert s.history + [] == s.history;
    } else {
      var e := Event(false, keys[0], lease, s.kvs[keys[0]].value);
      var s1 := Mutate(s, e);
      MutateOk(s, e);
      ApplyDelete(s.kvs, e, s.revision + 1);
      forall k | k in keys[1..] ensures k != keys[0] { }
      ExpireKeysEffect(s1, keys[1..], lease);
      DeletesSame(s, s1, keys[1..], lease);
      assert (set k | k in keys) == {keys[0]} + (set k | k in keys[1..]);
      assert s.history + ([e] + Deletes(s, keys[1..], lease)) == (s.history + [e]) + Deletes(s, keys[1..], lease);
    }
  }

  lemma ApplyDelete(kvs: Store, e: Event, rev: nat)
    requires !e.isPut
    ensures Apply(kvs, e, rev) == kvs - {e.key}
  {
  }

  lemma {:induction false} DeletesSame(s: Server, s': Server, keys: seq<Key>, lease: int)
    requires forall k :: k in keys ==> k in s.kvs && k in s'.kvs && s.kvs[k] == s'.kvs[k]
    ensures Deletes(s, keys, lease) == Deletes(s', keys, lease)
  {
    if keys != [] { DeletesSame(s, s', keys[1..], lease); }
  }

  /** Lease death removes exactly the keys bound to it at that moment, with one logged delete each;
      a key rebound to another lease, or to none, survives. */
  lemma LeaseDeath(s: Server, lease: int)
    requires Valid(s) && lease in s.leases
    ensures var r := ExpireLease(s, lease);
            && Valid(r)
            && lease !in r.leases
            && (forall k :: k in r.kvs <==> k in s.kvs && s.kvs[k].lease != lease)
            && (forall k :: k in r.kvs ==> r.kvs[k] == s.kvs[k])
            && r.history == s.history + Deletes(s, s.leases[lease], lease)
            && (forall k :: k in s.leases[lease] <==> k in s.kvs && s.kvs[k].lease == lease)
  {
    hide Recorded, ExpireKeys, Deletes;
    BoundAre(s.kvs, s.leases, lease);
    ExpireKeysEffect(s, s.leases[lease], lease);
  }

  /** A live lease's list is exactly the keys that carry it; without both the bindings are right. */
  lemma BoundAre(kvs: Store, leases: map<int, seq<Key>>, lease: int)
    requires LeasesOk(kvs, leases) && lease in leases
    ensures NoDup(leases[lease]) && forall k :: k in leases[lease] <==> k in kvs && kvs[k].lease == lease
    ensures LeasesOk(kvs - (set k | k in leases[lease]), leases - {lease})
  {
  }

  /** Every store request keeps the log, the store and the lease bindings consistent. */
  lemma ExecValid(s: Server, op: Op)
    requires Valid(s)
    ensures Valid(Exec(s, op).0)
  {
    match op
    case CreateLease =>
    case Revoke(lease) => if lease in s.leases { LeaseDeath(s, lease); }
    case KvCreate(key, value, lease) => if Exec(s, op).1.Ok? { PutBoundValid(s, key, value, lease); }
    case KvPut(key, value, lease) => if Exec(s, op).1.Ok? { PutBoundValid(s, key, value, lease); }
    case KvCreateOrValidate(key, value, lease) =>
      if key !in s.kvs && !LeaseMissing(s, lease) { PutBoundValid(s, key, value, lease); }
  }

  lemma PutBoundValid(s: Server, key: Key, value: string, lease: int)
    requires Valid(s) && !LeaseMissing(s, lease)
    ensures Valid(PutBound(s, Rebind(s.kvs, s.leases, key, lease), key, value, lease))
  {
    hide LeasesOk, Recorded, Rebind;
    RebindOk(s.kvs, s.leases, key, Entry(value, lease, s.revision + 1));
    RebindKeys(s.kvs, s.leases, key, lease);
    MutateOk(s.(leases := Rebind(s.kvs, s.leases, key, lease)), Event(true, key, lease, value));
  }
}
