/** Whole runs of one client against discoveryd, with other clients' requests and connections in
    between: store requests, lease deaths, watch requests, frame delivery, connection cuts that lose
    everything in flight, and resubscription. */
module Protocol {
  import opened History
  import opened Server
  import opened Watch
  import opened Options

  datatype Request =
    | WatchReq(id: WatchId, prefix: string, from: Option<nat>)
    | UnwatchReq(id: WatchId)

  /** `toServer` is the client's unread requests on its current connection `conn`; the frames
      coming back are `server.conns[conn]`. */
  datatype World = World(
    server: Server,
    watches: map<WatchId, Watch>,
    nextId: WatchId,
    conn: ConnId,
    nextConn: ConnId,
    toServer: seq<Request>)

  const Init := World(Empty.(conns := map[0 := []]), map[], 1, 0, 1, [])

  datatype Step =
    | Request(op: Op)                                   // a store request of any client, or a lease expiring
    | OpenWatch(prefix: string)                         // the record exists before its request is written
    | AskWatch(id: WatchId)                             // the request that follows OpenWatch
    | DropWatch(id: WatchId)                            // the consumer is gone
    | Serve(order: seq<Key>)                            // the server handles this client's next request
    | Deliver                                           // the client routes the next frame
    | Reconnect(ids: seq<WatchId>)                      // cut, new connection, resubscribe everything
    | ForgetConn(conn: ConnId)                          // the server notices that a connection closed
    | ForeignConnect
    | ForeignWatch(conn: ConnId, id: WatchId, prefix: string, from: Option<nat>, order: seq<Key>)
    | ForeignUnwatch(id: WatchId)

  function For(fs: seq<Frame>, id: WatchId): seq<Frame> {
    if fs == [] then [] else (if fs[0].id == id then [fs[0]] else []) + For(fs[1..], id)
  }

  /** The prefixes registered under `id` on `conn`: none, or the one of the record. */
  function Prefixes(ws: seq<Watcher>, id: WatchId, conn: ConnId): seq<string> {
    if ws == [] then []
    else (if ws[0].id == id && ws[0].conn == conn then [ws[0].prefix] else []) + Prefixes(ws[1..], id, conn)
  }

  function Inbox(w: World, id: WatchId): seq<Frame>
    requires w.conn in w.server.conns
  {
    For(w.server.conns[w.conn], id)
  }

  predicate Registered(w: World, id: WatchId) { Prefixes(w.server.watchers, id, w.conn) != [] }

  function Resubscriptions(watches: map<WatchId, Watch>, order: seq<WatchId>): seq<Request>
    requires forall id :: id in order ==> id in watches
  {
    if order == [] then []
    else [WatchReq(order[0], watches[order[0]].prefix, ResumeFrom(watches[order[0]]))] + Resubscriptions(watches, order[1..])
  }

  // ---------- one step

  ghost predicate Enabled(w: World, step: Step) {
    && w.conn in w.server.conns
    && match step
       case Request(_) => true
       case OpenWatch(_) => true
       case AskWatch(id) => id in w.watches
       case DropWatch(id) => id in w.watches
       case Serve(order) =>
         w.toServer != [] && (w.toServer[0].WatchReq? ==> Enumerates(order, w.server.kvs, w.toServer[0].prefix))
       case Deliver => w.server.conns[w.conn] != []
       case Reconnect(ids) => NoDup(ids) && forall id :: id in ids <==> id in w.watches
       case ForgetConn(conn) => conn != w.conn
       case ForeignConnect => true
       case ForeignWatch(conn, _, prefix, _, order) =>
         conn != w.conn && conn in w.server.conns && Enumerates(order, w.server.kvs, prefix)
       case ForeignUnwatch(id) => id !in w.watches
  }

  function Next(w: World, step: Step): World
    requires Enabled(w, step)
  {
    var s := w.server;
    match step
    case Request(op) => w.(server := Exec(s, op).0)
    case OpenWatch(prefix) => w.(watches := w.watches[w.nextId := Opened(prefix)], nextId := w.nextId + 1)
    case AskWatch(id) => w.(toServer := w.toServer + [WatchReq(id, w.watches[id].prefix, None)])
    case DropWatch(id) => w.(watches := w.watches - {id}, toServer := w.toServer + [UnwatchReq(id)])
    case Serve(order) =>
      (match w.toServer[0]
       case WatchReq(id, prefix, from) =>
         w.(server := ServeWatch(s, w.conn, id, prefix, from, order), toServer := w.toServer[1..])
       case UnwatchReq(id) =>
         w.(server := s.(watchers := UnregisterId(s.watchers, id)), toServer := w.toServer[1..]))
    case Deliver =>
      var f := s.conns[w.conn][0];
      w.(server := s.(conns := s.conns[w.conn := s.conns[w.conn][1..]]),
         watches := if f.id in w.watches then w.watches[f.id := Route(w.watches[f.id], f)] else w.watches)
    case Reconnect(ids) =>
      w.(server := s.(conns := (s.conns - {w.conn})[w.nextConn := []]),
         watches := map id | id in w.watches :: Resync(w.watches[id]),
         conn := w.nextConn, nextConn := w.nextConn + 1,
         toServer := Resubscriptions(w.watches, ids))
    case ForgetConn(conn) =>
      w.(server := s.(watchers := UnregisterConn(s.watchers, conn), conns := s.conns - {conn}))
    case ForeignConnect => w.(server := s.(conns := s.conns[w.nextConn := []]), nextConn := w.nextConn + 1)
    case ForeignWatch(conn, id, prefix, from, order) =>
      w.(server := ServeWatch(s, conn, id, prefix, from, order))
    case ForeignUnwatch(id) => w.(server := s.(watchers := UnregisterId(s.watchers, id)))
  }

  /** The one restriction on runs: a connection is not cut while a watch has part of a snapshot. */
  ghost predicate CutAllowed(w: World, step: Step)
    requires w.conn in w.server.conns
  {
    step.Reconnect? ==> forall id :: id in w.watches ==> !Torn(w.watches[id], Inbox(w, id))
  }

  ghost predicate IsRun(w: World, steps: seq<Step>)
    decreases steps
  {
    steps == [] || (Enabled(w, steps[0]) && CutAllowed(w, steps[0]) && IsRun(Next(w, steps[0]), steps[1..]))
  }

  function Run(w: World, steps: seq<Step>): World
    requires IsRun(w, steps)
    decreases steps
  {
    if steps == [] then w else Run(Next(w, steps[0]), steps[1..])
  }

  // ---------- the invariant

  ghost predicate WatchOk(all: seq<Frame>, ws: seq<Watcher>, h: seq<Event>, conn: ConnId, id: WatchId, w: Watch) {
    var fs := For(all, id);
    var ps := Prefixes(ws, id, conn);
    (ps == [] && Waiting(w, fs, h)) || (ps == [w.prefix] && Streams(w, fs, h))
  }

  ghost predicate Unknown(all: seq<Frame>, ws: seq<Watcher>, conn: ConnId, id: WatchId) {
    For(all, id) == [] && Prefixes(ws, id, conn) == []
  }

  ghost predicate Linked(s: Server, conn: ConnId, watches: map<WatchId, Watch>, nextId: WatchId) {
    && StoreOk(s)
    && conn in s.conns
    && (forall id :: id in watches ==> id < nextId && WatchOk(s.conns[conn], s.watchers, s.history, conn, id, watches[id]))
    && (forall id :: id >= nextId ==> Unknown(s.conns[conn], s.watchers, conn, id))
  }

  ghost predicate ConnsOk(s: Server, conn: ConnId, nextConn: ConnId) {
    && conn < nextConn
    && (forall c :: c in s.conns ==> c < nextConn)
    && (forall x :: x in s.watchers ==> x.conn < nextConn)
  }

  /** A request to resume from a revision is the first for its id on this connection and asks for
      exactly what the record has. */
  ghost predicate RequestOk(qs: seq<Request>, i: nat, watches: map<WatchId, Watch>, nextId: WatchId, ws: seq<Watcher>,
                            conn: ConnId)
    requires i < |qs|
  {
    var q := qs[i];
    && q.id < nextId
    && (q.UnwatchReq? ==> q.id !in watches)
    && (q.WatchReq? && q.id in watches ==>
          && q.prefix == watches[q.id].prefix
          && (q.from.Some? ==>
                && Prefixes(ws, q.id, conn) == []
                && q.from.value == watches[q.id].lastRev
                && forall j :: 0 <= j < i ==> qs[j].id != q.id))
  }

  ghost predicate RequestsOk(qs: seq<Request>, watches: map<WatchId, Watch>, nextId: WatchId, ws: seq<Watcher>,
                             conn: ConnId) {
    forall i :: 0 <= i < |qs| ==> RequestOk(qs, i, watches, nextId, ws, conn)
  }

  ghost predicate Inv(w: World) {
    && Valid(w.server)
    && Linked(w.server, w.conn, w.watches, w.nextId)
    && ConnsOk(w.server, w.conn, w.nextConn)
    && RequestsOk(w.toServer, w.watches, w.nextId, w.server.watchers, w.conn)
  }

  /** What a change of records and registrations must leave alone for a pending request. */
  ghost predicate RequestKept(q: Request, watches: map<WatchId, Watch>, ws: seq<Watcher>, conn: ConnId,
                              watches': map<WatchId, Watch>, ws': seq<Watcher>) {
    q.id in watches' ==>
      && q.id in watches
      && watches'[q.id].prefix == watches[q.id].prefix
      && (Prefixes(ws, q.id, conn) == [] && q.WatchReq? && q.from.Some? ==>
            Prefixes(ws', q.id, conn) == [] && watches'[q.id].lastRev == watches[q.id].lastRev)
  }

  lemma RequestsKept(qs: seq<Request>, watches: map<WatchId, Watch>, nextId: WatchId, ws: seq<Watcher>, conn: ConnId,
                     watches': map<WatchId, Watch>, nextId': WatchId, ws': seq<Watcher>)
    requires RequestsOk(qs, watches, nextId, ws, conn) && nextId <= nextId'
    requires forall q :: q in qs && q.id < nextId ==> RequestKept(q, watches, ws, conn, watches', ws')
    ensures RequestsOk(qs, watches', nextId', ws', conn)
  {
    forall i | 0 <= i < |qs| ensures RequestOk(qs, i, watches', nextId', ws', conn) {
      assert RequestOk(qs, i, watches, nextId, ws, conn);
      assert qs[i] in qs;
      assert RequestKept(qs[i], watches, ws, conn, watches', ws');
    }
  }

  lemma RequestsTail(qs: seq<Request>, watches: map<WatchId, Watch>, nextId: WatchId, ws: seq<Watcher>, conn: ConnId)
    requires qs != [] && RequestsOk(qs, watches, nextId, ws, conn)
    ensures RequestsOk(qs[1..], watches, nextId, ws, conn)
    ensures forall q :: q in qs[1..] && q.WatchReq? && q.id in watches && q.from.Some? ==> q.id != qs[0].id
  {
    forall i | 0 <= i < |qs| - 1 ensures RequestOk(qs[1..], i, watches, nextId, ws, conn) {
      assert RequestOk(qs, i + 1, watches, nextId, ws, conn);
    }
    forall q | q in qs[1..] && q.WatchReq? && q.id in watches && q.from.Some? ensures q.id != qs[0].id {
      var i :| 0 <= i < |qs| - 1 && qs[1..][i] == q;
      assert RequestOk(qs, i + 1, watches, nextId, ws, conn);
    }
  }

  // ---------- frames and registrations, one id at a time

  lemma {:induction false} ForAppend(a: seq<Frame>, b: seq<Frame>, id: WatchId)
    ensures For(a + b, id) == For(a, id) + For(b, id)
  {
    if a == [] {
      assert a + b == b;
    } else {
      assert (a + b)[1..] == a[1..] + b;
      ForAppend(a[1..], b, id);
      var h := if a[0].id == id then [a[0]] else [];
      assert h + (For(a[1..], id) + For(b, id)) == (h + For(a[1..], id)) + For(b, id);
    }
  }

  lemma {:induction false} ForAll(fs: seq<Frame>, id: WatchId, other: WatchId)
    requires forall f :: f in fs ==> f.id == id
    ensures For(fs, other) == if other == id then fs else []
  {
    if fs != [] { ForAll(fs[1..], id, other); }
  }

  lemma {:induction false} PrefixesAppend(a: seq<Watcher>, b: seq<Watcher>, id: WatchId, conn: ConnId)
    ensures Prefixes(a + b, id, conn) == Prefixes(a, id, conn) + Prefixes(b, id, conn)
  {
    if a == [] {
      assert a + b == b;
    } else {
      assert (a + b)[1..] == a[1..] + b;
      PrefixesAppend(a[1..], b, id, conn);
      var h := if a[0].id == id && a[0].conn == conn then [a[0].prefix] else [];
      assert h + (Prefixes(a[1..], id, conn) + Prefixes(b, id, conn)) == (h + Prefixes(a[1..], id, conn)) + Prefixes(b, id, conn);
    }
  }

  lemma {:induction false} PrefixesNoConn(ws: seq<Watcher>, id: WatchId, conn: ConnId)
    requires forall x :: x in ws ==> x.conn != conn
    ensures Prefixes(ws, id, conn) == []
  {
    if ws != [] { PrefixesNoConn(ws[1..], id, conn); }
  }

  lemma {:induction false} PrefixesUnregister(ws: seq<Watcher>, id: WatchId, conn: ConnId, other: WatchId, c: ConnId)
    ensures Prefixes(Unregister(ws, id, conn), other, c) == if other == id && c == conn then [] else Prefixes(ws, other, c)
    ensures forall x :: x in Unregister(ws, id, conn) ==> x in ws
  {
    if ws != [] {
      PrefixesUnregister(ws[1..], id, conn, other, c);
      var head := if ws[0].id == id && ws[0].conn == conn then [] else [ws[0]];
      PrefixesAppend(head, Unregister(ws[1..], id, conn), other, c);
      if head != [] { assert head[1..] == []; }
    }
  }

  lemma {:induction false} PrefixesUnregisterId(ws: seq<Watcher>, id: WatchId, other: WatchId, c: ConnId)
    ensures Prefixes(UnregisterId(ws, id), other, c) == if other == id then [] else Prefixes(ws, other, c)
    ensures forall x :: x in UnregisterId(ws, id) ==> x in ws
  {
    if ws != [] {
      PrefixesUnregisterId(ws[1..], id, other, c);
      var head := if ws[0].id == id then [] else [ws[0]];
      PrefixesAppend(head, UnregisterId(ws[1..], id), other, c);
      if head != [] { assert head[1..] == []; }
    }
  }

  lemma {:induction false} PrefixesUnregisterConn(ws: seq<Watcher>, conn: ConnId, other: WatchId, c: ConnId)
    requires c != conn
    ensures Prefixes(UnregisterConn(ws, conn), other, c) == Prefixes(ws, other, c)
    ensures forall x :: x in UnregisterConn(ws, conn) ==> x in ws
  {
    if ws != [] {
      PrefixesUnregisterConn(ws[1..], conn, other, c);
      var head := if ws[0].conn == conn then [] else [ws[0]];
      PrefixesAppend(head, UnregisterConn(ws[1..], conn), other, c);
      if head != [] { assert head[1..] == []; }
    }
  }

  function EventFrames(ps: seq<string>, id: WatchId, e: Event, rev: nat): seq<Frame> {
    if ps == [] then []
    else (if Under(ps[0], e.key) then [EventFrame(id, e, rev)] else []) + EventFrames(ps[1..], id, e, rev)
  }

  lemma {:induction false} EventFramesAppend(ps: seq<string>, qs: seq<string>, id: WatchId, e: Event, rev: nat)
    ensures EventFrames(ps + qs, id, e, rev) == EventFrames(ps, id, e, rev) + EventFrames(qs, id, e, rev)
  {
    if ps == [] {
      assert ps + qs == qs;
    } else {
      assert (ps + qs)[1..] == ps[1..] + qs;
      EventFramesAppend(ps[1..], qs, id, e, rev);
      var h := if Under(ps[0], e.key) then [EventFrame(id, e, rev)] else [];
      var x, y := EventFrames(ps[1..], id, e, rev), EventFrames(qs, id, e, rev);
      assert h + (x + y) == (h + x) + y;
    }
  }

  lemma FanoutOneFor(x: Watcher, conns: map<ConnId, seq<Frame>>, e: Event, rev: nat, id: WatchId, conn: ConnId)
    requires conn in conns
    ensures var r := FanoutOne(x, conns, e, rev);
            && Prefixes(r.0, id, conn) == Prefixes([x], id, conn)
            && For(r.1[conn], id) == For(conns[conn], id) + EventFrames(Prefixes([x], id, conn), id, e, rev)
  {
    var f := EventFrame(x.id, e, rev);
    assert [x][1..] == [] && [x.prefix][1..] == [];
    ForAll([f], x.id, id);
    if x.conn in conns { ForAppend(conns[x.conn], [f], id); }
  }

  /** Fan-out seen from one id on one live connection: its registrations stay and each matching one
      gets the frame once. */
  lemma {:induction false} FanoutFor(ws: seq<Watcher>, conns: map<ConnId, seq<Frame>>, e: Event, rev: nat,
                                     id: WatchId, conn: ConnId)
    requires conn in conns
    ensures var r := Fanout(ws, conns, e, rev);
            && Prefixes(r.0, id, conn) == Prefixes(ws, id, conn)
            && For(r.1[conn], id) == For(conns[conn], id) + EventFrames(Prefixes(ws, id, conn), id, e, rev)
    decreases ws
  {
    hide FanoutOne;
    if ws != [] {
      var one := FanoutOne(ws[0], conns, e, rev);
      var rest := Fanout(ws[1..], one.1, e, rev);
      FanoutOneFor(ws[0], conns, e, rev, id, conn);
      FanoutFor(ws[1..], one.1, e, rev, id, conn);
      PrefixesAppend(one.0, rest.0, id, conn);
      assert ws == [ws[0]] + ws[1..];
      PrefixesAppend([ws[0]], ws[1..], id, conn);
      EventFramesAppend(Prefixes([ws[0]], id, conn), Prefixes(ws[1..], id, conn), id, e, rev);
    }
  }

  // ---------- store requests keep every watch linked

  lemma WatchOkMutate(s: Server, conn: ConnId, id: WatchId, w: Watch, e: Event)
    requires conn in s.conns && s.revision == |s.history|
    requires WatchOk(s.conns[conn], s.watchers, s.history, conn, id, w)
    ensures var f := Fanout(s.watchers, s.conns, e, s.revision + 1);
            WatchOk(f.1[conn], f.0, s.history + [e], conn, id, w)
  {
    FanoutFor(s.watchers, s.conns, e, s.revision + 1, id, conn);
    if Prefixes(s.watchers, id, conn) == [] {
      StoreAtPrefix(s.history, [e], w.lastRev);
    } else {
      var fs := For(s.conns[conn], id);
      StreamsMutation(w, fs, id, s.history, e);
      assert EventFrames([w.prefix], id, e, s.revision + 1)
          == if Under(w.prefix, e.key) then [EventFrame(id, e, s.revision + 1)] else [] by { assert [w.prefix][1..] == []; }
    }
  }

  lemma LinkedMutate(s: Server, conn: ConnId, watches: map<WatchId, Watch>, nextId: WatchId, e: Event)
    requires Linked(s, conn, watches, nextId)
    ensures Linked(Mutate(s, e), conn, watches, nextId)
  {
    MutateOk(s, e);
    var f := Fanout(s.watchers, s.conns, e, s.revision + 1);
    forall id | id in watches ensures WatchOk(f.1[conn], f.0, s.history + [e], conn, id, watches[id]) {
      WatchOkMutate(s, conn, id, watches[id], e);
    }
    forall id | id >= nextId ensures Unknown(f.1[conn], f.0, conn, id) {
      assert Unknown(s.conns[conn], s.watchers, conn, id);
      FanoutFor(s.watchers, s.conns, e, s.revision + 1, id, conn);
    }
  }

  lemma {:induction false} LinkedExpireKeys(s: Server, conn: ConnId, watches: map<WatchId, Watch>, nextId: WatchId,
                                            keys: seq<Key>, lease: int)
    requires Linked(s, conn, watches, nextId)
    ensures Linked(ExpireKeys(s, keys, lease), conn, watches, nextId)
    ensures ExpireKeys(s, keys, lease).conns.Keys == s.conns.Keys
    ensures forall x :: x in ExpireKeys(s, keys, lease).watchers ==> x in s.watchers
    decreases keys
  {
    if keys != [] {
      var k := keys[0];
      var s1 := if k in s.kvs then Mutate(s, Event(false, k, lease, s.kvs[k].value)) else s;
      if k in s.kvs { LinkedMutate(s, conn, watches, nextId, Event(false, k, lease, s.kvs[k].value)); }
      LinkedExpireKeys(s1, conn, watches, nextId, keys[1..], lease);
    }
  }

  lemma LinkedExec(s: Server, conn: ConnId, watches: map<WatchId, Watch>, nextId: WatchId, op: Op)
    requires Linked(s, conn, watches, nextId)
    ensures Linked(Exec(s, op).0, conn, watches, nextId)
    ensures Exec(s, op).0.conns.Keys == s.conns.Keys
    ensures forall x :: x in Exec(s, op).0.watchers ==> x in s.watchers
  {
    match op
    case CreateLease =>
    case Revoke(lease) =>
      if lease in s.leases { LinkedExpireKeys(s, conn, watches, nextId, s.leases[lease], lease); }
    case KvCreate(key, value, lease) =>
      if Exec(s, op).1.Ok? {
        LinkedMutate(s.(leases := Bind(s.leases, key, lease)), conn, watches, nextId, Event(true, key, lease, value));
      }
    case KvPut(key, value, lease) =>
      if Exec(s, op).1.Ok? {
        LinkedMutate(s.(leases := Rebind(s.kvs, s.leases, key, lease)), conn, watches, nextId, Event(true, key, lease, value));
      }
    case KvCreateOrValidate(key, value, lease) =>
      if key !in s.kvs && !LeaseMissing(s, lease) {
        LinkedMutate(s.(leases := Bind(s.leases, key, lease)), conn, watches, nextId, Event(true, key, lease, value));
      }
  }

  /** Registrations change only on the connection that serves a request, so an op keeps them. */
  lemma {:induction false} RegisteredExpireKeys(s: Server, keys: seq<Key>, lease: int, id: WatchId, conn: ConnId)
    requires conn in s.conns
    ensures Prefixes(ExpireKeys(s, keys, lease).watchers, id, conn) == Prefixes(s.watchers, id, conn)
    decreases keys
  {
    if keys != [] {
      var k := keys[0];
      if k in s.kvs {
        var e := Event(false, k, lease, s.kvs[k].value);
        FanoutFor(s.watchers, s.conns, e, s.revision + 1, id, conn);
        RegisteredExpireKeys(Mutate(s, e), keys[1..], lease, id, conn);
      } else {
        RegisteredExpireKeys(s, keys[1..], lease, id, conn);
      }
    }
  }

  lemma RegisteredExec(s: Server, op: Op, id: WatchId, conn: ConnId)
    requires conn in s.conns
    ensures Prefixes(Exec(s, op).0.watchers, id, conn) == Prefixes(s.watchers, id, conn)
  {
    hide For, Prefixes, EventFrames, PushLog, Apply, Fanout, Bind, Rebind;
    match op
    case CreateLease =>
    case Revoke(lease) => if lease in s.leases { RegisteredExpireKeys(s, s.leases[lease], lease, id, conn); }
    case KvCreate(key, value, lease) => FanoutFor(s.watchers, s.conns, Event(true, key, lease, value), s.revision + 1, id, conn);
    case KvPut(key, value, lease) => FanoutFor(s.watchers, s.conns, Event(true, key, lease, value), s.revision + 1, id, conn);
    case KvCreateOrValidate(key, value, lease) =>
      FanoutFor(s.watchers, s.conns, Event(true, key, lease, value), s.revision + 1, id, conn);
  }

  // ---------- every step keeps the invariant

  lemma RequestStep(w: World, op: Op)
    requires Inv(w)
    ensures Inv(Next(w, Request(op)))
  {
    hide LeasesOk, Recorded, Exec, WatchOk, RequestOk;
    var s' := Exec(w.server, op).0;
    ExecValid(w.server, op);
    LinkedExec(w.server, w.conn, w.watches, w.nextId, op);
    forall q | q in w.toServer && q.id < w.nextId ensures RequestKept(q, w.watches, w.server.watchers, w.conn, w.watches, s'.watchers) {
      RegisteredExec(w.server, op, q.id, w.conn);
    }
    RequestsKept(w.toServer, w.watches, w.nextId, w.server.watchers, w.conn, w.watches, w.nextId, s'.watchers);
  }

  lemma OpenWatchStep(w: World, prefix: string)
    requires Inv(w)
    ensures Inv(Next(w, OpenWatch(prefix)))
  {
    hide LeasesOk, Recorded, RequestOk, Streams;
    var w' := Next(w, OpenWatch(prefix));
    var s := w.server;
    assert Unknown(s.conns[w.conn], s.watchers, w.conn, w.nextId);
    assert View(s.history, 0, prefix) == map[];
    forall id | id in w'.watches ensures WatchOk(s.conns[w.conn], s.watchers, s.history, w.conn, id, w'.watches[id]) {
      if id != w.nextId { assert id in w.watches; }
    }
    RequestsKept(w.toServer, w.watches, w.nextId, s.watchers, w.conn, w'.watches, w'.nextId, s.watchers);
  }

  lemma RequestsPush(qs: seq<Request>, q: Request, watches: map<WatchId, Watch>, nextId: WatchId, ws: seq<Watcher>,
                     conn: ConnId)
    requires RequestsOk(qs, watches, nextId, ws, conn) && q.id < nextId
    requires q.UnwatchReq? ==> q.id !in watches
    requires q.WatchReq? ==> q.from.None? && (q.id in watches ==> q.prefix == watches[q.id].prefix)
    ensures RequestsOk(qs + [q], watches, nextId, ws, conn)
  {
    forall i | 0 <= i < |qs| ensures RequestOk(qs + [q], i, watches, nextId, ws, conn) {
      assert RequestOk(qs, i, watches, nextId, ws, conn);
      assert forall j :: 0 <= j < i ==> (qs + [q])[j] == qs[j];
    }
  }

  lemma AskOrDropStep(w: World, step: Step)
    requires Inv(w) && Enabled(w, step) && (step.AskWatch? || step.DropWatch?)
    ensures Inv(Next(w, step))
  {
    hide LeasesOk, Recorded, RequestOk, WatchOk, Unknown;
    var w' := Next(w, step);
    RequestsKept(w.toServer, w.watches, w.nextId, w.server.watchers, w.conn, w'.watches, w.nextId, w.server.watchers);
    RequestsPush(w.toServer, w'.toServer[|w.toServer|], w'.watches, w.nextId, w.server.watchers, w.conn);
  }

  lemma {:induction false} ReplayFrameIds(log: seq<Logged>, from: nat, prefix: string, id: WatchId)
    ensures forall f :: f in ReplayFrames(log, from, prefix, id) ==> f.id == id
  {
    if log != [] { ReplayFrameIds(log[1..], from, prefix, id); }
  }

  lemma {:induction false} SnapshotFrameIds(kvs: Store, order: seq<Key>, id: WatchId)
    requires forall k :: k in order ==> k in kvs
    ensures forall f :: f in SnapshotFrames(kvs, order, id) ==> f.id == id
  {
    if order != [] { SnapshotFrameIds(kvs, order[1..], id); }
  }

  lemma WatchFrameIds(s: Server, id: WatchId, prefix: string, from: Option<nat>, order: seq<Key>)
    requires forall k :: k in order ==> k in s.kvs
    ensures forall f :: f in WatchFrames(s, id, prefix, from, order) ==> f.id == id
  {
    if from.Some? { ReplayFrameIds(s.log, from.value, prefix, id); }
    SnapshotFrameIds(s.kvs, order, id);
  }

  /** Serving a watch request seen from any id on any connection. */
  lemma ServeWatchFor(s: Server, conn: ConnId, id: WatchId, prefix: string, from: Option<nat>, order: seq<Key>,
                      other: WatchId, c: ConnId)
    requires conn in s.conns && c in s.conns && forall k :: k in order ==> k in s.kvs
    ensures var s' := ServeWatch(s, conn, id, prefix, from, order);
            && For(s'.conns[c], other) == For(s.conns[c], other)
                 + (if other == id && c == conn then WatchFrames(s, id, prefix, from, order) else [])
            && Prefixes(s'.watchers, other, c) == (if other == id && c == conn then [prefix] else Prefixes(s.watchers, other, c))
            && forall x :: x in s'.watchers ==> x in s.watchers || x.conn == conn
  {
    hide WatchFrames, For, Unregister;
    var fs := WatchFrames(s, id, prefix, from, order);
    WatchFrameIds(s, id, prefix, from, order);
    ForAll(fs, id, other);
    ForAppend(s.conns[conn], fs, other);
    PrefixesUnregister(s.watchers, id, conn, other, c);
    var added := [Watcher(id, prefix, conn)];
    assert added[1..] == [];
    PrefixesAppend(Unregister(s.watchers, id, conn), added, other, c);
  }

  lemma WaitingIdle(x: Watch, fs: seq<Frame>, h: seq<Event>)
    requires Waiting(x, fs, h)
    ensures fs == [] && Waiting(x, [], h)
  {
  }

  /** The watch that is served goes from waiting to streaming, or keeps streaming. */
  lemma ServedWatchOk(w: World, order: seq<Key>)
    requires Inv(w) && Enabled(w, Serve(order)) && w.toServer[0].WatchReq?
    requires w.toServer[0].id in w.watches
    ensures var id := w.toServer[0].id;
            var s' := Next(w, Serve(order)).server;
            WatchOk(s'.conns[w.conn], s'.watchers, s'.history, w.conn, id, w.watches[id])
  {
    hide Valid, Waiting, Streams, Covers;
    var WatchReq(id, prefix, from) := w.toServer[0];
    var s, x := w.server, w.watches[id];
    var fs, gs := For(s.conns[w.conn], id), WatchFrames(s, id, prefix, from, order);
    assert RequestOk(w.toServer, 0, w.watches, w.nextId, s.watchers, w.conn);
    ServeWatchFor(s, w.conn, id, prefix, from, order, id, w.conn);
    assert WatchOk(s.conns[w.conn], s.watchers, s.history, w.conn, id, x);
    if Prefixes(s.watchers, id, w.conn) == [] {
      WaitingIdle(x, fs, s.history);
      WatchStreams(x, s, from, order, id);
      assert fs + gs == gs;
    } else {
      StreamsSettle(x, fs, s.history);
      RouteAllPrefix(x, fs);
      RepeatedSnapshotStreams(RouteAll(x, fs), s, order, id);
      assert s.history + [] == s.history;
      StreamsAppend(x, fs, gs, s.history, []);
    }
  }

  lemma ServeWatchLinked(w: World, order: seq<Key>)
    requires Inv(w) && Enabled(w, Serve(order)) && w.toServer[0].WatchReq?
    ensures Linked(Next(w, Serve(order)).server, w.conn, w.watches, w.nextId)
  {
    hide LeasesOk, Recorded, Waiting, Streams, WatchFrames;
    var WatchReq(id, prefix, from) := w.toServer[0];
    var s, s' := w.server, Next(w, Serve(order)).server;
    assert RequestOk(w.toServer, 0, w.watches, w.nextId, s.watchers, w.conn);
    forall x | x in w.watches ensures WatchOk(s'.conns[w.conn], s'.watchers, s'.history, w.conn, x, w.watches[x]) {
      if x == id {
        ServedWatchOk(w, order);
      } else {
        ServeWatchFor(s, w.conn, id, prefix, from, order, x, w.conn);
        assert For(s.conns[w.conn], x) + [] == For(s.conns[w.conn], x);
        assert WatchOk(s.conns[w.conn], s.watchers, s.history, w.conn, x, w.watches[x]);
      }
    }
    forall x | x >= w.nextId ensures Unknown(s'.conns[w.conn], s'.watchers, w.conn, x) {
      ServeWatchFor(s, w.conn, id, prefix, from, order, x, w.conn);
      assert Unknown(s.conns[w.conn], s.watchers, w.conn, x);
    }
  }

  lemma ServeWatchStep(w: World, order: seq<Key>)
    requires Inv(w) && Enabled(w, Serve(order)) && w.toServer[0].WatchReq?
    ensures Inv(Next(w, Serve(order)))
  {
    hide LeasesOk, Recorded, WatchOk, Unknown, WatchFrames, RequestOk;
    var WatchReq(id, prefix, from) := w.toServer[0];
    var s, s' := w.server, Next(w, Serve(order)).server;
    ServeWatchLinked(w, order);
    ServeWatchFor(s, w.conn, id, prefix, from, order, id, w.conn);
    RequestsTail(w.toServer, w.watches, w.nextId, s.watchers, w.conn);
    forall q | q in w.toServer[1..] && q.id < w.nextId ensures RequestKept(q, w.watches, s.watchers, w.conn, w.watches, s'.watchers) {
      ServeWatchFor(s, w.conn, id, prefix, from, order, q.id, w.conn);
    }
    RequestsKept(w.toServer[1..], w.watches, w.nextId, s.watchers, w.conn, w.watches, w.nextId, s'.watchers);
  }

  /** Dropping the registrations of an id that is not one of the client's live watches changes
      nothing for those that are. */
  lemma UnregisterLinked(s: Server, id: WatchId, conn: ConnId, watches: map<WatchId, Watch>, nextId: WatchId)
    requires Linked(s, conn, watches, nextId) && id !in watches
    ensures Linked(s.(watchers := UnregisterId(s.watchers, id)), conn, watches, nextId)
  {
    hide Recorded, Waiting, Streams;
    var ws := UnregisterId(s.watchers, id);
    forall x | x in watches ensures WatchOk(s.conns[conn], ws, s.history, conn, x, watches[x]) {
      PrefixesUnregisterId(s.watchers, id, x, conn);
      assert WatchOk(s.conns[conn], s.watchers, s.history, conn, x, watches[x]);
    }
    forall x | x >= nextId ensures Unknown(s.conns[conn], ws, conn, x) {
      PrefixesUnregisterId(s.watchers, id, x, conn);
      assert Unknown(s.conns[conn], s.watchers, conn, x);
    }
  }

  lemma UnregisterStep(w: World, id: WatchId, w': World)
    requires Inv(w) && id !in w.watches
    requires w' == w.(server := w.server.(watchers := UnregisterId(w.server.watchers, id)), toServer := w'.toServer)
    requires w'.toServer == w.toServer || (w.toServer != [] && w'.toServer == w.toServer[1..])
    ensures Inv(w')
  {
    hide LeasesOk, Recorded, WatchOk, Unknown, RequestOk;
    var s := w.server;
    UnregisterLinked(s, id, w.conn, w.watches, w.nextId);
    PrefixesUnregisterId(s.watchers, id, id, w.conn);
    if w'.toServer != w.toServer { RequestsTail(w.toServer, w.watches, w.nextId, s.watchers, w.conn); }
    forall q | q in w'.toServer && q.id < w.nextId ensures RequestKept(q, w.watches, s.watchers, w.conn, w.watches, w'.server.watchers) {
      PrefixesUnregisterId(s.watchers, id, q.id, w.conn);
    }
    RequestsKept(w'.toServer, w.watches, w.nextId, s.watchers, w.conn, w.watches, w.nextId, w'.server.watchers);
  }

  /** One watch across the delivery of the first frame, whoever it is for. */
  lemma DeliverWatchOk(all: seq<Frame>, ws: seq<Watcher>, h: seq<Event>, conn: ConnId, x: WatchId, w: Watch)
    requires all != [] && WatchOk(all, ws, h, conn, x, w)
    ensures WatchOk(all[1..], ws, h, conn, x, if all[0].id == x then Route(w, all[0]) else w)
    ensures all[0].id == x ==> Prefixes(ws, x, conn) != []
  {
    hide Safe, Torn, Covers;
    if x == all[0].id {
      assert For(all, x)[0] == all[0] && For(all, x)[1..] == For(all[1..], x);
    } else {
      assert For(all, x) == For(all[1..], x);
    }
  }

  lemma DeliverStep(w: World)
    requires Inv(w) && Enabled(w, Deliver)
    ensures Inv(Next(w, Deliver))
  {
    hide LeasesOk, Recorded, WatchOk, RequestOk, Route;
    var s, w' := w.server, Next(w, Deliver);
    var s', all := w'.server, s.conns[w.conn];
    forall x | x in w'.watches ensures x < w.nextId && WatchOk(s'.conns[w.conn], s'.watchers, s'.history, w.conn, x, w'.watches[x]) {
      DeliverWatchOk(all, s.watchers, s.history, w.conn, x, w.watches[x]);
    }
    forall x | x >= w.nextId ensures Unknown(s'.conns[w.conn], s'.watchers, w.conn, x) {
      assert Unknown(all, s.watchers, w.conn, x);
      assert all[0].id != x;
      assert For(all, x) == For(all[1..], x);
    }
    forall q | q in w.toServer && q.id < w.nextId ensures RequestKept(q, w.watches, s.watchers, w.conn, w'.watches, s.watchers) {
      if q.id in w.watches {
        DeliverWatchOk(all, s.watchers, s.history, w.conn, q.id, w.watches[q.id]);
        RoutePrefix(w.watches[q.id], all[0]);
      }
    }
    RequestsKept(w.toServer, w.watches, w.nextId, s.watchers, w.conn, w'.watches, w.nextId, s.watchers);
  }

  lemma RoutePrefix(w: Watch, f: Frame)
    ensures Route(w, f).prefix == w.prefix
  {
  }

  lemma {:induction false} ResubscriptionsAt(watches: map<WatchId, Watch>, ids: seq<WatchId>)
    requires forall id :: id in ids ==> id in watches
    ensures |Resubscriptions(watches, ids)| == |ids|
    ensures forall i :: 0 <= i < |ids| ==>
              Resubscriptions(watches, ids)[i] == WatchReq(ids[i], watches[ids[i]].prefix, ResumeFrom(watches[ids[i]]))
  {
    if ids != [] { ResubscriptionsAt(watches, ids[1..]); }
  }

  lemma ResubscribedOk(w: World, ids: seq<WatchId>)
    requires Inv(w) && Enabled(w, Reconnect(ids))
    ensures var w' := Next(w, Reconnect(ids));
            RequestsOk(w'.toServer, w'.watches, w'.nextId, w'.server.watchers, w'.conn)
  {
    hide Valid, WatchOk, Unknown;
    var w' := Next(w, Reconnect(ids));
    ResubscriptionsAt(w.watches, ids);
    forall i | 0 <= i < |w'.toServer| ensures RequestOk(w'.toServer, i, w'.watches, w'.nextId, w'.server.watchers, w'.conn) {
      assert ids[i] in ids;
      PrefixesNoConn(w.server.watchers, ids[i], w'.conn);
      assert forall j :: 0 <= j < i ==> w'.toServer[j].id == ids[j];
    }
  }

  lemma ReconnectStep(w: World, ids: seq<WatchId>)
    requires Inv(w) && Enabled(w, Reconnect(ids)) && CutAllowed(w, Reconnect(ids))
    ensures Inv(Next(w, Reconnect(ids)))
  {
    hide LeasesOk, Recorded, View, Covers, RequestsOk;
    var s, w' := w.server, Next(w, Reconnect(ids));
    var s' := w'.server;
    forall x ensures Prefixes(s'.watchers, x, w'.conn) == [] { PrefixesNoConn(s.watchers, x, w'.conn); }
    forall x | x in w'.watches ensures WatchOk(s'.conns[w'.conn], s'.watchers, s'.history, w'.conn, x, w'.watches[x]) {
      assert WatchOk(s.conns[w.conn], s.watchers, s.history, w.conn, x, w.watches[x]);
      assert !Torn(w.watches[x], Inbox(w, x));
      assert Safe(w.watches[x], s.history);
    }
    ResubscribedOk(w, ids);
  }

  lemma ForeignStep(w: World, step: Step)
    requires Inv(w) && Enabled(w, step)
    requires step.ForgetConn? || step.ForeignConnect? || step.ForeignWatch?
    ensures Inv(Next(w, step))
  {
    hide LeasesOk, Recorded, Waiting, Streams, WatchFrames, RequestOk;
    var s, w' := w.server, Next(w, step);
    var s' := w'.server;
    forall x ensures For(s'.conns[w.conn], x) == For(s.conns[w.conn], x)
             ensures Prefixes(s'.watchers, x, w.conn) == Prefixes(s.watchers, x, w.conn)
    {
      match step
      case ForgetConn(conn) => PrefixesUnregisterConn(s.watchers, conn, x, w.conn);
      case ForeignWatch(conn, id, prefix, from, order) => ServeWatchFor(s, conn, id, prefix, from, order, x, w.conn);
      case _ =>
    }
    forall x | x >= w.nextId ensures Unknown(s'.conns[w.conn], s'.watchers, w.conn, x) {
      assert Unknown(s.conns[w.conn], s.watchers, w.conn, x);
    }
    assert ConnsOk(s', w.conn, w'.nextConn) by {
      match step
      case ForgetConn(conn) => PrefixesUnregisterConn(s.watchers, conn, 0, w.conn);
      case ForeignWatch(conn, id, prefix, from, order) => ServeWatchFor(s, conn, id, prefix, from, order, 0, w.conn);
      case _ =>
    }
    RequestsKept(w.toServer, w.watches, w.nextId, s.watchers, w.conn, w.watches, w.nextId, s'.watchers);
  }

  lemma StepKeepsInv(w: World, step: Step)
    requires Inv(w) && Enabled(w, step) && CutAllowed(w, step)
    ensures Inv(Next(w, step))
  {
    match step
    case Request(op) => RequestStep(w, op);
    case OpenWatch(prefix) => OpenWatchStep(w, prefix);
    case AskWatch(_) => AskOrDropStep(w, step);
    case DropWatch(_) => AskOrDropStep(w, step);
    case Serve(order) =>
      assert RequestOk(w.toServer, 0, w.watches, w.nextId, w.server.watchers, w.conn);
      if w.toServer[0].WatchReq? { ServeWatchStep(w, order); } else { UnregisterStep(w, w.toServer[0].id, Next(w, step)); }
    case Deliver => DeliverStep(w);
    case Reconnect(ids) => ReconnectStep(w, ids);
    case ForeignUnwatch(id) => UnregisterStep(w, id, Next(w, step));
    case _ => ForeignStep(w, step);
  }

  lemma {:induction false} RunKeepsInv(w: World, steps: seq<Step>)
    requires Inv(w) && IsRun(w, steps)
    ensures Inv(Run(w, steps))
    decreases steps
  {
    if steps != [] {
      StepKeepsInv(w, steps[0]);
      RunKeepsInv(Next(w, steps[0]), steps[1..]);
    }
  }

  // ---------- main results

  /** Watch agreement over whole runs. In every state that any run reaches, and for every watch:
      the live set is the key set of the consumer's fold; once the server knows the watch, applying
      the frames still in flight to the fold gives the server's keys under the prefix, so with
      nothing in flight the two are equal; and outside a snapshot window the fold is the store as it
      was at `lastRev`, for a registered watch and for one still waiting after a cut. */
  lemma AgreementOverRuns(steps: seq<Step>, id: WatchId)
    requires IsRun(Init, steps)
    requires id in Run(Init, steps).watches
    ensures var w := Run(Init, steps);
            var x := w.watches[id];
            && w.conn in w.server.conns
            && x.live == x.folded.Keys
            && (Registered(w, id) ==> RouteAll(x, Inbox(w, id)).folded == Restrict(w.server.kvs, x.prefix))
            && (Registered(w, id) && Inbox(w, id) == [] ==> x.folded == Restrict(w.server.kvs, x.prefix))
            && (!Torn(x, Inbox(w, id)) ==> x.lastRev <= w.server.revision == |w.server.history| && x.folded == View(w.server.history, x.lastRev, x.prefix))
  {
    assert Inv(Init) by {
      assert Unknown([], [], 0, 1);
      forall i | i >= 1 ensures Unknown(Init.server.conns[0], [], 0, i) { }
    }
    RunKeepsInv(Init, steps);
    var w := Run(Init, steps);
    var x, s := w.watches[id], w.server;
    assert WatchOk(s.conns[w.conn], s.watchers, s.history, w.conn, id, x);
    if Registered(w, id) { StreamsSettle(x, Inbox(w, id), s.history); }
  }

  /** The store, its log and its lease bindings are consistent in every state that any run reaches. */
  lemma StoreValidOverRuns(steps: seq<Step>)
    requires IsRun(Init, steps)
    ensures Valid(Run(Init, steps).server)
  {
    assert Inv(Init) by {
      forall i | i >= 1 ensures Unknown(Init.server.conns[0], [], 0, i) { }
    }
    RunKeepsInv(Init, steps);
  }

  /** Unwatch filters by id alone: an unwatch of another client keeps a registered watch if and
      only if it names a different id. */
  lemma UnwatchHitsEveryClient(w: World, id: WatchId, mine: WatchId)
    requires Registered(w, mine)
    ensures Registered(w.(server := w.server.(watchers := UnregisterId(w.server.watchers, id))), mine) <==> id != mine
  {
    PrefixesUnregisterId(w.server.watchers, id, mine, w.conn);
  }
}
