/** The client in place: TcpDiscovery's watch records and the consumer that folds watch events into
    its live instance map. */
module DiscoveryClient {
  import opened History
  import opened Server
  import W = Watch
  import P = Protocol
  import opened Options

  datatype WatchEvent = PutEvent(key: Key, entry: Entry) | DeleteEvent(key: Key)

  function FoldEvent(m: Store, e: WatchEvent): Store {
    if e.PutEvent? then m[e.key := e.entry] else m - {e.key}
  }

  function FoldEvents(events: seq<WatchEvent>): Store {
    if events == [] then map[] else FoldEvent(FoldEvents(events[..|events| - 1]), events[|events| - 1])
  }

  lemma FoldNone()
    ensures FoldEvents([]) == map[]
  {
  }

  lemma FoldAppend(events: seq<WatchEvent>, e: WatchEvent)
    ensures FoldEvents(events + [e]) == FoldEvent(FoldEvents(events), e)
  {
    assert (events + [e])[..|events|] == events;
  }

  /** A watch record; `sink` is everything sent to the consumer. */
  datatype WatchRecord = WatchRecord(
    prefix: string, sink: seq<WatchEvent>, liveKeys: set<Key>, syncKeys: set<Key>, syncing: bool, lastRev: nat)

  function Abs(r: WatchRecord): W.Watch {
    W.Watch(r.prefix, r.liveKeys, r.syncKeys, r.syncing, r.lastRev, FoldEvents(r.sink))
  }

  lemma AbsResync(r: WatchRecord)
    ensures Abs(r.(syncing := true, syncKeys := {})) == W.Resync(Abs(r))
    ensures Abs(r).prefix == r.prefix && W.ResumeFrom(Abs(r)) == if r.lastRev > 0 then Some(r.lastRev) else None
  {
    hide FoldEvents;
  }

  /** All records but those of `todo` are resyncing. */
  ghost predicate Resyncing(watches: map<WatchId, WatchRecord>, before: map<WatchId, W.Watch>, todo: set<WatchId>) {
    && watches.Keys == before.Keys
    && forall id :: id in before ==> Abs(watches[id]) == if id in todo then before[id] else W.Resync(before[id])
  }

  lemma ResyncNone(watches: map<WatchId, WatchRecord>, before: map<WatchId, W.Watch>)
    requires before == map id | id in watches :: Abs(watches[id])
    ensures Resyncing(watches, before, watches.Keys) && watches.Keys == before.Keys && P.Resubscriptions(before, []) == []
  {
    hide Abs;
  }

  lemma ResyncOne(watches: map<WatchId, WatchRecord>, before: map<WatchId, W.Watch>, todo: set<WatchId>, id: WatchId)
    requires Resyncing(watches, before, todo) && id in todo && id in before
    ensures id in watches && Resyncing(watches[id := watches[id].(syncing := true, syncKeys := {})], before, todo - {id})
    ensures watches[id].prefix == before[id].prefix
    ensures W.ResumeFrom(before[id]) == if watches[id].lastRev > 0 then Some(watches[id].lastRev) else None
  {
    hide Abs, W.Resync, W.ResumeFrom;
    AbsResync(watches[id]);
  }

  lemma ResyncDone(watches: map<WatchId, WatchRecord>, before: map<WatchId, W.Watch>)
    requires Resyncing(watches, before, {})
    ensures (map id | id in watches :: Abs(watches[id])) == map id | id in before :: W.Resync(before[id])
  {
    hide Abs, W.Resync;
  }

  class TcpDiscovery {
    var watches: map<WatchId, WatchRecord>
    var nextWatchId: WatchId

    constructor ()
      ensures watches == map[] && nextWatchId == 1
    {
      watches, nextWatchId := map[], 1;
    }

    ghost function Watches(): map<WatchId, W.Watch>
      reads this
    {
      map id | id in watches :: Abs(watches[id])
    }

    method OpenWatch(prefix: string) returns (id: WatchId)
      modifies this
      ensures id == old(nextWatchId) && nextWatchId == id + 1
      ensures Watches() == old(Watches())[id := W.Opened(prefix)]
    {
      id := nextWatchId;
      nextWatchId := nextWatchId + 1;
      watches := watches[id := WatchRecord(prefix, [], {}, {}, true, 0)];
    }

    /** Delete events for the live keys that the snapshot did not name. */
    method VanishedDeletes(record: WatchRecord) returns (toSend: seq<WatchEvent>)
      ensures FoldEvents(record.sink + toSend) == FoldEvents(record.sink) - (record.liveKeys - record.syncKeys)
    {
      toSend := [];
      var todo := record.liveKeys - record.syncKeys;
      assert record.sink + [] == record.sink;
      while todo != {}
        invariant todo <= record.liveKeys - record.syncKeys
        invariant FoldEvents(record.sink + toSend) == FoldEvents(record.sink) - (record.liveKeys - record.syncKeys - todo)
        decreases todo
      {
        var k :| k in todo;
        todo := todo - {k};
        FoldAppend(record.sink + toSend, DeleteEvent(k));
        assert record.sink + toSend + [DeleteEvent(k)] == record.sink + (toSend + [DeleteEvent(k)]);
        toSend := toSend + [DeleteEvent(k)];
      }
    }

    /** What one frame does to its record. */
    method RouteRecord(was: WatchRecord, f: Frame) returns (record: WatchRecord)
      ensures Abs(record) == W.Route(Abs(was), f)
    {
      hide FoldEvents;
      record := was;
      match f {
        case Sync(_, snapshot, rev) =>
          if !record.syncing { return; }
          if snapshot {
            var toSend := VanishedDeletes(record);
            record := record.(liveKeys := record.syncKeys, sink := record.sink + toSend);
          }
          record := record.(syncKeys := {}, syncing := false, lastRev := Max(record.lastRev, rev));
        case Put(_, k, e) =>
          FoldAppend(record.sink, PutEvent(k, e));
          record := record.(
            liveKeys := record.liveKeys + {k},
            syncKeys := if record.syncing then record.syncKeys + {k} else record.syncKeys,
            lastRev := Max(record.lastRev, e.rev),
            sink := record.sink + [PutEvent(k, e)]);
        case Delete(_, k, e) =>
          FoldAppend(record.sink, DeleteEvent(k));
          record := record.(
            liveKeys := record.liveKeys - {k},
            lastRev := Max(record.lastRev, e.rev),
            sink := record.sink + [DeleteEvent(k)]);
      }
    }

    /** Routes one frame: a record changes as the protocol says, frames for unknown ids are ignored. */
    method RouteWatchFrame(f: Frame)
      modifies this`watches
      ensures Watches() ==
              if f.id in old(Watches()) then old(Watches())[f.id := W.Route(old(Watches())[f.id], f)] else old(Watches())
    {
      hide Abs, W.Route;
      if f.id !in watches { return; }
      var record := RouteRecord(watches[f.id], f);
      watches := watches[f.id := record];
    }

    /** Puts every record into resync and writes one resume request for each, in some order. */
    method ResubscribeAll() returns (requests: seq<P.Request>, ghost ids: seq<WatchId>)
      modifies this`watches
      ensures NoDup(ids) && forall id :: id in ids <==> id in old(watches)
      ensures Watches() == map id | id in old(Watches()) :: W.Resync(old(Watches())[id])
      ensures requests == P.Resubscriptions(old(Watches()), ids)
    {
      hide Resyncing, Abs, W.Resync, W.ResumeFrom, P.Resubscriptions;
      requests, ids := [], [];
      var todo := watches.Keys;
      ghost var before := Watches();
      ResyncNone(watches, before);
      while todo != {}
        invariant todo <= before.Keys && Resyncing(watches, before, todo)
        invariant NoDup(ids) && forall id :: id in ids <==> id in before && id !in todo
        invariant requests == P.Resubscriptions(before, ids)
        decreases todo
      {
        var id :| id in todo;
        ResyncOne(watches, before, todo, id);
        todo := todo - {id};
        var record := watches[id].(syncing := true, syncKeys := {});
        watches := watches[id := record];
        var request := P.WatchReq(id, record.prefix, if record.lastRev > 0 then Some(record.lastRev) else None);
        ResubscriptionsSnoc(before, ids, id);
        requests, ids := requests + [request], ids + [id];
      }
      ResyncDone(watches, before);
    }
  }

  lemma {:induction false} ResubscriptionsSnoc(watches: map<WatchId, W.Watch>, ids: seq<WatchId>, id: WatchId)
    requires id in watches && forall x :: x in ids ==> x in watches
    ensures P.Resubscriptions(watches, ids + [id])
         == P.Resubscriptions(watches, ids) + [P.WatchReq(id, watches[id].prefix, W.ResumeFrom(watches[id]))]
  {
    if ids != [] {
      assert (ids + [id])[1..] == ids[1..] + [id];
      ResubscriptionsSnoc(watches, ids[1..], id);
    }
  }

  // ---------- the instance map

  /** Parsing of endpoint info, a function of the value alone; a value may fail to parse. */
  type Parser<!Info> = string -> Option<Info>

  function FoldInstance<Info>(parse: Parser<Info>, m: map<Key, Info>, e: WatchEvent): map<Key, Info> {
    if e.DeleteEvent? then m - {e.key}
    else if parse(e.entry.value).Some? then m[e.key := parse(e.entry.value).value]
    else m
  }

  function FoldInstances<Info>(parse: Parser<Info>, events: seq<WatchEvent>): map<Key, Info> {
    if events == [] then map[]
    else FoldInstance(parse, FoldInstances(parse, events[..|events| - 1]), events[|events| - 1])
  }

  lemma FoldInstancesSnoc<Info>(parse: Parser<Info>, events: seq<WatchEvent>, e: WatchEvent)
    ensures FoldInstances(parse, events + [e]) == FoldInstance(parse, FoldInstances(parse, events), e)
  {
    assert (events + [e])[..|events|] == events;
  }

  class InstanceSource<Info> {
    var instances: map<Key, Info>
    var closed: bool

    constructor ()
      ensures instances == map[] && !closed
    {
      instances, closed := map[], false;
    }

    /** One event; a put that does not parse is skipped. */
    method HandleEvent(parse: Parser<Info>, event: WatchEvent)
      modifies this`instances
      ensures instances == FoldInstance(parse, old(instances), event)
    {
      match event {
        case PutEvent(k, e) =>
          match parse(e.value) {
            case Some(info) => instances := instances[k := info];
            case None =>
          }
        case DeleteEvent(k) => instances := instances - {k};
      }
    }

    /** Consumes the events of a watch in order. */
    method Consume(parse: Parser<Info>, ghost before: seq<WatchEvent>, events: seq<WatchEvent>)
      requires instances == FoldInstances(parse, before)
      modifies this`instances
      ensures instances == FoldInstances(parse, before + events)
    {
      var i := 0;
      hide FoldInstance;
      assert before + events[..0] == before;
      while i < |events|
        invariant 0 <= i <= |events|
        invariant instances == FoldInstances(parse, before + events[..i])
      {
        FoldInstancesSnoc(parse, before + events[..i], events[i]);
        assert before + events[..i] + [events[i]] == before + events[..i + 1];
        HandleEvent(parse, events[i]);
        i := i + 1;
      }
      assert events[..i] == events;
    }

    /** The watch channel closed: the source is closed and shows nothing. */
    method WatchClosed()
      modifies this
      ensures closed && instances == map[]
    {
      closed := true;
      instances := map[];
    }
  }

  /** No key outlives its deletion, and every key whose current value parses shows that value. */
  ghost predicate Follows<Info>(parse: Parser<Info>, f: Store, m: map<Key, Info>) {
    && m.Keys <= f.Keys
    && forall k :: k in f && parse(f[k].value).Some? ==> k in m && m[k] == parse(f[k].value).value
  }

  lemma {:induction false} InstancesFollow<Info>(parse: Parser<Info>, events: seq<WatchEvent>)
    ensures Follows(parse, FoldEvents(events), FoldInstances(parse, events))
  {
    if events != [] {
      var es, e := events[..|events| - 1], events[|events| - 1];
      InstancesFollow(parse, es);
      assert Follows(parse, FoldEvent(FoldEvents(es), e), FoldInstance(parse, FoldInstances(parse, es), e));
    }
  }

  function Parsed<Info>(parse: Parser<Info>, f: Store): map<Key, Info> {
    map k | k in f && parse(f[k].value).Some? :: parse(f[k].value).value
  }

  predicate DeletesKey(e: WatchEvent, k: Key) { e.DeleteEvent? && e.key == k }

  predicate ParsesAt<Info>(parse: Parser<Info>, e: WatchEvent, k: Key) {
    e.PutEvent? && e.key == k && parse(e.entry.value).Some?
  }

  /** Event `i` gives `k` a value that parses, and `k` is not deleted after it. */
  predicate ShownSince<Info>(parse: Parser<Info>, events: seq<WatchEvent>, k: Key, i: int) {
    && 0 <= i < |events| && ParsesAt(parse, events[i], k)
    && forall j :: i < j < |events| ==> !DeletesKey(events[j], k)
  }

  /** Some value of `k` since its last deletion parses. */
  predicate ParsedOnce<Info>(parse: Parser<Info>, events: seq<WatchEvent>, k: Key) {
    exists i :: 0 <= i < |events| && ShownSince(parse, events, k, i)
  }

  lemma ParsedOnceSnoc<Info>(parse: Parser<Info>, events: seq<WatchEvent>, e: WatchEvent, k: Key)
    ensures ParsedOnce(parse, events + [e], k) <==> ParsesAt(parse, e, k) || (!DeletesKey(e, k) && ParsedOnce(parse, events, k))
  {
    var all := events + [e];
    assert forall i :: 0 <= i < |events| ==> all[i] == events[i];
    assert all[|events|] == e;
    if ParsesAt(parse, e, k) { assert ShownSince(parse, all, k, |events|); }
    forall i | 0 <= i < |events| ensures ShownSince(parse, all, k, i) <==> ShownSince(parse, events, k, i) && !DeletesKey(e, k) {
    }
  }

  /** A key is shown exactly when one of its values since its last deletion parsed. */
  lemma {:induction false} ShownIff<Info>(parse: Parser<Info>, events: seq<WatchEvent>, k: Key)
    ensures k in FoldInstances(parse, events) <==> ParsedOnce(parse, events, k)
  {
    hide ParsedOnce;
    if events == [] {
      NeverParsed(parse, k);
    } else {
      var es, e := events[..|events| - 1], events[|events| - 1];
      assert es + [e] == events;
      ShownIff(parse, es, k);
      ParsedOnceSnoc(parse, es, e, k);
    }
  }

  lemma NeverParsed<Info>(parse: Parser<Info>, k: Key)
    ensures !ParsedOnce(parse, [], k)
  {
  }

  /** What is shown for a key is the latest of its values that parsed. */
  lemma {:induction false} ShownIsLatest<Info>(parse: Parser<Info>, events: seq<WatchEvent>, k: Key) returns (i: nat)
    requires k in FoldInstances(parse, events)
    ensures ShownSince(parse, events, k, i) && FoldInstances(parse, events)[k] == parse(events[i].entry.value).value
    ensures forall j :: i < j < |events| ==> !ParsesAt(parse, events[j], k)
    decreases events
  {
    var n := |events| - 1;
    if ParsesAt(parse, events[n], k) {
      i := n;
    } else {
      i := ShownIsLatest(parse, events[..n], k);
    }
  }

  /** The instance map is the parsed store exactly when no key that parsed since its last deletion has a
      current value that does not. */
  lemma InstancesExact<Info>(parse: Parser<Info>, events: seq<WatchEvent>)
    ensures FoldInstances(parse, events) == Parsed(parse, FoldEvents(events))
       <==> forall k :: k in FoldEvents(events) && ParsedOnce(parse, events, k) ==> parse(FoldEvents(events)[k].value).Some?
  {
    hide ParsedOnce, FoldInstances, FoldEvents;
    InstancesFollow(parse, events);
    forall k ensures k in FoldInstances(parse, events) <==> ParsedOnce(parse, events, k) { ShownIff(parse, events, k); }
  }

  /** Over every run: with a registered watch and nothing on its way, the instances folded from what the record
      sent are the parsed store under the prefix, under the same condition. */
  lemma InstancesOverRuns<Info>(steps: seq<P.Step>, id: WatchId, record: WatchRecord, parse: Parser<Info>)
    requires P.IsRun(P.Init, steps) && id in P.Run(P.Init, steps).watches
    requires Abs(record) == P.Run(P.Init, steps).watches[id]
    requires var w := P.Run(P.Init, steps);
             P.Registered(w, id) && w.conn in w.server.conns && P.Inbox(w, id) == []
    ensures var view := Restrict(P.Run(P.Init, steps).server.kvs, record.prefix);
            FoldInstances(parse, record.sink) == Parsed(parse, view)
            <==> forall k :: k in view && ParsedOnce(parse, record.sink, k) ==> parse(view[k].value).Some?
  {
    hide P.IsRun, P.Run, P.Registered, P.Inbox, ParsedOnce, FoldInstances, FoldEvents;
    P.AgreementOverRuns(steps, id);
    InstancesExact(parse, record.sink);
  }

  /** A value that stops parsing is not noticed: the instance keeps showing its previous value. */
  lemma BadValueKeepsStale<Info>(parse: Parser<Info>, k: Key, good: Entry, bad: Entry)
    requires parse(good.value).Some? && parse(bad.value).None?
    ensures var events := [PutEvent(k, good), PutEvent(k, bad)];
            FoldEvents(events) == map[k := bad] && FoldInstances(parse, events) == map[k := parse(good.value).value]
  {
    var events := [PutEvent(k, good), PutEvent(k, bad)];
    assert events[..1] == [PutEvent(k, good)] && [PutEvent(k, good)][..0] == [];
    assert FoldEvents(events[..1]) == map[k := good];
    assert FoldInstances(parse, events[..1]) == map[k := parse(good.value).value];
  }
}
