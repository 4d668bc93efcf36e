/** The pool of idle KV blocks: a hash index, a priority order over the same blocks, and a FIFO of
    blocks with nothing worth matching. Every block carries a `uid`, which the source does not have
    and nothing here reads: it only names the physical block so that results can say that none is
    lost or duplicated. */
module Pool {
  import opened Tokens
  import opened Options

  datatype KvBlock = KvBlock(uid: nat, data: TokenBlock, priority: nat, tick: nat)

  const NoData := TokenBlock([], 0, 0, None)

  function ResetBlock(b: KvBlock): KvBlock { KvBlock(b.uid, NoData, 0, 0) }

  // ---------- eviction order

  datatype PriorityKey = PriorityKey(priority: nat, tick: nat, seqHash: Hash)

  function KeyOf(b: KvBlock): PriorityKey { PriorityKey(b.priority, b.tick, b.data.seqHash) }

  predicate Less(a: PriorityKey, b: PriorityKey) {
    if a.priority != b.priority then a.priority < b.priority
    else if a.tick != b.tick then a.tick < b.tick
    else a.seqHash < b.seqHash
  }

  predicate IsMin(k: PriorityKey, ks: set<PriorityKey>) {
    k in ks && forall x :: x in ks && x != k ==> Less(k, x)
  }

  lemma {:induction false} MinExists(ks: set<PriorityKey>)
    requires ks != {}
    ensures exists k :: IsMin(k, ks)
  {
    var k :| k in ks;
    var rest := ks - {k};
    assert ks == rest + {k};
    if rest == {} {
      assert IsMin(k, ks);
    } else {
      MinExists(rest);
      var m :| IsMin(m, rest);
      if Less(k, m) {
        forall x | x in ks && x != k ensures Less(k, x) { assert x in rest; }
        assert IsMin(k, ks);
      } else {
        assert IsMin(m, ks);
      }
    }
  }

  lemma MinUnique(a: PriorityKey, b: PriorityKey, ks: set<PriorityKey>)
    requires IsMin(a, ks) && IsMin(b, ks)
    ensures a == b
  {
  }

  // ---------- the state under the pool's lock

  datatype Pool = Pool(
    lookup: map<Hash, KvBlock>,
    prio: map<PriorityKey, Hash>,
    uninit: seq<KvBlock>,
    tick: nat,
    total: nat,
    available: nat)

  const Empty := Pool(map[], map[], [], 0, 0, 0)

  /** Index and priority order hold the same blocks, one per hash and never under hash zero. */
  ghost predicate Indexed(lookup: map<Hash, KvBlock>, prio: map<PriorityKey, Hash>) {
    && (forall h :: h in lookup ==>
          h != 0 && lookup[h].data.seqHash == h && KeyOf(lookup[h]) in prio && prio[KeyOf(lookup[h])] == h)
    && (forall k :: k in prio ==> prio[k] in lookup && KeyOf(lookup[prio[k]]) == k)
  }

  /** Return ticks are unique, so priority and tick alone decide the order. */
  ghost predicate Ticked(lookup: map<Hash, KvBlock>, tick: nat) {
    && (forall h :: h in lookup ==> 0 < lookup[h].tick <= tick)
    && (forall g, h :: g in lookup && h in lookup && lookup[g].tick == lookup[h].tick ==> g == h)
  }

  // Physical blocks by uid.

  ghost function LookupUids(m: map<Hash, KvBlock>): set<nat> { set h | h in m :: m[h].uid }

  ghost function UidsOf(bs: seq<KvBlock>): set<nat> { set b | b in bs :: b.uid }

  ghost predicate InjectiveUids(m: map<Hash, KvBlock>) {
    forall g, h :: g in m && h in m && m[g].uid == m[h].uid ==> g == h
  }

  ghost predicate DistinctBlocks(bs: seq<KvBlock>) {
    forall i, j :: 0 <= i < j < |bs| ==> bs[i].uid != bs[j].uid
  }

  ghost function Uids(p: Pool): set<nat> { LookupUids(p.lookup) + UidsOf(p.uninit) }

  /** No physical block is parked twice. */
  ghost predicate Distinct(lookup: map<Hash, KvBlock>, uninit: seq<KvBlock>) {
    InjectiveUids(lookup) && DistinctBlocks(uninit) && LookupUids(lookup) !! UidsOf(uninit)
  }

  lemma LookupUidsAdd(m: map<Hash, KvBlock>, h: Hash, b: KvBlock)
    requires h !in m
    ensures LookupUids(m[h := b]) == LookupUids(m) + {b.uid}
    ensures InjectiveUids(m) && b.uid !in LookupUids(m) <==> InjectiveUids(m[h := b])
  {
    var m' := m[h := b];
    assert m'[h].uid in LookupUids(m');
    forall g | g in m ensures m[g].uid in LookupUids(m') && m[g].uid in LookupUids(m) { assert m'[g] == m[g]; }
    if InjectiveUids(m') {
      forall g, g' | g in m && g' in m && m[g].uid == m[g'].uid ensures g == g' { assert m'[g].uid == m'[g'].uid; }
      forall g | g in m ensures m[g].uid != b.uid { assert m'[g].uid != m'[h].uid; }
    }
  }

  lemma UidsOfAppend(a: seq<KvBlock>, b: seq<KvBlock>)
    ensures UidsOf(a + b) == UidsOf(a) + UidsOf(b)
  {
    forall x | x in a || x in b ensures x.uid in UidsOf(a + b) { assert x in a + b; }
  }

  lemma DistinctAppend(a: seq<KvBlock>, b: seq<KvBlock>)
    ensures DistinctBlocks(a + b) <==> DistinctBlocks(a) && DistinctBlocks(b) && UidsOf(a) !! UidsOf(b)
  {
    var c := a + b;
    if DistinctBlocks(c) {
      assert forall i :: 0 <= i < |a| ==> c[i] == a[i];
      assert forall i :: 0 <= i < |b| ==> c[|a| + i] == b[i];
      forall x, y | x in a && y in b ensures x.uid != y.uid {
        var i :| 0 <= i < |a| && a[i] == x;
        var j :| 0 <= j < |b| && b[j] == y;
        assert c[i].uid != c[|a| + j].uid;
      }
    } else {
      var i, j :| 0 <= i < j < |c| && c[i].uid == c[j].uid;
      if j >= |a| > i { assert a[i].uid in UidsOf(a) && b[j - |a|].uid in UidsOf(b); }
    }
  }

  lemma NoBlocks()
    ensures UidsOf([]) == {} && DistinctBlocks([])
  {
  }

  lemma UidsOfOne(b: KvBlock)
    ensures UidsOf([b]) == {b.uid} && DistinctBlocks([b])
  {
    assert b in [b];
  }

  ghost predicate Shape(p: Pool) { Indexed(p.lookup, p.prio) && Ticked(p.lookup, p.tick) && Distinct(p.lookup, p.uninit) }

  function Parked(p: Pool): nat { |p.lookup| + |p.uninit| }

  ghost predicate Valid(p: Pool) { Shape(p) && p.available == Parked(p) }

  // ---------- the primitive moves

  function Inserted(p: Pool, b: KvBlock): Pool {
    var h := b.data.seqHash;
    if h == 0 || h in p.lookup then p.(uninit := p.uninit + [b])
    else p.(prio := p.prio[KeyOf(b) := h], lookup := p.lookup[h := b])
  }

  function Removed(p: Pool, h: Hash): Pool
    requires h in p.lookup
  {
    p.(lookup := p.lookup - {h}, prio := p.prio - {KeyOf(p.lookup[h])})
  }

  /** A block comes back with the next tick. */
  function Returned(p: Pool, b: KvBlock): Pool {
    Inserted(p.(available := p.available + 1, tick := p.tick + 1), b.(tick := p.tick + 1))
  }

  /** A tick that no parked block carries, or a block that is not indexed at all. */
  ghost predicate FreshTick(p: Pool, b: KvBlock) {
    b.data.seqHash != 0 ==> 0 < b.tick <= p.tick && forall h :: h in p.lookup ==> p.lookup[h].tick != b.tick
  }

  lemma IndexedAdd(m: map<Hash, KvBlock>, prio: map<PriorityKey, Hash>, h: Hash, b: KvBlock)
    requires Indexed(m, prio) && h !in m && h == b.data.seqHash != 0
    ensures Indexed(m[h := b], prio[KeyOf(b) := h]) && KeyOf(b) !in prio && |m[h := b]| == |m| + 1
  {
    assert m[h := b].Keys == m.Keys + {h};
    assert KeyOf(b) !in prio;
  }

  lemma IndexedRemove(m: map<Hash, KvBlock>, prio: map<PriorityKey, Hash>, h: Hash)
    requires Indexed(m, prio) && h in m
    ensures Indexed(m - {h}, prio - {KeyOf(m[h])}) && |m - {h}| == |m| - 1
    ensures m[h].data.seqHash == h != 0
  {
    assert (m - {h}).Keys == m.Keys - {h};
  }

  lemma TickedAdd(m: map<Hash, KvBlock>, tick: nat, h: Hash, b: KvBlock)
    requires Ticked(m, tick) && h !in m && 0 < b.tick <= tick && forall g :: g in m ==> m[g].tick != b.tick
    ensures Ticked(m[h := b], tick)
  {
  }

  lemma InsertedShape(p: Pool, b: KvBlock)
    requires Shape(p) && b.uid !in Uids(p) && FreshTick(p, b)
    ensures Shape(Inserted(p, b)) && Parked(Inserted(p, b)) == Parked(p) + 1
    ensures Uids(Inserted(p, b)) == Uids(p) + {b.uid}
  {
    var h := b.data.seqHash;
    if h == 0 || h in p.lookup {
      UidsOfAppend(p.uninit, [b]);
      UidsOfOne(b);
      DistinctAppend(p.uninit, [b]);
    } else {
      LookupUidsAdd(p.lookup, h, b);
      IndexedAdd(p.lookup, p.prio, h, b);
      TickedAdd(p.lookup, p.tick, h, b);
    }
  }

  lemma TickedRemove(m: map<Hash, KvBlock>, tick: nat, h: Hash)
    requires Ticked(m, tick) && h in m
    ensures Ticked(m - {h}, tick)
    ensures 0 < m[h].tick <= tick && forall g :: g in m - {h} ==> (m - {h})[g].tick != m[h].tick
  {
  }

  lemma DistinctRemove(m: map<Hash, KvBlock>, uninit: seq<KvBlock>, h: Hash)
    requires Distinct(m, uninit) && h in m
    ensures Distinct(m - {h}, uninit)
    ensures LookupUids(m) == LookupUids(m - {h}) + {m[h].uid} && m[h].uid !in LookupUids(m - {h}) + UidsOf(uninit)
  {
    var m', b := m - {h}, m[h];
    assert m'[h := b] == m;
    LookupUidsAdd(m', h, b);
  }

  lemma RemovedShape(p: Pool, h: Hash)
    requires Shape(p) && h in p.lookup
    ensures Shape(Removed(p, h)) && Parked(Removed(p, h)) == Parked(p) - 1
    ensures p.lookup[h].uid in Uids(p) && Uids(Removed(p, h)) == Uids(p) - {p.lookup[h].uid}
    ensures FreshTick(Removed(p, h), p.lookup[h]) && p.lookup[h].data.seqHash == h != 0
  {
    hide Indexed, Ticked, Distinct, LookupUids, UidsOf;
    DistinctRemove(p.lookup, p.uninit, h);
    IndexedRemove(p.lookup, p.prio, h);
    TickedRemove(p.lookup, p.tick, h);
  }

  lemma PoppedShape(p: Pool)
    requires Shape(p) && p.uninit != []
    ensures var p' := p.(uninit := p.uninit[1..]);
            && Shape(p') && Parked(p') == Parked(p) - 1
            && p.uninit[0].uid in Uids(p) && Uids(p') == Uids(p) - {p.uninit[0].uid}
  {
    var b, rest := p.uninit[0], p.uninit[1..];
    assert p.uninit == [b] + rest;
    UidsOfAppend([b], rest);
    UidsOfOne(b);
    DistinctAppend([b], rest);
  }

  /** Returning a block of the outside parks it and nothing else changes place. */
  lemma ReturnedValid(p: Pool, b: KvBlock)
    requires Valid(p) && b.uid !in Uids(p)
    ensures Valid(Returned(p, b)) && Uids(Returned(p, b)) == Uids(p) + {b.uid}
    ensures Returned(p, b).total == p.total
  {
    hide Indexed, Ticked, Distinct;
    TickedGrows(p.lookup, p.tick);
    InsertedShape(p.(available := p.available + 1, tick := p.tick + 1), b.(tick := p.tick + 1));
  }

  lemma TickedGrows(m: map<Hash, KvBlock>, tick: nat)
    requires Ticked(m, tick)
    ensures Ticked(m, tick + 1) && forall h :: h in m ==> m[h].tick != tick + 1
  {
  }

  // ---------- requests over lists of hashes

  /** Takes the parked blocks of a prefix of `hashes`, up to the first that is not parked. */
  function Matched(p: Pool, hashes: seq<Hash>): (Pool, seq<KvBlock>)
    decreases hashes
  {
    if hashes == [] || hashes[0] !in p.lookup then (p, [])
    else
      var r := Matched(Removed(p, hashes[0]), hashes[1..]);
      (r.0, [p.lookup[hashes[0]]] + r.1)
  }

  lemma MatchedNext(p: Pool, hashes: seq<Hash>, i: nat)
    requires i <= |hashes|
    ensures i == |hashes| || hashes[i] !in p.lookup ==> Matched(p, hashes[i..]) == (p, [])
    ensures i < |hashes| && hashes[i] in p.lookup ==>
              var r := Matched(Removed(p, hashes[i]), hashes[i + 1..]);
              Matched(p, hashes[i..]) == (r.0, [p.lookup[hashes[i]]] + r.1)
  {
    hide Removed;
    if i < |hashes| { assert hashes[i..][1..] == hashes[i + 1..]; }
  }

  /** The matched blocks carry exactly the hashes of a prefix, the match stops at the first hash not
      parked, and each block leaves the pool once. */
  lemma {:induction false} MatchedEffect(p: Pool, hashes: seq<Hash>)
    requires Shape(p)
    ensures var (p', bs) := Matched(p, hashes);
            && Shape(p') && Parked(p') == Parked(p) - |bs| && |bs| <= Parked(p)
            && p'.total == p.total && p'.available == p.available
            && |bs| <= |hashes| && (forall i :: 0 <= i < |bs| ==> bs[i].data.seqHash == hashes[i])
            && (|bs| < |hashes| ==> hashes[|bs|] !in p'.lookup)
            && DistinctBlocks(bs) && UidsOf(bs) <= Uids(p) && Uids(p') == Uids(p) - UidsOf(bs)
    decreases hashes
  {
    hide Indexed, Ticked, Distinct, LookupUids, DistinctBlocks, UidsOf;
    if hashes == [] || hashes[0] !in p.lookup {
      NoBlocks();
    } else {
      var h := hashes[0];
      var q, b := Removed(p, h), p.lookup[h];
      RemovedShape(p, h);
      MatchedEffect(q, hashes[1..]);
      var bs := Matched(q, hashes[1..]).1;
      UidsOfAppend([b], bs);
      UidsOfOne(b);
      DistinctAppend([b], bs);
    }
  }

  function Reprioritized(p: Pool, updates: seq<(Hash, nat)>): Pool
    decreases updates
  {
    if updates == [] then p
    else
      Reprioritized(ReprioritizeOne(p, updates[0].0, updates[0].1), updates[1..])
  }

  function ReprioritizeOne(p: Pool, h: Hash, priority: nat): Pool {
    if h in p.lookup then Inserted(Removed(p, h), p.lookup[h].(priority := priority)) else p
  }

  function Wiped(p: Pool, hashes: seq<Hash>): Pool
    decreases hashes
  {
    if hashes == [] then p
    else
      Wiped(WipeOne(p, hashes[0]), hashes[1..])
  }

  function WipeOne(p: Pool, h: Hash): Pool {
    if h in p.lookup then Inserted(Removed(p, h), ResetBlock(p.lookup[h])) else p
  }

  lemma ReplacedShape(p: Pool, h: Hash, b: KvBlock)
    requires Shape(p) && h in p.lookup && b.uid == p.lookup[h].uid && FreshTick(Removed(p, h), b)
    ensures var q := Inserted(Removed(p, h), b);
            Shape(q) && Parked(q) == Parked(p) && Uids(q) == Uids(p)
  {
    hide Indexed, Ticked, Distinct, LookupUids, UidsOf;
    RemovedShape(p, h);
    InsertedShape(Removed(p, h), b);
  }

  ghost predicate SameButPriority(m: map<Hash, KvBlock>, m': map<Hash, KvBlock>) {
    m.Keys == m'.Keys && forall h :: h in m ==> m'[h] == m[h].(priority := m'[h].priority)
  }

  lemma SameButPriorityRefl(m: map<Hash, KvBlock>)
    ensures SameButPriority(m, m)
  {
  }

  lemma ReprioritizedOne(p: Pool, h: Hash, priority: nat)
    requires Shape(p) && h in p.lookup
    ensures var q := Inserted(Removed(p, h), p.lookup[h].(priority := priority));
            && Shape(q) && Parked(q) == Parked(p) && Uids(q) == Uids(p) && SameButPriority(p.lookup, q.lookup)
            && q.uninit == p.uninit && q.total == p.total && q.available == p.available
  {
    hide Indexed, Ticked, Distinct, LookupUids, UidsOf;
    var b := p.lookup[h].(priority := priority);
    RemovedShape(p, h);
    ReplacedShape(p, h, b);
    assert Inserted(Removed(p, h), b).lookup == p.lookup[h := b];
  }

  lemma SameButPriorityTrans(a: map<Hash, KvBlock>, b: map<Hash, KvBlock>, c: map<Hash, KvBlock>)
    requires SameButPriority(a, b) && SameButPriority(b, c)
    ensures SameButPriority(a, c)
  {
  }

  /** Re-prioritizing keeps every block parked, under its hash and with its tick. */
  lemma {:induction false} ReprioritizedEffect(p: Pool, updates: seq<(Hash, nat)>)
    requires Valid(p)
    ensures var q := Reprioritized(p, updates);
            && Valid(q) && Uids(q) == Uids(p) && q.uninit == p.uninit && q.total == p.total
            && SameButPriority(p.lookup, q.lookup)
    decreases updates
  {
    hide Indexed, Ticked, Distinct, LookupUids, UidsOf, FreshTick, SameButPriority;
    SameButPriorityRefl(p.lookup);
    if updates != [] {
      var (h, priority) := updates[0];
      if h in p.lookup {
        var b := p.lookup[h].(priority := priority);
        ReprioritizedOne(p, h, priority);
        var q := Inserted(Removed(p, h), b);
        ReprioritizedEffect(q, updates[1..]);
        SameButPriorityTrans(p.lookup, q.lookup, Reprioritized(q, updates[1..]).lookup);
      } else {
        ReprioritizedEffect(p, updates[1..]);
      }
    }
  }

  function HashSet(hashes: seq<Hash>): set<Hash> { set h | h in hashes }

  lemma WithoutAll(m: map<Hash, KvBlock>, hashes: seq<Hash>)
    requires hashes != []
    ensures m - HashSet(hashes) == (m - {hashes[0]}) - HashSet(hashes[1..])
  {
    assert HashSet(hashes) == {hashes[0]} + HashSet(hashes[1..]);
  }

  /** Wiping by hash takes exactly those hashes out of the index; the blocks stay parked. */
  lemma {:induction false} WipedEffect(p: Pool, hashes: seq<Hash>)
    requires Valid(p)
    ensures var q := Wiped(p, hashes);
            && Valid(q) && Uids(q) == Uids(p) && q.total == p.total
            && q.lookup == p.lookup - HashSet(hashes)
    decreases hashes
  {
    hide Indexed, Ticked, Distinct, LookupUids, UidsOf;
    if hashes == [] {
      assert p.lookup - HashSet(hashes) == p.lookup;
    } else {
      var h := hashes[0];
      WithoutAll(p.lookup, hashes);
      if h in p.lookup {
        var b := ResetBlock(p.lookup[h]);
        ReplacedShape(p, h, b);
        WipedEffect(Inserted(Removed(p, h), b), hashes[1..]);
      } else {
        assert p.lookup - {h} == p.lookup;
        WipedEffect(p, hashes[1..]);
      }
    }
  }
}
