/** The pool in place: three containers and three counters changed together under one lock. */
module AvailableBlocksImpl {
  import opened Tokens
  import P = Pool
  import E = Eviction
  import opened Options

  class AvailableBlocks {
    var lookupMap: map<Hash, P.KvBlock>
    var prioritySet: map<P.PriorityKey, Hash>
    var uninitializedSet: seq<P.KvBlock>
    var returnTick: nat
    var totalBlocks: nat
    var availableBlocks: nat

    ghost function State(): P.Pool
      reads this
    {
      P.Pool(lookupMap, prioritySet, uninitializedSet, returnTick, totalBlocks, availableBlocks)
    }

    constructor ()
      ensures State() == P.Empty && P.Valid(State()) && P.Uids(State()) == {}
    {
      lookupMap, prioritySet, uninitializedSet := map[], map[], [];
      returnTick, totalBlocks, availableBlocks := 0, 0, 0;
    }

    method InsertLocked(b: P.KvBlock)
      modifies this`lookupMap, this`prioritySet, this`uninitializedSet
      ensures State() == P.Inserted(old(State()), b)
    {
      var h := b.data.seqHash;
      if h == 0 || h in lookupMap {
        uninitializedSet := uninitializedSet + [b];
        return;
      }
      prioritySet := prioritySet[P.KeyOf(b) := h];
      lookupMap := lookupMap[h := b];
    }

    method TakeWithHashLocked(h: Hash) returns (b: Option<P.KvBlock>)
      modifies this`lookupMap, this`prioritySet
      ensures if h in old(lookupMap) then b == Some(old(lookupMap)[h]) && State() == P.Removed(old(State()), h)
              else b == None && State() == old(State())
    {
      if h !in lookupMap { return None; }
      var block := lookupMap[h];
      lookupMap := lookupMap - {h};
      prioritySet := prioritySet - {P.KeyOf(block)};
      b := Some(block);
    }

    /** The smallest key of the priority order. */
    method FirstKey() returns (k: P.PriorityKey)
      requires prioritySet.Keys != {}
      ensures P.IsMin(k, prioritySet.Keys) && k in prioritySet.Keys
    {
      k :| k in prioritySet.Keys;
      var todo := prioritySet.Keys - {k};
      while todo != {}
        invariant k in prioritySet.Keys && todo <= prioritySet.Keys - {k}
        invariant forall y :: y in prioritySet.Keys && y !in todo && y != k ==> P.Less(k, y)
        decreases todo
      {
        var x :| x in todo;
        todo := todo - {x};
        if P.Less(x, k) { k := x; }
      }
    }

    /** An uninitialized block, else the first of the priority order; the index always has it. */
    method TakeAnyLocked() returns (b: Option<P.KvBlock>)
      requires P.Indexed(lookupMap, prioritySet)
      modifies this`lookupMap, this`prioritySet, this`uninitializedSet
      ensures (State(), b) == E.TakeOne(old(State()))
    {
      if uninitializedSet != [] {
        b := Some(uninitializedSet[0]);
        uninitializedSet := uninitializedSet[1..];
        return;
      }
      if prioritySet.Keys != {} {
        var k := FirstKey();
        P.MinUnique(k, E.MinKey(prioritySet.Keys), prioritySet.Keys);
        var h := prioritySet[k];
        prioritySet := prioritySet - {k};
        var block := lookupMap[h];
        lookupMap := lookupMap - {h};
        return Some(block);
      }
      b := None;
    }

    method ReturnBlock(b: P.KvBlock)
      requires P.Valid(State()) && b.uid !in P.Uids(State())
      modifies this
      ensures State() == P.Returned(old(State()), b)
      ensures P.Valid(State()) && P.Uids(State()) == old(P.Uids(State())) + {b.uid}
    {
      hide P.Indexed, P.Ticked, P.Distinct;
      P.ReturnedValid(State(), b);
      availableBlocks := availableBlocks + 1;
      returnTick := returnTick + 1;
      InsertLocked(b.(tick := returnTick));
    }

    /** A new block grows the pool. */
    method Insert(b: P.KvBlock)
      requires P.Valid(State()) && b.uid !in P.Uids(State())
      modifies this
      ensures State() == P.Returned(old(State()), b).(total := old(totalBlocks) + 1)
      ensures P.Valid(State()) && P.Uids(State()) == old(P.Uids(State())) + {b.uid}
    {
      hide P.Indexed, P.Ticked, P.Distinct, P.Returned;
      P.ReturnedValid(State(), b);
      ReturnBlock(b);
      totalBlocks := totalBlocks + 1;
    }

    method MatchBlocks(hashes: seq<Hash>) returns (matched: seq<P.KvBlock>)
      requires P.Valid(State())
      modifies this
      ensures P.Valid(State()) && matched == P.Matched(old(State()), hashes).1 && |matched| <= old(availableBlocks)
      ensures State() == P.Matched(old(State()), hashes).0.(available := old(availableBlocks) - |matched|)
    {
      hide P.Indexed, P.Ticked, P.Distinct, P.UidsOf, P.DistinctBlocks, P.LookupUids, P.Matched;
      P.MatchedEffect(State(), hashes);
      matched := MatchLocked(hashes);
      availableBlocks := availableBlocks - |matched|;
    }

    method MatchLocked(hashes: seq<Hash>) returns (matched: seq<P.KvBlock>)
      modifies this`lookupMap, this`prioritySet
      ensures (State(), matched) == P.Matched(old(State()), hashes)
    {
      hide P.Matched, P.Removed;
      matched := [];
      var i := 0;
      ghost var all := P.Matched(State(), hashes);
      assert hashes[0..] == hashes && [] + all.1 == all.1;
      while i < |hashes|
        invariant 0 <= i <= |hashes|
        invariant var rest := P.Matched(State(), hashes[i..]); all == (rest.0, matched + rest.1)
      {
        P.MatchedNext(State(), hashes, i);
        var b := TakeWithHashLocked(hashes[i]);
        if b.None? { break; }
        ghost var after := P.Matched(State(), hashes[i + 1..]);
        assert matched + ([b.value] + after.1) == (matched + [b.value]) + after.1;
        matched := matched + [b.value];
        i := i + 1;
      }
      P.MatchedNext(State(), hashes, i);
      assert matched + [] == matched;
    }

    /** Up to `count` blocks, in eviction order. */
    method TakeBlocks(count: nat) returns (taken: seq<P.KvBlock>)
      requires P.Valid(State())
      modifies this
      ensures P.Valid(State()) && taken == E.TakeMany(old(State()), count).1 && |taken| <= old(availableBlocks)
      ensures State() == E.TakeMany(old(State()), count).0.(available := old(availableBlocks) - |taken|)
    {
      hide P.Ticked, P.Distinct, P.Uids, P.UidsOf, P.DistinctBlocks, E.TakeOne, E.TakeMany;
      E.TakeManyCounts(State(), count);
      taken := [];
      var i := 0;
      ghost var all := E.TakeMany(State(), count);
      assert [] + all.1 == all.1;
      while i < count
        invariant 0 <= i <= count && P.Shape(State()) && availableBlocks == old(availableBlocks)
        invariant var rest := E.TakeMany(State(), count - i); all == (rest.0, taken + rest.1)
      {
        E.TakeOneEffect(State());
        E.TakeManyStep(State(), count - i);
        var b := TakeAnyLocked();
        if b.None? { break; }
        ghost var after := E.TakeMany(State(), count - i - 1);
        assert taken + ([b.value] + after.1) == (taken + [b.value]) + after.1;
        taken := taken + [b.value];
        i := i + 1;
      }
      E.TakeManyStep(State(), count - i);
      assert taken + [] == taken;
      availableBlocks := availableBlocks - |taken|;
    }

    method UpdatePriority(h: Hash, priority: nat)
      modifies this`lookupMap, this`prioritySet, this`uninitializedSet
      ensures State() == P.ReprioritizeOne(old(State()), h, priority)
    {
      var b := TakeWithHashLocked(h);
      if b.Some? { InsertLocked(b.value.(priority := priority)); }
    }

    method UpdatePriorities(updates: seq<(Hash, nat)>)
      requires P.Valid(State())
      modifies this`lookupMap, this`prioritySet, this`uninitializedSet
      ensures State() == P.Reprioritized(old(State()), updates) && P.Valid(State())
    {
      hide P.ReprioritizeOne, P.Indexed, P.Ticked, P.Distinct, P.Uids;
      P.ReprioritizedEffect(State(), updates);
      var i := 0;
      assert updates[0..] == updates;
      while i < |updates|
        invariant 0 <= i <= |updates|
        invariant P.Reprioritized(State(), updates[i..]) == P.Reprioritized(old(State()), updates)
      {
        assert updates[i..][1..] == updates[i + 1..];
        UpdatePriority(updates[i].0, updates[i].1);
        i := i + 1;
      }
    }

    method ResetOne(h: Hash)
      modifies this`lookupMap, this`prioritySet, this`uninitializedSet
      ensures State() == P.WipeOne(old(State()), h)
    {
      var b := TakeWithHashLocked(h);
      if b.Some? { InsertLocked(P.ResetBlock(b.value)); }
    }

    method Reset(hashes: seq<Hash>)
      requires P.Valid(State())
      modifies this`lookupMap, this`prioritySet, this`uninitializedSet
      ensures State() == P.Wiped(old(State()), hashes) && P.Valid(State())
    {
      hide P.WipeOne, P.Indexed, P.Ticked, P.Distinct, P.Uids;
      P.WipedEffect(State(), hashes);
      var i := 0;
      assert hashes[0..] == hashes;
      while i < |hashes|
        invariant 0 <= i <= |hashes|
        invariant P.Wiped(State(), hashes[i..]) == P.Wiped(old(State()), hashes)
      {
        assert hashes[i..][1..] == hashes[i + 1..];
        ResetOne(hashes[i]);
        i := i + 1;
      }
    }

    /** Every matchable block loses its state; all blocks stay parked. */
    method ResetAll()
      requires P.Valid(State())
      modifies this`lookupMap, this`prioritySet, this`uninitializedSet
      ensures State() == E.WipedAll(old(State()))
      ensures P.Valid(State()) && P.Uids(State()) == old(P.Uids(State()))
      ensures lookupMap == map[] && prioritySet == map[]
      ensures old(uninitializedSet) <= uninitializedSet
      ensures forall i :: |old(uninitializedSet)| <= i < |uninitializedSet| ==>
                uninitializedSet[i] == P.ResetBlock(uninitializedSet[i])
    {
      hide P.Valid, P.Uids, E.WipedAll, E.FirstHash, P.WipeOne;
      while prioritySet.Keys != {}
        invariant P.Valid(State()) && P.Uids(State()) == old(P.Uids(State()))
        invariant E.WipedAll(State()) == E.WipedAll(old(State()))
        invariant old(uninitializedSet) <= uninitializedSet
        invariant forall i :: |old(uninitializedSet)| <= i < |uninitializedSet| ==>
                    uninitializedSet[i] == P.ResetBlock(uninitializedSet[i])
        decreases prioritySet.Keys
      {
        E.WipedAllNext(State());
        WipeFirst();
      }
      E.WipedAllEmpty(State());
    }

    method WipeFirst()
      requires P.Valid(State()) && prioritySet.Keys != {}
      modifies this`lookupMap, this`prioritySet, this`uninitializedSet
      ensures P.Valid(State()) && P.Uids(State()) == old(P.Uids(State()))
      ensures prioritySet.Keys < old(prioritySet.Keys)
      ensures E.FirstHash(old(State())).Some? && State() == P.WipeOne(old(State()), E.FirstHash(old(State())).value)
      ensures |uninitializedSet| == |old(uninitializedSet)| + 1 && old(uninitializedSet) <= uninitializedSet
      ensures uninitializedSet[|old(uninitializedSet)|] == P.ResetBlock(uninitializedSet[|old(uninitializedSet)|])
    {
      hide P.Ticked, P.Distinct, P.Uids, P.IsMin;
      var k := FirstKey();
      assert k in prioritySet.Keys;
      var h := prioritySet[k];
      var block := lookupMap[h];
      P.MinUnique(k, E.MinKey(prioritySet.Keys), prioritySet.Keys);
      P.ReplacedShape(State(), h, P.ResetBlock(block));
      prioritySet := prioritySet - {k};
      lookupMap := lookupMap - {h};
      InsertLocked(P.ResetBlock(block));
    }
  }
}
