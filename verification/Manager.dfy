/** The prefill manager: matches a request's token blocks against in-flight blocks, then against the
    pool, and takes fresh blocks for the rest. Every effect on pool and registry is a sequence of the
    steps of `Reserved`, so what those keep holds throughout. */
module Manager {
  import opened Tokens
  import P = Pool
  import E = Eviction
  import L = Ledger
  import opened R = Reserved
  import opened Options

  datatype PrefillMatched = PrefillMatched(inflight: seq<nat>, remaining: seq<TokenBlock>, tail: PartialBlock)

  datatype PrefillOffload = PrefillOffload(inflight: seq<nat>, complete: seq<nat>, tail: PartialBlock, tailHandle: nat)

  datatype Result<T> = Done(value: T) | BlockSizeMismatch | NotEnoughBlocks(wanted: nat, got: nat)

  function SeqHashes(bs: seq<TokenBlock>): (hs: seq<Hash>)
    ensures |hs| == |bs| && forall i :: 0 <= i < |bs| ==> hs[i] == bs[i].seqHash
  {
    if bs == [] then [] else [bs[0].seqHash] + SeqHashes(bs[1..])
  }

  predicate LiveIn(inners: map<nat, Inner>, i: nat) { i in inners && inners[i].phase.Live? }

  /** `ids` are live in-flight blocks that carry the hashes of the first `|ids|` of `bs`. */
  ghost predicate Carries(inners: map<nat, Inner>, ids: seq<nat>, bs: seq<TokenBlock>) {
    |ids| <= |bs| && forall k :: 0 <= k < |ids| ==> LiveIn(inners, ids[k]) && inners[ids[k]].hash == bs[k].seqHash
  }

  /** The handles from `from + k` on hold `blocks[k..]`, and there is no other handle than those of `before`. */
  ghost predicate HoldsFrom(handles: map<nat, Handle>, from: nat, blocks: seq<P.KvBlock>, k: nat, before: map<nat, Handle>) {
    && (forall x :: x in handles <==> x in before || from + k <= x < from + |blocks|)
    && (forall x :: x in before ==> handles[x] == before[x])
    && (forall j :: k <= j < |blocks| ==> handles[from + j] == Handle(Some(blocks[j]), true))
  }

  ghost predicate CarriesHashes(inners: map<nat, Inner>, ids: seq<nat>, hashes: seq<Hash>) {
    |ids| <= |hashes| && forall k :: 0 <= k < |ids| ==> LiveIn(inners, ids[k]) && inners[ids[k]].hash == hashes[k]
  }

  function BlockHashes(bs: seq<P.KvBlock>): (hs: seq<Hash>)
    ensures |hs| == |bs| && forall i :: 0 <= i < |bs| ==> hs[i] == bs[i].data.seqHash
  {
    if bs == [] then [] else [bs[0].data.seqHash] + BlockHashes(bs[1..])
  }

  /** How many leading blocks are in flight. */
  ghost function Shared(s: Sys, bs: seq<TokenBlock>): nat { |MatchRefs(s, SeqHashes(bs)).1| }

  /** The parked blocks that serve the leading blocks of `bs`. */
  ghost function Reusable(s: Sys, bs: seq<TokenBlock>): seq<P.KvBlock> { P.Matched(s.pool, SeqHashes(bs)).1 }

  // ---------- references

  /** From `a` to `b` exactly the references `ids` were taken; blocks new in `b` are held by them alone. */
  ghost predicate Acquired(a: map<nat, Inner>, b: map<nat, Inner>, ids: seq<nat>) {
    && (forall i :: i in a ==> i in b && b[i] == a[i].(strong := a[i].strong + multiset(ids)[i]))
    && (forall i :: i in b && i !in a ==> i in ids && b[i].phase.Live? && b[i].strong == multiset(ids)[i])
    && (forall i :: i in ids ==> LiveIn(b, i))
  }

  /** Every reference in `ids` is counted. */
  ghost predicate Refers(inners: map<nat, Inner>, ids: seq<nat>) {
    forall i :: i in ids ==> LiveIn(inners, i) && inners[i].strong >= multiset(ids)[i]
  }

  /** The in-flight blocks once the references `ids` are dropped: those that lose their last one are gone. */
  ghost function Dropped(inners: map<nat, Inner>, ids: seq<nat>): map<nat, Inner> {
    map i | i in inners && !(i in ids && inners[i].strong <= multiset(ids)[i]) ::
      if i in ids then inners[i].(strong := inners[i].strong - multiset(ids)[i]) else inners[i]
  }

  lemma AcquiredNone(a: map<nat, Inner>)
    ensures Acquired(a, a, [])
  {
  }

  lemma AcquiredMore(a: map<nat, Inner>, b: map<nat, Inner>, c: map<nat, Inner>, x: seq<nat>, y: seq<nat>)
    requires Acquired(a, b, x) && Acquired(b, c, y)
    ensures Acquired(a, c, x + y)
  {
    assert multiset(x + y) == multiset(x) + multiset(y);
    forall i | i in c && i !in a ensures i in x + y && c[i].phase.Live? && c[i].strong == multiset(x + y)[i] {
      if i !in b { assert i !in x; }
    }
    forall i | i in x + y ensures LiveIn(c, i) {
      if i in x { assert LiveIn(b, i); }
    }
  }

  /** Taking references leaves live blocks live, under their hashes. */
  lemma AcquiredCarries(a: map<nat, Inner>, b: map<nat, Inner>, ids: seq<nat>, held: seq<nat>, hashes: seq<Hash>)
    requires Acquired(a, b, ids) && CarriesHashes(a, held, hashes)
    ensures CarriesHashes(b, held, hashes)
  {
    forall k | 0 <= k < |held| ensures LiveIn(b, held[k]) && b[held[k]].hash == hashes[k] { assert LiveIn(a, held[k]); }
  }

  /** Dropping what was acquired restores the in-flight blocks. */
  lemma DroppedUndoes(a: map<nat, Inner>, b: map<nat, Inner>, ids: seq<nat>)
    requires Acquired(a, b, ids) && forall i :: i in a ==> (a[i].phase.Live? <==> a[i].strong > 0)
    ensures Refers(b, ids) && Dropped(b, ids) == a
  {
    forall i | i in ids ensures LiveIn(b, i) && b[i].strong >= multiset(ids)[i] {}
    var d := Dropped(b, ids);
    forall i | i in a ensures i in d && d[i] == a[i] {
      if i in ids { assert LiveIn(b, i); }
    }
    assert d.Keys == a.Keys;
  }

  /** Dropping references one after the other. */
  lemma DroppedSnoc(inners: map<nat, Inner>, ids: seq<nat>, k: nat)
    requires Refers(inners, ids) && k < |ids|
    ensures var d, i := Dropped(inners, ids[..k]), ids[k];
            && LiveIn(d, i) && d[i].strong > 0
            && Dropped(inners, ids[..k + 1]) == if d[i].strong == 1 then d - {i} else d[i := d[i].(strong := d[i].strong - 1)]
  {
    hide Refers, Dropped;
    var i := ids[k];
    assert ids == ids[..k] + [i] + ids[k + 1..];
    assert multiset(ids) == multiset(ids[..k]) + multiset{i} + multiset(ids[k + 1..]);
    assert LiveIn(inners, i) && inners[i].strong > multiset(ids[..k])[i] by { RefersAt(inners, ids, k); }
    assert ids[..k + 1] == ids[..k] + [i];
    DroppedOne(inners, ids[..k], i);
  }

  lemma RefersAt(inners: map<nat, Inner>, ids: seq<nat>, k: nat)
    requires Refers(inners, ids) && k < |ids|
    ensures LiveIn(inners, ids[k]) && inners[ids[k]].strong >= multiset(ids)[ids[k]]
  {
  }

  lemma DroppedOne(inners: map<nat, Inner>, ids: seq<nat>, i: nat)
    requires LiveIn(inners, i) && inners[i].strong > multiset(ids)[i]
    ensures var d := Dropped(inners, ids);
            && LiveIn(d, i) && d[i].strong > 0
            && Dropped(inners, ids + [i]) == if d[i].strong == 1 then d - {i} else d[i := d[i].(strong := d[i].strong - 1)]
  {
    var d, d' := Dropped(inners, ids), Dropped(inners, ids + [i]);
    assert multiset(ids + [i]) == multiset(ids) + multiset{i};
    assert d[i].strong == inners[i].strong - multiset(ids)[i] && (i in ids <==> multiset(ids)[i] > 0);
    forall j | j in inners && j != i ensures (j in d' <==> j in d) && (j in d ==> d'[j] == d[j]) {
      assert j in ids + [i] <==> j in ids;
    }
  }

  lemma {:induction false} HandOutHolds(handles: map<nat, Handle>, next: nat, bs: seq<P.KvBlock>)
    requires forall x :: x in handles ==> x < next
    ensures var r := HandOut(handles, next, bs);
            && (forall x :: x in r <==> x in handles || next <= x < next + |bs|)
            && (forall x :: x in handles ==> r[x] == handles[x])
            && (forall k :: 0 <= k < |bs| ==> r[next + k] == Handle(Some(bs[k]), true))
    decreases bs
  {
    if bs != [] {
      var h1 := handles[next := Handle(Some(bs[0]), true)];
      HandOutHolds(h1, next + 1, bs[1..]);
      var r := HandOut(h1, next + 1, bs[1..]);
      assert next in h1;
      forall k | 0 <= k < |bs| ensures r[next + k] == Handle(Some(bs[k]), true) {
        if k > 0 { assert r[(next + 1) + (k - 1)] == Handle(Some(bs[1..][k - 1]), true); }
      }
    }
  }

  lemma CarriesNone(inners: map<nat, Inner>, hashes: seq<Hash>)
    ensures CarriesHashes(inners, [], hashes)
  {
  }

  lemma CarriesOne(inners: map<nat, Inner>, ids: seq<nat>, hashes: seq<Hash>, id: nat)
    requires CarriesHashes(inners, ids, hashes) && |ids| < |hashes| && LiveIn(inners, id) && inners[id].hash == hashes[|ids|]
    ensures CarriesHashes(inners, ids + [id], hashes)
  {
  }

  /** Registering takes one reference, to the block that is in flight already or to a new one. */
  lemma RegisterAcquires(s: Sys, x: nat, b: P.KvBlock)
    requires Inv(s) && x in s.handles && s.handles[x] == Handle(Some(b), true)
    ensures var (s', id) := RegisterHandle(s, x);
            && (id.Some? <==> |b.data.tokens| == s.blockSize)
            && s'.issued == s.issued && s'.detached == s.detached && s'.blockSize == s.blockSize
            && x in s'.handles && s'.handles - {x} == s.handles - {x}
            && (id.None? ==> s'.inners == s.inners)
            && (id.Some? ==> Acquired(s.inners, s'.inners, [id.value]) && LiveIn(s'.inners, id.value))
            && (id.Some? ==> s'.inners[id.value].hash == b.data.seqHash)
  {
    hide Books;
  }

  /** Matching takes one reference to each block it gives. */
  lemma {:induction false} MatchAcquires(s: Sys, hashes: seq<Hash>)
    requires Inv(s)
    ensures Acquired(s.inners, MatchRefs(s, hashes).0.inners, MatchRefs(s, hashes).1)
    decreases hashes
  {
    hide Inv;
    if hashes == [] || Registered(s, hashes[0]).None? {
    } else {
      var i := Registered(s, hashes[0]).value;
      AddRefInv(s, i);
      MatchAcquires(AddRef(s, i), hashes[1..]);
      AddRefAcquires(s, i);
      var r := MatchRefs(AddRef(s, i), hashes[1..]);
      AcquiredMore(s.inners, AddRef(s, i).inners, r.0.inners, [i], r.1);
    }
  }

  lemma AddRefAcquires(s: Sys, i: nat)
    requires IsLive(s, i)
    ensures Acquired(s.inners, AddRef(s, i).inners, [i])
  {
  }

  lemma HoldsNext(handles: map<nat, Handle>, from: nat, blocks: seq<P.KvBlock>, k: nat, before: map<nat, Handle>)
    requires HoldsFrom(handles, from, blocks, k, before) && k < |blocks| && forall x :: x in before ==> x < from
    ensures from + k in handles && handles[from + k] == Handle(Some(blocks[k]), true)
    ensures HoldsFrom(handles - {from + k}, from, blocks, k + 1, before)
  {
    var h := handles - {from + k};
    forall j | k + 1 <= j < |blocks| ensures h[from + j] == Handle(Some(blocks[j]), true) {
      assert handles[from + j] == Handle(Some(blocks[j]), true);
    }
  }

  lemma HoldsNoMore(handles: map<nat, Handle>, from: nat, blocks: seq<P.KvBlock>, before: map<nat, Handle>)
    requires HoldsFrom(handles, from, blocks, |blocks|, before)
    ensures handles == before
  {
  }

  lemma DroppedNone(inners: map<nat, Inner>)
    ensures Dropped(inners, []) == inners
  {
  }

  lemma Restores(s0: Sys, s: Sys, ids: seq<nat>)
    requires Inv(s0) && Acquired(s0.inners, s.inners, ids)
    ensures Refers(s.inners, ids) && Dropped(s.inners, ids) == s0.inners
  {
    hide Books, Acquired, Dropped;
    DroppedUndoes(s0.inners, s.inners, ids);
  }

  lemma CarriesAgain(inners: map<nat, Inner>, ids: seq<nat>, hs: seq<Hash>, hs': seq<Hash>)
    requires CarriesHashes(inners, ids, hs) && |ids| <= |hs'| && forall k :: 0 <= k < |ids| ==> hs'[k] == hs[k]
    ensures CarriesHashes(inners, ids, hs')
  {
  }

  lemma CarriesOn(inners: map<nat, Inner>, a: seq<nat>, b: seq<nat>, hs: seq<Hash>)
    requires CarriesHashes(inners, a, hs) && CarriesHashes(inners, b, hs[|a|..])
    ensures CarriesHashes(inners, a + b, hs)
  {
    forall k | 0 <= k < |a + b| ensures LiveIn(inners, (a + b)[k]) && inners[(a + b)[k]].hash == hs[k] {
      if k >= |a| { assert LiveIn(inners, b[k - |a|]); }
    }
  }

  lemma CarriesBoth(inners: map<nat, Inner>, a: seq<nat>, b: seq<nat>, bs: seq<TokenBlock>, parked: seq<P.KvBlock>)
    requires CarriesHashes(inners, a, SeqHashes(bs)) && CarriesHashes(inners, b, BlockHashes(parked))
    requires |a| + |parked| <= |bs| && forall k :: 0 <= k < |parked| ==> parked[k].data.seqHash == SeqHashes(bs[|a|..])[k]
    ensures Carries(inners, a + b, bs)
  {
    assert |b| <= |parked|;
    var tail := SeqHashes(bs)[|a|..];
    forall k | 0 <= k < |b| ensures tail[k] == BlockHashes(parked)[k] {
      assert parked[k].data.seqHash == SeqHashes(bs[|a|..])[k] == bs[|a|..][k].seqHash;
    }
    hide CarriesHashes, SeqHashes, BlockHashes;
    CarriesAgain(inners, b, BlockHashes(parked), tail);
    CarriesOn(inners, a, b, SeqHashes(bs));
    CarriesOfHashes(inners, a + b, bs);
  }

  lemma CarriesOfHashes(inners: map<nat, Inner>, ids: seq<nat>, bs: seq<TokenBlock>)
    requires CarriesHashes(inners, ids, SeqHashes(bs))
    ensures Carries(inners, ids, bs)
  {
  }

  class KvStorageManager {
    const hash: Hasher
    const blockSize: nat
    var sys: Sys

    constructor (hash: Hasher, blockSize: nat)
      ensures this.hash == hash && this.blockSize == blockSize && sys == Start(blockSize) && Inv(sys)
    {
      this.hash, this.blockSize := hash, blockSize;
      sys := Start(blockSize);
      StartInv(blockSize);
    }

    method Do(step: Step)
      requires Inv(sys) && Enabled(sys, step)
      modifies this`sys
      ensures sys == Next(old(sys), step) && Inv(sys)
    {
      StepKeepsInv(sys, step);
      sys := Next(sys, step);
    }

    /** Registers the handles from `from` on one after the other; a block already in flight is shared and
        the handle's own block goes back to the pool. Stops at a block of the wrong size. */
    method RegisterAll(from: nat, blocks: seq<P.KvBlock>, ghost before: map<nat, Handle>)
      returns (ids: seq<nat>, ok: bool)
      requires Inv(sys) && HoldsFrom(sys.handles, from, blocks, 0, before) && sys.blockSize == blockSize
      requires forall x :: x in before ==> x < from
      modifies this`sys
      ensures Inv(sys) && sys.blockSize == blockSize && sys.handles == before
      ensures sys.issued == old(sys).issued && sys.detached == old(sys).detached
      ensures Acquired(old(sys).inners, sys.inners, ids)
      ensures ok <==> forall k :: 0 <= k < |blocks| ==> |blocks[k].data.tokens| == blockSize
      ensures |ids| <= |blocks| && (ok ==> |ids| == |blocks|) && CarriesHashes(sys.inners, ids, BlockHashes(blocks))
    {
      hide Inv, Acquired, CarriesHashes, HoldsFrom, BlockHashes;
      ids, ok := [], true;
      AcquiredNone(sys.inners);
      CarriesNone(sys.inners, BlockHashes(blocks));
      var k := 0;
      while k < |blocks|
        invariant 0 <= k <= |blocks| && Inv(sys) && sys.blockSize == blockSize
        invariant sys.issued == old(sys).issued && sys.detached == old(sys).detached
        invariant HoldsFrom(sys.handles, from, blocks, k, before)
        invariant Acquired(old(sys).inners, sys.inners, ids) && CarriesHashes(sys.inners, ids, BlockHashes(blocks))
        invariant |ids| <= k && (ok ==> |ids| == k)
        invariant ok <==> forall j :: 0 <= j < k ==> |blocks[j].data.tokens| == blockSize
      {
        HoldsNext(sys.handles, from, blocks, k, before);
        if ok {
          ghost var mid := sys.inners;
          var id := RegisterOne(from + k, blocks[k]);
          if id.Some? {
            AcquiredMore(old(sys).inners, mid, sys.inners, ids, [id.value]);
            AcquiredCarries(mid, sys.inners, [id.value], ids, BlockHashes(blocks));
            CarriesOne(sys.inners, ids, BlockHashes(blocks), id.value);
            ids := ids + [id.value];
          } else {
            ok := false;
          }
        } else {
          Discard(from + k);
        }
        k := k + 1;
      }
      HoldsNoMore(sys.handles, from, blocks, before);
    }

    /** Registers one matched block; its handle is gone afterwards. */
    method RegisterOne(x: nat, ghost b: P.KvBlock) returns (id: Option<nat>)
      requires Inv(sys) && x in sys.handles && sys.handles[x] == Handle(Some(b), true) && sys.blockSize == blockSize
      modifies this`sys
      ensures Inv(sys) && sys.blockSize == blockSize && sys.issued == old(sys).issued && sys.detached == old(sys).detached
      ensures sys.handles == old(sys).handles - {x}
      ensures id.Some? <==> |b.data.tokens| == blockSize
      ensures id.None? ==> sys.inners == old(sys).inners
      ensures id.Some? ==>
        && Acquired(old(sys).inners, sys.inners, [id.value])
        && LiveIn(sys.inners, id.value) && sys.inners[id.value].hash == b.data.seqHash
    {
      hide Inv, Acquired, RegisterHandle;
      ghost var before := sys;
      id := RegisterHandle(sys, x).1;
      RegisterAcquires(sys, x, b);
      Do(Register(x));
      Discard(x);
      assert sys.handles == before.handles - {x};
    }

    method Discard(x: nat)
      requires Inv(sys) && x in sys.handles
      modifies this`sys
      ensures Inv(sys) && sys.handles == old(sys).handles - {x}
      ensures sys.inners == old(sys).inners && sys.registry == old(sys).registry && sys.blockSize == old(sys).blockSize
      ensures sys.issued == old(sys).issued && sys.detached == old(sys).detached && sys.nextHandle == old(sys).nextHandle
    {
      hide Inv;
      Do(Destroy(x));
    }

    /** Drops one reference; with the last one the block leaves the registry and returns to the pool. */
    method DropOne(i: nat)
      requires Inv(sys) && LiveIn(sys.inners, i)
      modifies this`sys
      ensures Inv(sys) && sys.handles == old(sys).handles && sys.blockSize == old(sys).blockSize
      ensures sys.issued == old(sys).issued && sys.detached == old(sys).detached
      ensures var n := old(sys).inners[i];
              sys.inners == if n.strong == 1 then old(sys).inners - {i} else old(sys).inners[i := n.(strong := n.strong - 1)]
    {
      hide Books;
      Do(DropRef(i));
      if sys.inners[i].phase.Expired? {
        Do(DestructorBody(i));
        Do(DestructorReturn(i));
        assert sys.inners == old(sys).inners - {i};
      }
    }

    /** A vector of references goes out of scope. */
    method DropAll(ids: seq<nat>)
      requires Inv(sys) && Refers(sys.inners, ids)
      modifies this`sys
      ensures Inv(sys) && sys.handles == old(sys).handles && sys.blockSize == old(sys).blockSize
      ensures sys.issued == old(sys).issued && sys.detached == old(sys).detached
      ensures sys.inners == Dropped(old(sys).inners, ids)
    {
      hide Inv, Refers, Dropped;
      DroppedNone(sys.inners);
      assert ids[..0] == [];
      for k := 0 to |ids|
        invariant Inv(sys) && sys.handles == old(sys).handles && sys.blockSize == old(sys).blockSize
        invariant sys.issued == old(sys).issued && sys.detached == old(sys).detached
        invariant sys.inners == Dropped(old(sys).inners, ids[..k])
      {
        DroppedSnoc(old(sys).inners, ids, k);
        DropOne(ids[k]);
      }
      assert ids[..|ids|] == ids;
    }

    /** The leading blocks of the request that are in flight or parked come back as live in-flight
        blocks with exactly their hashes, one reference taken to each; the rest of the split is returned
        untouched. Only a parked block whose token count is not the block size makes it fail, and then
        every reference it took is dropped again: handles, in-flight blocks and parked blocks are as before. */
    method PreparePrefillSequence(tokens: seq<Token>) returns (r: Result<PrefillMatched>)
      requires Inv(sys) && sys.blockSize == blockSize
      modifies this`sys
      ensures Inv(sys) && sys.handles == old(sys).handles && sys.blockSize == blockSize
      ensures sys.issued == old(sys).issued && sys.detached == old(sys).detached
      ensures Shared(old(sys), Split(hash, tokens, blockSize).blocks) <= |Split(hash, tokens, blockSize).blocks|
      ensures var blocks := Split(hash, tokens, blockSize).blocks;
              var parked := Reusable(old(sys), blocks[Shared(old(sys), blocks)..]);
              && !r.NotEnoughBlocks?
              && (r.Done? <==> forall k :: 0 <= k < |parked| ==> |parked[k].data.tokens| == blockSize)
              && (r.Done? ==> |r.value.inflight| == Shared(old(sys), blocks) + |parked|)
      ensures r.Done? ==>
                var split := Split(hash, tokens, blockSize);
                && Acquired(old(sys).inners, sys.inners, r.value.inflight)
                && Carries(sys.inners, r.value.inflight, split.blocks)
                && r.value.remaining == split.blocks[|r.value.inflight|..]
                && r.value.tail == split.current
      ensures !r.Done? ==> sys.inners == old(sys).inners && P.Uids(sys.pool) == P.Uids(old(sys).pool)
    {
      hide Inv, HoldsFrom, MatchRefs, Split, P.Matched, P.Uids, Acquired, CarriesHashes, Dropped, Refers;
      var split := SplitTokens(hash, tokens, blockSize);
      var hashes := SeqHashes(split.blocks);
      var inflight := ShareInflight(hashes);
      ghost var mid := sys;
      var unmatched := split.blocks[|inflight|..];
      var from := sys.nextHandle;
      var reusable := TakeMatching(SeqHashes(unmatched));
      assert reusable == Reusable(old(sys), split.blocks[Shared(old(sys), split.blocks)..]);
      var ids, ok := RegisterAll(from, reusable, mid.handles);
      AcquiredMore(old(sys).inners, mid.inners, sys.inners, inflight, ids);
      if !ok {
        Restores(old(sys), sys, inflight + ids);
        DropAll(inflight + ids);
        SameInvPool(old(sys), sys);
        return BlockSizeMismatch;
      }
      AcquiredCarries(mid.inners, sys.inners, ids, inflight, hashes);
      CarriesBoth(sys.inners, inflight, ids, split.blocks, reusable);
      inflight := inflight + ids;
      r := Done(PrefillMatched(inflight, split.blocks[|inflight|..], split.current));
    }

    method ShareInflight(hashes: seq<Hash>) returns (ids: seq<nat>)
      requires Inv(sys)
      modifies this`sys
      ensures Inv(sys) && sys.handles == old(sys).handles && sys.blockSize == old(sys).blockSize
      ensures sys.issued == old(sys).issued && sys.detached == old(sys).detached
      ensures ids == MatchRefs(old(sys), hashes).1 && sys.pool == old(sys).pool
      ensures |ids| <= |hashes| && CarriesHashes(sys.inners, ids, hashes) && Acquired(old(sys).inners, sys.inners, ids)
    {
      hide Inv, MatchRefs, Acquired;
      MatchRefsInv(sys, hashes);
      MatchAcquires(sys, hashes);
      ids := MatchRefs(sys, hashes).1;
      Do(MatchInflight(hashes));
    }

    /** Takes the parked blocks of a prefix of `hashes` into new handles. */
    method TakeMatching(hashes: seq<Hash>) returns (bs: seq<P.KvBlock>)
      requires Inv(sys)
      modifies this`sys
      ensures Inv(sys) && HoldsFrom(sys.handles, old(sys).nextHandle, bs, 0, old(sys).handles) && sys.blockSize == old(sys).blockSize
      ensures sys.inners == old(sys).inners && (forall x :: x in old(sys).handles ==> x < old(sys).nextHandle)
      ensures sys.issued == old(sys).issued && sys.detached == old(sys).detached
      ensures bs == P.Matched(old(sys).pool, hashes).1
      ensures |bs| <= |hashes| && forall k :: 0 <= k < |bs| ==> bs[k].data.seqHash == hashes[k]
    {
      hide RegistryOk, P.Shape, P.Uids, P.Matched, L.Balanced;
      P.MatchedEffect(sys.pool, hashes);
      bs := P.Matched(sys.pool, hashes).1;
      HandOutHolds(sys.handles, sys.nextHandle, bs);
      Do(Match(hashes));
    }

    method TakeFresh(count: nat) returns (bs: seq<P.KvBlock>)
      requires Inv(sys)
      modifies this`sys
      ensures Inv(sys) && HoldsFrom(sys.handles, old(sys).nextHandle, bs, 0, old(sys).handles) && (forall x :: x in old(sys).handles ==> x < old(sys).nextHandle)
      ensures sys.inners == old(sys).inners && sys.issued == old(sys).issued && sys.detached == old(sys).detached
      ensures |bs| == E.Least(count, old(sys).pool.available)
    {
      hide RegistryOk, P.Shape, P.Uids, E.TakeMany, L.Balanced;
      E.TakeManyCounts(sys.pool, count);
      bs := E.TakeMany(sys.pool, count).1;
      HandOutHolds(sys.handles, sys.nextHandle, bs);
      Do(Take(count));
    }

    /** Fresh blocks for everything that was not matched, plus one for the tail. With enough parked
        blocks each remaining token block is stamped, in order, onto a handle of its own; otherwise
        the call fails, every block it took is back in the pool, and the references of its argument are
        dropped, so that blocks nobody else uses are back there too. The count is computed in 32 bits. */
    method PreparePrefillOffload(matched: PrefillMatched) returns (r: Result<PrefillOffload>)
      requires Inv(sys) && Refers(sys.inners, matched.inflight)
      modifies this`sys
      ensures Inv(sys)
      ensures r.Done? <==> |matched.remaining| + 1 < TWO_32 && |matched.remaining| + 1 <= old(sys).pool.available
      ensures !r.BlockSizeMismatch?
      ensures r.NotEnoughBlocks? ==> sys.handles == old(sys).handles && sys.inners == Dropped(old(sys).inners, matched.inflight)
      ensures r.NotEnoughBlocks? ==> P.Uids(sys.pool) == P.Uids(old(sys).pool) + Freed(old(sys).inners, sys.inners)
      ensures r.Done? ==> sys.inners == old(sys).inners && Offloaded(old(sys), sys, matched, r.value)
    {
      hide RegistryOk, P.Valid, P.Uids, L.Balanced, Offloaded, Stamped, Dropped, Refers, Freed;
      var n := |matched.remaining|;
      var count := (n % TWO_32 + 1) % TWO_32;
      var from := sys.nextHandle;
      ghost var before := sys;
      var bs := TakeFresh(count);
      if |bs| != n + 1 {
        DiscardAll(from, |bs|, before.handles);
        DropAll(matched.inflight);
        FreedReturn(before, sys, matched.inflight);
        return NotEnoughBlocks(n + 1, |bs|);
      }
      var complete := StampAll(from, bs, matched.remaining, before.handles);
      r := Done(PrefillOffload(matched.inflight, complete, matched.tail, from));
      StampedOffloaded(before, sys, bs, matched, r.value);
    }

    /** Hands the taken blocks out from the back: token block `k` goes onto handle `from + n - k`. */
    method StampAll(from: nat, bs: seq<P.KvBlock>, data: seq<TokenBlock>, ghost before: map<nat, Handle>)
      returns (complete: seq<nat>)
      requires Inv(sys) && HoldsFrom(sys.handles, from, bs, 0, before) && |bs| == |data| + 1 && forall x :: x in before ==> x < from
      modifies this`sys
      ensures Inv(sys) && sys.inners == old(sys).inners && Stamped(sys, from, bs, data, |data|, before)
      ensures |complete| == |data| && forall k :: 0 <= k < |data| ==> complete[k] == from + |data| - k
    {
      hide Books, RegistryOk;
      complete := [];
      var k := 0;
      while k < |data|
        invariant 0 <= k <= |data| && Inv(sys) && sys.inners == old(sys).inners
        invariant Stamped(sys, from, bs, data, k, before)
        invariant |complete| == k && forall j :: 0 <= j < k ==> complete[j] == from + |data| - j
      {
        var x := from + |data| - k;
        assert sys.handles[x] == Handle(Some(bs[|data| - k]), true);
        Do(Stamp(x, data[k]));
        complete := complete + [x];
        k := k + 1;
      }
    }

    method DiscardAll(from: nat, n: nat, ghost before: map<nat, Handle>)
      requires Inv(sys) && (forall x :: x in sys.handles <==> x in before || from <= x < from + n)
      requires forall x :: x in before ==> x < from && sys.handles[x] == before[x]
      modifies this`sys
      ensures Inv(sys) && sys.handles == before && sys.inners == old(sys).inners
      ensures sys.issued == old(sys).issued && sys.detached == old(sys).detached
    {
      hide Inv;
      var k := 0;
      while k < n
        invariant 0 <= k <= n && Inv(sys) && sys.inners == old(sys).inners
        invariant sys.issued == old(sys).issued && sys.detached == old(sys).detached
        invariant forall x :: x in sys.handles <==> x in before || from + k <= x < from + n
        invariant forall x :: x in before ==> sys.handles[x] == before[x]
      {
        Discard(from + k);
        k := k + 1;
      }
    }
  }

  /** The first `k` of `data` are stamped onto the last `k` handles, everything else is as handed out. */
  ghost predicate Stamped(s: Sys, from: nat, bs: seq<P.KvBlock>, data: seq<TokenBlock>, k: nat,
                          before: map<nat, Handle>)
    requires |bs| == |data| + 1 && k <= |data|
  {
    && (forall x :: x in s.handles <==> x in before || from <= x < from + |bs|)
    && (forall x :: x in before ==> s.handles[x] == before[x])
    && (forall j :: 0 <= j < |bs| ==>
          s.handles[from + j] == Handle(Some(if j > |data| - k then bs[j].(data := data[|data| - j]) else bs[j]), true))
  }

  ghost predicate Offloaded(s: Sys, s': Sys, matched: PrefillMatched, o: PrefillOffload) {
    && o.inflight == matched.inflight && o.tail == matched.tail
    && |o.complete| == |matched.remaining|
    && (forall k :: 0 <= k < |o.complete| ==>
          && o.complete[k] in s'.handles && o.complete[k] !in s.handles && Owns(s'.handles[o.complete[k]])
          && s'.handles[o.complete[k]].block.value.data == matched.remaining[k])
    && (forall j, k :: 0 <= j < k < |o.complete| ==> o.complete[j] != o.complete[k])
    && o.tailHandle in s'.handles && o.tailHandle !in s.handles && o.tailHandle !in o.complete && Owns(s'.handles[o.tailHandle])
    && (forall x :: x in s.handles ==> x in s'.handles && s'.handles[x] == s.handles[x])
  }

  lemma StampedOffloaded(s: Sys, s': Sys, bs: seq<P.KvBlock>, matched: PrefillMatched, o: PrefillOffload)
    requires |bs| == |matched.remaining| + 1 && forall x :: x in s.handles ==> x < s.nextHandle
    requires Stamped(s', s.nextHandle, bs, matched.remaining, |matched.remaining|, s.handles)
    requires o.inflight == matched.inflight && o.tail == matched.tail && o.tailHandle == s.nextHandle
    requires |o.complete| == |matched.remaining|
    requires forall k :: 0 <= k < |o.complete| ==> o.complete[k] == s.nextHandle + |matched.remaining| - k
    ensures Offloaded(s, s', matched, o)
  {
    var n := |matched.remaining|;
    forall k | 0 <= k < n ensures s'.handles[o.complete[k]] == Handle(Some(bs[n - k].(data := matched.remaining[k])), true) {
      assert o.complete[k] == s.nextHandle + (n - k);
    }
    assert s'.handles[s.nextHandle + 0] == Handle(Some(bs[0]), true);
  }

  /** The blocks of the in-flight blocks that are gone. */
  ghost function Freed(before: map<nat, Inner>, after: map<nat, Inner>): set<nat> {
    L.Vals(InnerOwners(before)) - L.Vals(InnerOwners(after))
  }

  /** If handles, issues and detachments are the same, the pool has gained what in-flight blocks gave up. */
  lemma FreedReturn(s: Sys, s': Sys, ids: seq<nat>)
    requires Books(s) && Books(s') && s'.inners == Dropped(s.inners, ids)
    requires s'.handles == s.handles && s'.issued == s.issued && s'.detached == s.detached
    ensures P.Uids(s'.pool) == P.Uids(s.pool) + Freed(s.inners, s'.inners)
  {
    hide P.Valid, P.Uids;
    var a, b := InnerOwners(s.inners), InnerOwners(s'.inners);
    assert L.Vals(b) <= L.Vals(a) by {
      forall x | x in L.Vals(b) ensures x in L.Vals(a) {
        var i :| i in b && b[i] == x;
        assert i in a && a[i] == x;
      }
    }
    var hs := L.Vals(Owners(s.handles)) + s.detached;
    assert P.Uids(s.pool) == s.issued - hs - L.Vals(a) && P.Uids(s'.pool) == s.issued - hs - L.Vals(b);
    assert L.Vals(a) <= s.issued && L.Vals(a) !! hs;
  }

  /** If handles, in-flight blocks, issues and detachments are the same, so are the parked blocks. */
  lemma SameInvPool(s: Sys, s': Sys)
    requires Inv(s) && Inv(s')
    requires s'.handles == s.handles && s'.inners == s.inners && s'.issued == s.issued && s'.detached == s.detached
    ensures P.Uids(s'.pool) == P.Uids(s.pool)
  {
    hide P.Valid, P.Uids, RegistryOk;
    var out := L.Vals(Owners(s.handles)) + L.Vals(InnerOwners(s.inners)) + s.detached;
    assert P.Uids(s.pool) == s.issued - out && P.Uids(s'.pool) == s.issued - out;
  }
}
