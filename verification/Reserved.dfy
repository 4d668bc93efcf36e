/** Pool handles and the in-flight registry under every interleaving. A step is one critical section
    or one handle operation; dropping the last reference to an in-flight block, the body of its
    destructor and the return of its block are three separate steps with anything in between. */
module Reserved {
  import opened Tokens
  import P = Pool
  import E = Eviction
  import L = Ledger
  import opened Options

  /** A `UniqueBlock`: an optional block and whether it still knows its pool. A handle that was
      moved from keeps its block value but has lost its pool. */
  datatype Handle = Handle(block: Option<P.KvBlock>, attached: bool)

  predicate Owns(h: Handle) { h.block.Some? && h.attached }

  const Gone := Handle(None, false)

  /** What a move construction leaves behind: the block value with its token vector emptied, no pool. */
  function MovedFrom(h: Handle): Handle {
    Handle(if h.block.Some? then Some(h.block.value.(data := h.block.value.data.(tokens := []))) else None, false)
  }

  /** Live: referenced. Expired: last reference dropped, destructor not yet run. Unlinked: the
      destructor has looked at the registry, the block is about to be returned. */
  datatype Phase = Live | Expired | Unlinked

  datatype Inner = Inner(hash: Hash, handle: Handle, strong: nat, phase: Phase)

  datatype Sys = Sys(
    blockSize: nat,
    pool: P.Pool,
    handles: map<nat, Handle>,
    inners: map<nat, Inner>,
    registry: map<Hash, nat>,
    nextHandle: nat,
    nextInner: nat,
    issued: set<nat>,
    detached: set<nat>)

  function Start(blockSize: nat): Sys { Sys(blockSize, P.Empty, map[], map[], map[], 0, 0, {}, {}) }

  // ---------- steps

  datatype Step =
    | Insert(uid: nat, data: TokenBlock, priority: nat)  // a new block grows the pool
    | Take(count: nat)
    | Match(hashes: seq<Hash>)
    | Reprioritize(updates: seq<(Hash, nat)>)
    | Reset(hashes: seq<Hash>)
    | ResetAll
    | Stamp(x: nat, data: TokenBlock)             // update_token_block
    | MoveConstruct(x: nat)
    | MoveAssign(dst: nat, src: nat)
    | Destroy(x: nat)
    | Detach(x: nat)                              // take()
    | Register(x: nat)
    | MatchInflight(hashes: seq<Hash>)
    | CopyRef(i: nat)                             // a ReservedBlock is copied
    | DropRef(i: nat)
    | DestructorBody(i: nat)
    | DestructorReturn(i: nat)

  predicate IsLive(s: Sys, i: nat) { i in s.inners && s.inners[i].phase.Live? }

  predicate Enabled(s: Sys, step: Step) {
    match step
    case Insert(uid, _, _) => uid !in s.issued
    case Stamp(x, _) => x in s.handles && s.handles[x].block.Some?
    case MoveConstruct(x) => x in s.handles
    case MoveAssign(dst, src) => dst in s.handles && src in s.handles
    case Destroy(x) => x in s.handles
    case Detach(x) => x in s.handles && s.handles[x].block.Some?
    case Register(x) => x in s.handles
    case CopyRef(i) => IsLive(s, i)
    case DropRef(i) => IsLive(s, i)
    case DestructorBody(i) => i in s.inners && s.inners[i].phase.Expired?
    case DestructorReturn(i) => i in s.inners && s.inners[i].phase.Unlinked?
    case _ => true
  }

  function HandOut(handles: map<nat, Handle>, next: nat, bs: seq<P.KvBlock>): map<nat, Handle>
    decreases bs
  {
    if bs == [] then handles else HandOut(handles[next := Handle(Some(bs[0]), true)], next + 1, bs[1..])
  }

  /** The available counter, lowered as a 64-bit word is. */
  function Lowered(available: nat, n: nat): nat { if n <= available then available - n else (available - n) % TWO_64 }

  /** The pool after a handle lets go of what it owns. */
  function Released(p: P.Pool, h: Handle): P.Pool {
    if Owns(h) then P.Returned(p, h.block.value) else p
  }

  /** The live registration under `h`, if there is one. */
  function Registered(s: Sys, h: Hash): Option<nat> {
    if h in s.registry && IsLive(s, s.registry[h]) then Some(s.registry[h]) else None
  }

  function AddRef(s: Sys, i: nat): Sys
    requires i in s.inners
  {
    s.(inners := s.inners[i := s.inners[i].(strong := s.inners[i].strong + 1)])
  }

  /** `register_block`: an empty handle and a block of the wrong size are refused; a block already
      in flight is shared and the handle keeps its own for its destructor to return. */
  function RegisterHandle(s: Sys, x: nat): (Sys, Option<nat>)
    requires x in s.handles
  {
    var h := s.handles[x];
    if h.block.None? || |h.block.value.data.tokens| != s.blockSize then (s, None)
    else
      var hash := h.block.value.data.seqHash;
      var there := Registered(s, hash);
      if there.Some? then (AddRef(s, there.value), there)
      else
        (s.(inners := s.inners[s.nextInner := Inner(hash, h, 1, Live)], registry := s.registry[hash := s.nextInner],
            handles := s.handles[x := Gone], nextInner := s.nextInner + 1), Some(s.nextInner))
  }

  /** `match_sequence_hashes`: shares the in-flight blocks of a prefix of `hashes`. */
  function MatchRefs(s: Sys, hashes: seq<Hash>): (Sys, seq<nat>)
    decreases hashes
  {
    if hashes == [] || Registered(s, hashes[0]).None? then (s, [])
    else
      var i := Registered(s, hashes[0]).value;
      var r := MatchRefs(AddRef(s, i), hashes[1..]);
      (r.0, [i] + r.1)
  }

  function Next(s: Sys, step: Step): Sys
    requires Enabled(s, step)
  {
    match step
    case Insert(uid, data, priority) =>
      var p := P.Returned(s.pool, P.KvBlock(uid, data, priority, 0));
      s.(pool := p.(total := p.total + 1), issued := s.issued + {uid})
    case Take(count) =>
      var (p, bs) := E.TakeMany(s.pool, count);
      s.(pool := p.(available := Lowered(s.pool.available, |bs|)), handles := HandOut(s.handles, s.nextHandle, bs),
         nextHandle := s.nextHandle + |bs|)
    case Match(hashes) =>
      var (p, bs) := P.Matched(s.pool, hashes);
      s.(pool := p.(available := Lowered(s.pool.available, |bs|)), handles := HandOut(s.handles, s.nextHandle, bs),
         nextHandle := s.nextHandle + |bs|)
    case Reprioritize(updates) => s.(pool := P.Reprioritized(s.pool, updates))
    case Reset(hashes) => s.(pool := P.Wiped(s.pool, hashes))
    case ResetAll => s.(pool := E.WipedAll(s.pool))
    case Stamp(x, data) =>
      var h := s.handles[x];
      s.(handles := s.handles[x := h.(block := Some(h.block.value.(data := data)))])
    case MoveConstruct(x) =>
      s.(handles := s.handles[s.nextHandle := s.handles[x]][x := MovedFrom(s.handles[x])], nextHandle := s.nextHandle + 1)
    case MoveAssign(dst, src) =>
      if dst == src then s
      else s.(pool := Released(s.pool, s.handles[dst]), handles := s.handles[dst := s.handles[src]][src := Gone])
    case Destroy(x) => s.(pool := Released(s.pool, s.handles[x]), handles := s.handles - {x})
    case Detach(x) =>
      s.(handles := s.handles[x := s.handles[x].(block := None)],
         detached := if Owns(s.handles[x]) then s.detached + {s.handles[x].block.value.uid} else s.detached)
    case Register(x) => RegisterHandle(s, x).0
    case MatchInflight(hashes) => MatchRefs(s, hashes).0
    case CopyRef(i) => AddRef(s, i)
    case DropRef(i) =>
      var n := s.inners[i];
      s.(inners := s.inners[i := if n.strong == 1 then n.(strong := 0, phase := Expired) else n.(strong := if n.strong > 0 then n.strong - 1 else 0)])
    case DestructorBody(i) =>
      var h := s.inners[i].hash;
      s.(inners := s.inners[i := s.inners[i].(phase := Unlinked)],
         registry := if h in s.registry && !IsLive(s, s.registry[h]) then s.registry - {h} else s.registry)
    case DestructorReturn(i) => s.(pool := Released(s.pool, s.inners[i].handle), inners := s.inners - {i})
  }

  predicate IsRun(s: Sys, steps: seq<Step>)
    decreases steps
  {
    steps == [] || (Enabled(s, steps[0]) && IsRun(Next(s, steps[0]), steps[1..]))
  }

  function Run(s: Sys, steps: seq<Step>): Sys
    requires IsRun(s, steps)
    decreases steps
  {
    if steps == [] then s else Run(Next(s, steps[0]), steps[1..])
  }

  // ---------- invariants

  ghost function Owners(handles: map<nat, Handle>): map<nat, nat> {
    map x | x in handles && Owns(handles[x]) :: handles[x].block.value.uid
  }

  ghost function InnerOwners(inners: map<nat, Inner>): map<nat, nat> {
    map i | i in inners && Owns(inners[i].handle) :: inners[i].handle.block.value.uid
  }

  /** Every live in-flight block is the one its hash is registered under, and every registration is
      of a block that is live or whose destructor has yet to run. */
  ghost predicate RegistryOk(inners: map<nat, Inner>, registry: map<Hash, nat>) {
    && (forall i :: i in inners ==> (inners[i].phase.Live? <==> inners[i].strong > 0))
    && (forall i :: i in inners && inners[i].phase.Live? ==> inners[i].hash in registry && registry[inners[i].hash] == i)
    && (forall h :: h in registry ==>
          registry[h] in inners && inners[registry[h]].hash == h && !inners[registry[h]].phase.Unlinked?)
  }

  ghost predicate Books(s: Sys) {
    && P.Valid(s.pool)
    && L.Balanced(P.Uids(s.pool), Owners(s.handles), InnerOwners(s.inners), s.detached, s.issued)
  }

  ghost predicate Inv(s: Sys) {
    && Books(s)
    && RegistryOk(s.inners, s.registry)
    && (forall x :: x in s.handles ==> x < s.nextHandle)
    && (forall i :: i in s.inners ==> i < s.nextInner)
  }

  lemma OwnersSet(handles: map<nat, Handle>, x: nat, h: Handle)
    ensures Owners(handles[x := h]) ==
            if Owns(h) then Owners(handles)[x := h.block.value.uid] else Owners(handles) - {x}
  {
  }

  lemma OwnersDrop(handles: map<nat, Handle>, x: nat)
    ensures Owners(handles - {x}) == Owners(handles) - {x}
  {
  }

  lemma InnerOwnersSet(inners: map<nat, Inner>, i: nat, n: Inner)
    ensures InnerOwners(inners[i := n]) ==
            if Owns(n.handle) then InnerOwners(inners)[i := n.handle.block.value.uid] else InnerOwners(inners) - {i}
  {
  }

  /** Changing an in-flight block's count or phase moves no block. */
  lemma InnerOwnersKept(inners: map<nat, Inner>, i: nat, n: Inner)
    requires i in inners && n.handle == inners[i].handle
    ensures InnerOwners(inners[i := n]) == InnerOwners(inners)
  {
  }

  // ---------- blocks move, none is lost

  /** Handing blocks out of the pool into fresh handles. */
  lemma {:induction false} HandOutBalanced(uids: set<nat>, handles: map<nat, Handle>, next: nat, bs: seq<P.KvBlock>,
                                           i: map<nat, nat>, d: set<nat>, issued: set<nat>)
    requires L.Balanced(uids, Owners(handles), i, d, issued)
    requires P.DistinctBlocks(bs) && P.UidsOf(bs) <= uids && forall x :: x in handles ==> x < next
    ensures L.Balanced(uids - P.UidsOf(bs), Owners(HandOut(handles, next, bs)), i, d, issued)
    ensures forall x :: x in HandOut(handles, next, bs) ==> x < next + |bs|
    decreases bs
  {
    hide L.Balanced;
    if bs == [] {
      P.NoBlocks();
      assert uids - {} == uids;
    } else {
      var b, rest := bs[0], bs[1..];
      assert bs == [b] + rest;
      P.UidsOfAppend([b], rest);
      P.UidsOfOne(b);
      P.DistinctAppend([b], rest);
      L.PoolToHandle(uids, Owners(handles), i, d, issued, next, b.uid);
      OwnersSet(handles, next, Handle(Some(b), true));
      HandOutBalanced(uids - {b.uid}, handles[next := Handle(Some(b), true)], next + 1, rest, i, d, issued);
      assert uids - P.UidsOf(bs) == (uids - {b.uid}) - P.UidsOf(rest);
    }
  }

  /** What a handle owned is back in the pool; a handle that owned nothing changes nothing. */
  lemma ReleaseBalanced(s: Sys, x: nat)
    requires Books(s) && x in s.handles
    ensures P.Valid(Released(s.pool, s.handles[x]))
    ensures L.Balanced(P.Uids(Released(s.pool, s.handles[x])), Owners(s.handles) - {x}, InnerOwners(s.inners), s.detached, s.issued)
  {
    hide P.Valid, P.Uids, P.Returned, L.Balanced;
    var h := s.handles[x];
    if Owns(h) {
      L.HandleToPool(P.Uids(s.pool), Owners(s.handles), InnerOwners(s.inners), s.detached, s.issued, x);
      P.ReturnedValid(s.pool, h.block.value);
    } else {
      assert Owners(s.handles) - {x} == Owners(s.handles);
    }
  }

  lemma PoolStep(s: Sys, step: Step)
    requires Inv(s) && Enabled(s, step) && (step.Insert? || step.Take? || step.Match? || step.Reprioritize? || step.Reset? || step.ResetAll?)
    ensures Inv(Next(s, step))
  {
    hide RegistryOk, P.Shape, P.Uids, P.Returned, P.Matched, P.Reprioritized, P.Wiped, E.TakeMany, E.WipedAll, L.Balanced;
    var hs, ins, d, n := Owners(s.handles), InnerOwners(s.inners), s.detached, s.issued;
    match step
    case Insert(uid, data, priority) =>
      var b := P.KvBlock(uid, data, priority, 0);
      L.NewInPool(P.Uids(s.pool), hs, ins, d, n, uid);
      P.ReturnedValid(s.pool, b);
      ValidAnyTotal(P.Returned(s.pool, b));
    case Take(count) =>
      E.TakeManyCounts(s.pool, count);
      var (p, bs) := E.TakeMany(s.pool, count);
      HandOutBalanced(P.Uids(s.pool), s.handles, s.nextHandle, bs, ins, d, n);
      ValidLowered(s.pool, p, |bs|);
    case Match(hashes) =>
      P.MatchedEffect(s.pool, hashes);
      var (p, bs) := P.Matched(s.pool, hashes);
      HandOutBalanced(P.Uids(s.pool), s.handles, s.nextHandle, bs, ins, d, n);
      ValidLowered(s.pool, p, |bs|);
    case Reprioritize(updates) => P.ReprioritizedEffect(s.pool, updates);
    case Reset(hashes) => P.WipedEffect(s.pool, hashes);
    case ResetAll => E.WipedAllEffect(s.pool);
  }

  lemma ValidAnyTotal(p: P.Pool)
    requires P.Valid(p)
    ensures P.Valid(p.(total := p.total + 1)) && P.Uids(p.(total := p.total + 1)) == P.Uids(p)
  {
    hide P.Indexed, P.Ticked, P.Distinct;
  }

  /** Subtracting what was taken gives the number still parked. */
  lemma ValidLowered(p: P.Pool, p': P.Pool, n: nat)
    requires P.Valid(p) && P.Shape(p') && n <= P.Parked(p) && P.Parked(p') == P.Parked(p) - n
    ensures P.Valid(p'.(available := Lowered(p.available, n)))
    ensures P.Uids(p'.(available := Lowered(p.available, n))) == P.Uids(p')
  {
    hide P.Indexed, P.Ticked, P.Distinct;
  }

  lemma HandleStep(s: Sys, step: Step)
    requires Inv(s) && Enabled(s, step)
    requires step.Stamp? || step.MoveConstruct? || step.MoveAssign? || step.Destroy? || step.Detach?
    ensures Inv(Next(s, step))
  {
    hide RegistryOk, P.Valid, P.Uids, P.Returned, L.Balanced;
    var pu, hs, ins, d, n := P.Uids(s.pool), Owners(s.handles), InnerOwners(s.inners), s.detached, s.issued;
    match step
    case Stamp(x, data) =>
      var h := s.handles[x];
      OwnersSet(s.handles, x, h.(block := Some(h.block.value.(data := data))));
      assert Owners(Next(s, step).handles) == hs;
    case MoveConstruct(x) =>
      var h, y := s.handles[x], s.nextHandle;
      OwnersSet(s.handles, y, h);
      OwnersSet(s.handles[y := h], x, MovedFrom(h));
      if Owns(h) {
        L.HandleToHandle(pu, hs, ins, d, n, x, y);
        assert Owners(Next(s, step).handles) == L.Moved(hs, x, y);
      } else {
        assert Owners(Next(s, step).handles) == hs;
      }
    case MoveAssign(dst, src) =>
      if dst != src { MoveAssignBalanced(s, dst, src); }
    case Destroy(x) =>
      ReleaseBalanced(s, x);
      OwnersDrop(s.handles, x);
    case Detach(x) =>
      OwnersSet(s.handles, x, s.handles[x].(block := None));
      if Owns(s.handles[x]) { L.HandleToNobody(pu, hs, ins, d, n, x); } else { assert hs - {x} == hs; }
  }

  lemma MoveAssignBalanced(s: Sys, dst: nat, src: nat)
    requires Books(s) && dst in s.handles && src in s.handles && dst != src
    ensures Books(Next(s, MoveAssign(dst, src)))
  {
    hide P.Valid, P.Uids, P.Returned, L.Balanced;
    var h := s.handles[src];
    ReleaseBalanced(s, dst);
    OwnersSet(s.handles, dst, h);
    OwnersSet(s.handles[dst := h], src, Gone);
    var hs := Owners(s.handles) - {dst};
    if Owns(h) {
      L.HandleToHandle(P.Uids(Released(s.pool, s.handles[dst])), hs, InnerOwners(s.inners), s.detached, s.issued, src, dst);
      assert Owners(Next(s, MoveAssign(dst, src)).handles) == L.Moved(hs, src, dst);
    } else {
      assert Owners(Next(s, MoveAssign(dst, src)).handles) == hs;
    }
  }

  // ---------- the registry

  /** Reference counts aside, the in-flight blocks are the same. */
  ghost predicate SameBlocks(s: Sys, s': Sys) {
    && s'.inners.Keys == s.inners.Keys
    && forall j :: j in s.inners ==> s'.inners[j].hash == s.inners[j].hash && (IsLive(s', j) <==> IsLive(s, j))
  }

  lemma AddRefInv(s: Sys, i: nat)
    requires Inv(s) && IsLive(s, i)
    ensures Inv(AddRef(s, i)) && SameBlocks(s, AddRef(s, i))
  {
    hide P.Valid, L.Balanced;
    InnerOwnersKept(s.inners, i, s.inners[i].(strong := s.inners[i].strong + 1));
  }

  lemma RegisterInv(s: Sys, x: nat)
    requires Inv(s) && x in s.handles
    ensures Inv(RegisterHandle(s, x).0)
  {
    hide P.Valid, L.Balanced;
    var h := s.handles[x];
    if h.block.None? || |h.block.value.data.tokens| != s.blockSize {
    } else if Registered(s, h.block.value.data.seqHash).Some? {
      AddRefInv(s, Registered(s, h.block.value.data.seqHash).value);
    } else {
      var n := Inner(h.block.value.data.seqHash, h, 1, Live);
      OwnersSet(s.handles, x, Gone);
      InnerOwnersSet(s.inners, s.nextInner, n);
      if Owns(h) {
        L.HandleToInner(P.Uids(s.pool), Owners(s.handles), InnerOwners(s.inners), s.detached, s.issued, x, s.nextInner);
      } else {
        assert InnerOwners(s.inners) - {s.nextInner} == InnerOwners(s.inners) && Owners(s.handles) - {x} == Owners(s.handles);
      }
    }
  }

  /** The shared blocks carry exactly the hashes of a prefix, and the match stops at the first hash
      that is not in flight. */
  lemma {:induction false} MatchRefsInv(s: Sys, hashes: seq<Hash>)
    requires Inv(s)
    ensures var (s', ins) := MatchRefs(s, hashes);
            && Inv(s') && |ins| <= |hashes|
            && s' == s.(inners := s'.inners)
            && SameBlocks(s, s')
            && (forall k :: 0 <= k < |ins| ==> IsLive(s, ins[k]) && s.inners[ins[k]].hash == hashes[k])
            && (|ins| < |hashes| ==> Registered(s, hashes[|ins|]).None?)
    decreases hashes
  {
    hide Books;
    if hashes != [] && Registered(s, hashes[0]).Some? {
      var i := Registered(s, hashes[0]).value;
      AddRefInv(s, i);
      MatchRefsInv(AddRef(s, i), hashes[1..]);
    }
  }

  lemma DropRefInv(s: Sys, i: nat)
    requires Inv(s) && IsLive(s, i)
    ensures Inv(Next(s, DropRef(i)))
  {
    hide P.Valid, L.Balanced;
    InnerOwnersKept(s.inners, i, Next(s, DropRef(i)).inners[i]);
  }

  lemma DestructorBodyInv(s: Sys, i: nat)
    requires Inv(s) && Enabled(s, DestructorBody(i))
    ensures Inv(Next(s, DestructorBody(i)))
  {
    hide P.Valid, L.Balanced;
    InnerOwnersKept(s.inners, i, s.inners[i].(phase := Unlinked));
  }

  lemma DestructorReturnInv(s: Sys, i: nat)
    requires Inv(s) && Enabled(s, DestructorReturn(i))
    ensures Inv(Next(s, DestructorReturn(i)))
  {
    hide P.Valid, P.Uids, P.Returned, L.Balanced;
    var owners := InnerOwners(s.inners);
    assert InnerOwners(s.inners - {i}) == owners - {i};
    if Owns(s.inners[i].handle) {
      L.InnerToPool(P.Uids(s.pool), Owners(s.handles), owners, s.detached, s.issued, i);
      P.ReturnedValid(s.pool, s.inners[i].handle.block.value);
    } else {
      assert owners - {i} == owners;
    }
  }

  lemma StepKeepsInv(s: Sys, step: Step)
    requires Inv(s) && Enabled(s, step)
    ensures Inv(Next(s, step))
  {
    hide Inv;
    match step
    case Insert(_, _, _) => PoolStep(s, step);
    case Take(_) => PoolStep(s, step);
    case Match(_) => PoolStep(s, step);
    case Reprioritize(_) => PoolStep(s, step);
    case Reset(_) => PoolStep(s, step);
    case ResetAll => PoolStep(s, step);
    case Register(x) => RegisterInv(s, x);
    case MatchInflight(hashes) => MatchRefsInv(s, hashes);
    case CopyRef(i) => AddRefInv(s, i);
    case DropRef(i) => DropRefInv(s, i);
    case DestructorBody(i) => DestructorBodyInv(s, i);
    case DestructorReturn(i) => DestructorReturnInv(s, i);
    case _ => HandleStep(s, step);
  }

  lemma {:induction false} RunKeepsInv(s: Sys, steps: seq<Step>)
    requires Inv(s) && IsRun(s, steps)
    ensures Inv(Run(s, steps))
    decreases steps
  {
    hide Inv;
    if steps != [] {
      StepKeepsInv(s, steps[0]);
      RunKeepsInv(Next(s, steps[0]), steps[1..]);
    }
  }

  lemma StartInv(blockSize: nat)
    ensures Inv(Start(blockSize))
  {
    var s := Start(blockSize);
    assert Owners(s.handles) == map[] && InnerOwners(s.inners) == map[];
    assert P.Uids(s.pool) == {} && L.Vals(map[]) == {};
  }

  // ---------- main results

  /** Under every interleaving there is at most one live in-flight block per sequence hash, and it is
      the one that hash is registered under. */
  lemma OneLivePerHash(blockSize: nat, steps: seq<Step>, i: nat, j: nat)
    requires IsRun(Start(blockSize), steps)
    ensures var s := Run(Start(blockSize), steps);
            IsLive(s, i) && IsLive(s, j) && s.inners[i].hash == s.inners[j].hash ==>
              i == j && Registered(s, s.inners[i].hash) == Some(i)
  {
    hide Books;
    StartInv(blockSize);
    RunKeepsInv(Start(blockSize), steps);
  }

  /** The destructor of an old block never removes the registration of a live one. */
  lemma DestructorKeepsLive(s: Sys, i: nat, h: Hash)
    requires Inv(s) && Enabled(s, DestructorBody(i))
    ensures Registered(Next(s, DestructorBody(i)), h) == Registered(s, h)
    ensures s.inners[i].hash in Next(s, DestructorBody(i)).registry ==> Registered(s, s.inners[i].hash).Some?
  {
    hide Books;
  }

  /** Conservation over every run: the parked, held, in-flight and detached blocks are pairwise
      disjoint and together they are all blocks ever inserted; so when no handle and no in-flight
      block is left, every block that was not detached is back in the pool, and the pool's counter
      says so. */
  lemma EveryBlockComesBack(blockSize: nat, steps: seq<Step>)
    requires IsRun(Start(blockSize), steps)
    ensures var s := Run(Start(blockSize), steps);
            && Books(s)
            && s.pool.available == P.Parked(s.pool)
            && (s.inners == map[] && Owners(s.handles) == map[] ==> P.Uids(s.pool) == s.issued - s.detached)
  {
    hide RegistryOk, P.Shape, P.Uids;
    StartInv(blockSize);
    RunKeepsInv(Start(blockSize), steps);
    var s := Run(Start(blockSize), steps);
    if s.inners == map[] && Owners(s.handles) == map[] {
      assert InnerOwners(s.inners) == map[];
      assert L.Vals(map[]) == {};
    }
  }

  /** A handle that was move-constructed from still claims to hold a block, yet owns none: its
      destructor returns nothing. */
  lemma MovedFromOwnsNothing(s: Sys, x: nat)
    requires Inv(s) && x in s.handles && Owns(s.handles[x])
    ensures var s' := Next(s, MoveConstruct(x));
            && s'.handles[x].block.Some? && !Owns(s'.handles[x])
            && Owns(s'.handles[s.nextHandle]) && s'.handles[s.nextHandle] == s.handles[x]
            && Enabled(s', Destroy(x)) && Next(s', Destroy(x)).pool == s.pool
  {
    hide Books, RegistryOk;
  }
}
