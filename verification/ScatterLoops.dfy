/** The scatter as the loops run it: byte strides of both tensors, and one copy per innermost step. */
module ScatterLoops {

  import opened MixedRadix
  import opened Bytes
  import opened Scatter

  function Scaled(strides: seq<nat>, elem: nat): (r: seq<nat>)
    ensures |r| == |strides|
  {
    seq(|strides|, i requires 0 <= i < |strides| => strides[i] * elem)
  }

  lemma {:induction false} DotScaled(idx: seq<nat>, strides: seq<nat>, elem: nat)
    requires |idx| == |strides|
    ensures Dot(idx, Scaled(strides, elem)) == Dot(idx, strides) * elem
    decreases idx
  {
    if idx == [] {
    } else {
      DotScaled(idx[1..], strides[1..], elem);
      assert Scaled(strides, elem)[1..] == Scaled(strides[1..], elem);
      Distribute(idx[0], strides[0], Dot(idx[1..], strides[1..]), elem);
    }
  }

  lemma Distribute(a: nat, b: nat, c: nat, d: nat)
    ensures (a * b + c) * d == a * (b * d) + c * d
  {
    assert (a * b) * d == a * (b * d);
  }

  /** Leaving out the innermost index leaves whole units. */
  lemma UnitOffset(idx: Index, shape: Shape, c: nat, elem: nat, span: nat)
    requires |idx| == |shape| && span == c * elem
    ensures |Strides(shape + [c])| == |shape| + 1
    ensures Dot(idx, Scaled(Strides(shape + [c]), elem)[..|idx|]) == Dot(idx, Strides(shape)) * span
  {
    hide Dot, Strides;
    var st := Scaled(Strides(shape + [c]), elem);
    DotSnoc(idx, shape, 0, c);
    DotScaled(idx + [0], Strides(shape + [c]), elem);
    DotStep(idx + [0], st, |idx|);
    assert (idx + [0])[..|idx|] == idx && (idx + [0])[..|idx| + 1] == idx + [0] && st[..|idx| + 1] == st;
    var d := Dot(idx, Strides(shape));
    assert (d * c) * elem == d * (c * elem);
  }

  method ByteStrides(shape: Shape, elem: nat) returns (st: seq<nat>)
    requires |shape| > 0
    ensures st == Scaled(Strides(shape), elem)
  {
    hide Strides;
    LastStride(shape);
    st := [elem];
    var i := |shape| - 1;
    while i > 0
      invariant 0 <= i < |shape| && |st| == |shape| - i
      invariant forall k :: i <= k < |shape| ==> st[k - i] == Strides(shape)[k] * elem
    {
      StrideStep(shape, i - 1);
      Swap(Strides(shape)[i], elem, shape[i]);
      st := [st[0] * shape[i]] + st;
      i := i - 1;
    }
  }

  lemma Swap(a: nat, b: nat, c: nat)
    ensures (a * b) * c == (a * c) * b
  {
    assert (a * b) * c == a * (b * c) == a * (c * b) == (a * c) * b;
  }

  method Offset(idx: seq<nat>, st: seq<nat>) returns (at: nat)
    requires |idx| == |st|
    ensures at == Dot(idx, st)
  {
    at := 0;
    for i := 0 to |idx|
      invariant at == Dot(idx[..i], st[..i])
    {
      DotStep(idx, st, i);
      at := at + idx[i] * st[i];
    }
    assert idx[..|idx|] == idx && st[..|idx|] == st;
  }

  /** Both tensors' byte strides. */
  ghost predicate StridesOk(p: Plan, srcSt: seq<nat>, dstSt: seq<nat>) {
    && srcSt == Scaled(Strides(SrcShape(p) + [p.heads * p.head]), p.elem)
    && dstSt == Scaled(Strides(DstShape(p) + [p.heads * p.head]), p.elem)
  }

  method CopyUnit(src: array<byte>, dst: array<byte>, p: Plan, staged: nat, srcSt: seq<nat>, dstSt: seq<nat>, i: Index)
    requires StridesOk(p, srcSt, dstSt) && |i| == 4
    requires Ready(p, staged, src.Length, dst.Length) && Inside(p, staged, i[0], i[1], i[2], i[3])
    modifies dst
    ensures src != dst ==>
      && Fits(ScatterWrite(p, src[..], staged, dst.Length, i), dst.Length)
      && dst[..] == Blit(old(dst[..]), ScatterWrite(p, src[..], staged, dst.Length, i))
  {
    hide Dot, Strides, Size;
    var from := Offset(Axes(p, i[0], i[1]) + [i[2], i[3]], srcSt[..4]);
    var at := Offset([i[3]] + Axes(p, i[0], i[1]) + [i[2]], dstSt[..4]);
    UnitOffset(Axes(p, i[0], i[1]) + [i[2], i[3]], SrcShape(p), p.heads * p.head, p.elem, Span(p));
    UnitOffset([i[3]] + Axes(p, i[0], i[1]) + [i[2]], DstShape(p), p.heads * p.head, p.elem, Span(p));
    SrcFits(p, staged, src.Length, dst.Length, i[0], i[1], i[2], i[3]);
    DstFits(p, staged, src.Length, dst.Length, i[0], i[1], i[2], i[3]);
    Memcpy(dst, at, src[from..from + Span(p)]);
  }

  method ScatterRanks(src: array<byte>, dst: array<byte>, p: Plan, staged: nat, srcSt: seq<nat>, dstSt: seq<nat>,
                      block: nat, kv: nat, position: nat, ghost was: seq<byte>, ghost n: nat)
    requires StridesOk(p, srcSt, dstSt) && Ready(p, staged, src.Length, dst.Length)
    requires block < staged && kv < 2 && position < p.positions && |was| == dst.Length
    requires n == (block * 2 + kv) * p.positions + position
    requires src != dst ==> Done(dst[..], was, ScatterWrites(p, src[..], staged, dst.Length), n * p.ranks)
    modifies dst
    ensures src != dst ==> Done(dst[..], was, ScatterWrites(p, src[..], staged, dst.Length), n * p.ranks + p.ranks)
  {
    hide StridesOk, Ready, Size, StepIndex, BlitAll, ScatterWrite;
    ghost var s := src[..];
    ghost var ws := ScatterWrites(p, s, staged, dst.Length);
    for rank := 0 to p.ranks
      invariant src != dst ==> src[..] == s && Done(dst[..], was, ws, n * p.ranks + rank)
    {
      ghost var k := LoopNumber(p, staged, [block, kv, position, rank]);
      if src != dst { BlitAllStep(was, ws, k); }
      CopyUnit(src, dst, p, staged, srcSt, dstSt, [block, kv, position, rank]);
    }
  }

  method ScatterBlock(src: array<byte>, dst: array<byte>, p: Plan, staged: nat, srcSt: seq<nat>, dstSt: seq<nat>,
                      block: nat, ghost was: seq<byte>)
    requires StridesOk(p, srcSt, dstSt) && Ready(p, staged, src.Length, dst.Length) && block < staged && |was| == dst.Length
    requires src != dst ==> Done(dst[..], was, ScatterWrites(p, src[..], staged, dst.Length), block * 2 * p.positions * p.ranks)
    modifies dst
    ensures src != dst ==> Done(dst[..], was, ScatterWrites(p, src[..], staged, dst.Length), (block + 1) * 2 * p.positions * p.ranks)
  {
    hide StridesOk, Ready, Size, StepIndex, BlitAll, ScatterWrite, ScatterWrites, Done;
    ghost var s := src[..];
    for kv := 0 to 2
      invariant src != dst ==> src[..] == s && Done(dst[..], was, ScatterWrites(p, s, staged, dst.Length), (block * 2 + kv) * p.positions * p.ranks)
    {
      for position := 0 to p.positions
        invariant src != dst ==> src[..] == s && Done(dst[..], was, ScatterWrites(p, s, staged, dst.Length), ((block * 2 + kv) * p.positions + position) * p.ranks)
      {
        ghost var n := (block * 2 + kv) * p.positions + position;
        ScatterRanks(src, dst, p, staged, srcSt, dstSt, block, kv, position, was, n);
        assert (n + 1) * p.ranks == n * p.ranks + p.ranks;
      }
      assert (block * 2 + kv + 1) * p.positions == (block * 2 + kv) * p.positions + p.positions;
    }
  }

  /** The plan that a scatter call's six dimensions describe. */
  function PlanOf(dims: seq<nat>, elem: nat, blockDim: nat, dstBlocks: nat): Plan
    requires |dims| == 6 && blockDim <= 1
  {
    Plan(blockDim == 0, dims[blockDim], dstBlocks, dims[2], dims[3], dims[4], dims[5], elem)
  }

  function ErrorCode(dims: seq<nat>, blockDim: nat, srcBlocks: nat): int {
    if |dims| != 6 then -1
    else if blockDim > 1 then -2
    else if dims[blockDim] != srcBlocks then -3
    else if dims[1 - blockDim] != 2 then -4
    else 0
  }

  /** Scatters the first `staged` blocks; the staged block ids themselves are not used. */
  method ScatterAll(src: array<byte>, dst: array<byte>, dims: seq<nat>, elem: nat, blockDim: nat, srcBlocks: nat,
                    dstBlocks: nat, staged: nat)
    returns (rc: int)
    requires ErrorCode(dims, blockDim, srcBlocks) == 0 ==> Ready(PlanOf(dims, elem, blockDim, dstBlocks), staged, src.Length, dst.Length)
    modifies dst
    ensures rc == ErrorCode(dims, blockDim, srcBlocks)
    ensures rc != 0 ==> dst[..] == old(dst[..])
    ensures rc == 0 && src != dst ==>
              var p := PlanOf(dims, elem, blockDim, dstBlocks);
              && AllFit(ScatterWrites(p, src[..], staged, dst.Length), dst.Length)
              && dst[..] == BlitAll(old(dst[..]), ScatterWrites(p, src[..], staged, dst.Length))
  {
    hide StridesOk, Ready, Size, StepIndex, BlitAll, ScatterWrite, Strides;
    rc := ErrorCode(dims, blockDim, srcBlocks);
    if rc != 0 {
      return;
    }
    var p := PlanOf(dims, elem, blockDim, dstBlocks);
    var srcSt := ByteStrides(SrcShape(p) + [p.heads * p.head], elem);
    var dstSt := ByteStrides(DstShape(p) + [p.heads * p.head], elem);
    StridesAre(p, srcSt, dstSt);
    ghost var was, s := dst[..], src[..];
    ghost var ws := ScatterWrites(p, s, staged, dst.Length);
    ScatterWritesApart(p, s, staged, dst.Length);
    assert ws[..0] == [];
    BlitNone(was);
    for block := 0 to staged
      invariant src != dst ==> src[..] == s && Done(dst[..], was, ws, block * 2 * p.positions * p.ranks)
    {
      ScatterBlock(src, dst, p, staged, srcSt, dstSt, block, was);
    }
    LoopsSize(p, staged);
    assert ws[..|ws|] == ws;
  }

  lemma StridesAre(p: Plan, srcSt: seq<nat>, dstSt: seq<nat>)
    requires srcSt == Scaled(Strides(SrcShape(p) + [p.heads * p.head]), p.elem)
    requires dstSt == Scaled(Strides(DstShape(p) + [p.heads * p.head]), p.elem)
    ensures StridesOk(p, srcSt, dstSt)
  {
  }

  lemma LoopsSize(p: Plan, staged: nat)
    ensures Size(Loops(p, staged)) == staged * 2 * p.positions * p.ranks
  {
    hide Size;
    var a, b, c := [staged], [staged] + [2], [staged] + [2] + [p.positions];
    assert c + [p.ranks] == Loops(p, staged);
    SizeSnoc(c, p.ranks);
    SizeSnoc(b, p.positions);
    SizeSnoc(a, 2);
    SizeOne(staged);
  }

  lemma SizeOne(a: nat)
    ensures Size([a]) == a
  {
  }
}
