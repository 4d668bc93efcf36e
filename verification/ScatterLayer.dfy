/** What a scatter does to the layer's own tensor, whose heads need not divide among the target ranks. */
module ScatterLayer {
  import opened MixedRadix
  import opened Bytes
  import opened Scatter
  import L = ScatterLoops
  import C = CopyStreams

  /** The layer as its owner sees it: [axes, position, `all` heads, element]. */
  function LayerShape(p: Plan, all: nat): Shape { Axes(p, p.from, 2) + [p.positions] + [all] + [p.head] }

  function LayerByte(p: Plan, all: nat, block: nat, kv: nat, position: nat, g: nat, e: nat): nat {
    Dot(Axes(p, block, kv) + [position] + [g] + [e], Strides(LayerShape(p, all))) * p.elem
  }

  predicate InLayer(p: Plan, all: nat, staged: nat, block: nat, kv: nat, position: nat, g: nat, e: nat, b: nat) {
    block < staged && kv < 2 && position < p.positions && g < all && e < p.head && b < p.elem
  }

  /** Whatever the slabs held, byte `at` of the target is byte `from` of the layer after the scatter. */
  ghost predicate Lands(p: Plan, staged: nat, src: nat, dst: nat, from: nat, at: nat)
    requires Ready(p, staged, src, dst)
  {
    from < src && at < dst &&
    forall s: seq<byte>, t: seq<byte> :: |s| == src && |t| == dst && AllFit(ScatterWrites(p, s, staged, dst), dst) ==>
      BlitAll(t, ScatterWrites(p, s, staged, dst))[at] == s[from]
  }

  /** Byte `b` of an element of head `g` is in the target at the same block, kv, position and element, as head `h` of rank `r`. */
  ghost predicate LandsAt(p: Plan, all: nat, staged: nat, src: nat, dst: nat,
                          block: nat, kv: nat, position: nat, g: nat, e: nat, b: nat, r: nat, h: nat)
    requires Ready(p, staged, src, dst)
  {
    && r < p.ranks && h < p.heads
    && Lands(p, staged, src, dst, LayerByte(p, all, block, kv, position, g, e) + b, DstByte(p, r, block, kv, position, h, e) + b)
  }

  ghost predicate HeadArrives(p: Plan, all: nat, staged: nat, src: nat, dst: nat,
                              block: nat, kv: nat, position: nat, g: nat, e: nat, b: nat)
    requires Ready(p, staged, src, dst)
  {
    exists r, h :: LandsAt(p, all, staged, src, dst, block, kv, position, g, e, b, r, h)
  }

  /** Every head of every staged block is in the target. */
  ghost predicate EveryHeadArrives(p: Plan, all: nat, staged: nat, src: nat, dst: nat)
    requires Ready(p, staged, src, dst)
  {
    forall block, kv, position, g, e, b :: InLayer(p, all, staged, block, kv, position, g, e, b) ==>
      HeadArrives(p, all, staged, src, dst, block, kv, position, g, e, b)
  }

  /** With the heads dividing among the ranks, head `g` is head `g % heads` of rank `g / heads`. */
  lemma DividedArrives(p: Plan, staged: nat, src: nat, dst: nat, block: nat, kv: nat, position: nat, g: nat, e: nat, b: nat)
    requires Ready(p, staged, src, dst) && p.heads > 0
    requires InLayer(p, p.ranks * p.heads, staged, block, kv, position, g, e, b)
    ensures LandsAt(p, p.ranks * p.heads, staged, src, dst, block, kv, position, g, e, b, Quotient(g, p.heads), Remainder(g, p.heads))
  {
    hide Dot, Strides, Size, Quotient, Remainder, DstByte, Ready, ScatterWrites, BlitAll, AllFit;
    var r, h := Quotient(g, p.heads), Remainder(g, p.heads);
    DivMod(g, p.heads);
    DivBound(g, p.ranks, p.heads);
    assert LayerByte(p, p.ranks * p.heads, block, kv, position, g, e) == SrcByte(p, block, kv, position, r * p.heads + h, e);
    UnitLands(p, staged, src, dst, block, kv, position, r, h, e, b);
  }

  lemma UnitLands(p: Plan, staged: nat, src: nat, dst: nat, block: nat, kv: nat, position: nat, r: nat, h: nat, e: nat, b: nat)
    requires Ready(p, staged, src, dst) && Inside(p, staged, block, kv, position, r) && h < p.heads && e < p.head && b < p.elem
    ensures Lands(p, staged, src, dst, SrcByte(p, block, kv, position, r * p.heads + h, e) + b, DstByte(p, r, block, kv, position, h, e) + b)
  {
    hide Dot, Strides, Size, DstByte, SrcByte, Ready, Inside, ScatterWrites, BlitAll, AllFit;
    var from, at := SrcByte(p, block, kv, position, r * p.heads + h, e) + b, DstByte(p, r, block, kv, position, h, e) + b;
    Fit(p, staged, src, dst, block, kv, position, r, h, e, b);
    forall s: seq<byte>, t: seq<byte> | |s| == src && |t| == dst && AllFit(ScatterWrites(p, s, staged, dst), dst)
      ensures BlitAll(t, ScatterWrites(p, s, staged, dst))[at] == s[from]
    {
      ScatterPermutes(p, s, t, staged, block, kv, position, r, h, e, b);
    }
  }

  /** A byte of the target that is always one byte of the source is not always another. */
  lemma LandsOnce(p: Plan, staged: nat, src: nat, dst: nat, from: nat, other: nat, at: nat)
    requires Ready(p, staged, src, dst) && Lands(p, staged, src, dst, from, at) && other != from
    ensures !Lands(p, staged, src, dst, other, at)
  {
    hide Ready, ScatterWrites, BlitAll, AllFit;
    if other < src {
      var s: seq<byte>, t: seq<byte> := seq(src, i => if i == other then 1 else 0), seq(dst, i => 0);
      ScatterWritesApart(p, s, staged, dst);
      assert BlitAll(t, ScatterWrites(p, s, staged, dst))[at] == s[from] != s[other];
    }
  }

  lemma Fit(p: Plan, staged: nat, src: nat, dst: nat, block: nat, kv: nat, position: nat, r: nat, h: nat, e: nat, b: nat)
    requires Ready(p, staged, src, dst) && Inside(p, staged, block, kv, position, r) && h < p.heads && e < p.head && b < p.elem
    ensures SrcByte(p, block, kv, position, r * p.heads + h, e) + b < src && DstByte(p, r, block, kv, position, h, e) + b < dst
  {
    hide Dot, Strides, Size, DstByte, SrcByte, Ready, ScatterWrites, BlitAll, Inside;
    var s: seq<byte>, t: seq<byte> := seq(src, i => 0), seq(dst, i => 0);
    ScatterWritesApart(p, s, staged, dst);
    ScatterPermutes(p, s, t, staged, block, kv, position, r, h, e, b);
  }

  /** In a layer with more heads than the ranks take, the first head beyond theirs lies past the bytes that any rank's heads are read from. */
  lemma Beyond(p: Plan, all: nat, block: nat, kv: nat, position: nat, x: nat, e: nat)
    requires x < p.ranks * p.heads <= all && 0 < p.head && 0 < p.elem
    ensures SrcByte(p, block, kv, position, x, e) < LayerByte(p, all, block, kv, position, p.ranks * p.heads, e)
  {
    hide Dot, Strides;
    var i, t, rh := Axes(p, block, kv) + [position], Axes(p, p.from, 2) + [p.positions], p.ranks * p.heads;
    DotSnoc(i + [x], t + [rh], e, p.head);
    DotSnoc(i, t, x, rh);
    DotSnoc(i + [rh], t + [all], e, p.head);
    DotSnoc(i, t, rh, all);
    var d := Dot(i, Strides(t));
    assert d * rh <= d * all;
    SpanOfElement(d * rh + x, d * all + rh, p.head);
    SpanOfElement((d * rh + x) * p.head + e, (d * all + rh) * p.head + e, p.elem);
  }

  lemma BeyondLost(p: Plan, all: nat, staged: nat, src: nat, dst: nat, block: nat, kv: nat, position: nat, e: nat, b: nat, r: nat, h: nat)
    requires Ready(p, staged, src, dst) && p.ranks * p.heads < all
    requires InLayer(p, all, staged, block, kv, position, p.ranks * p.heads, e, b)
    ensures !LandsAt(p, all, staged, src, dst, block, kv, position, p.ranks * p.heads, e, b, r, h)
  {
    hide Dot, Strides, Size, DstByte, SrcByte, LayerByte, Ready, Lands;
    if r < p.ranks && h < p.heads {
      DigitBound(r, p.ranks, p.heads, h);
      Beyond(p, all, block, kv, position, r * p.heads + h, e);
      UnitLands(p, staged, src, dst, block, kv, position, r, h, e, b);
      LandsOnce(p, staged, src, dst, SrcByte(p, block, kv, position, r * p.heads + h, e) + b,
                LayerByte(p, all, block, kv, position, p.ranks * p.heads, e) + b, DstByte(p, r, block, kv, position, h, e) + b);
    }
  }

  lemma Product(a: nat, b: nat)
    ensures a * b > 0 ==> b > 0
  {
  }

  lemma EveryHeadArrivesIff(p: Plan, all: nat, staged: nat, src: nat, dst: nat)
    requires Ready(p, staged, src, dst) && p.ranks * p.heads <= all
    ensures EveryHeadArrives(p, all, staged, src, dst) <==>
              p.ranks * p.heads == all || staged == 0 || p.positions == 0 || p.head == 0 || p.elem == 0
  {
    hide LandsAt, Ready, Quotient, Remainder;
    if p.ranks * p.heads == all {
      forall block, kv, position, g, e, b | InLayer(p, all, staged, block, kv, position, g, e, b)
        ensures HeadArrives(p, all, staged, src, dst, block, kv, position, g, e, b)
      {
        Product(p.ranks, p.heads);
        DividedArrives(p, staged, src, dst, block, kv, position, g, e, b);
      }
    } else if staged > 0 && p.positions > 0 && p.head > 0 && p.elem > 0 {
      assert InLayer(p, all, staged, 0, 0, 0, p.ranks * p.heads, 0, 0);
      forall r, h ensures !LandsAt(p, all, staged, src, dst, 0, 0, 0, p.ranks * p.heads, 0, 0, r, h) {
        BeyondLost(p, all, staged, src, dst, 0, 0, 0, 0, 0, r, h);
      }
    }
  }

  /** The plan that `ScatterCopyLayer` makes of a layer's dimensions. */
  function LayerPlan(dims: seq<nat>, elem: nat, blockDim: nat, srcTp: nat, dstTp: nat, to: nat): Plan
    requires |dims| == 5 && blockDim <= 1 && 0 < srcTp < dstTp
  {
    L.PlanOf(C.SixDims(dims, srcTp, dstTp), elem, blockDim, C.Narrow(to))
  }

  /** A scattered layer has every head of every staged block in the target exactly when the scatter
      factor divides its heads, or there is nothing to scatter. */
  lemma HeadsSplitIff(dims: seq<nat>, elem: nat, blockDim: nat, srcTp: nat, dstTp: nat, to: nat, staged: nat, src: nat, dst: nat)
    requires |dims| == 5 && blockDim <= 1 && 0 < srcTp < dstTp < 0x1_0000_0000
    requires forall i :: 0 <= i < 5 ==> dims[i] < 0x1_0000_0000
    requires Ready(LayerPlan(dims, elem, blockDim, srcTp, dstTp, to), staged, src, dst)
    ensures EveryHeadArrives(LayerPlan(dims, elem, blockDim, srcTp, dstTp, to), dims[3], staged, src, dst) <==>
              dims[3] % C.Factor(srcTp, dstTp) == 0 || staged == 0 || dims[2] == 0 || dims[4] == 0 || elem == 0
  {
    hide Quotient, Remainder, C.Factor, Ready, EveryHeadArrives;
    var p, factor := LayerPlan(dims, elem, blockDim, srcTp, dstTp, to), C.Factor(srcTp, dstTp);
    C.QuotientBound(dims[3], factor);
    DivMod(dims[3], factor);
    assert p.ranks == factor && p.heads == Quotient(dims[3], factor) && p.positions == dims[2] && p.head == dims[4];
    assert p.ranks * p.heads + Remainder(dims[3], factor) == dims[3];
    EveryHeadArrivesIff(p, dims[3], staged, src, dst);
    RemainderIs(dims[3], factor);
  }

  lemma RemainderIs(a: nat, m: nat)
    requires m > 0
    ensures Remainder(a, m) == a % m
  {
  }
}
