/** Rescattering one layer from a few tensor-parallel ranks to more: every rank's heads move to the front. */
module Scatter {

  import opened MixedRadix
  import opened Bytes

  /** One layer's scatter: block and kv axes in the order that `blockFirst` says, then the block's
      positions, the target ranks, and per rank `heads` heads of `head` elements. */
  datatype Plan = Plan(blockFirst: bool, from: nat, to: nat, positions: nat, ranks: nat, heads: nat, head: nat, elem: nat)

  function Axes(p: Plan, block: nat, kv: nat): (r: seq<nat>)
    ensures |r| == 2
  {
    if p.blockFirst then [block, kv] else [kv, block]
  }

  /** The source in units of one rank's heads at one position. */
  function SrcShape(p: Plan): (r: Shape)
    ensures |r| == 4
  {
    Axes(p, p.from, 2) + [p.positions, p.ranks]
  }

  function DstShape(p: Plan): (r: Shape)
    ensures |r| == 4
  {
    [p.ranks] + Axes(p, p.to, 2) + [p.positions]
  }

  function Span(p: Plan): nat { p.heads * p.head * p.elem }

  /** The byte at which a unit starts. */
  function Start(p: Plan, unit: nat): nat { unit * Span(p) }

  function SrcUnit(p: Plan, block: nat, kv: nat, position: nat, rank: nat): nat {
    Dot(Axes(p, block, kv) + [position, rank], Strides(SrcShape(p)))
  }

  function DstUnit(p: Plan, block: nat, kv: nat, position: nat, rank: nat): nat {
    Dot([rank] + Axes(p, block, kv) + [position], Strides(DstShape(p)))
  }

  predicate Inside(p: Plan, staged: nat, block: nat, kv: nat, position: nat, rank: nat) {
    block < staged && kv < 2 && position < p.positions && rank < p.ranks
  }

  /** The slabs hold both tensors, and the staged blocks exist on both sides. */
  predicate Ready(p: Plan, staged: nat, src: nat, dst: nat) {
    staged <= p.from && staged <= p.to && Size(SrcShape(p)) * Span(p) <= src && Size(DstShape(p)) * Span(p) <= dst
  }

  lemma SrcFits(p: Plan, staged: nat, src: nat, dst: nat, block: nat, kv: nat, position: nat, rank: nat)
    requires Ready(p, staged, src, dst) && Inside(p, staged, block, kv, position, rank)
    ensures Start(p, SrcUnit(p, block, kv, position, rank)) + Span(p) <= src
  {
    hide Dot, Strides, Size, Span;
    FlatBound(Axes(p, block, kv) + [position, rank], SrcShape(p));
    SpanOfElement(SrcUnit(p, block, kv, position, rank), Size(SrcShape(p)), Span(p));
  }

  lemma DstFits(p: Plan, staged: nat, src: nat, dst: nat, block: nat, kv: nat, position: nat, rank: nat)
    requires Ready(p, staged, src, dst) && Inside(p, staged, block, kv, position, rank)
    ensures Start(p, DstUnit(p, block, kv, position, rank)) + Span(p) <= dst
  {
    hide Dot, Strides, Size, Span;
    FlatBound([rank] + Axes(p, block, kv) + [position], DstShape(p));
    SpanOfElement(DstUnit(p, block, kv, position, rank), Size(DstShape(p)), Span(p));
  }

  /** Two different steps write to different units. */
  lemma DstApart(p: Plan, staged: nat, a: seq<nat>, b: seq<nat>)
    requires |a| == 4 && |b| == 4 && a != b && staged <= p.to
    requires Inside(p, staged, a[0], a[1], a[2], a[3]) && Inside(p, staged, b[0], b[1], b[2], b[3])
    ensures DstUnit(p, a[0], a[1], a[2], a[3]) != DstUnit(p, b[0], b[1], b[2], b[3])
  {
    hide Dot, Strides, Size, Unflatten;
    var i, j := [a[3]] + Axes(p, a[0], a[1]) + [a[2]], [b[3]] + Axes(p, b[0], b[1]) + [b[2]];
    assert i[0] == a[3] && i[3] == a[2] && i[1..3] == Axes(p, a[0], a[1]);
    assert j[0] == b[3] && j[3] == b[2] && j[1..3] == Axes(p, b[0], b[1]);
    UnflattenFlat(i, DstShape(p));
    UnflattenFlat(j, DstShape(p));
  }

  // ---------- the writes, in the order of the loops

  function Loops(p: Plan, staged: nat): (r: Shape)
    ensures |r| == 4
  {
    [staged, 2, p.positions, p.ranks]
  }

  /** Every combination of loop counters is one of the steps. */
  lemma StepOf(p: Plan, staged: nat, i: Index) returns (k: nat)
    requires |i| == 4 && Inside(p, staged, i[0], i[1], i[2], i[3])
    ensures k == Dot(i, Strides(Loops(p, staged)))
    ensures k < Size(Loops(p, staged)) && StepIndex(p, staged, k) == i
  {
    hide Unflatten, Size, Dot, Strides;
    FlatBound(i, Loops(p, staged));
    UnflattenFlat(i, Loops(p, staged));
    k := Dot(i, Strides(Loops(p, staged)));
  }

  lemma LoopNumber(p: Plan, staged: nat, i: Index) returns (k: nat)
    requires |i| == 4 && Inside(p, staged, i[0], i[1], i[2], i[3])
    ensures k == ((i[0] * 2 + i[1]) * p.positions + i[2]) * p.ranks + i[3]
    ensures k < Size(Loops(p, staged)) && StepIndex(p, staged, k) == i
  {
    hide Unflatten, Size, Dot, Strides, StepIndex;
    assert i == [i[0], i[1], i[2], i[3]];
    Dot4(i[0], i[1], i[2], i[3], staged, 2, p.positions, p.ranks);
    k := StepOf(p, staged, i);
  }

  lemma Dot4(a: nat, b: nat, c: nat, d: nat, w: nat, x: nat, y: nat, z: nat)
    ensures Dot([a, b, c, d], Strides([w, x, y, z])) == ((a * x + b) * y + c) * z + d
  {
    hide Dot, Strides;
    assert [a, b, c] + [d] == [a, b, c, d] && [w, x, y] + [z] == [w, x, y, z];
    DotSnoc([a, b, c], [w, x, y], d, z);
    assert [a, b] + [c] == [a, b, c] && [w, x] + [y] == [w, x, y];
    DotSnoc([a, b], [w, x], c, y);
    assert [a] + [b] == [a, b] && [w] + [x] == [w, x];
    DotSnoc([a], [w], b, x);
    assert [] + [a] == [a] && [] + [w] == [w];
    DotSnoc([], [], a, w);
    EmptyShape();
  }

  function ScatterWrite(p: Plan, s: seq<byte>, staged: nat, dst: nat, i: Index): (w: Write)
    requires |i| == 4 && Inside(p, staged, i[0], i[1], i[2], i[3]) && Ready(p, staged, |s|, dst)
    ensures |w.data| == Span(p)
  {
    SrcFits(p, staged, |s|, dst, i[0], i[1], i[2], i[3]);
    var from := Start(p, SrcUnit(p, i[0], i[1], i[2], i[3]));
    Write(Start(p, DstUnit(p, i[0], i[1], i[2], i[3])), s[from..from + Span(p)])
  }

  /** The loop counters of the k-th copy. */
  function StepIndex(p: Plan, staged: nat, k: nat): (i: Index)
    requires k < Size(Loops(p, staged))
    ensures |i| == 4 && Inside(p, staged, i[0], i[1], i[2], i[3])
    ensures Positive(Loops(p, staged)) && i == Unflatten(k, Loops(p, staged))
  {
    SizeNonZero(Loops(p, staged));
    FlatUnflatten(k, Loops(p, staged));
    Unflatten(k, Loops(p, staged))
  }

  function ScatterWrites(p: Plan, s: seq<byte>, staged: nat, dst: nat): (ws: seq<Write>)
    requires Ready(p, staged, |s|, dst)
    ensures |ws| == Size(Loops(p, staged))
    ensures forall k :: 0 <= k < |ws| ==> ws[k] == ScatterWrite(p, s, staged, dst, StepIndex(p, staged, k))
  {
    seq(Size(Loops(p, staged)), k requires 0 <= k < Size(Loops(p, staged)) => ScatterWrite(p, s, staged, dst, StepIndex(p, staged, k)))
  }

  lemma ScatterWritesApart(p: Plan, s: seq<byte>, staged: nat, dst: nat)
    requires Ready(p, staged, |s|, dst)
    ensures AllFit(ScatterWrites(p, s, staged, dst), dst) && Disjoint(ScatterWrites(p, s, staged, dst))
  {
    hide Size, Unflatten, Dot, Strides, DstUnit, SrcUnit, Span;
    var ws, loops := ScatterWrites(p, s, staged, dst), Loops(p, staged);
    forall k | 0 <= k < |ws| ensures Fits(ws[k], dst) {
      var i := StepIndex(p, staged, k);
      DstFits(p, staged, |s|, dst, i[0], i[1], i[2], i[3]);
    }
    forall k, m | 0 <= k < m < |ws| ensures Apart(ws[k], ws[m]) {
      var i, j := StepIndex(p, staged, k), StepIndex(p, staged, m);
      FlatUnflatten(k, loops);
      FlatUnflatten(m, loops);
      DstApart(p, staged, i, j);
      MulApart(DstUnit(p, i[0], i[1], i[2], i[3]), DstUnit(p, j[0], j[1], j[2], j[3]), Span(p));
    }
  }

  // ---------- what the scatter means

  /** The source tensor as its owner sees it: [axes, position, all heads, element]. */
  function SrcByte(p: Plan, block: nat, kv: nat, position: nat, head: nat, e: nat): nat {
    Dot(Axes(p, block, kv) + [position] + [head] + [e], Strides(Axes(p, p.from, 2) + [p.positions] + [p.ranks * p.heads] + [p.head])) * p.elem
  }

  /** The target tensor: [rank, axes, position, heads of the rank, element]. */
  function DstByte(p: Plan, rank: nat, block: nat, kv: nat, position: nat, head: nat, e: nat): nat {
    Dot([rank] + Axes(p, block, kv) + [position] + [head] + [e], Strides([p.ranks] + Axes(p, p.to, 2) + [p.positions] + [p.heads] + [p.head])) * p.elem
  }

  /** The bytes of one element within a unit. */
  function Within(p: Plan, head: nat, e: nat): nat { (head * p.head + e) * p.elem }

  lemma Nest(u: nat, m: nat, h: nat, n: nat, e: nat, w: nat)
    ensures ((u * m + h) * n + e) * w == u * (m * n * w) + (h * n + e) * w
  {
    assert (u * m + h) * n == (u * m) * n + h * n == u * (m * n) + h * n;
    assert (u * (m * n) + (h * n + e)) * w == (u * (m * n)) * w + (h * n + e) * w;
    assert (u * (m * n)) * w == u * ((m * n) * w);
  }

  lemma Nest3(d: nat, m: nat, r: nat, n: nat, h: nat)
    ensures d * (m * n) + (r * n + h) == (d * m + r) * n + h
  {
    assert d * (m * n) == (d * m) * n;
    assert (d * m + r) * n == (d * m) * n + r * n;
  }

  lemma WithinBound(p: Plan, head: nat, e: nat)
    requires head < p.heads && e < p.head
    ensures Within(p, head, e) + p.elem <= Span(p)
  {
    DigitBound(head, p.heads, p.head, e);
    SpanOfElement(head * p.head + e, p.heads * p.head, p.elem);
  }

  lemma SrcByteIs(p: Plan, block: nat, kv: nat, position: nat, rank: nat, head: nat, e: nat)
    ensures SrcByte(p, block, kv, position, rank * p.heads + head, e)
         == Start(p, SrcUnit(p, block, kv, position, rank)) + Within(p, head, e)
  {
    hide Dot, Strides;
    var i, t := Axes(p, block, kv) + [position], Axes(p, p.from, 2) + [p.positions];
    DotSnoc(i + [rank * p.heads + head], t + [p.ranks * p.heads], e, p.head);
    DotSnoc(i, t, rank * p.heads + head, p.ranks * p.heads);
    DotSnoc(i, t, rank, p.ranks);
    assert i + [rank] == Axes(p, block, kv) + [position, rank] && t + [p.ranks] == SrcShape(p);
    var d := Dot(i, Strides(t));
    Nest3(d, p.ranks, rank, p.heads, head);
    Nest(d * p.ranks + rank, p.heads, head, p.head, e, p.elem);
  }

  lemma DstByteIs(p: Plan, rank: nat, block: nat, kv: nat, position: nat, head: nat, e: nat)
    ensures DstByte(p, rank, block, kv, position, head, e)
         == Start(p, DstUnit(p, block, kv, position, rank)) + Within(p, head, e)
  {
    hide Dot, Strides;
    var i, t := [rank] + Axes(p, block, kv) + [position], DstShape(p);
    DotSnoc(i + [head], t + [p.heads], e, p.head);
    DotSnoc(i, t, head, p.heads);
    Nest(Dot(i, Strides(t)), p.heads, head, p.head, e, p.elem);
  }

  lemma UnitArrives(p: Plan, s: seq<byte>, t: seq<byte>, staged: nat, i: Index, from: nat, at: nat, x: nat)
    requires |i| == 4 && Ready(p, staged, |s|, |t|) && Inside(p, staged, i[0], i[1], i[2], i[3]) && x < Span(p)
    requires AllFit(ScatterWrites(p, s, staged, |t|), |t|)
    requires from == Start(p, SrcUnit(p, i[0], i[1], i[2], i[3])) && at == Start(p, DstUnit(p, i[0], i[1], i[2], i[3]))
    ensures from + x < |s| && at + x < |t| && BlitAll(t, ScatterWrites(p, s, staged, |t|))[at + x] == s[from + x]
  {
    hide Size, Unflatten, Dot, Strides, DstUnit, SrcUnit, Span, Start, BlitAll, StepIndex, Ready, AllFit, Disjoint, ScatterWrite, ScatterWrites, Loops, Inside;
    var ws := ScatterWrites(p, s, staged, |t|);
    var k := StepOf(p, staged, i);
    SrcFits(p, staged, |s|, |t|, i[0], i[1], i[2], i[3]);
    DstFits(p, staged, |s|, |t|, i[0], i[1], i[2], i[3]);
    ScatterWritesApart(p, s, staged, |t|);
    WriteIs(p, s, staged, |t|, i);
    CoveredOnce(t, ws, k, x);
  }

  lemma WriteIs(p: Plan, s: seq<byte>, staged: nat, dst: nat, i: Index)
    requires |i| == 4 && Inside(p, staged, i[0], i[1], i[2], i[3]) && Ready(p, staged, |s|, dst)
    ensures var w, from := ScatterWrite(p, s, staged, dst, i), Start(p, SrcUnit(p, i[0], i[1], i[2], i[3]));
            && w.at == Start(p, DstUnit(p, i[0], i[1], i[2], i[3]))
            && from + Span(p) <= |s| && w.data == s[from..from + Span(p)]
  {
    hide Size, Dot, Strides, DstUnit, SrcUnit, Span, Start;
    SrcFits(p, staged, |s|, dst, i[0], i[1], i[2], i[3]);
  }

  /** Each byte of one of several disjoint writes is in place when all are done. */
  lemma CoveredOnce(t: seq<byte>, ws: seq<Write>, k: nat, x: nat)
    requires AllFit(ws, |t|) && Disjoint(ws) && k < |ws| && x < |ws[k].data|
    ensures ws[k].at + x < |t| && BlitAll(t, ws)[ws[k].at + x] == ws[k].data[x]
  {
    hide BlitAll;
    assert Fits(ws[k], |t|);
    BlitAllAt(t, ws, ws[k].at + x);
    assert Covers(ws[k], ws[k].at + x);
  }

  /** Every element of a staged block lands where the permutation says, whole. */
  lemma ScatterPermutes(p: Plan, s: seq<byte>, t: seq<byte>, staged: nat, block: nat, kv: nat, position: nat,
                        rank: nat, head: nat, e: nat, b: nat)
    requires Ready(p, staged, |s|, |t|) && Inside(p, staged, block, kv, position, rank) && head < p.heads && e < p.head && b < p.elem
    requires AllFit(ScatterWrites(p, s, staged, |t|), |t|)
    ensures SrcByte(p, block, kv, position, rank * p.heads + head, e) + b < |s|
    ensures DstByte(p, rank, block, kv, position, head, e) + b < |t|
    ensures BlitAll(t, ScatterWrites(p, s, staged, |t|))[DstByte(p, rank, block, kv, position, head, e) + b]
         == s[SrcByte(p, block, kv, position, rank * p.heads + head, e) + b]
  {
    hide Size, Unflatten, Dot, Strides, DstUnit, SrcUnit, Span, Start, SrcByte, DstByte, Within, BlitAll, Ready, Inside, AllFit;
    SrcByteIs(p, block, kv, position, rank, head, e);
    DstByteIs(p, rank, block, kv, position, head, e);
    WithinBound(p, head, e);
    UnitArrives(p, s, t, staged, [block, kv, position, rank], Start(p, SrcUnit(p, block, kv, position, rank)),
                Start(p, DstUnit(p, block, kv, position, rank)), Within(p, head, e) + b);
  }

  /** Every other byte of the target keeps its value. */
  lemma ScatterLeaves(p: Plan, s: seq<byte>, t: seq<byte>, staged: nat, k: nat)
    requires Ready(p, staged, |s|, |t|) && k < |t| && AllFit(ScatterWrites(p, s, staged, |t|), |t|)
    requires forall block, kv, position, rank :: Inside(p, staged, block, kv, position, rank) ==>
               !(Start(p, DstUnit(p, block, kv, position, rank)) <= k < Start(p, DstUnit(p, block, kv, position, rank)) + Span(p))
    ensures BlitAll(t, ScatterWrites(p, s, staged, |t|))[k] == t[k]
  {
    hide Size, Unflatten, Dot, Strides, DstUnit, SrcUnit, Span, Start, BlitAll;
    ScatterWritesApart(p, s, staged, |t|);
    BlitAllAt(t, ScatterWrites(p, s, staged, |t|), k);
  }
}
