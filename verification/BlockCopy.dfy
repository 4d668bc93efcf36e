/** Copying KV blocks between two slabs, each laid out as [prefix, block, suffix]. */
module BlockCopy {

  import opened MixedRadix
  import opened Bytes

  // ---------- geometry

  datatype Layout = KvFirst | BlockFirst

  datatype Details = Details(layout: Layout, blockSize: nat, tpRank: nat, tpSize: nat, heads: nat, headSize: nat, elem: nat)

  predicate Validated(d: Details) {
    d.tpSize != 0 && d.heads % d.tpSize == 0 && d.tpRank < d.tpSize && d.tpSize <= d.heads
  }

  function BytesPerBlock(d: Details): nat
    requires d.tpSize != 0
  {
    ((2 * d.heads * d.headSize * d.elem) * d.blockSize) / d.tpSize
  }

  function PrefixDim(d: Details): nat { if d.layout.KvFirst? then 2 else 1 }

  function SuffixDim(d: Details): nat
    requires d.tpSize != 0
  {
    var suffix := d.blockSize * (d.heads / d.tpSize) * d.headSize;
    if d.layout.KvFirst? then suffix else 2 * suffix
  }

  function LayerShape(d: Details, blocks: nat): Shape
    requires d.tpSize != 0
  {
    if d.layout.KvFirst? then [2, blocks, d.blockSize, d.heads / d.tpSize, d.headSize]
    else [blocks, 2, d.blockSize, d.heads / d.tpSize, d.headSize]
  }

  lemma Size5(a: nat, b: nat, c: nat, d: nat, e: nat)
    ensures Size([a, b, c, d, e]) == a * (b * (c * (d * e)))
  {
    assert [a, b, c, d, e][1..] == [b, c, d, e] && [b, c, d, e][1..] == [c, d, e];
    assert [c, d, e][1..] == [d, e] && [d, e][1..] == [e] && [e][1..] == [];
    assert Size([e]) == e && Size([d, e]) == d * e && Size([c, d, e]) == c * (d * e);
    assert Size([b, c, d, e]) == b * (c * (d * e));
  }

  lemma PerHead(h: nat, tp: nat, s: nat, e: nat, b: nat)
    requires tp > 0
    ensures ((2 * (h * tp) * s * e) * b) / tp == 2 * (h * s * e * b)
  {
    assert (2 * (h * tp) * s * e) * b == (2 * (h * s * e * b)) * tp by {
      assert 2 * (h * tp) * s * e == (2 * (h * s * e)) * tp by {
        assert 2 * (h * tp) * s == (2 * (h * s)) * tp by { assert (h * tp) * s == (h * s) * tp; }
        assert ((2 * (h * s)) * tp) * e == ((2 * (h * s)) * e) * tp;
        assert (2 * (h * s)) * e == 2 * (h * s * e);
      }
      assert ((2 * (h * s * e)) * tp) * b == ((2 * (h * s * e)) * b) * tp;
      assert (2 * (h * s * e)) * b == 2 * (h * s * e * b);
    }
    DivDigit(2 * (h * s * e * b) * tp, 2 * (h * s * e * b), tp, 0);
  }

  lemma Regroup(h: nat, s: nat, e: nat, b: nat)
    ensures h * s * e * b == (b * h * s) * e && b * (h * s) == b * h * s
  {
    assert h * s * e * b == (h * s) * (e * b) == (h * s) * b * e;
    assert (h * s) * b == b * (h * s);
  }

  lemma Spread(u: nat, n: nat, e: nat)
    ensures 2 * (u * e) * n == (2 * n * u) * e == (1 * n * (2 * u)) * e == (2 * (n * u)) * e == (n * (2 * u)) * e
  {
    assert (u * e) * n == (n * u) * e by { assert (u * e) * n == u * (e * n) == u * (n * e) == (u * n) * e; }
    assert 2 * (u * e) * n == 2 * ((u * e) * n);
    assert (2 * n) * u == 2 * (n * u) == n * (2 * u);
    assert (2 * (n * u)) * e == 2 * ((n * u) * e);
  }

  /** What is allocated for a layer is what its blocks take, and what its five-dimensional tensor takes. */
  lemma AllocatedBytes(d: Details, blocks: nat)
    requires Validated(d)
    ensures BytesPerBlock(d) * blocks == (PrefixDim(d) * blocks * SuffixDim(d)) * d.elem
    ensures BytesPerBlock(d) * blocks == Size(LayerShape(d, blocks)) * d.elem
  {
    hide Size;
    var h := d.heads / d.tpSize;
    assert d.heads == h * d.tpSize;
    PerHead(h, d.tpSize, d.headSize, d.elem, d.blockSize);
    Regroup(h, d.headSize, d.elem, d.blockSize);
    var u := d.blockSize * h * d.headSize;
    assert BytesPerBlock(d) == 2 * (u * d.elem);
    Spread(u, blocks, d.elem);
    Size5(2, blocks, d.blockSize, h, d.headSize);
    Size5(blocks, 2, d.blockSize, h, d.headSize);
  }

  // ---------- the copy

  /** Where a block of one prefix starts, in a slab of `dim` blocks of `span` bytes. */
  function Place(dim: nat, span: nat, prefix: nat, id: nat): nat { prefix * (dim * span) + id * span }

  lemma PlaceIs(dim: nat, span: nat, prefix: nat, id: nat)
    ensures Place(dim, span, prefix, id) == (prefix * dim + id) * span
  {
    assert prefix * (dim * span) == (prefix * dim) * span;
    assert (prefix * dim + id) * span == (prefix * dim) * span + id * span;
  }

  lemma PlaceFits(dim: nat, span: nat, prefix: nat, id: nat, prefixes: nat, size: nat)
    requires prefix < prefixes && id < dim && prefixes * (dim * span) <= size
    ensures Place(dim, span, prefix, id) + span <= size
  {
    hide Place;
    PlaceIs(dim, span, prefix, id);
    DigitBound(prefix, prefixes, dim, id);
    SpanOfElement(prefix * dim + id, prefixes * dim, span);
    Assoc(prefixes, dim, span);
  }

  lemma Assoc(a: nat, b: nat, c: nat)
    ensures (a * b) * c == a * (b * c)
  {
  }

  lemma PlacesApart(dim: nat, span: nat, p: nat, i: nat, q: nat, j: nat)
    requires i < dim && j < dim && (p != q || i != j)
    ensures Place(dim, span, p, i) + span <= Place(dim, span, q, j) || Place(dim, span, q, j) + span <= Place(dim, span, p, i)
  {
    hide Place, Quotient, Remainder;
    PlaceIs(dim, span, p, i);
    PlaceIs(dim, span, q, j);
    DivDigit(p * dim + i, p, dim, i);
    DivDigit(q * dim + j, q, dim, j);
    MulApart(p * dim + i, q * dim + j, span);
  }

  /** The shape of one copy: how many prefixes, how many bytes to a block, and how many blocks each slab has. */
  datatype Geometry = Geometry(prefixes: nat, span: nat, from: nat, to: nat)

  predicate InRange(ids: seq<nat>, dim: nat) { forall i :: 0 <= i < |ids| ==> ids[i] < dim }

  predicate Distinct(ids: seq<nat>) { forall i, j :: 0 <= i < j < |ids| ==> ids[i] != ids[j] }

  /** Both slabs hold their blocks, and the listed blocks exist. */
  predicate Ready(g: Geometry, src: nat, dst: nat, srcIds: seq<nat>, dstIds: seq<nat>) {
    && |srcIds| == |dstIds| && InRange(srcIds, g.from) && InRange(dstIds, g.to)
    && g.prefixes * (g.from * g.span) <= src && g.prefixes * (g.to * g.span) <= dst
  }

  /** Slabs allocated for the same details are ready for a copy in either direction, in either layout. */
  lemma AllocatedReady(d: Details, from: nat, to: nat, srcIds: seq<nat>, dstIds: seq<nat>)
    requires Validated(d) && |srcIds| == |dstIds| && InRange(srcIds, from) && InRange(dstIds, to)
    ensures 0 <= BytesPerBlock(d) * from && 0 <= BytesPerBlock(d) * to
    ensures Ready(Geometry(PrefixDim(d), SuffixDim(d) * d.elem, from, to), BytesPerBlock(d) * from, BytesPerBlock(d) * to, srcIds, dstIds)
  {
    hide BytesPerBlock, SuffixDim, PrefixDim;
    AllocatedBytes(d, from);
    AllocatedBytes(d, to);
    Assoc4(PrefixDim(d), from, SuffixDim(d), d.elem);
    Assoc4(PrefixDim(d), to, SuffixDim(d), d.elem);
  }

  lemma Assoc4(a: nat, b: nat, c: nat, d: nat)
    ensures (a * b * c) * d == a * (b * (c * d))
  {
    assert (a * b * c) * d == (a * b) * (c * d) == a * (b * (c * d));
  }

  function BlockBytes(s: seq<byte>, dim: nat, span: nat, prefix: nat, id: nat): (r: seq<byte>)
    requires Place(dim, span, prefix, id) + span <= |s|
    ensures |r| == span
  {
    s[Place(dim, span, prefix, id)..Place(dim, span, prefix, id) + span]
  }

  function CopyWrite(g: Geometry, s: seq<byte>, srcIds: seq<nat>, dstIds: seq<nat>, prefix: nat, pair: nat): (w: Write)
    requires |srcIds| == |dstIds| && InRange(srcIds, g.from) && g.prefixes * (g.from * g.span) <= |s|
    requires prefix < g.prefixes && pair < |srcIds|
    ensures |w.data| == g.span
  {
    PlaceFits(g.from, g.span, prefix, srcIds[pair], g.prefixes, |s|);
    Write(Place(g.to, g.span, prefix, dstIds[pair]), BlockBytes(s, g.from, g.span, prefix, srcIds[pair]))
  }

  function CopyWrites(g: Geometry, s: seq<byte>, srcIds: seq<nat>, dstIds: seq<nat>): (ws: seq<Write>)
    requires |srcIds| == |dstIds| && InRange(srcIds, g.from) && g.prefixes * (g.from * g.span) <= |s|
    ensures |ws| == if |srcIds| == 0 then 0 else g.prefixes * |srcIds|
    ensures forall k :: 0 <= k < |ws| ==>
      && Quotient(k, |srcIds|) < g.prefixes && Remainder(k, |srcIds|) < |srcIds|
      && ws[k] == CopyWrite(g, s, srcIds, dstIds, Quotient(k, |srcIds|), Remainder(k, |srcIds|))
  {
    if |srcIds| == 0 then []
    else
      var n := |srcIds|;
      assert forall k :: 0 <= k < g.prefixes * n ==> Quotient(k, n) < g.prefixes && Remainder(k, n) < n by {
        forall k | 0 <= k < g.prefixes * n ensures Quotient(k, n) < g.prefixes && Remainder(k, n) < n {
          DivBound(k, g.prefixes, n);
          DivMod(k, n);
        }
      }
      seq(g.prefixes * n, k requires 0 <= k < g.prefixes * n => CopyWrite(g, s, srcIds, dstIds, Quotient(k, n), Remainder(k, n)))
  }

  lemma CopyWritesFit(g: Geometry, s: seq<byte>, dst: nat, srcIds: seq<nat>, dstIds: seq<nat>)
    requires Ready(g, |s|, dst, srcIds, dstIds)
    ensures AllFit(CopyWrites(g, s, srcIds, dstIds), dst)
  {
    hide Place, Quotient, Remainder;
    var ws := CopyWrites(g, s, srcIds, dstIds);
    forall k | 0 <= k < |ws| ensures Fits(ws[k], dst) {
      PlaceFits(g.to, g.span, Quotient(k, |srcIds|), dstIds[Remainder(k, |srcIds|)], g.prefixes, dst);
    }
  }

  lemma CopyWritesApart(g: Geometry, s: seq<byte>, dst: nat, srcIds: seq<nat>, dstIds: seq<nat>)
    requires Ready(g, |s|, dst, srcIds, dstIds) && Distinct(dstIds)
    ensures Disjoint(CopyWrites(g, s, srcIds, dstIds))
  {
    hide Place, Quotient, Remainder;
    var ws, n := CopyWrites(g, s, srcIds, dstIds), |srcIds|;
    forall k, m | 0 <= k < m < |ws| ensures Apart(ws[k], ws[m]) {
      DivMod(k, n);
      DivMod(m, n);
      PlacesApart(g.to, g.span, Quotient(k, n), dstIds[Remainder(k, n)], Quotient(m, n), dstIds[Remainder(m, n)]);
    }
  }

  lemma PairNumber(prefix: nat, pair: nat, prefixes: nat, n: nat)
    requires prefix < prefixes && pair < n
    ensures prefix * n + pair < prefixes * n
    ensures Quotient(prefix * n + pair, n) == prefix && Remainder(prefix * n + pair, n) == pair
  {
    hide Quotient, Remainder;
    DigitBound(prefix, prefixes, n, pair);
    DivDigit(prefix * n + pair, prefix, n, pair);
  }

  /** Every listed block arrives whole, under every prefix. */
  lemma CopiedBlock(g: Geometry, s: seq<byte>, t: seq<byte>, srcIds: seq<nat>, dstIds: seq<nat>, prefix: nat, pair: nat)
    requires Ready(g, |s|, |t|, srcIds, dstIds) && Distinct(dstIds) && prefix < g.prefixes && pair < |srcIds|
    requires AllFit(CopyWrites(g, s, srcIds, dstIds), |t|)
    ensures Place(g.from, g.span, prefix, srcIds[pair]) + g.span <= |s| && Place(g.to, g.span, prefix, dstIds[pair]) + g.span <= |t|
    ensures BlockBytes(BlitAll(t, CopyWrites(g, s, srcIds, dstIds)), g.to, g.span, prefix, dstIds[pair])
         == BlockBytes(s, g.from, g.span, prefix, srcIds[pair])
  {
    hide Place, Quotient, Remainder, BlitAll;
    var ws := CopyWrites(g, s, srcIds, dstIds);
    PlaceFits(g.from, g.span, prefix, srcIds[pair], g.prefixes, |s|);
    PlaceFits(g.to, g.span, prefix, dstIds[pair], g.prefixes, |t|);
    CopyWritesApart(g, s, |t|, srcIds, dstIds);
    PairNumber(prefix, pair, g.prefixes, |srcIds|);
    BlitAllKeeps(t, ws, prefix * |srcIds| + pair);
  }

  /** A byte outside the listed blocks keeps its value. */
  lemma CopyLeaves(g: Geometry, s: seq<byte>, t: seq<byte>, srcIds: seq<nat>, dstIds: seq<nat>, k: nat)
    requires Ready(g, |s|, |t|, srcIds, dstIds) && Distinct(dstIds) && k < |t|
    requires AllFit(CopyWrites(g, s, srcIds, dstIds), |t|)
    requires forall prefix, pair :: 0 <= prefix < g.prefixes && 0 <= pair < |dstIds| ==>
               !(Place(g.to, g.span, prefix, dstIds[pair]) <= k < Place(g.to, g.span, prefix, dstIds[pair]) + g.span)
    ensures BlitAll(t, CopyWrites(g, s, srcIds, dstIds))[k] == t[k]
  {
    hide Place, Quotient, Remainder, BlitAll;
    CopyWritesApart(g, s, |t|, srcIds, dstIds);
    BlitAllAt(t, CopyWrites(g, s, srcIds, dstIds), k);
  }

  lemma BlitSame(s: seq<byte>, w: Write)
    requires Fits(w, |s|) && s[w.at..w.at + |w.data|] == w.data
    ensures Blit(s, w) == s
  {
  }

  lemma {:induction false} BlitAllSame(s: seq<byte>, ws: seq<Write>)
    requires AllFit(ws, |s|) && forall i :: 0 <= i < |ws| ==> s[ws[i].at..ws[i].at + |ws[i].data|] == ws[i].data
    ensures BlitAll(s, ws) == s
  {
    if ws == [] {
    } else {
      BlitAllSame(s, ws[..|ws| - 1]);
      BlitSame(s, ws[|ws| - 1]);
    }
  }

  /** Copying blocks out and back again leaves the source slab as it was. */
  lemma RoundTrip(g: Geometry, s: seq<byte>, t: seq<byte>, srcIds: seq<nat>, dstIds: seq<nat>)
    requires Ready(g, |s|, |t|, srcIds, dstIds) && Distinct(dstIds)
    requires AllFit(CopyWrites(g, s, srcIds, dstIds), |t|)
    ensures var back, t' := Geometry(g.prefixes, g.span, g.to, g.from), BlitAll(t, CopyWrites(g, s, srcIds, dstIds));
            && AllFit(CopyWrites(back, t', dstIds, srcIds), |s|)
            && BlitAll(s, CopyWrites(back, t', dstIds, srcIds)) == s
  {
    hide Place, Quotient, Remainder, BlitAll;
    var back, t' := Geometry(g.prefixes, g.span, g.to, g.from), BlitAll(t, CopyWrites(g, s, srcIds, dstIds));
    CopyWritesFit(back, t', |s|, dstIds, srcIds);
    var ws, n := CopyWrites(back, t', dstIds, srcIds), |srcIds|;
    forall k | 0 <= k < |ws| ensures s[ws[k].at..ws[k].at + |ws[k].data|] == ws[k].data {
      CopiedBlock(g, s, t, srcIds, dstIds, Quotient(k, n), Remainder(k, n));
    }
    BlitAllSame(s, ws);
  }

  method CopyPair(src: array<byte>, dst: array<byte>, srcIds: seq<nat>, dstIds: seq<nat>, g: Geometry, prefix: nat,
                  pair: nat)
    requires Ready(g, src.Length, dst.Length, srcIds, dstIds) && prefix < g.prefixes && pair < |srcIds|
    modifies dst
    ensures src != dst ==>
      && Fits(CopyWrite(g, src[..], srcIds, dstIds, prefix, pair), dst.Length)
      && dst[..] == Blit(old(dst[..]), CopyWrite(g, src[..], srcIds, dstIds, prefix, pair))
  {
    hide Place;
    PlaceFits(g.from, g.span, prefix, srcIds[pair], g.prefixes, src.Length);
    PlaceFits(g.to, g.span, prefix, dstIds[pair], g.prefixes, dst.Length);
    var at, from := Place(g.to, g.span, prefix, dstIds[pair]), Place(g.from, g.span, prefix, srcIds[pair]);
    Memcpy(dst, at, src[from..from + g.span]);
  }

  method CopyPrefix(src: array<byte>, dst: array<byte>, srcIds: seq<nat>, dstIds: seq<nat>, g: Geometry, prefix: nat,
                    ghost was: seq<byte>)
    requires Ready(g, src.Length, dst.Length, srcIds, dstIds) && prefix < g.prefixes && |srcIds| > 0 && |was| == dst.Length
    requires src != dst ==> Done(dst[..], was, CopyWrites(g, src[..], srcIds, dstIds), prefix * |srcIds|)
    modifies dst
    ensures src != dst ==> Done(dst[..], was, CopyWrites(g, src[..], srcIds, dstIds), prefix * |srcIds| + |srcIds|)
  {
    hide Place, Quotient, Remainder, BlitAll, CopyWrite, InRange, AllFit;
    ghost var s, n := src[..], |srcIds|;
    ghost var ws := CopyWrites(g, s, srcIds, dstIds);
    for pair := 0 to |srcIds|
      invariant src != dst ==> src[..] == s && Done(dst[..], was, ws, prefix * n + pair)
    {
      PairNumber(prefix, pair, g.prefixes, n);
      if src != dst { BlitAllStep(was, ws, prefix * n + pair); }
      CopyPair(src, dst, srcIds, dstIds, g, prefix, pair);
    }
  }

  /** The loops of the copy, prefix by prefix and pair by pair. */
  method CopyBlocks(src: array<byte>, dst: array<byte>, srcIds: seq<nat>, dstIds: seq<nat>,
                    prefixDim: int, suffixDim: int, elem: int, srcBlocks: nat, dstBlocks: nat)
    returns (rc: int)
    requires |srcIds| == |dstIds|
    requires prefixDim > 0 && suffixDim > 0 && elem > 0 ==>
               Ready(Geometry(prefixDim, suffixDim * elem, srcBlocks, dstBlocks), src.Length, dst.Length, srcIds, dstIds)
    modifies dst
    ensures rc == if |srcIds| == 0 || prefixDim <= 0 || suffixDim <= 0 || elem <= 0 then -1 else 0
    ensures rc == -1 ==> dst[..] == old(dst[..])
    ensures rc == 0 && src != dst ==>
              var g := Geometry(prefixDim, suffixDim * elem, srcBlocks, dstBlocks);
              && AllFit(CopyWrites(g, src[..], srcIds, dstIds), dst.Length)
              && dst[..] == BlitAll(old(dst[..]), CopyWrites(g, src[..], srcIds, dstIds))
  {
    hide Place, Quotient, Remainder, BlitAll;
    if |srcIds| == 0 || prefixDim <= 0 || suffixDim <= 0 || elem <= 0 {
      return -1;
    }
    var span := suffixDim * elem;
    var g := Geometry(prefixDim, span, srcBlocks, dstBlocks);
    ghost var was, s, n := dst[..], src[..], |srcIds|;
    ghost var ws := CopyWrites(g, s, srcIds, dstIds);
    CopyWritesFit(g, s, dst.Length, srcIds, dstIds);
    assert ws[..0] == [];
    BlitNone(was);
    for prefix := 0 to prefixDim
      invariant src != dst ==> src[..] == s && Done(dst[..], was, ws, prefix * n)
    {
      CopyPrefix(src, dst, srcIds, dstIds, g, prefix, was);
      assert (prefix + 1) * n == prefix * n + n;
    }
    assert ws[..prefixDim * n] == ws;
    rc := 0;
  }
}
