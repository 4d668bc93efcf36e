/** Views cut out of a tensor by any chain of slices, and filling one. */
module TensorViews {

  import opened MixedRadix
  import opened Bytes
  import opened Tensor
  import opened Words
  import opened Options

  /** `v` shows the part of a tensor of shape `base` that starts at `low`, in a slab of `size` bytes. */
  ghost predicate Within(v: View, base: Shape, low: Index, size: nat) {
    && |v.shape| == |base| == |low|
    && (forall i :: 0 <= i < |base| ==> 0 < v.shape[i] && low[i] + v.shape[i] <= base[i])
    && v.strides == Strides(base) && v.elem > 0
    && v.offset == Dot(low, v.strides) * v.elem
    && v.total == Size(v.shape)
    && Size(base) * v.elem <= size < WORD
  }

  lemma {:induction false} StridesFit(shape: Shape, bound: nat)
    requires Positive(shape) && Size(shape) < bound
    ensures forall i :: 0 <= i < |shape| ==> Strides(shape)[i] < bound
    decreases shape
  {
    if shape == [] {
    } else {
      assert Size(shape[1..]) <= shape[0] * Size(shape[1..]) by { Larger(shape[0], Size(shape[1..])); }
      StridesFit(shape[1..], bound);
    }
  }

  lemma Larger(a: nat, b: nat)
    requires a > 0
    ensures b <= a * b && (b > 0 ==> a <= a * b)
  {
  }

  function Zeros(n: nat): (r: seq<nat>)
    ensures |r| == n
  {
    seq(n, i => 0)
  }

  lemma {:induction false} DotZeros(strides: seq<nat>)
    ensures Dot(Zeros(|strides|), strides) == 0
  {
    if strides == [] {
    } else {
      DotZeros(strides[1..]);
      assert Zeros(|strides|)[1..] == Zeros(|strides[1..]|);
    }
  }

  lemma FreshWithin(size: nat, shape: Shape, elem: nat)
    requires size < WORD && elem > 0 && Positive(shape) && Size(shape) * elem < WORD && Wrap(Size(shape) * elem) <= size
    ensures Within(Fresh(shape, elem), shape, Zeros(|shape|), size)
  {
    hide Wrap, Size, Strides, Dot;
    WrapSmall(Size(shape) * elem);
    Larger(elem, Size(shape));
    WrapSmall(Size(shape));
    WrapStrides(shape);
    DotZeros(Strides(shape));
  }

  lemma WrapStrides(shape: Shape)
    requires Positive(shape) && Size(shape) < WORD
    ensures WrapAll(Strides(shape)) == Strides(shape)
  {
    hide Wrap, Size, Strides;
    StridesFit(shape, WORD);
    forall i | 0 <= i < |shape| ensures WrapAll(Strides(shape))[i] == Strides(shape)[i] { WrapSmall(Strides(shape)[i]); }
  }

  // ---------- slicing

  function SliceOf(v: View, dim: nat, start: nat, end: Option<nat>): Option<View>
    requires |v.strides| == |v.shape|
  {
    if dim >= |v.shape| then None
    else
      var stop := if end.Some? then end.value else v.shape[dim];
      if stop > v.shape[dim] || start >= stop then None
      else
        var shape := v.shape[dim := stop - start];
        Some(View(shape, v.strides, v.elem, Wrap(v.offset + Wrap(start * v.strides[dim]) * v.elem), Wrap(Size(shape))))
  }

  method Slice(v: View, dim: nat, start: nat, end: Option<nat>) returns (r: Option<View>)
    requires |v.strides| == |v.shape|
    ensures r == SliceOf(v, dim, start, end)
  {
    if dim >= |v.shape| {
      return None;
    }
    var stop := if end.Some? then end.value else v.shape[dim];
    if stop > v.shape[dim] || start >= stop {
      return None;
    }
    var shape := v.shape[dim := stop - start];
    var total := Product(shape);
    r := Some(View(shape, v.strides, v.elem, Wrap(v.offset + Wrap(start * v.strides[dim]) * v.elem), total));
  }

  lemma {:induction false} SizeMono(small: Shape, large: Shape)
    requires |small| == |large| && forall i :: 0 <= i < |small| ==> small[i] <= large[i]
    ensures Size(small) <= Size(large)
    decreases small
  {
    if small == [] {
    } else {
      SizeMono(small[1..], large[1..]);
      MulUp(small[0], large[0], Size(small[1..]), Size(large[1..]));
    }
  }

  lemma MulUp(a: nat, b: nat, c: nat, d: nat)
    requires a <= b && c <= d
    ensures a * c <= b * d
  {
    assert a * c <= b * c && b * c <= b * d;
  }

  /** The slice shows the same tensor, from further on. */
  lemma SliceWithin(v: View, base: Shape, low: Index, size: nat, dim: nat, start: nat, end: Option<nat>)
    requires Within(v, base, low, size) && SliceOf(v, dim, start, end).Some?
    ensures Within(SliceOf(v, dim, start, end).value, base, low[dim := low[dim] + start], size)
  {
    hide Wrap, Size, Strides, Dot;
    var r := SliceOf(v, dim, start, end).value;
    var low' := low[dim := low[dim] + start];
    DotUpdate(low, v.strides, dim, start);
    LowBound(base, low', v.elem, size);
    SmallOffset(Dot(low, v.strides), start * v.strides[dim], v.elem, v.offset);
    SizeMono(r.shape, base);
    Larger(v.elem, Size(base));
    WrapSmall(Size(r.shape));
  }

  lemma SmallOffset(d: nat, s: nat, elem: nat, offset: nat)
    requires elem > 0 && (d + s) * elem < WORD && offset == d * elem
    ensures Wrap(offset + Wrap(s) * elem) == offset + s * elem == (d + s) * elem
  {
    hide Wrap;
    assert (d + s) * elem == d * elem + s * elem;
    Larger(elem, s);
    WrapSmall(s);
    WrapSmall(offset + s * elem);
  }

  lemma LowBound(base: Shape, low: Index, elem: nat, size: nat)
    requires InBounds(low, base) && Size(base) * elem <= size
    ensures Dot(low, Strides(base)) * elem + elem <= size
  {
    FlatBound(low, base);
    SpanOfElement(Dot(low, Strides(base)), Size(base), elem);
  }

  datatype Cut = Cut(dim: nat, start: nat, end: Option<nat>)

  /** A chain of slices, refused when one of them is. */
  function SliceAll(v: View, cuts: seq<Cut>): (r: Option<View>)
    requires |v.strides| == |v.shape|
    decreases cuts
  {
    if cuts == [] then Some(v)
    else
      var o := SliceOf(v, cuts[0].dim, cuts[0].start, cuts[0].end);
      if o.None? then None else SliceAll(o.value, cuts[1..])
  }

  lemma {:induction false} SlicesWithin(v: View, base: Shape, low: Index, size: nat, cuts: seq<Cut>)
    returns (low': Index)
    requires Within(v, base, low, size) && SliceAll(v, cuts).Some?
    ensures Within(SliceAll(v, cuts).value, base, low', size)
    decreases cuts
  {
    if cuts == [] {
      low' := low;
    } else {
      var c := cuts[0];
      SliceWithin(v, base, low, size, c.dim, c.start, c.end);
      low' := SlicesWithin(SliceOf(v, c.dim, c.start, c.end).value, base, low[c.dim := low[c.dim] + c.start], size, cuts[1..]);
    }
  }

  // ---------- elements

  lemma OffsetIs(v: View, base: Shape, low: Index, size: nat, idx: Index)
    requires Within(v, base, low, size) && InBounds(idx, v.shape)
    ensures InBounds(Plus(low, idx), base)
    ensures ByteOffset(v, idx) == Dot(Plus(low, idx), Strides(base)) * v.elem
    ensures ByteOffset(v, idx) == v.offset + Flat(v, idx) * v.elem
    ensures ByteOffset(v, idx) + v.elem <= size
  {
    hide Wrap, Size, Strides, Dot;
    var at := Plus(low, idx);
    LowBound(base, at, v.elem, size);
    DotPlus(low, idx, v.strides);
    SmallOffset(Dot(low, v.strides), Dot(idx, v.strides), v.elem, v.offset);
  }

  lemma PlusInjective(low: Index, i: Index, j: Index)
    requires |low| == |i| == |j| && i != j
    ensures Plus(low, i) != Plus(low, j)
  {
    var k :| 0 <= k < |i| && i[k] != j[k];
    assert Plus(low, i)[k] != Plus(low, j)[k];
  }

  /** After any chain of slices, distinct elements lie in disjoint byte ranges inside the slab. */
  lemma ElementsApart(v: View, base: Shape, low: Index, size: nat, i: Index, j: Index)
    requires Within(v, base, low, size) && InBounds(i, v.shape) && InBounds(j, v.shape) && i != j
    ensures ByteOffset(v, i) + v.elem <= size
    ensures ByteOffset(v, i) + v.elem <= ByteOffset(v, j) || ByteOffset(v, j) + v.elem <= ByteOffset(v, i)
  {
    hide Wrap, Size, Strides, Dot, Unflatten, ByteOffset;
    OffsetIs(v, base, low, size, i);
    OffsetIs(v, base, low, size, j);
    PlusInjective(low, i, j);
    UnflattenFlat(Plus(low, i), base);
    UnflattenFlat(Plus(low, j), base);
    MulApart(Dot(Plus(low, i), Strides(base)), Dot(Plus(low, j), Strides(base)), v.elem);
  }

  // ---------- the loops of the view

  method IndexOf(v: View, idx: Index) returns (r: Option<nat>)
    requires |idx| == |v.shape| == |v.strides|
    ensures r.Some? <==> InBounds(idx, v.shape)
    ensures r.Some? ==> r.value == Wrap(Flat(v, idx))
  {
    var inside := CheckBounds(v.shape, idx);
    if !inside {
      return None;
    }
    var flat := 0;
    for i := 0 to |idx|
      invariant flat == Wrap(Dot(idx[..i], v.strides[..i]))
    {
      DotStep(idx, v.strides, i);
      WrapSum(Dot(idx[..i], v.strides[..i]), idx[i] * v.strides[i]);
      flat := Wrap(flat + idx[i] * v.strides[i]);
    }
    assert idx[..|idx|] == idx && v.strides[..|idx|] == v.strides;
    r := Some(flat);
  }

  method Address(v: View, idx: Index) returns (at: Option<nat>)
    requires |idx| == |v.shape| == |v.strides|
    ensures at.Some? <==> InBounds(idx, v.shape)
    ensures at.Some? ==> at.value == ByteOffset(v, idx)
  {
    var flat := IndexOf(v, idx);
    at := if flat.Some? then Some(Wrap(v.offset + flat.value * v.elem)) else None;
  }

  method CheckBounds(shape: Shape, idx: Index) returns (inside: bool)
    requires |idx| == |shape|
    ensures inside <==> InBounds(idx, shape)
  {
    for i := 0 to |shape|
      invariant forall k :: 0 <= k < i ==> idx[k] < shape[k]
    {
      if idx[i] >= shape[i] {
        return false;
      }
    }
    return true;
  }

  method IsContiguous(v: View) returns (c: bool)
    requires |v.strides| == |v.shape|
    ensures c <==> v.strides == WrapAll(Strides(v.shape))
  {
    var expected, i := 1, |v.shape|;
    while i > 0
      invariant 0 <= i <= |v.shape|
      invariant expected == Wrap(Size(v.shape[i..]))
      invariant forall k :: i <= k < |v.shape| ==> v.strides[k] == WrapAll(Strides(v.shape))[k]
    {
      StridesAt(v.shape, i - 1);
      if v.strides[i - 1] != expected {
        return false;
      }
      assert v.shape[i - 1..][1..] == v.shape[i..];
      WrapProduct(Size(v.shape[i..]), v.shape[i - 1], expected * v.shape[i - 1], Size(v.shape[i - 1..]));
      expected, i := Wrap(expected * v.shape[i - 1]), i - 1;
    }
    return true;
  }

  method Unflattened(shape: Shape, flat: nat) returns (indices: Index)
    requires Positive(shape)
    ensures indices == Unflatten(flat, shape)
  {
    indices := [];
    var rest, i := flat, |shape|;
    assert shape[..|shape|] == shape;
    while i > 0
      invariant 0 <= i <= |shape| && |indices| == |shape| - i
      invariant Unflatten(flat, shape) == Unflatten(rest, shape[..i]) + indices
    {
      assert shape[..i][..i - 1] == shape[..i - 1];
      indices := [Remainder(rest, shape[i - 1])] + indices;
      rest, i := Quotient(rest, shape[i - 1]), i - 1;
    }
  }

  // ---------- filling

  function FillWrites(v: View, value: seq<byte>): (ws: seq<Write>)
    requires |v.strides| == |v.shape| && Positive(v.shape)
    ensures |ws| == v.total
  {
    seq(v.total, f requires 0 <= f < v.total => Write(ByteOffset(v, Unflatten(f, v.shape)), value))
  }

  lemma FillWritesApart(v: View, base: Shape, low: Index, size: nat, value: seq<byte>)
    requires Within(v, base, low, size) && |value| == v.elem
    ensures Positive(v.shape) && AllFit(FillWrites(v, value), size) && Disjoint(FillWrites(v, value))
  {
    hide Size, Strides, Dot, Unflatten, ByteOffset;
    forall f | 0 <= f < v.total ensures InBounds(Unflatten(f, v.shape), v.shape) && Fits(FillWrites(v, value)[f], size) {
      FlatUnflatten(f, v.shape);
      OffsetIs(v, base, low, size, Unflatten(f, v.shape));
    }
    forall f, h | 0 <= f < h < v.total ensures Apart(FillWrites(v, value)[f], FillWrites(v, value)[h]) {
      FlatUnflatten(f, v.shape);
      FlatUnflatten(h, v.shape);
      ElementsApart(v, base, low, size, Unflatten(f, v.shape), Unflatten(h, v.shape));
    }
  }

  /** Filling writes every element of the view, and no other byte of the slab. */
  lemma FillIsExact(s: seq<byte>, v: View, base: Shape, low: Index, value: seq<byte>, k: nat)
    requires Within(v, base, low, |s|) && |value| == v.elem && k < |s|
    requires Positive(v.shape) && AllFit(FillWrites(v, value), |s|)
    ensures forall idx :: InBounds(idx, v.shape) && ByteOffset(v, idx) <= k < ByteOffset(v, idx) + v.elem ==>
              BlitAll(s, FillWrites(v, value))[k] == value[k - ByteOffset(v, idx)]
    ensures (forall idx :: InBounds(idx, v.shape) ==> !(ByteOffset(v, idx) <= k < ByteOffset(v, idx) + v.elem)) ==>
              BlitAll(s, FillWrites(v, value))[k] == s[k]
  {
    hide Size, Strides, Dot, Unflatten, ByteOffset, BlitAll;
    var ws := FillWrites(v, value);
    FillWritesApart(v, base, low, |s|, value);
    BlitAllAt(s, ws, k);
    forall idx | InBounds(idx, v.shape) && ByteOffset(v, idx) <= k < ByteOffset(v, idx) + v.elem
      ensures BlitAll(s, ws)[k] == value[k - ByteOffset(v, idx)]
    {
      var f := Dot(idx, Strides(v.shape));
      FlatBound(idx, v.shape);
      UnflattenFlat(idx, v.shape);
      assert Covers(ws[f], k);
    }
    forall f | 0 <= f < |ws| ensures InBounds(Unflatten(f, v.shape), v.shape) { FlatUnflatten(f, v.shape); }
  }

  /** In a contiguous view the elements follow one another. */
  lemma ContiguousOffset(v: View, base: Shape, low: Index, size: nat, f: nat)
    requires Within(v, base, low, size) && v.strides == WrapAll(Strides(v.shape)) && f < v.total
    ensures Positive(v.shape) && ByteOffset(v, Unflatten(f, v.shape)) == v.offset + f * v.elem
  {
    hide Size, Strides, Dot, Unflatten, Wrap;
    FlatUnflatten(f, v.shape);
    OffsetIs(v, base, low, size, Unflatten(f, v.shape));
    SizeMono(v.shape, base);
    Larger(v.elem, Size(base));
    WrapStrides(v.shape);
  }

  method Fill(v: View, slab: array<byte>, value: seq<byte>, host: bool, ghost base: Shape, ghost low: Index)
    returns (ok: bool)
    requires Within(v, base, low, slab.Length)
    modifies slab
    ensures ok <==> host && |value| == v.elem
    ensures !ok ==> slab[..] == old(slab[..])
    ensures ok ==> AllFit(FillWrites(v, value), slab.Length) && slab[..] == BlitAll(old(slab[..]), FillWrites(v, value))
  {
    hide Size, Strides, Dot, Unflatten, Wrap, ByteOffset, BlitAll;
    if !host || |value| != v.elem {
      return false;
    }
    ghost var was, ws := slab[..], FillWrites(v, value);
    FillWritesApart(v, base, low, slab.Length, value);
    assert ws[..0] == [];
    BlitNone(was);
    var contiguous := IsContiguous(v);
    if contiguous {
      for i := 0 to v.total
        invariant slab[..] == BlitAll(was, ws[..i])
      {
        ContiguousOffset(v, base, low, slab.Length, i);
        BlitAllStep(was, ws, i);
        Memcpy(slab, v.offset + i * v.elem, value);
      }
    } else {
      for flat := 0 to v.total
        invariant slab[..] == BlitAll(was, ws[..flat])
      {
        var idx := Unflattened(v.shape, flat);
        FlatUnflatten(flat, v.shape);
        var at := Address(v, idx);
        BlitAllStep(was, ws, flat);
        Memcpy(slab, at.value, value);
      }
    }
    assert ws[..v.total] == ws;
    ok := true;
  }
}
