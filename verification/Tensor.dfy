/** Strided views of a byte slab, with the machine's 64-bit arithmetic written out. */
module Tensor {

  import opened MixedRadix
  import opened Bytes
  import opened Words
  import opened Options

  datatype View = View(shape: Shape, strides: seq<nat>, elem: nat, offset: nat, total: nat)

  function Flat(v: View, idx: Index): nat
    requires |idx| == |v.strides|
  {
    Dot(idx, v.strides)
  }

  /** The byte offset that the machine computes for an element. */
  function ByteOffset(v: View, idx: Index): nat
    requires |idx| == |v.strides|
  {
    Wrap(v.offset + Wrap(Flat(v, idx)) * v.elem)
  }

  // ---------- building a view

  function Fresh(shape: Shape, elem: nat): View {
    View(shape, WrapAll(Strides(shape)), elem, 0, Wrap(Size(shape)))
  }

  method Product(shape: Shape) returns (total: nat)
    ensures total == Wrap(Size(shape))
  {
    total := 1;
    for i := 0 to |shape|
      invariant total == Wrap(Size(shape[..i]))
    {
      assert shape[..i + 1] == shape[..i] + [shape[i]];
      SizeSnoc(shape[..i], shape[i]);
      WrapProduct(Size(shape[..i]), shape[i], total * shape[i], Size(shape[..i + 1]));
      total := Wrap(total * shape[i]);
    }
    assert shape[..|shape|] == shape;
  }

  method StridesOf(shape: Shape) returns (strides: seq<nat>)
    requires |shape| > 0
    ensures strides == WrapAll(Strides(shape))
  {
    hide Wrap, Strides, Size;
    strides := [1];
    var i := |shape| - 1;
    LastStride(shape);
    WrapSmall(1);
    while i > 0
      invariant 0 <= i < |shape| && |strides| == |shape| - i
      invariant forall k :: i <= k < |shape| ==> strides[k - i] == Wrap(Strides(shape)[k])
    {
      StrideStep(shape, i - 1);
      WrapProduct(Strides(shape)[i], shape[i], strides[0] * shape[i], Strides(shape)[i - 1]);
      strides := [Wrap(strides[0] * shape[i])] + strides;
      i := i - 1;
    }
  }

  /** A view over `size` bytes, refused when the bytes it needs, as the machine counts them, are more. */
  method MakeView(size: nat, shape: Shape, elem: nat) returns (r: Option<View>)
    requires |shape| > 0
    ensures r.Some? <==> Wrap(Size(shape) * elem) <= size
    ensures r.Some? ==> r.value == Fresh(shape, elem)
  {
    var strides := StridesOf(shape);
    var total := Product(shape);
    WrapProduct(Size(shape), elem, total * elem, Size(shape) * elem);
    if Wrap(total * elem) > size {
      return None;
    }
    r := Some(View(shape, strides, elem, 0, total));
  }

  // ---------- what an accepted view may touch

  /** Every element lies inside the slab. */
  ghost predicate InStorage(v: View, size: nat)
    requires |v.strides| == |v.shape|
  {
    forall idx :: InBounds(idx, v.shape) ==> ByteOffset(v, idx) + v.elem <= size
  }

  lemma {:induction false} WrapDot(idx: Index, strides: seq<nat>)
    requires |idx| == |strides|
    ensures Wrap(Dot(idx, WrapAll(strides))) == Wrap(Dot(idx, strides))
    decreases idx
  {
    hide Wrap;
    if idx == [] {
    } else {
      var ws := WrapAll(strides);
      assert ws[1..] == WrapAll(strides[1..]);
      WrapDot(idx[1..], strides[1..]);
      WrapProduct(strides[0], idx[0], idx[0] * ws[0], idx[0] * strides[0]);
      WrapSums(idx[0] * ws[0], Dot(idx[1..], ws[1..]), idx[0] * strides[0], Dot(idx[1..], strides[1..]));
    }
  }

  lemma FreshOffset(shape: Shape, elem: nat, idx: Index, bytes: nat)
    requires |idx| == |shape| && bytes == Dot(idx, Strides(shape)) * elem
    ensures ByteOffset(Fresh(shape, elem), idx) == Wrap(bytes)
  {
    hide Wrap, Dot, Strides;
    var v := Fresh(shape, elem);
    WrapDot(idx, Strides(shape));
    WrapProduct(Dot(idx, Strides(shape)), elem, Wrap(Flat(v, idx)) * elem, bytes);
  }

  /** The size check is sound exactly when the byte count does not wrap. */
  lemma AcceptedInStorageIff(size: nat, shape: Shape, elem: nat)
    requires size < WORD && Wrap(Size(shape) * elem) <= size
    ensures InStorage(Fresh(shape, elem), size) <==> Size(shape) * elem < WORD
  {
    hide Wrap, Dot, Strides, Size, Unflatten, ByteOffset, Quotient, Remainder;
    var v := Fresh(shape, elem);
    if Size(shape) * elem < WORD {
      WrapSmall(Size(shape) * elem);
      forall idx | InBounds(idx, shape) ensures ByteOffset(v, idx) + elem <= size {
        FlatBound(idx, shape);
        var f := Dot(idx, Strides(shape));
        SpanOfElement(f, Size(shape), elem);
        FreshOffset(shape, elem, idx, f * elem);
        WrapSmall(f * elem);
      }
    } else {
      Factors(Size(shape), elem);
      SizeNonZero(shape);
      var f := Quotient(size, elem);
      DivMod(size, elem);
      DivBound(size, Size(shape), elem);
      FlatUnflatten(f, shape);
      FreshOffset(shape, elem, Unflatten(f, shape), f * elem);
      WrapSmall(f * elem);
      assert ByteOffset(v, Unflatten(f, shape)) + elem > size;
    }
  }

  lemma Factors(a: nat, b: nat)
    requires a * b > 0
    ensures a > 0 && b > 0
  {
  }

  const HALF_WORD: nat := 0x1_0000_0000

  /** A square of 2^32 rows is accepted over no storage at all, and is not inside it. */
  lemma WrappedView(shape: Shape)
    requires |shape| == 2 && shape[0] == HALF_WORD && shape[1] == HALF_WORD
    ensures Size(shape) == WORD && Wrap(Size(shape) * 1) == 0 && !InStorage(Fresh(shape, 1), 0)
  {
    hide Dot, Strides, ByteOffset, InStorage, Size;
    assert shape == [] + [HALF_WORD] + [HALF_WORD];
    SizeSnoc([] + [HALF_WORD], HALF_WORD);
    SizeSnoc([], HALF_WORD);
    EmptyShape();
    AcceptedInStorageIff(0, shape, 1);
  }
}
