/** Row-major indexing of a tensor of any rank: a multi-index, read as a number whose digits have the
    dimensions as bases. */
module MixedRadix {

  type Shape = seq<nat>
  type Index = seq<nat>

  function Size(shape: Shape): nat {
    if shape == [] then 1 else shape[0] * Size(shape[1..])
  }

  /** The number of elements below one step along each dimension. */
  function Strides(shape: Shape): (r: seq<nat>)
    ensures |r| == |shape|
  {
    if shape == [] then [] else [Size(shape[1..])] + Strides(shape[1..])
  }

  predicate InBounds(idx: Index, shape: Shape) {
    |idx| == |shape| && forall i :: 0 <= i < |idx| ==> idx[i] < shape[i]
  }

  predicate Positive(shape: Shape) { forall i :: 0 <= i < |shape| ==> shape[i] > 0 }

  function Dot(idx: seq<nat>, strides: seq<nat>): nat
    requires |idx| == |strides|
  {
    if idx == [] then 0 else idx[0] * strides[0] + Dot(idx[1..], strides[1..])
  }

  function Quotient(a: nat, m: nat): nat
    requires m > 0
  {
    a / m
  }

  function Remainder(a: nat, m: nat): nat
    requires m > 0
  {
    a % m
  }

  lemma DivMod(a: nat, m: nat)
    requires m > 0
    ensures a == Quotient(a, m) * m + Remainder(a, m) && Remainder(a, m) < m
  {
  }

  /** The multi-index of the element with a given row-major number, last digit first. */
  function Unflatten(flat: nat, shape: Shape): (r: Index)
    requires Positive(shape)
    ensures |r| == |shape|
    decreases shape
  {
    if shape == [] then []
    else
      var n := |shape| - 1;
      Unflatten(Quotient(flat, shape[n]), shape[..n]) + [Remainder(flat, shape[n])]
  }

  // ---------- strides

  lemma {:induction false} StrideStep(shape: Shape, i: nat)
    requires i + 1 < |shape|
    ensures Strides(shape)[i] == Strides(shape)[i + 1] * shape[i + 1]
    decreases shape
  {
    if i == 0 {
      assert Strides(shape)[1] == Strides(shape[1..])[0] == Size(shape[1..][1..]);
    } else {
      StrideStep(shape[1..], i - 1);
    }
  }

  lemma {:induction false} LastStride(shape: Shape)
    requires |shape| > 0
    ensures Strides(shape)[|shape| - 1] == 1
    decreases shape
  {
    if |shape| == 1 {
    } else {
      LastStride(shape[1..]);
    }
  }

  lemma {:induction false} StridesAt(shape: Shape, i: nat)
    requires i < |shape|
    ensures Strides(shape)[i] == Size(shape[i + 1..])
    decreases shape
  {
    if i == 0 {
    } else {
      StridesAt(shape[1..], i - 1);
      assert shape[1..][i..] == shape[i + 1..];
    }
  }

  // ---------- the last digit

  lemma {:induction false} SizeSnoc(shape: Shape, m: nat)
    ensures Size(shape + [m]) == Size(shape) * m
  {
    if shape == [] {
      assert ([] + [m])[1..] == [];
    } else {
      SizeSnoc(shape[1..], m);
      assert (shape + [m])[1..] == shape[1..] + [m];
      assert shape[0] * (Size(shape[1..]) * m) == shape[0] * Size(shape[1..]) * m;
    }
  }

  lemma {:induction false} DotSnoc(idx: Index, shape: Shape, x: nat, m: nat)
    requires |idx| == |shape|
    ensures Dot(idx + [x], Strides(shape + [m])) == Dot(idx, Strides(shape)) * m + x
    decreases shape
  {
    if shape == [] {
      assert ([] + [m])[1..] == [] && ([] + [x])[1..] == [];
      assert Strides([] + [m]) == [1] + Strides([]);
      assert Strides([] + [m])[1..] == [];
    } else {
      DotSnoc(idx[1..], shape[1..], x, m);
      SizeSnoc(shape[1..], m);
      var s := shape + [m];
      assert s[1..] == shape[1..] + [m] && (idx + [x])[1..] == idx[1..] + [x];
      assert Strides(s)[1..] == Strides(shape[1..] + [m]) && Strides(shape)[1..] == Strides(shape[1..]);
      Horner(idx[0], Size(shape[1..]), Dot(idx[1..], Strides(shape[1..])), m, x);
    }
  }

  lemma Horner(a: nat, s: nat, d: nat, m: nat, x: nat)
    ensures a * (s * m) + (d * m + x) == (a * s + d) * m + x
  {
    assert a * (s * m) == (a * s) * m;
    assert (a * s + d) * m == (a * s) * m + d * m;
  }

  lemma DigitBound(d: nat, s: nat, m: nat, x: nat)
    requires d < s && x < m
    ensures d * m + x < s * m
  {
    assert (d + 1) * m <= s * m;
    assert (d + 1) * m == d * m + m;
  }

  lemma SpanOfElement(f: nat, size: nat, elem: nat)
    requires f < size
    ensures f * elem + elem <= size * elem
  {
    assert (f + 1) * elem <= size * elem;
  }

  lemma MulApart(a: nat, b: nat, elem: nat)
    requires a != b
    ensures a * elem + elem <= b * elem || b * elem + elem <= a * elem
  {
    if a < b { SpanOfElement(a, b, elem); } else { SpanOfElement(b, a, elem); }
  }

  lemma MulMono(k: int, m: nat)
    ensures k >= 1 ==> k * m >= m
    ensures k <= -1 ==> k * m + m <= 0
  {
  }

  lemma DivDigit(a: nat, d: nat, m: nat, x: nat)
    requires x < m && a == d * m + x
    ensures Quotient(a, m) == d && Remainder(a, m) == x
  {
    hide Quotient, Remainder;
    var q, r := Quotient(a, m), Remainder(a, m);
    DivMod(a, m);
    assert (q - d) * m == q * m - d * m;
    MulMono(q - d, m);
  }

  lemma DivBound(f: nat, s: nat, m: nat)
    requires m > 0 && f < s * m
    ensures Quotient(f, m) < s
  {
    hide Quotient, Remainder;
    DivMod(f, m);
    assert (Quotient(f, m) - s) * m == Quotient(f, m) * m - s * m;
    MulMono(Quotient(f, m) - s, m);
  }

  // ---------- flat_index and unflatten undo each other

  lemma EmptyShape()
    ensures Size([]) == 1 && Dot([], Strides([])) == 0
  {
  }

  lemma {:induction false} FlatBound(idx: Index, shape: Shape)
    requires InBounds(idx, shape)
    ensures Dot(idx, Strides(shape)) < Size(shape)
    decreases shape
  {
    if shape == [] {
    } else {
      var n := |shape| - 1;
      FlatBound(idx[..n], shape[..n]);
      assert shape[..n] + [shape[n]] == shape && idx[..n] + [idx[n]] == idx;
      DotSnoc(idx[..n], shape[..n], idx[n], shape[n]);
      SizeSnoc(shape[..n], shape[n]);
      DigitBound(Dot(idx[..n], Strides(shape[..n])), Size(shape[..n]), shape[n], idx[n]);
    }
  }

  lemma {:induction false} UnflattenFlat(idx: Index, shape: Shape)
    requires InBounds(idx, shape)
    ensures Positive(shape) && Unflatten(Dot(idx, Strides(shape)), shape) == idx
    decreases shape
  {
    hide Quotient, Remainder;
    if shape == [] {
    } else {
      var n := |shape| - 1;
      UnflattenFlat(idx[..n], shape[..n]);
      assert shape[..n] + [shape[n]] == shape && idx[..n] + [idx[n]] == idx;
      DotSnoc(idx[..n], shape[..n], idx[n], shape[n]);
      DivDigit(Dot(idx, Strides(shape)), Dot(idx[..n], Strides(shape[..n])), shape[n], idx[n]);
    }
  }

  lemma {:induction false} FlatUnflatten(flat: nat, shape: Shape)
    requires Positive(shape) && flat < Size(shape)
    ensures InBounds(Unflatten(flat, shape), shape) && Dot(Unflatten(flat, shape), Strides(shape)) == flat
    decreases shape
  {
    hide Quotient, Remainder, Dot, Strides, Size;
    EmptyShape();
    if shape == [] {
    } else {
      var n := |shape| - 1;
      assert shape[..n] + [shape[n]] == shape;
      SizeSnoc(shape[..n], shape[n]);
      DivBound(flat, Size(shape[..n]), shape[n]);
      FlatUnflatten(Quotient(flat, shape[n]), shape[..n]);
      DivMod(flat, shape[n]);
      assert Unflatten(flat, shape) == Unflatten(Quotient(flat, shape[n]), shape[..n]) + [Remainder(flat, shape[n])];
      DotSnoc(Unflatten(Quotient(flat, shape[n]), shape[..n]), shape[..n], Remainder(flat, shape[n]), shape[n]);
    }
  }

  lemma {:induction false} SizeNonZero(shape: Shape)
    ensures Size(shape) > 0 ==> Positive(shape)
  {
    if shape == [] {
    } else {
      SizeNonZero(shape[1..]);
      assert shape == [shape[0]] + shape[1..];
      assert shape[0] == 0 ==> Size(shape) == 0;
      assert Size(shape[1..]) == 0 ==> Size(shape) == 0;
    }
  }

  // ---------- sums of indices

  function Plus(a: seq<nat>, b: seq<nat>): (r: seq<nat>)
    requires |a| == |b|
    ensures |r| == |a|
  {
    seq(|a|, i requires 0 <= i < |a| => a[i] + b[i])
  }

  lemma {:induction false} DotPlus(a: seq<nat>, b: seq<nat>, strides: seq<nat>)
    requires |a| == |b| == |strides|
    ensures Dot(Plus(a, b), strides) == Dot(a, strides) + Dot(b, strides)
    decreases a
  {
    if a == [] {
    } else {
      DotPlus(a[1..], b[1..], strides[1..]);
      assert Plus(a, b)[1..] == Plus(a[1..], b[1..]);
    }
  }

  lemma {:induction false} DotUpdate(a: seq<nat>, strides: seq<nat>, d: nat, x: nat)
    requires |a| == |strides| && d < |a|
    ensures Dot(a[d := a[d] + x], strides) == Dot(a, strides) + x * strides[d]
    decreases a
  {
    var b := a[d := a[d] + x];
    if d == 0 {
      assert b[1..] == a[1..];
    } else {
      DotUpdate(a[1..], strides[1..], d - 1, x);
      assert b[1..] == a[1..][d - 1 := a[1..][d - 1] + x];
    }
  }

  lemma {:induction false} DotStep(a: seq<nat>, strides: seq<nat>, n: nat)
    requires |a| == |strides| && n < |a|
    ensures Dot(a[..n + 1], strides[..n + 1]) == Dot(a[..n], strides[..n]) + a[n] * strides[n]
    decreases a
  {
    if n == 0 {
      assert a[..1][1..] == [] && strides[..1][1..] == [];
    } else {
      DotStep(a[1..], strides[1..], n - 1);
      assert a[..n + 1][1..] == a[1..][..n] && strides[..n + 1][1..] == strides[1..][..n];
      assert a[..n][1..] == a[1..][..n - 1] && strides[..n][1..] == strides[1..][..n - 1];
    }
  }
}
