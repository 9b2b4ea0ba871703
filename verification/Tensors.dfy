/** Dense tensors with exact elements, and the operations on them that the converters use. */
module Tensors {
  import opened Wrappers

  /** `at` is read at multi-indices inside `shape` only. */
  datatype Tensor = Tensor(shape: seq<nat>, at: seq<nat> -> real)

  ghost predicate InShape(idx: seq<nat>, shape: seq<nat>) {
    |idx| == |shape| && forall d :: 0 <= d < |shape| ==> idx[d] < shape[d]
  }

  /** Same shape and same elements. */
  ghost predicate Same(t: Tensor, u: Tensor) {
    t.shape == u.shape && forall idx :: InShape(idx, t.shape) ==> t.at(idx) == u.at(idx)
  }

  lemma {:induction false} SameTrans(t: Tensor, u: Tensor, v: Tensor)
    requires Same(t, u) && Same(u, v)
    ensures Same(t, v)
  {
  }

  // ----- sums

  ghost function Sum(n: nat, f: nat -> real): real {
    if n == 0 then 0.0 else Sum(n - 1, f) + f(n - 1)
  }

  lemma {:induction false} SumSame(n: nat, f: nat -> real, g: nat -> real)
    requires forall k: nat :: k < n ==> f(k) == g(k)
    ensures Sum(n, f) == Sum(n, g)
  {
    if n > 0 { SumSame(n - 1, f, g); }
  }

  // ----- row-major order

  function Prod(shape: seq<nat>): nat {
    if shape == [] then 1 else Prod(shape[..|shape| - 1]) * shape[|shape| - 1]
  }

  function Ravel(shape: seq<nat>, idx: seq<nat>): nat
    requires |idx| == |shape|
  {
    if shape == [] then 0
    else Ravel(shape[..|shape| - 1], idx[..|idx| - 1]) * shape[|shape| - 1] + idx[|idx| - 1]
  }

  function Unravel(shape: seq<nat>, x: nat): (idx: seq<nat>)
    ensures |idx| == |shape|
  {
    if shape == [] then []
    else
      var n := shape[|shape| - 1];
      if n == 0 then seq(|shape|, _ => 0)
      else Unravel(shape[..|shape| - 1], x / n) + [x % n]
  }

  lemma {:induction false} DivModUnique(q: nat, n: nat, r: nat)
    requires r < n
    ensures (q * n + r) / n == q && (q * n + r) % n == r
  {
    var x := q * n + r;
    assert x == (x / n) * n + x % n;
    if x / n < q {
      MulLe(x / n + 1, q, n);
    } else if x / n > q {
      MulLe(q + 1, x / n, n);
    }
  }

  lemma {:induction false} MulLe(a: nat, b: nat, n: nat)
    requires a <= b
    ensures a * n <= b * n
  {
  }

  /** Reading a flat position off the last dimension. */
  lemma {:induction false} UnravelLast(shape: seq<nat>, n: nat, q: nat, r: nat)
    requires r < n
    ensures Unravel(shape + [n], q * n + r) == Unravel(shape, q) + [r]
  {
    var s := shape + [n];
    assert s[..|s| - 1] == shape;
    DivModUnique(q, n, r);
  }

  lemma {:induction false} RavelLast(shape: seq<nat>, n: nat, idx: seq<nat>, r: nat)
    requires |idx| == |shape|
    ensures Ravel(shape + [n], idx + [r]) == Ravel(shape, idx) * n + r
  {
    assert (shape + [n])[..|shape|] == shape && (idx + [r])[..|idx|] == idx;
  }

  lemma {:induction false} ProdLast(shape: seq<nat>, n: nat)
    ensures Prod(shape + [n]) == Prod(shape) * n
  {
    assert (shape + [n])[..|shape|] == shape;
  }

  lemma {:induction false} Distribute(a: nat, p: nat, b: nat, n: nat)
    ensures (a * p + b) * n == a * (p * n) + b * n
  {
  }

  lemma {:induction false} MulAssociative(x: nat, y: nat, z: nat)
    ensures (x * y) * z == x * (y * z)
  {
  }

  lemma {:induction false} RavelConcat(a: seq<nat>, b: seq<nat>, x: seq<nat>, y: seq<nat>)
    requires |x| == |a| && |y| == |b|
    ensures Ravel(a + b, x + y) == Ravel(a, x) * Prod(b) + Ravel(b, y)
    decreases |b|
  {
    if b == [] {
      assert a + b == a && x + y == x;
    } else {
      var n := b[|b| - 1];
      var b', y' := b[..|b| - 1], y[..|y| - 1];
      RavelConcat(a, b', x, y');
      assert a + b == (a + b') + [n] && x + y == (x + y') + [y[|y| - 1]];
      RavelLast(a + b', n, x + y', y[|y| - 1]);
      Distribute(Ravel(a, x), Prod(b'), Ravel(b', y'), n);
    }
  }

  lemma {:induction false} ProdConcat(a: seq<nat>, b: seq<nat>)
    ensures Prod(a + b) == Prod(a) * Prod(b)
    decreases |b|
  {
    if b == [] {
      assert a + b == a;
    } else {
      var n, b' := b[|b| - 1], b[..|b| - 1];
      ProdConcat(a, b');
      assert a + b == (a + b') + [n] && b == b' + [n];
      ProdLast(a + b', n);
      ProdLast(b', n);
      MulAssociative(Prod(a), Prod(b'), n);
    }
  }

  lemma {:induction false} InShapeLast(idx: seq<nat>, outer: seq<nat>, r: nat, n: nat)
    requires InShape(idx, outer) && r < n
    ensures InShape(idx + [r], outer + [n])
  {
  }

  lemma {:induction false} QuotientParts(x: nat, m: nat, n: nat) returns (q: nat, r: nat)
    requires x < m * n
    ensures x == q * n + r && r < n && q < m
  {
    assert m * 0 == 0;
    q, r := x / n, x % n;
    QuotientBelow(x, m, n);
  }

  /** Flat positions inside a shape and multi-indices inside it are the same thing. */
  lemma {:induction false} UnravelInShape(shape: seq<nat>, x: nat)
    requires x < Prod(shape)
    ensures InShape(Unravel(shape, x), shape) && Ravel(shape, Unravel(shape, x)) == x
    decreases |shape|
  {
    if shape != [] {
      var n := shape[|shape| - 1];
      var outer := shape[..|shape| - 1];
      var q, r := QuotientParts(x, Prod(outer), n);
      UnravelInShape(outer, q);
      assert shape == outer + [n];
      UnravelLast(outer, n, q, r);
      RavelLast(outer, n, Unravel(outer, q), r);
      InShapeLast(Unravel(outer, q), outer, r, n);
    }
  }

  lemma {:induction false} QuotientBelow(x: nat, p: nat, n: nat)
    requires n > 0 && x < p * n
    ensures x / n < p
  {
    if x / n >= p { MulLe(p, x / n, n); }
  }

  lemma {:induction false} RavelBelow(shape: seq<nat>, idx: seq<nat>)
    requires InShape(idx, shape)
    ensures Ravel(shape, idx) < Prod(shape) && Unravel(shape, Ravel(shape, idx)) == idx
    decreases |shape|
  {
    if shape != [] {
      var outer := shape[..|shape| - 1];
      var n := shape[|shape| - 1];
      RavelBelow(outer, idx[..|idx| - 1]);
      MulLe(Ravel(outer, idx[..|idx| - 1]) + 1, Prod(outer), n);
      assert (Ravel(outer, idx[..|idx| - 1]) + 1) * n == Ravel(outer, idx[..|idx| - 1]) * n + n;
      DivModUnique(Ravel(outer, idx[..|idx| - 1]), n, idx[|idx| - 1]);
      assert idx == idx[..|idx| - 1] + [idx[|idx| - 1]];
    }
  }

  /** `t.reshape(shape)`; torch demands equally many elements. */
  function Reshape(t: Tensor, shape: seq<nat>): Tensor {
    Tensor(shape, (idx: seq<nat>) => if |idx| == |shape| then t.at(Unravel(t.shape, Ravel(shape, idx))) else 0.0)
  }

  // ----- permuting dimensions

  /** `dims` lists each of 0 .. n-1 once. */
  ghost predicate IsPermutation(dims: seq<nat>, n: nat) {
    && |dims| == n
    && (forall k :: 0 <= k < n ==> dims[k] < n)
    && (forall d :: 0 <= d < n ==> d in dims)
    && (forall i, k :: 0 <= i < k < n ==> dims[i] != dims[k])
  }

  /** Where dimension `d` went. */
  function PositionOf(dims: seq<nat>, d: nat): (k: nat)
    requires d in dims
    ensures k < |dims| && dims[k] == d
  {
    if dims[0] == d then 0 else 1 + PositionOf(dims[1..], d)
  }

  function Unpermute(dims: seq<nat>, idx: seq<nat>): (r: seq<nat>)
    requires |idx| == |dims|
    ensures |r| == |dims|
  {
    seq(|dims|, d requires 0 <= d < |dims| => if d in dims then idx[PositionOf(dims, d)] else 0)
  }

  function Permute(t: Tensor, dims: seq<nat>): Tensor
    requires |dims| == |t.shape| && forall k :: 0 <= k < |dims| ==> dims[k] < |dims|
  {
    Tensor(seq(|dims|, k requires 0 <= k < |dims| => t.shape[dims[k]]),
           (idx: seq<nat>) => if |idx| == |dims| then t.at(Unpermute(dims, idx)) else 0.0)
  }

  /** `dim0` and `dim1` exchanged in 0 .. n-1. */
  function SwapDims(n: nat, dim0: nat, dim1: nat): (dims: seq<nat>)
    requires dim0 < n && dim1 < n
    ensures |dims| == n && forall k :: 0 <= k < n ==> dims[k] == (if k == dim0 then dim1 else if k == dim1 then dim0 else k)
  {
    seq(n, k => if k == dim0 then dim1 else if k == dim1 then dim0 else k)
  }

  lemma {:induction false} SwapDimsPermutes(n: nat, dim0: nat, dim1: nat)
    requires dim0 < n && dim1 < n
    ensures IsPermutation(SwapDims(n, dim0, dim1), n)
    ensures forall d :: 0 <= d < n ==> PositionOf(SwapDims(n, dim0, dim1), d) == (if d == dim0 then dim1 else if d == dim1 then dim0 else d)
  {
    var dims := SwapDims(n, dim0, dim1);
    forall d | 0 <= d < n
      ensures d in dims && PositionOf(dims, d) == (if d == dim0 then dim1 else if d == dim1 then dim0 else d)
    {
      var k := if d == dim0 then dim1 else if d == dim1 then dim0 else d;
      assert dims[k] == d;
      var p := PositionOf(dims, d);
      assert dims[p] == d;
    }
  }

  // ----- stacking and concatenating along the first dimension

  function StackShape(ts: seq<Tensor>): seq<nat>
    requires ts != []
  {
    [|ts|] + ts[0].shape
  }

  function Stack(ts: seq<Tensor>): Tensor
    requires ts != []
  {
    Tensor(StackShape(ts), (idx: seq<nat>) => if idx != [] && idx[0] < |ts| then ts[idx[0]].at(idx[1..]) else 0.0)
  }

  function Rows(t: Tensor): nat { if t.shape == [] then 0 else t.shape[0] }

  function SumRows(ts: seq<Tensor>): nat {
    if ts == [] then 0 else Rows(ts[0]) + SumRows(ts[1..])
  }

  function CatAt(ts: seq<Tensor>, i: nat, rest: seq<nat>): real {
    if ts == [] then 0.0
    else if i < Rows(ts[0]) then ts[0].at([i] + rest)
    else CatAt(ts[1..], i - Rows(ts[0]), rest)
  }

  function Cat(ts: seq<Tensor>): Tensor
    requires ts != []
  {
    Tensor([SumRows(ts)] + (if ts[0].shape == [] then [] else ts[0].shape[1..]),
           (idx: seq<nat>) => if idx != [] then CatAt(ts, idx[0], idx[1..]) else 0.0)
  }

  // ----- indexing

  /** A Python slice; torch takes positive steps only. */
  datatype Slice = Slice(start: Option<int>, stop: Option<int>, step: nat)

  datatype Index = At(i: int) | Range(s: Slice)

  const FULL := Slice(None, None, 1)

  function Clamp(i: int, n: nat): nat {
    if i < 0 then (if i + n < 0 then 0 else i + n) else if i > n then n else i
  }

  function SliceStart(s: Slice, n: nat): nat {
    if s.start.None? then 0 else Clamp(s.start.value, n)
  }

  function SliceStop(s: Slice, n: nat): nat {
    if s.stop.None? then n else Clamp(s.stop.value, n)
  }

  /** How many positions a slice selects in a dimension of size `n`. */
  function SliceLen(s: Slice, n: nat): nat {
    var a := SliceStart(s, n);
    var b := SliceStop(s, n);
    if s.step == 0 || b <= a then 0 else (b - a - 1) / s.step + 1
  }

  function SlicePos(s: Slice, n: nat, k: nat): nat { SliceStart(s, n) + k * s.step }

  /** Selected positions are inside the dimension. */
  lemma {:induction false} SlicePosInside(s: Slice, n: nat, k: nat)
    requires k < SliceLen(s, n)
    ensures SlicePos(s, n, k) < n
  {
    var w := SliceStop(s, n) - SliceStart(s, n) - 1;
    assert k <= w / s.step;
    MulLe(k, w / s.step, s.step);
    assert (w / s.step) * s.step <= w;
  }

  /** A slice that selects as many positions as there are selects them all, in order. */
  lemma {:induction false} WholeSlice(s: Slice, n: nat)
    requires SliceLen(s, n) == n > 1
    ensures SliceStart(s, n) == 0 && s.step == 1
  {
    SlicePosInside(s, n, n - 1);
    if s.step > 1 {
      MulLe(2, s.step, n - 1);
    }
  }

  predicate IndexOk(ix: Index, n: nat) {
    match ix
    case At(i) => 0 <= i + n && i < n
    case Range(s) => s.step > 0
  }

  predicate IndicesOk(ixs: seq<Index>, shape: seq<nat>) {
    |ixs| <= |shape| && forall d :: 0 <= d < |ixs| ==> IndexOk(ixs[d], shape[d])
  }

  function Pick(i: int, n: nat): nat
    requires 0 <= i + n && i < n
  {
    if i < 0 then i + n else i
  }

  /** The shape left by indexing the first dimensions. */
  function IndexedShape(ixs: seq<Index>, shape: seq<nat>): seq<nat>
    requires |ixs| <= |shape|
  {
    if ixs == [] then shape
    else
      var rest := IndexedShape(ixs[1..], shape[1..]);
      match ixs[0]
      case At(_) => rest
      case Range(s) => [SliceLen(s, shape[0])] + rest
  }

  /** The multi-index in the original tensor of a multi-index in the indexed one. */
  function Source(ixs: seq<Index>, shape: seq<nat>, idx: seq<nat>): seq<nat>
    requires IndicesOk(ixs, shape)
  {
    if ixs == [] then idx
    else
      match ixs[0]
      case At(i) => [Pick(i, shape[0])] + Source(ixs[1..], shape[1..], idx)
      case Range(s) =>
        if idx == [] then [] else [SlicePos(s, shape[0], idx[0])] + Source(ixs[1..], shape[1..], idx[1..])
  }

  /** `t[ixs]`. */
  function GetItem(t: Tensor, ixs: seq<Index>): Tensor
    requires IndicesOk(ixs, t.shape)
  {
    Tensor(IndexedShape(ixs, t.shape), (idx: seq<nat>) => t.at(Source(ixs, t.shape, idx)))
  }

  lemma {:induction false} SourceInShape(ixs: seq<Index>, shape: seq<nat>, idx: seq<nat>)
    requires IndicesOk(ixs, shape) && InShape(idx, IndexedShape(ixs, shape))
    ensures InShape(Source(ixs, shape, idx), shape)
    decreases |ixs|
  {
    if ixs != [] {
      var inner := if ixs[0].At? then idx else idx[1..];
      if ixs[0].Range? { SlicePosInside(ixs[0].s, shape[0], idx[0]); }
      SourceInShape(ixs[1..], shape[1..], inner);
      var r := Source(ixs, shape, idx);
      assert r[1..] == Source(ixs[1..], shape[1..], inner);
      forall d | 0 <= d < |shape| ensures r[d] < shape[d] {
        if d > 0 { assert r[d] == r[1..][d - 1] && shape[d] == shape[1..][d - 1]; }
      }
    }
  }
}
