/** What the operations on tensors mean, element by element, as torch and NumPy define them. */
module TensorMeaning {
  import opened Wrappers
  import opened Tensors
  import opened LoraTensor
  import LoraAccepted

  // ----- row-major order

  /** How many elements are left when the first index is given. */
  function Stride(shape: seq<nat>): nat { if shape == [] then 1 else shape[0] * Stride(shape[1..]) }

  /** The position of an element, counted with the first index slowest. */
  function Position(shape: seq<nat>, idx: seq<nat>): nat
    requires |idx| == |shape|
  {
    if shape == [] then 0 else idx[0] * Stride(shape[1..]) + Position(shape[1..], idx[1..])
  }

  lemma {:induction false} StrideIs(shape: seq<nat>)
    ensures Stride(shape) == Prod(shape)
    decreases |shape|
  {
    if shape != [] {
      StrideIs(shape[1..]);
      assert shape == [shape[0]] + shape[1..];
      ProdConcat([shape[0]], shape[1..]);
      OneSize(shape[0]);
    }
  }

  lemma {:induction false} OneSize(n: nat)
    ensures Prod([n]) == n
  {
    assert [n] == [] + [n];
    ProdLast([], n);
  }

  lemma {:induction false} PositionIs(shape: seq<nat>, idx: seq<nat>)
    requires |idx| == |shape|
    ensures Position(shape, idx) == Ravel(shape, idx)
    decreases |shape|
  {
    if shape != [] {
      PositionIs(shape[1..], idx[1..]);
      StrideIs(shape[1..]);
      hide Prod;
      RavelConcat([shape[0]], shape[1..], [idx[0]], idx[1..]);
      assert shape == [shape[0]] + shape[1..] && idx == [idx[0]] + idx[1..];
      assert Ravel([shape[0]], [idx[0]]) == idx[0];
    }
  }

  /** A reshape keeps the elements in row-major order: the same position holds the same element. */
  lemma {:induction false} ReshapeKeepsOrder(t: Tensor, shape: seq<nat>, idx: seq<nat>, source: seq<nat>)
    requires InShape(source, t.shape) && |idx| == |shape| && Position(shape, idx) == Position(t.shape, source)
    ensures Reshape(t, shape).shape == shape && Reshape(t, shape).at(idx) == t.at(source)
  {
    PositionIs(shape, idx);
    PositionIs(t.shape, source);
    RavelBelow(t.shape, source);
  }

  // ----- permuting, stacking, concatenating

  /** Dimension `k` of the result is dimension `dims[k]` of the tensor. */
  lemma {:induction false} PermuteMoves(t: Tensor, dims: seq<nat>, idx: seq<nat>, moved: seq<nat>)
    requires IsPermutation(dims, |t.shape|) && |idx| == |moved| == |dims|
    requires forall k :: 0 <= k < |dims| ==> moved[k] == idx[dims[k]]
    ensures Permute(t, dims).at(moved) == t.at(idx)
    ensures |Permute(t, dims).shape| == |dims| && forall k :: 0 <= k < |dims| ==> Permute(t, dims).shape[k] == t.shape[dims[k]]
  {
    forall d | 0 <= d < |dims| ensures Unpermute(dims, moved)[d] == idx[d] {
      assert d in dims;
    }
    assert Unpermute(dims, moved) == idx;
  }

  /** Stacking puts each tensor under its own first index. */
  lemma {:induction false} StackHolds(ts: seq<Tensor>, i: nat, idx: seq<nat>)
    requires i < |ts|
    ensures Stack(ts).shape == [|ts|] + ts[0].shape && Stack(ts).at([i] + idx) == ts[i].at(idx)
  {
    assert ([i] + idx)[1..] == idx;
  }

  /** Concatenating appends the rows: row `r` of tensor `i` comes behind all rows of the tensors before it. */
  lemma {:induction false} CatHolds(ts: seq<Tensor>, i: nat, r: nat, rest: seq<nat>)
    requires i < |ts| && ts[i].shape != [] && r < ts[i].shape[0]
    ensures Cat(ts).at([SumRows(ts[..i]) + r] + rest) == ts[i].at([r] + rest)
    ensures ts[0].shape != [] ==> Cat(ts).shape == [SumRows(ts)] + ts[0].shape[1..]
  {
    CatRow(ts, i, r, rest);
    assert ([SumRows(ts[..i]) + r] + rest)[1..] == rest;
  }

  lemma {:induction false} CatRow(ts: seq<Tensor>, i: nat, r: nat, rest: seq<nat>)
    requires i < |ts| && ts[i].shape != [] && r < ts[i].shape[0]
    ensures CatAt(ts, SumRows(ts[..i]) + r, rest) == ts[i].at([r] + rest)
    decreases i
  {
    if i > 0 {
      assert ts[..i][0] == ts[0] && ts[..i][1..] == ts[1..][..i - 1];
      CatRow(ts[1..], i - 1, r, rest);
    }
  }

  // ----- indexing

  /** The first index counts from the end when it is negative; what is left is indexed with the others. */
  lemma {:induction false} FirstInt(t: Tensor, i: int, ixs: seq<Index>, idx: seq<nat>)
    requires t.shape != [] && IndicesOk([At(i)] + ixs, t.shape)
    ensures var row := if i < 0 then t.shape[0] + i else i; 0 <= row < t.shape[0]
    ensures IndicesOk(ixs, t.shape[1..])
    ensures var row := if i < 0 then t.shape[0] + i else i; var u := GetItem(t, [At(i)] + ixs);
            && u.shape == IndexedShape(ixs, t.shape[1..]) && u.at(idx) == t.at([row] + Source(ixs, t.shape[1..], idx))
  {
    var all := [At(i)] + ixs;
    assert all[0] == At(i) && all[1..] == ixs;
    assert IndexOk(all[0], t.shape[0]);
    forall d | 0 <= d < |ixs| ensures IndexOk(ixs[d], t.shape[1..][d]) { assert IndexOk(all[d + 1], t.shape[d + 1]); }
    assert Source(all, t.shape, idx) == [Pick(i, t.shape[0])] + Source(ixs, t.shape[1..], idx);
  }

  /** A slice selects positions of its dimension; what is left is indexed with the others. */
  lemma {:induction false} FirstSlice(t: Tensor, s: Slice, ixs: seq<Index>, k: nat, idx: seq<nat>)
    requires t.shape != [] && IndicesOk([Range(s)] + ixs, t.shape) && k < SliceLen(s, t.shape[0])
    ensures SlicePos(s, t.shape[0], k) < t.shape[0] && IndicesOk(ixs, t.shape[1..])
    ensures var u := GetItem(t, [Range(s)] + ixs);
            && u.shape == [SliceLen(s, t.shape[0])] + IndexedShape(ixs, t.shape[1..])
            && u.at([k] + idx) == t.at([SlicePos(s, t.shape[0], k)] + Source(ixs, t.shape[1..], idx))
  {
    var all := [Range(s)] + ixs;
    assert all[0] == Range(s) && all[1..] == ixs && ([k] + idx)[1..] == idx;
    SlicePosInside(s, t.shape[0], k);
    forall d | 0 <= d < |ixs| ensures IndexOk(ixs[d], t.shape[1..][d]) { assert IndexOk(all[d + 1], t.shape[d + 1]); }
    assert Source(all, t.shape, [k] + idx) == [SlicePos(s, t.shape[0], k)] + Source(ixs, t.shape[1..], idx);
  }

  /** Where a slice begins or ends in a dimension of size `n`: `default` when nothing is given, counted from
      the end when negative, and never outside. */
  predicate Bound(given: Option<int>, default: nat, n: nat, at: nat) {
    match given
    case None => at == default
    case Some(i) =>
      var from := if i < 0 then n + i else i;
      at == if from < 0 then 0 else if from > n then n else from
  }

  /** A slice selects exactly the positions from its start up to its end that its step meets. */
  lemma {:induction false} SliceSelects(s: Slice, n: nat, start: nat, stop: nat, p: nat)
    requires s.step > 0 && Bound(s.start, 0, n, start) && Bound(s.stop, n, n, stop)
    ensures (exists k: nat :: k < SliceLen(s, n) && SlicePos(s, n, k) == p) <==> start <= p < stop && (p - start) % s.step == 0
    ensures forall k: nat :: SlicePos(s, n, k) < SlicePos(s, n, k + 1)
  {
    assert start == SliceStart(s, n) && stop == SliceStop(s, n);
    if start <= p < stop && (p - start) % s.step == 0 {
      var k := (p - start) / s.step;
      Quotients(p - start, stop - start - 1, s.step);
      assert SlicePos(s, n, k) == p;
    }
    if k: nat :| k < SliceLen(s, n) && SlicePos(s, n, k) == p {
      Selected(stop - start - 1, s.step, k);
    }
    forall k: nat ensures SlicePos(s, n, k) < SlicePos(s, n, k + 1) { Distributes(k, s.step); }
  }

  lemma {:induction false} Distributes(k: nat, step: nat)
    ensures (k + 1) * step == k * step + step
  {
  }

  lemma {:induction false} Quotients(x: nat, w: nat, step: nat)
    requires step > 0 && x <= w && x % step == 0
    ensures x / step <= w / step && (x / step) * step == x
  {
    assert x == (x / step) * step + x % step;
    assert w == (w / step) * step + w % step;
    if x / step > w / step { MulLe(w / step + 1, x / step, step); }
  }

  lemma {:induction false} Selected(w: nat, step: nat, k: nat)
    requires step > 0 && k <= w / step
    ensures k * step <= w && (k * step) % step == 0
  {
    MulLe(k, w / step, step);
    assert w == (w / step) * step + w % step;
    DivModUnique(k, step, 0);
  }

  // ----- multiplying out

  /** An index into the leading dimensions of a factor: where it has size 1, its one position. */
  predicate Repeats(shape: seq<nat>, lead: seq<nat>, own: seq<nat>) {
    |own| == |lead| == |shape| && forall d :: 0 <= d < |shape| ==> own[d] == if shape[d] == 1 then 0 else lead[d]
  }

  /** An element of the product of a valid pair is the inner product of a row of `B` and a column of `A`. */
  lemma {:induction false} ProductElement(l: Lora, lead: seq<nat>, own: seq<nat>, i: nat, j: nat)
    requires Valid(l) && InShape(lead + [i] + [j], ShapeOf(l)) && Repeats(l.A.shape[..|l.A.shape| - 2], lead, own)
    ensures Multiplies(l) && Product(l).shape == ShapeOf(l)
    ensures Product(l).at(lead + [i] + [j]) == Sum(l.B.shape[|l.B.shape| - 1], (k: nat) => l.B.at(lead + [i] + [k]) * l.A.at(own + [k] + [j]))
  {
    ValidExactly(l);
    var n := |l.A.shape|;
    var idx := lead + [i] + [j];
    assert idx[..n - 2] == lead && idx[n - 2] == i && idx[n - 1] == j;
    forall d | 0 <= d < n - 2 ensures lead[d] < Lead(l.B.shape)[d] { assert idx[d] < ShapeOf(l)[d]; }
    ShrinkInside(Lead(l.B.shape), lead);
    assert Shrink(Lead(l.A.shape), lead) == own;
    SumSame(RankOf(l), (k: nat) => Term(l, lead, i, j, k), (k: nat) => l.B.at(lead + [i] + [k]) * l.A.at(own + [k] + [j]));
  }
}
