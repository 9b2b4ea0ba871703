/** Reshaping and permuting a pair commute with multiplying the pair out. */
module LoraTheorems {
  import opened Wrappers
  import opened Tensors
  import opened LoraTensor

  function Zeros(n: nat): (r: seq<nat>)
    ensures |r| == n && forall d :: 0 <= d < n ==> r[d] == 0
  {
    seq(n, _ => 0)
  }

  lemma {:induction false} ShrinkOnes(shape: seq<nat>, idx: seq<nat>)
    requires |idx| == |shape| && AllOnes(shape)
    ensures Shrink(shape, idx) == Zeros(|shape|)
  {
  }

  lemma {:induction false} SplitShape(l: Lora)
    requires Constructed(l)
    ensures l.A.shape == Lead(l.A.shape) + [RankOf(l)] + [Last(l.A.shape)]
    ensures l.B.shape == l.B.shape[..|l.B.shape| - 1] + [RankOf(l)]
    ensures ShapeOf(l) == l.B.shape[..|l.B.shape| - 1] + [Last(l.A.shape)]
    ensures l.B.shape[..|l.B.shape| - 1] == Lead(l.B.shape) + [l.B.shape[|l.B.shape| - 2]]
  {
  }

  lemma {:induction false} ProdOnes(n: nat)
    ensures Prod(Ones(n)) == 1
    decreases n
  {
    if n > 0 {
      ProdOnes(n - 1);
      assert Ones(n)[..n - 1] == Ones(n - 1);
    }
  }

  lemma {:induction false} MulOne(a: nat, b: nat)
    requires a * b == 1
    ensures a == 1 && b == 1
  {
    if a > 1 { assert b > 0; MulLe(2, a, b); }
  }

  lemma {:induction false} ProdOneIsOnes(shape: seq<nat>)
    requires Prod(shape) == 1
    ensures AllOnes(shape)
    decreases |shape|
  {
    if shape != [] {
      MulOne(Prod(shape[..|shape| - 1]), shape[|shape| - 1]);
      ProdOneIsOnes(shape[..|shape| - 1]);
      forall d | 0 <= d < |shape| ensures shape[d] == 1 {
        if d < |shape| - 1 { assert shape[d] == shape[..|shape| - 1][d]; }
      }
    }
  }

  lemma {:induction false} RavelZeros(shape: seq<nat>)
    ensures Ravel(shape, Zeros(|shape|)) == 0
    decreases |shape|
  {
    if shape != [] {
      var outer := shape[..|shape| - 1];
      RavelZeros(outer);
      assert Zeros(|shape|)[..|shape| - 1] == Zeros(|outer|);
    }
  }

  lemma {:induction false} UnravelZero(shape: seq<nat>)
    requires AllOnes(shape)
    ensures Unravel(shape, 0) == Zeros(|shape|)
    decreases |shape|
  {
    if shape != [] {
      var outer := shape[..|shape| - 1];
      assert forall d :: 0 <= d < |outer| ==> outer[d] == shape[d];
      UnravelZero(outer);
      assert Zeros(|shape|) == Zeros(|outer|) + [0];
    }
  }

  lemma {:induction false} MulCancel(a: nat, b: nat, n: nat)
    requires a * n == b * n && n > 0
    ensures a == b
  {
  }

  // ----- reshape

  /** Reshaping to a shape with the same row size forces the `A` factor's leading dimensions to 1. */
  lemma {:induction false} ReshapeLeadOnes(l: Lora, shape: seq<nat>)
    requires Constructed(l) && ReshapeTo(l, shape).Made? && RankOf(l) > 0 && Last(l.A.shape) > 0
    ensures AllOnes(Lead(l.A.shape))
    ensures Prod(shape[..|shape| - 1]) == Prod(l.B.shape[..|l.B.shape| - 1])
  {
    var r := RankOf(l);
    var n := Last(l.A.shape);
    SplitShape(l);
    ProdLast(Ones(|shape| - 2) + [r], n);
    ProdLast(Ones(|shape| - 2), r);
    ProdOnes(|shape| - 2);
    ProdLast(Lead(l.A.shape) + [r], n);
    ProdLast(Lead(l.A.shape), r);
    MulCancel(1 * r, Prod(Lead(l.A.shape)) * r, n);
    MulCancel(1, Prod(Lead(l.A.shape)), r);
    ProdOneIsOnes(Lead(l.A.shape));
    ProdLast(shape[..|shape| - 1], r);
    ProdLast(l.B.shape[..|l.B.shape| - 1], r);
    MulCancel(Prod(shape[..|shape| - 1]), Prod(l.B.shape[..|l.B.shape| - 1]), r);
  }

  /** The `A` factor's element is found at the same rank and column after reshaping. */
  lemma {:induction false} ReshapedA(l: Lora, m: nat, k: nat, j: nat)
    requires Constructed(l) && AllOnes(Lead(l.A.shape)) && k < RankOf(l) && j < Last(l.A.shape)
    ensures var shapeA := Ones(m) + [RankOf(l)] + [Last(l.A.shape)];
            Reshape(l.A, shapeA).at(Zeros(m) + [k] + [j]) == l.A.at(Zeros(|l.A.shape| - 2) + [k] + [j])
  {
    var r := RankOf(l);
    var n := Last(l.A.shape);
    SplitShape(l);
    RavelLast(Ones(m) + [r], n, Zeros(m) + [k], j);
    RavelLast(Ones(m), r, Zeros(m), k);
    RavelZeros(Ones(m));
    UnravelLast(Lead(l.A.shape) + [r], n, k, j);
    UnravelLast(Lead(l.A.shape), r, 0, k);
    UnravelZero(Lead(l.A.shape));
  }

  /** The `B` factor's element is found at the same flat row. */
  lemma {:induction false} ReshapedB(l: Lora, rows: seq<nat>, idx: seq<nat>, k: nat)
    requires Constructed(l) && |idx| == |rows| && k < RankOf(l)
    ensures Reshape(l.B, rows + [RankOf(l)]).at(idx + [k]) == l.B.at(Unravel(l.B.shape[..|l.B.shape| - 1], Ravel(rows, idx)) + [k])
  {
    SplitShape(l);
    RavelLast(rows, RankOf(l), idx, k);
    UnravelLast(l.B.shape[..|l.B.shape| - 1], RankOf(l), Ravel(rows, idx), k);
  }

  /** The element of the product at a row given as one multi-index and a column. */
  lemma {:induction false} ProductAtRow(l: Lora, row: seq<nat>, j: nat)
    requires Valid(l) && |row| == |l.A.shape| - 1
    ensures Multiplies(l) && Product(l).at(row + [j]) == ProductAt(l, row[..|row| - 1], row[|row| - 1], j)
  {
    ValidExactly(l);
    assert (row + [j])[..|l.A.shape| - 2] == row[..|row| - 1];
  }

  lemma {:induction false} InShapeTake(idx: seq<nat>, shape: seq<nat>, n: nat)
    requires InShape(idx, shape) && n <= |shape|
    ensures InShape(idx[..n], shape[..n])
  {
    forall d | 0 <= d < n ensures idx[..n][d] < shape[..n][d] {
      assert idx[d] < shape[d];
    }
  }

  /** The row of the original product an index into the reshaped one comes from. */
  function OldRow(l: Lora, shape: seq<nat>, idx: seq<nat>): (row: seq<nat>)
    requires Constructed(l) && |idx| == |shape| >= 1
    ensures |row| == |l.B.shape| - 1
  {
    Unravel(l.B.shape[..|l.B.shape| - 1], Ravel(shape[..|shape| - 1], idx[..|idx| - 1]))
  }

  lemma {:induction false} OldRowInside(l: Lora, shape: seq<nat>, idx: seq<nat>)
    requires Constructed(l) && ReshapeTo(l, shape).Made? && InShape(idx, shape) && RankOf(l) > 0 && Last(l.A.shape) > 0
    ensures InShape(OldRow(l, shape, idx), l.B.shape[..|l.B.shape| - 1])
  {
    ReshapeLeadOnes(l, shape);
    InShapeTake(idx, shape, |shape| - 1);
    RavelBelow(shape[..|shape| - 1], idx[..|shape| - 1]);
    UnravelInShape(l.B.shape[..|l.B.shape| - 1], Ravel(shape[..|shape| - 1], idx[..|shape| - 1]));
  }

  /** Inside the shape the row index reads `B` directly. */
  lemma {:induction false} FactorBInside(l: Lora, row: seq<nat>, k: nat)
    requires Constructed(l) && InShape(row, l.B.shape[..|l.B.shape| - 1])
    ensures FactorB(l, row[..|row| - 1], row[|row| - 1], k) == l.B.at(row + [k])
  {
    var rows := l.B.shape[..|l.B.shape| - 1];
    InShapeTake(row, rows, |rows| - 1);
    assert rows[..|rows| - 1] == Lead(l.B.shape);
    ShrinkInside(Lead(l.B.shape), row[..|row| - 1]);
    assert row[..|row| - 1] + [row[|row| - 1]] == row;
  }

  lemma {:induction false} FactorAOnes(l: Lora, lead: seq<nat>, k: nat, j: nat)
    requires Constructed(l) && |lead| == |l.A.shape| - 2 && AllOnes(Lead(l.A.shape))
    ensures FactorA(l, lead, k, j) == l.A.at(Zeros(|l.A.shape| - 2) + [k] + [j])
  {
    ShrinkOnes(Lead(l.A.shape), lead);
  }

  lemma {:induction false} ReshapedFactorB(l: Lora, shape: seq<nat>, idx: seq<nat>, k: nat)
    requires Constructed(l) && ReshapeTo(l, shape).Made? && InShape(idx, shape) && k < RankOf(l) && Last(l.A.shape) > 0
    ensures var m := |shape|; var row := OldRow(l, shape, idx);
            FactorB(ReshapeTo(l, shape).l, idx[..m - 2], idx[m - 2], k) == FactorB(l, row[..|row| - 1], row[|row| - 1], k)
  {
    var m := |shape|;
    var t := ReshapeTo(l, shape).l;
    OldRowInside(l, shape, idx);
    FactorBInside(l, OldRow(l, shape, idx), k);
    InShapeTake(idx, shape, m - 1);
    assert t.B.shape[..m - 1] == shape[..m - 1];
    FactorBInside(t, idx[..m - 1], k);
    assert idx[..m - 1][..m - 2] == idx[..m - 2];
    ReshapedB(l, shape[..m - 1], idx[..m - 1], k);
  }

  lemma {:induction false} ReshapedFactorA(l: Lora, shape: seq<nat>, lead: seq<nat>, was: seq<nat>, k: nat, j: nat)
    requires Constructed(l) && ReshapeTo(l, shape).Made? && |lead| == |shape| - 2 && |was| == |l.A.shape| - 2
    requires k < RankOf(l) && j < Last(l.A.shape)
    ensures FactorA(ReshapeTo(l, shape).l, lead, k, j) == FactorA(l, was, k, j)
  {
    var t := ReshapeTo(l, shape).l;
    ReshapeLeadOnes(l, shape);
    assert Lead(t.A.shape) == Ones(|shape| - 2);
    FactorAOnes(t, lead, k, j);
    FactorAOnes(l, was, k, j);
    ReshapedA(l, |shape| - 2, k, j);
  }

  lemma {:induction false} ReshapedValid(l: Lora, shape: seq<nat>)
    requires Constructed(l) && ReshapeTo(l, shape).Made?
    ensures Valid(ReshapeTo(l, shape).l) && ShapeOf(ReshapeTo(l, shape).l) == shape
  {
    var t := ReshapeTo(l, shape).l;
    assert Lead(t.A.shape) == Ones(|shape| - 2) && Lead(t.B.shape) == shape[..|shape| - 2];
  }

  /** Reshaping commutes with multiplying out, whenever it is accepted. */
  lemma {:induction false} ReshapeCommutes(l: Lora, shape: seq<nat>)
    requires Valid(l) && ReshapeTo(l, shape).Made?
    ensures var t := ReshapeTo(l, shape).l;
            Valid(t) && Multiplies(t) && Multiplies(l) && Same(Product(t), Reshape(Product(l), shape))
  {
    var t := ReshapeTo(l, shape).l;
    var m := |shape|;
    ReshapedValid(l, shape);
    ValidExactly(t);
    ValidExactly(l);
    SplitShape(l);
    forall idx | InShape(idx, shape) ensures Product(t).at(idx) == Reshape(Product(l), shape).at(idx) {
      ReshapedElement(l, shape, idx);
    }
  }

  lemma {:induction false} ExpandedShape(orig: seq<nat>, shape: seq<int>)
    requires ExpandShape(orig, shape).Some?
    ensures var s := ExpandShape(orig, shape).value;
            |s| == |shape| && forall d :: 0 <= d < |shape| ==> shape[d] != -1 ==> s[d] == shape[d]
  {
  }

  /** An accepted reshape of a pair of positive rank keeps the number of elements of what it stands for. */
  lemma {:induction false} ReshapedCount(l: Lora, shape: seq<nat>)
    requires Constructed(l) && ReshapeTo(l, shape).Made? && RankOf(l) > 0
    ensures Prod(shape) == Prod(ShapeOf(l))
  {
    var r := RankOf(l);
    SplitShape(l);
    ProdLast(shape[..|shape| - 1], r);
    ProdLast(l.B.shape[..|l.B.shape| - 1], r);
    MulCancel(Prod(shape[..|shape| - 1]), Prod(l.B.shape[..|l.B.shape| - 1]), r);
    SplitLast(shape);
    ProdLast(shape[..|shape| - 1], Last(shape));
    ProdLast(l.B.shape[..|l.B.shape| - 1], Last(l.A.shape));
  }

  /** Reshaping, sizes of -1 included, commutes with multiplying out whenever it is accepted: the pair stands
      for the product in the given shape, with every -1 filled in so that the element count is kept. */
  lemma {:induction false} ReshapeLoraCommutes(l: Lora, shape: seq<int>) returns (s: seq<nat>)
    requires Valid(l) && ReshapeLora(l, shape).Made?
    ensures |s| == |shape| && forall d :: 0 <= d < |shape| ==> shape[d] != -1 ==> s[d] == shape[d]
    ensures RankOf(l) > 0 ==> Prod(s) == Prod(ShapeOf(l))
    ensures var t := ReshapeLora(l, shape).l;
            Valid(t) && Multiplies(t) && Multiplies(l) && Same(Product(t), Reshape(Product(l), s))
  {
    s := ExpandShape(ShapeOf(l), shape).value;
    ExpandedShape(ShapeOf(l), shape);
    ReshapeCommutes(l, s);
    if RankOf(l) > 0 { ReshapedCount(l, s); }
  }

  lemma {:induction false} ReshapedProductAt(l: Lora, shape: seq<nat>, idx: seq<nat>)
    requires Constructed(l) && ReshapeTo(l, shape).Made? && InShape(idx, shape)
    ensures var m := |shape|; var row := OldRow(l, shape, idx);
            ProductAt(ReshapeTo(l, shape).l, idx[..m - 2], idx[m - 2], idx[m - 1]) ==
            ProductAt(l, row[..|row| - 1], row[|row| - 1], idx[m - 1])
  {
    var t := ReshapeTo(l, shape).l;
    var m := |shape|;
    var j := idx[m - 1];
    var row := OldRow(l, shape, idx);
    var lead, i, lead', i' := idx[..m - 2], idx[m - 2], row[..|row| - 1], row[|row| - 1];
    forall k: nat | k < RankOf(l) ensures Term(t, lead, i, j, k) == Term(l, lead', i', j, k) {
      ReshapedFactorB(l, shape, idx, k);
      ReshapedFactorA(l, shape, lead, lead', k, j);
    }
    ProductAtSame(t, l, lead, i, j, lead', i', j);
  }

  /** The element of a product. */
  lemma {:induction false} ProductReads(l: Lora, idx: seq<nat>)
    requires Constructed(l) && Multiplies(l) && |idx| == |l.A.shape|
    ensures var n := |idx|; Product(l).at(idx) == ProductAt(l, idx[..n - 2], idx[n - 2], idx[n - 1])
  {
  }

  lemma {:induction false} ReshapedElement(l: Lora, shape: seq<nat>, idx: seq<nat>)
    requires Valid(l) && ReshapeTo(l, shape).Made? && InShape(idx, shape)
    requires Multiplies(l) && Multiplies(ReshapeTo(l, shape).l)
    ensures Product(ReshapeTo(l, shape).l).at(idx) == Reshape(Product(l), shape).at(idx)
  {
    var row, j := OldRow(l, shape, idx), idx[|idx| - 1];
    var read := ReshapedRead(l, shape, idx, row, j);
    ReshapedSource(l, shape, idx);
  }

  lemma {:induction false} ReshapedRead(l: Lora, shape: seq<nat>, idx: seq<nat>, row: seq<nat>, j: nat) returns (x: real)
    requires Valid(l) && ReshapeTo(l, shape).Made? && InShape(idx, shape)
    requires Multiplies(l) && Multiplies(ReshapeTo(l, shape).l) && row == OldRow(l, shape, idx) && j == idx[|idx| - 1]
    ensures Product(ReshapeTo(l, shape).l).at(idx) == x && Product(l).at(row + [j]) == x
  {
    x := ProductAt(l, row[..|row| - 1], row[|row| - 1], j);
    ReshapedProductAt(l, shape, idx);
    ProductReads(ReshapeTo(l, shape).l, idx);
    ProductAtRow(l, row, j);
  }

  lemma {:induction false} UnravelRavelLast(outer: seq<nat>, rows: seq<nat>, n: nat, idx: seq<nat>, j: nat)
    requires |idx| == |rows| && j < n
    ensures Unravel(outer + [n], Ravel(rows + [n], idx + [j])) == Unravel(outer, Ravel(rows, idx)) + [j]
  {
    RavelLast(rows, n, idx, j);
    UnravelLast(outer, n, Ravel(rows, idx), j);
  }

  lemma {:induction false} SplitLast(s: seq<nat>)
    requires s != []
    ensures s == s[..|s| - 1] + [s[|s| - 1]]
  {
  }

  lemma {:induction false} IndexBelow(idx: seq<nat>, shape: seq<nat>)
    requires InShape(idx, shape) && shape != []
    ensures |idx| == |shape| && idx[|idx| - 1] < shape[|shape| - 1]
  {
  }

  lemma {:induction false} OldIndex(l: Lora, shape: seq<nat>, idx: seq<nat>)
    requires Constructed(l) && shape != [] && Last(shape) == Last(l.A.shape) && InShape(idx, shape)
    ensures Unravel(ShapeOf(l), Ravel(shape, idx)) == OldRow(l, shape, idx) + [idx[|idx| - 1]]
  {
    SplitLast(shape);
    SplitLast(idx);
    IndexBelow(idx, shape);
    UnravelRavelLast(l.B.shape[..|l.B.shape| - 1], shape[..|shape| - 1], Last(shape), idx[..|idx| - 1], idx[|idx| - 1]);
  }

  lemma {:induction false} ReshapeKeepsLast(l: Lora, shape: seq<nat>)
    requires Constructed(l) && ReshapeTo(l, shape).Made?
    ensures |shape| >= 2 && Last(shape) == Last(l.A.shape)
  {
  }

  lemma {:induction false} ReshapeReads(t: Tensor, shape: seq<nat>, idx: seq<nat>, was: seq<nat>)
    requires |idx| == |shape| && Unravel(t.shape, Ravel(shape, idx)) == was
    ensures Reshape(t, shape).at(idx) == t.at(was)
  {
  }

  lemma {:induction false} ReshapedSource(l: Lora, shape: seq<nat>, idx: seq<nat>)
    requires Valid(l) && Multiplies(l) && ReshapeTo(l, shape).Made? && InShape(idx, shape)
    ensures Reshape(Product(l), shape).at(idx) == Product(l).at(OldRow(l, shape, idx) + [idx[|idx| - 1]])
  {
    ValidExactly(l);
    ReshapeKeepsLast(l, shape);
    OldIndex(l, shape, idx);
    ReshapeReads(Product(l), shape, idx, OldRow(l, shape, idx) + [idx[|idx| - 1]]);
  }

  // ----- permute and transpose

  lemma {:induction false} UnpermuteInside(dims: seq<nat>, shape: seq<nat>, idx: seq<nat>)
    requires IsPermutation(dims, |shape|) && |idx| == |shape|
    requires forall k :: 0 <= k < |dims| ==> idx[k] < shape[dims[k]]
    ensures InShape(Unpermute(dims, idx), shape)
  {
  }

  lemma {:induction false} PositionInside(dims: seq<nat>, d: nat)
    requires IsPermutation(dims, |dims|) && d < |dims|
    ensures d in dims && PositionOf(dims, d) < |dims| && dims[PositionOf(dims, d)] == d
  {
  }

  /** Each of 0 .. n-1 once, the last one last. */
  ghost predicate KeepsLast(dims: seq<nat>) {
    dims != [] && IsPermutation(dims, |dims|) && dims[|dims| - 1] == |dims| - 1
  }

  lemma {:induction false} PositionBelow(dims: seq<nat>, d: nat)
    requires KeepsLast(dims) && d < |dims|
    ensures d in dims && (if d < |dims| - 1 then PositionOf(dims, d) < |dims| - 1 else PositionOf(dims, d) == |dims| - 1)
  {
    PositionInside(dims, d);
  }

  lemma {:induction false} UnpermuteAt(dims: seq<nat>, idx: seq<nat>, d: nat)
    requires KeepsLast(dims) && |idx| == |dims| && d < |dims|
    ensures d in dims && PositionOf(dims, d) < |dims| && Unpermute(dims, idx)[d] == idx[PositionOf(dims, d)]
  {
    PositionInside(dims, d);
  }

  /** When the last dimension stays last, permuting leaves the column alone. */
  lemma {:induction false} UnpermuteLast(dims: seq<nat>, idx: seq<nat>, k: nat)
    requires |idx| == |dims| && KeepsLast(dims)
    ensures var n := |dims|; Unpermute(dims, idx[..n - 1] + [k]) == Unpermute(dims, idx)[..n - 1] + [k]
    ensures Unpermute(dims, idx)[|dims| - 1] == idx[|dims| - 1]
  {
    var n := |dims|;
    var other := idx[..n - 1] + [k];
    forall d | 0 <= d < n ensures Unpermute(dims, other)[d] == (Unpermute(dims, idx)[..n - 1] + [k])[d] {
      PositionBelow(dims, d);
      UnpermuteAt(dims, idx, d);
      UnpermuteAt(dims, other, d);
    }
    PositionBelow(dims, n - 1);
    UnpermuteAt(dims, idx, n - 1);
  }

  lemma {:induction false} PermutedShape(l: Lora, dims: seq<nat>)
    requires Constructed(l) && IsPermutation(dims, |l.A.shape|) && dims[|dims| - 1] == |dims| - 1
    ensures var b := Permute(l.B, dims).shape;
            |b| == |dims| && b[|b| - 1] == RankOf(l) && forall k :: 0 <= k < |dims| ==> b[k] == l.B.shape[dims[k]]
  {
  }

  lemma {:induction false} PermutedFactorB(l: Lora, dims: seq<nat>, idx: seq<nat>, k: nat)
    requires Constructed(l) && IsPermutation(dims, |l.A.shape|) && dims[|dims| - 1] == |dims| - 1
    requires |idx| == |dims| && InShape(idx[..|idx| - 1], Permute(l.B, dims).shape[..|dims| - 1])
    ensures var n := |dims|; var t := Lora(l.A, Permute(l.B, dims)); var z := Unpermute(dims, idx);
            Constructed(t) && FactorB(t, idx[..n - 2], idx[n - 2], k) == FactorB(l, z[..n - 2], z[n - 2], k)
  {
    var n := |dims|;
    var t := Lora(l.A, Permute(l.B, dims));
    var z := Unpermute(dims, idx);
    PermutedShape(l, dims);
    PermutedRowInside(l, dims, idx);
    assert idx[..n - 1][..n - 2] == idx[..n - 2] && z[..n - 1][..n - 2] == z[..n - 2];
    FactorBInside(t, idx[..n - 1], k);
    FactorBInside(l, z[..n - 1], k);
    UnpermuteLast(dims, idx, k);
  }

  lemma {:induction false} SameFactorA(l: Lora, b: Tensor, lead: seq<nat>, lead': seq<nat>, k: nat, j: nat)
    requires Constructed(l) && Constructed(Lora(l.A, b)) && AllOnes(Lead(l.A.shape)) && |lead| == |lead'| == |l.A.shape| - 2
    ensures FactorA(Lora(l.A, b), lead, k, j) == FactorA(l, lead', k, j)
  {
    FactorAOnes(Lora(l.A, b), lead, k, j);
    FactorAOnes(l, lead', k, j);
  }

  lemma {:induction false} PermuteKeepsColumn(l: Lora, dims: seq<nat>, idx: seq<nat>)
    requires Valid(l) && IsPermutation(dims, |l.A.shape|) && dims[|dims| - 1] == |dims| - 1 && AllOnes(Lead(l.A.shape))
    requires |idx| == |dims| && InShape(idx[..|idx| - 1], Permute(l.B, dims).shape[..|dims| - 1])
    ensures var n := |dims|; var z := Unpermute(dims, idx);
            ProductAt(Lora(l.A, Permute(l.B, dims)), idx[..n - 2], idx[n - 2], idx[n - 1]) == ProductAt(l, z[..n - 2], z[n - 2], z[n - 1])
  {
    var n := |dims|;
    var t := Lora(l.A, Permute(l.B, dims));
    var z := Unpermute(dims, idx);
    PermutedShape(l, dims);
    var lead, i, lead', i', j := idx[..n - 2], idx[n - 2], z[..n - 2], z[n - 2], idx[n - 1];
    UnpermuteLast(dims, idx, 0);
    hide Unpermute, Permute, IsPermutation, AllOnes;
    forall k: nat | k < RankOf(l) ensures Term(t, lead, i, j, k) == Term(l, lead', i', j, k) {
      PermutedFactorB(l, dims, idx, k);
      SameFactorA(l, Permute(l.B, dims), lead, lead', k, j);
    }
    ProductAtSame(t, l, lead, i, j, lead', i', j);
  }

  lemma {:induction false} PermutedBelow(t: Tensor, dims: seq<nat>, idx: seq<nat>, d: nat)
    requires |t.shape| == |dims| == |idx| && KeepsLast(dims) && d < |dims| - 1
    requires InShape(idx[..|idx| - 1], Permute(t, dims).shape[..|dims| - 1])
    ensures Unpermute(dims, idx)[d] < t.shape[d]
  {
    var p := PositionOf(dims, d);
    PositionBelow(dims, d);
    PositionInside(dims, d);
    UnpermuteAt(dims, idx, d);
    assert idx[..|idx| - 1][p] < Permute(t, dims).shape[..|dims| - 1][p];
  }

  lemma {:induction false} PermutedRowInside(l: Lora, dims: seq<nat>, idx: seq<nat>)
    requires Constructed(l) && IsPermutation(dims, |l.A.shape|) && dims[|dims| - 1] == |dims| - 1
    requires |idx| == |dims| && InShape(idx[..|idx| - 1], Permute(l.B, dims).shape[..|dims| - 1])
    ensures InShape(Unpermute(dims, idx)[..|dims| - 1], l.B.shape[..|dims| - 1])
  {
    var row, rows := Unpermute(dims, idx)[..|dims| - 1], l.B.shape[..|dims| - 1];
    forall d | 0 <= d < |dims| - 1 ensures row[d] < rows[d] {
      PermutedBelow(l.B, dims, idx, d);
    }
  }

  lemma {:induction false} PermuteReads(t: Tensor, dims: seq<nat>, idx: seq<nat>)
    requires |t.shape| == |dims| == |idx| && forall k :: 0 <= k < |dims| ==> dims[k] < |dims|
    ensures Permute(t, dims).at(idx) == t.at(Unpermute(dims, idx))
  {
  }

  lemma {:induction false} PermuteFixedAt(l: Lora, dims: seq<nat>, idx: seq<nat>)
    requires Valid(l) && IsPermutation(dims, |l.A.shape|) && dims[|dims| - 1] == |dims| - 1 && AllOnes(Lead(l.A.shape))
    requires Multiplies(l) && Multiplies(Lora(l.A, Permute(l.B, dims))) && |Product(l).shape| == |dims|
    requires |idx| == |dims| && InShape(idx[..|idx| - 1], Permute(l.B, dims).shape[..|dims| - 1])
    ensures Product(Lora(l.A, Permute(l.B, dims))).at(idx) == Permute(Product(l), dims).at(idx)
  {
    PermuteKeepsColumn(l, dims, idx);
    ProductReads(Lora(l.A, Permute(l.B, dims)), idx);
    PermuteReads(Product(l), dims, idx);
    ProductReads(l, Unpermute(dims, idx));
  }

  lemma {:induction false} PermuteFixedCommutes(l: Lora, dims: seq<nat>)
    requires Valid(l) && IsPermutation(dims, |l.A.shape|) && dims[|dims| - 1] == |dims| - 1 && AllOnes(Lead(l.A.shape))
    ensures var t := Lora(l.A, Permute(l.B, dims));
            Valid(t) && Multiplies(t) && Multiplies(l) && Same(Product(t), Permute(Product(l), dims))
  {
    var n := |dims|;
    var t := Lora(l.A, Permute(l.B, dims));
    PermutedShape(l, dims);
    assert Lead(t.A.shape) == Lead(l.A.shape);
    ValidExactly(t);
    ValidExactly(l);
    PermutedProductShape(l, dims);
    forall idx | InShape(idx, Product(t).shape) ensures Product(t).at(idx) == Permute(Product(l), dims).at(idx) {
      InShapeTake(idx, ShapeOf(t), n - 1);
      assert ShapeOf(t)[..n - 1] == t.B.shape[..n - 1];
      PermuteFixedAt(l, dims, idx);
    }
  }

  lemma {:induction false} PermutedProductShape(l: Lora, dims: seq<nat>)
    requires Constructed(l) && Multiplies(l) && Product(l).shape == ShapeOf(l)
    requires IsPermutation(dims, |l.A.shape|) && dims[|dims| - 1] == |dims| - 1
    ensures |Product(l).shape| == |dims|
    ensures Permute(Product(l), dims).shape == Permute(l.B, dims).shape[..|dims| - 1] + [Last(l.A.shape)]
  {
    var n := |dims|;
    PermutedShape(l, dims);
    var p := Permute(Product(l), dims).shape;
    forall k | 0 <= k < n - 1 ensures p[k] == Permute(l.B, dims).shape[k] {
      assert dims[k] < n - 1;
    }
  }

  /** The transposed pair (B transposed, A transposed) multiplies out to the transposed product. */
  lemma {:induction false} TransposeCommutes2D(l: Lora, dims: seq<nat>)
    requires Valid(l) && |l.A.shape| == 2 && dims == [1, 0]
    ensures var t := Lora(Permute(l.B, dims), Permute(l.A, dims));
            Valid(t) && Multiplies(t) && Multiplies(l) && Same(Product(t), Permute(Product(l), dims))
  {
    var t := Lora(Permute(l.B, dims), Permute(l.A, dims));
    ValidExactly(t);
    ValidExactly(l);
    assert Permute(Product(l), dims).shape == [l.A.shape[1], l.B.shape[0]];
    forall idx | InShape(idx, Product(t).shape) ensures Product(t).at(idx) == Permute(Product(l), dims).at(idx) {
      var z := Unpermute(dims, idx);
      assert z == [idx[1], idx[0]];
      Transposed2D(l, dims, idx[0], idx[1]);
      assert idx[..0] == [] && z[..0] == [];
    }
  }

  lemma {:induction false} Transposed2D(l: Lora, dims: seq<nat>, i: nat, j: nat)
    requires Constructed(l) && |l.A.shape| == 2 && dims == [1, 0]
    ensures ProductAt(Lora(Permute(l.B, dims), Permute(l.A, dims)), [], i, j) == ProductAt(l, [], j, i)
  {
    var t := Lora(Permute(l.B, dims), Permute(l.A, dims));
    forall k: nat | k < RankOf(l) ensures Term(t, [], i, j, k) == Term(l, [], j, i, k) {
      assert FactorB(t, [], i, k) == t.B.at([i, k]) && FactorA(t, [], k, j) == t.A.at([k, j]) by {
        assert Shrink([], []) + [i] + [k] == [i, k] && Shrink([], []) + [k] + [j] == [k, j];
      }
      assert FactorB(l, [], j, k) == l.B.at([j, k]) && FactorA(l, [], k, i) == l.A.at([k, i]) by {
        assert Shrink([], []) + [j] + [k] == [j, k] && Shrink([], []) + [k] + [i] == [k, i];
      }
      assert Unpermute(dims, [i, k]) == [k, i] && Unpermute(dims, [k, j]) == [j, k];
    }
    ProductAtSame(t, l, [], i, j, [], j, i);
  }

  /** Permuting dimensions commutes with multiplying out, whenever it is accepted. */
  lemma {:induction false} PermuteCommutes(l: Lora, dims: seq<nat>)
    requires Valid(l) && IsPermutation(dims, |l.A.shape|) && PermuteLora(l, dims).Made?
    ensures var t := PermuteLora(l, dims).l;
            Valid(t) && Multiplies(t) && Multiplies(l) && Same(Product(t), Permute(Product(l), dims))
  {
    if dims[|dims| - 1] == |dims| - 1 {
      PermuteFixedCommutes(l, dims);
    } else {
      assert dims == [1, 0];
      TransposeCommutes2D(l, dims);
    }
  }
}
