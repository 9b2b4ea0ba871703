/** The row permutation of q/k projections: `LlamaModel.permute`, on tensors and on pairs. */
module LlamaPermute {
  import opened Wrappers
  import opened Tensors
  import opened LoraAccepted
  import opened LoraTensor
  import opened LoraTheorems
  import opened LoraStacking

  // ----- the operation

  /** The head count used: the key/value one when it is given and differs. */
  function HeadsUsed(nHead: nat, nHeadKv: Option<nat>): nat {
    if nHeadKv.Some? && nHead != nHeadKv.value then nHeadKv.value else nHead
  }

  function HalfOf(rows: nat, heads: nat): nat
    requires heads > 0
  {
    rows / heads / 2
  }

  function SplitRows(shape: seq<nat>, heads: nat): seq<nat>
    requires shape != [] && heads > 0
  {
    [heads, 2, HalfOf(shape[0], heads)] + shape[1..]
  }

  /** `weights.reshape(n_head, 2, rows // n_head // 2, ...).swapaxes(1, 2).reshape(weights.shape)`;
      none when torch refuses the reshape. */
  function PermuteRows(t: Tensor, nHead: nat, nHeadKv: Option<nat>): Option<Tensor>
    requires t.shape != []
  {
    var heads := HeadsUsed(nHead, nHeadKv);
    if heads == 0 || Prod(SplitRows(t.shape, heads)) != Prod(t.shape) then None
    else
      var split := Reshape(t, SplitRows(t.shape, heads));
      Some(Reshape(Permute(split, SwapDims(|split.shape|, 1, 2)), t.shape))
  }

  /** The same chain on a pair. */
  function PermuteRowsLora(l: Lora, nHead: nat, nHeadKv: Option<nat>): Result
    requires Constructed(l)
  {
    var heads := HeadsUsed(nHead, nHeadKv);
    if heads == 0 then TorchError
    else
      match ReshapeTo(l, SplitRows(ShapeOf(l), heads))
      case Made(split) =>
        (match TransposeLora(split, 1, 2)
         case Made(swapped) => ReshapeTo(swapped, ShapeOf(l))
         case other => other)
      case other => other
  }

  // ----- operations respect equality of tensors

  lemma {:induction false} ReshapeSame(t: Tensor, u: Tensor, shape: seq<nat>)
    requires Same(t, u) && Prod(shape) == Prod(t.shape)
    ensures Same(Reshape(t, shape), Reshape(u, shape))
  {
    forall idx | InShape(idx, shape) ensures Reshape(t, shape).at(idx) == Reshape(u, shape).at(idx) {
      RavelBelow(shape, idx);
      UnravelInShape(t.shape, Ravel(shape, idx));
    }
  }

  lemma {:induction false} PermuteSame(t: Tensor, u: Tensor, dims: seq<nat>)
    requires Same(t, u) && IsPermutation(dims, |t.shape|)
    ensures Same(Permute(t, dims), Permute(u, dims))
  {
    forall idx | InShape(idx, Permute(t, dims).shape) ensures Permute(t, dims).at(idx) == Permute(u, dims).at(idx) {
      UnpermuteInside(dims, t.shape, idx);
    }
  }

  /** Swapping two dimensions keeps the number of elements. */
  lemma {:induction false} SwapKeepsProd(a: nat, b: nat, c: nat, tail: seq<nat>)
    ensures Prod([a, b, c] + tail) == Prod([a, c, b] + tail)
    decreases |tail|
  {
    if tail == [] {
      assert [a, b, c] + tail == [a, b, c] && [a, c, b] + tail == [a, c, b];
      Prod3(a, b, c);
      Prod3(a, c, b);
      assert (a * b) * c == (a * c) * b;
    } else {
      var outer := tail[..|tail| - 1];
      SwapKeepsProd(a, b, c, outer);
      assert [a, b, c] + tail == ([a, b, c] + outer) + [tail[|tail| - 1]];
      assert [a, c, b] + tail == ([a, c, b] + outer) + [tail[|tail| - 1]];
      ProdLast([a, b, c] + outer, tail[|tail| - 1]);
      ProdLast([a, c, b] + outer, tail[|tail| - 1]);
    }
  }

  lemma {:induction false} Prod3(a: nat, b: nat, c: nat)
    ensures Prod([a, b, c]) == (a * b) * c
  {
    NoSizes();
    hide Prod;
    assert [a, b, c] == [a, b] + [c] && [a, b] == [a] + [b] && [a] == [] + [a];
    ProdLast([a, b], c);
    ProdLast([a], b);
    ProdLast([], a);
  }

  lemma {:induction false} NoSizes()
    ensures Prod([]) == 1
  {
  }

  lemma {:induction false} SwappedShape(t: Tensor, a: nat, b: nat, c: nat, tail: seq<nat>)
    requires t.shape == [a, b, c] + tail
    ensures Permute(t, SwapDims(|t.shape|, 1, 2)).shape == [a, c, b] + tail
  {
  }

  /** Converting an adapter's pair the way the base weights are converted gives a pair for the converted
      product. */
  lemma {:induction false} PairPermuteCommutes(l: Lora, nHead: nat, nHeadKv: Option<nat>)
    requires Valid(l) && RankOf(l) > 0 && PermuteRowsLora(l, nHead, nHeadKv).Made?
    ensures var t := PermuteRowsLora(l, nHead, nHeadKv).l;
            && Valid(t) && Multiplies(t) && Multiplies(l) && Product(l).shape != []
            && PermuteRows(Product(l), nHead, nHeadKv).Some?
            && Same(Product(t), PermuteRows(Product(l), nHead, nHeadKv).value)
  {
    var heads := HeadsUsed(nHead, nHeadKv);
    var shape := SplitRows(ShapeOf(l), heads);
    var split := ReshapeTo(l, shape).l;
    var dims := SwapDims(|shape|, 1, 2);
    ReshapeCommutes(l, shape);
    ReshapedValid(l, shape);
    ValidMultiplies(l);
    ValidMultiplies(split);
    ReshapedCount(l, shape);
    assert |split.A.shape| == |shape|;
    SwapDimsPermutes(|shape|, 1, 2);
    PermuteCommutes(split, dims);
    var swapped := PermuteLora(split, dims).l;
    ReshapeCommutes(swapped, ShapeOf(l));
    ValidMultiplies(swapped);
    var p1 := Reshape(Product(l), shape);
    var p2 := Permute(p1, dims);
    PermuteSame(Product(split), p1, dims);
    SameTrans(Product(swapped), Permute(Product(split), dims), p2);
    SwappedShape(p1, heads, 2, HalfOf(ShapeOf(l)[0], heads), ShapeOf(l)[1..]);
    SwapKeepsProd(heads, 2, HalfOf(ShapeOf(l)[0], heads), ShapeOf(l)[1..]);
    ReshapeSame(Product(swapped), p2, ShapeOf(l));
    var t := ReshapeTo(swapped, ShapeOf(l)).l;
    SameTrans(Product(t), Reshape(Product(swapped), ShapeOf(l)), Reshape(p2, ShapeOf(l)));
  }

  // ----- the permutation of rows

  /** The row of the original tensor that lands in row `x`: inside a head, position `(d, s)` of a half-by-2
      layout comes from position `(s, d)` of a 2-by-half layout. */
  function SourceRow(half: nat, x: nat): nat
    requires half > 0
  {
    ((x / 2 / half) * 2 + x % 2) * half + (x / 2) % half
  }

  /** Where a row goes: the same with the layouts exchanged. */
  function TargetRow(half: nat, y: nat): nat
    requires half > 0
  {
    ((y / half / 2) * half + y % half) * 2 + (y / half) % 2
  }

  /** The head, position and half a target row stands for. */
  lemma {:induction false} SourceParts(half: nat, x: nat) returns (h: nat, d: nat, s: nat)
    requires half > 0
    ensures x == (h * half + d) * 2 + s && d < half && s < 2 && SourceRow(half, x) == (h * 2 + s) * half + d
  {
    h, d, s := x / 2 / half, (x / 2) % half, x % 2;
  }

  /** The head, half and position a source row stands for. */
  lemma {:induction false} TargetParts(half: nat, y: nat) returns (h: nat, d: nat, s: nat)
    requires half > 0
    ensures y == (h * 2 + s) * half + d && d < half && s < 2 && TargetRow(half, y) == (h * half + d) * 2 + s
  {
    h, d, s := y / half / 2, y % half, (y / half) % 2;
  }

  lemma {:induction false} TargetOfParts(half: nat, h: nat, d: nat, s: nat)
    requires half > 0 && d < half && s < 2
    ensures TargetRow(half, (h * 2 + s) * half + d) == (h * half + d) * 2 + s
  {
    DivModUnique(h * 2 + s, half, d);
    DivModUnique(h, 2, s);
  }

  lemma {:induction false} SourceOfParts(half: nat, h: nat, d: nat, s: nat)
    requires half > 0 && d < half && s < 2
    ensures SourceRow(half, (h * half + d) * 2 + s) == (h * 2 + s) * half + d
  {
    DivModUnique(h * half + d, 2, s);
    DivModUnique(h, half, d);
  }

  lemma {:induction false} HeadRowForms(h: nat, half: nat, d: nat, s: nat)
    ensures (h * half + d) * 2 + s == h * (2 * half) + (2 * d + s)
    ensures (h * 2 + s) * half + d == h * (2 * half) + (s * half + d)
  {
  }

  /** A row is inside a head block of `2 * half` rows when its block number is the head's. */
  lemma {:induction false} BlockOfParts(half: nat, h: nat, d: nat, s: nat)
    requires half > 0 && d < half && s < 2
    ensures ((h * half + d) * 2 + s) / (2 * half) == h && ((h * 2 + s) * half + d) / (2 * half) == h
  {
    HeadRowForms(h, half, d, s);
    DivModUnique(h, 2 * half, 2 * d + s);
    DivModUnique(h, 2 * half, s * half + d);
  }

  lemma {:induction false} TargetUndoesSource(half: nat, x: nat)
    requires half > 0
    ensures TargetRow(half, SourceRow(half, x)) == x && SourceRow(half, x) / (2 * half) == x / (2 * half)
  {
    var h, d, s := SourceParts(half, x);
    TargetOfParts(half, h, d, s);
    BlockOfParts(half, h, d, s);
  }

  lemma {:induction false} SourceUndoesTarget(half: nat, y: nat)
    requires half > 0
    ensures SourceRow(half, TargetRow(half, y)) == y
  {
    var h, d, s := TargetParts(half, y);
    SourceOfParts(half, h, d, s);
  }

  /** The row permutation is a bijection on the rows that stays within each head block, and `TargetRow`,
      the same layouts exchanged, undoes it. */
  lemma {:induction false} RowsBijection(heads: nat, half: nat, x: nat)
    requires half > 0
    ensures TargetRow(half, SourceRow(half, x)) == x && SourceRow(half, TargetRow(half, x)) == x
    ensures SourceRow(half, x) / (2 * half) == x / (2 * half)
    ensures SourceRow(half, x) < heads * (2 * half) <==> x < heads * (2 * half)
  {
    TargetUndoesSource(half, x);
    SourceUndoesTarget(half, x);
    BelowByBlock(x, heads, 2 * half);
    BelowByBlock(SourceRow(half, x), heads, 2 * half);
  }

  lemma {:induction false} BelowByBlock(x: nat, heads: nat, block: nat)
    requires block > 0
    ensures x < heads * block <==> x / block < heads
  {
    if x < heads * block {
      QuotientBelow(x, heads, block);
    } else {
      DivAtLeast(x, heads, block);
    }
  }

  lemma {:induction false} DivAtLeast(x: nat, heads: nat, block: nat)
    requires block > 0 && x >= heads * block
    ensures x / block >= heads
  {
    var q, r := x / block, x % block;
    assert x == q * block + r;
    if q < heads { MulLe(q + 1, heads, block); }
  }

  // ----- the tensor operation moves rows and nothing else

  lemma {:induction false} UnravelMore(a: seq<nat>, b: seq<nat>, n: nat, q: nat, y: seq<nat>, r: nat)
    requires |y| == |b| && r < n && Unravel(a + b, q * Prod(b) + Ravel(b, y)) == Unravel(a, q) + y
    ensures Unravel(a + (b + [n]), q * Prod(b + [n]) + Ravel(b + [n], y + [r])) == Unravel(a, q) + (y + [r])
  {
    hide Unravel, Prod, Ravel;
    var x := q * Prod(b) + Ravel(b, y);
    ProdLast(b, n);
    RavelLast(b, n, y, r);
    Distribute(q, Prod(b), Ravel(b, y), n);
    UnravelLast(a + b, n, x, r);
    assert a + (b + [n]) == (a + b) + [n];
    assert Unravel(a, q) + (y + [r]) == (Unravel(a, q) + y) + [r];
  }

  lemma {:induction false} UnravelConcat(a: seq<nat>, b: seq<nat>, q: nat, y: seq<nat>)
    requires InShape(y, b)
    ensures Unravel(a + b, q * Prod(b) + Ravel(b, y)) == Unravel(a, q) + y
    decreases |b|
  {
    if b == [] {
      assert a + b == a && Unravel(a, q) + y == Unravel(a, q);
    } else {
      hide Unravel, Prod, Ravel;
      var n, r := b[|b| - 1], y[|y| - 1];
      var b', y' := b[..|b| - 1], y[..|y| - 1];
      InShapeTake(y, b, |b| - 1);
      UnravelConcat(a, b', q, y');
      assert b == b' + [n] && y == y' + [r];
      UnravelMore(a, b', n, q, y', r);
    }
  }

  lemma {:induction false} Ravel3(a: nat, b: nat, c: nat, i: nat, j: nat, k: nat)
    ensures Ravel([a, b, c], [i, j, k]) == (i * b + j) * c + k
  {
    assert [a, b, c] == [a, b] + [c] && [a, b] == [a] + [b] && [a] == [] + [a];
    assert [i, j, k] == [i, j] + [k] && [i, j] == [i] + [j] && [i] == [] + [i];
    RavelLast([a, b], c, [i, j], k);
    RavelLast([a], b, [i], j);
    RavelLast([], a, [], i);
  }

  lemma {:induction false} Unravel3(a: nat, b: nat, c: nat, i: nat, j: nat, k: nat)
    requires i < a && j < b && k < c
    ensures Unravel([a, b, c], (i * b + j) * c + k) == [i, j, k]
  {
    Ravel3(a, b, c, i, j, k);
    RavelBelow([a, b, c], [i, j, k]);
  }

  /** Split the rows of `t` into `[heads, p, q]`, swap the last two, and put the rows back together. */
  function SwapWithin(t: Tensor, heads: nat, p: nat, q: nat): Tensor
    requires t.shape != []
  {
    var split := Reshape(t, [heads, p, q] + t.shape[1..]);
    Reshape(Permute(split, SwapDims(|split.shape|, 1, 2)), t.shape)
  }

  lemma {:induction false} FlatRow(shape: seq<nat>, x: nat, rest: seq<nat>)
    requires shape != [] && |rest| == |shape| - 1
    ensures Ravel(shape, [x] + rest) == x * Prod(shape[1..]) + Ravel(shape[1..], rest)
  {
    assert shape == [shape[0]] + shape[1..];
    RavelConcat([shape[0]], shape[1..], [x], rest);
    assert [shape[0]] == [] + [shape[0]] && [x] == [] + [x];
    RavelLast([], shape[0], [], x);
  }

  lemma {:induction false} RowOfFlat(shape: seq<nat>, x: nat, rest: seq<nat>)
    requires shape != [] && InShape(rest, shape[1..]) && x < shape[0]
    ensures Unravel(shape, x * Prod(shape[1..]) + Ravel(shape[1..], rest)) == [x] + rest
  {
    FlatRow(shape, x, rest);
    assert InShape([x] + rest, shape);
    RavelBelow(shape, [x] + rest);
  }

  lemma {:induction false} FlatToOuter(shape: seq<nat>, outer: seq<nat>, x: nat, rest: seq<nat>)
    requires shape != [] && InShape(rest, shape[1..])
    ensures Unravel(outer + shape[1..], Ravel(shape, [x] + rest)) == Unravel(outer, x) + rest
  {
    FlatRow(shape, x, rest);
    UnravelConcat(outer, shape[1..], x, rest);
  }

  /** Reading row `x` of a tensor reshaped from split rows. */
  lemma {:induction false} FlatToSplit(shape: seq<nat>, a: nat, b: nat, c: nat, i: nat, j: nat, k: nat, rest: seq<nat>, x: nat)
    requires shape != [] && InShape(rest, shape[1..]) && i < a && j < b && k < c && x == (i * b + j) * c + k
    ensures Unravel([a, b, c] + shape[1..], Ravel(shape, [x] + rest)) == [i, j, k] + rest
  {
    FlatToOuter(shape, [a, b, c], x, rest);
    Unravel3(a, b, c, i, j, k);
  }

  /** Reading a split tensor reads the row at that place. */
  lemma {:induction false} SplitToFlat(shape: seq<nat>, a: nat, b: nat, c: nat, i: nat, j: nat, k: nat, rest: seq<nat>)
    requires shape != [] && InShape(rest, shape[1..]) && (i * b + j) * c + k < shape[0]
    ensures Unravel(shape, Ravel([a, b, c] + shape[1..], [i, j, k] + rest)) == [(i * b + j) * c + k] + rest
  {
    RavelConcat([a, b, c], shape[1..], [i, j, k], rest);
    Ravel3(a, b, c, i, j, k);
    RowOfFlat(shape, (i * b + j) * c + k, rest);
  }

  lemma {:induction false} SwappedReads(split: Tensor, h: nat, i: nat, j: nat, rest: seq<nat>)
    requires |split.shape| == 3 + |rest|
    ensures Permute(split, SwapDims(|split.shape|, 1, 2)).at([h, j, i] + rest) == split.at([h, i, j] + rest)
  {
    var dims := SwapDims(|split.shape|, 1, 2);
    SwapDimsPermutes(|split.shape|, 1, 2);
    assert Unpermute(dims, [h, j, i] + rest) == [h, i, j] + rest;
  }

  /** Row `(h, j, i)` of the result is row `(h, i, j)` of the tensor. */
  lemma {:induction false} SwapWithinReads(t: Tensor, heads: nat, p: nat, q: nat, h: nat, i: nat, j: nat, rest: seq<nat>)
    requires t.shape != [] && InShape(rest, t.shape[1..]) && h < heads && i < p && j < q
    requires (h * p + i) * q + j < t.shape[0]
    ensures SwapWithin(t, heads, p, q).at([(h * q + j) * p + i] + rest) == t.at([(h * p + i) * q + j] + rest)
  {
    var split := Reshape(t, [heads, p, q] + t.shape[1..]);
    var swapped := Permute(split, SwapDims(|split.shape|, 1, 2));
    SwappedShape(split, heads, p, q, t.shape[1..]);
    FlatToSplit(t.shape, heads, q, p, h, j, i, rest, (h * q + j) * p + i);
    assert swapped.at([h, j, i] + rest) == split.at([h, i, j] + rest) by { SwappedReads(split, h, i, j, rest); }
    SplitToFlat(t.shape, heads, p, q, h, i, j, rest);
  }

  /** Rows that divide into heads of two equal halves, as attention rows do. */
  predicate EvenHeads(rows: nat, heads: nat, half: nat) {
    heads > 0 && half > 0 && rows == heads * (2 * half)
  }

  lemma {:induction false} RowsTimesTail(shape: seq<nat>)
    requires shape != []
    ensures Prod(shape) == shape[0] * Prod(shape[1..])
  {
    assert shape == [shape[0]] + shape[1..] && [shape[0]] == [] + [shape[0]];
    ProdConcat([shape[0]], shape[1..]);
    ProdLast([], shape[0]);
  }

  lemma {:induction false} SplitTimesTail(a: nat, b: nat, c: nat, tail: seq<nat>)
    ensures Prod([a, b, c] + tail) == ((a * b) * c) * Prod(tail)
  {
    ProdConcat([a, b, c], tail);
    Prod3(a, b, c);
  }

  lemma {:induction false} SameProduct(rows: nat, split: nat, n: nat)
    requires rows * n > 0
    ensures n > 0 && rows > 0
    ensures split * n == rows * n <==> split == rows
  {
    if split * n == rows * n {
      MulCancel(split, rows, n);
    }
  }

  /** A key/value head count is used as the head count, whatever the other one is. */
  lemma {:induction false} CountGiven(t: Tensor, nHead: nat, k: nat)
    requires t.shape != []
    ensures PermuteRows(t, nHead, Some(k)) == PermuteRows(t, k, None)
  {
  }

  /** Torch accepts the reshape of a tensor with elements exactly when its rows divide into heads of two
      equal halves; the heads are those given for keys and values when there are such. */
  lemma {:induction false} AcceptedExactly(t: Tensor, nHead: nat, nHeadKv: Option<nat>, heads: nat)
    requires t.shape != [] && Prod(t.shape) > 0 && heads == (match nHeadKv case None => nHead case Some(k) => k)
    ensures PermuteRows(t, nHead, nHeadKv).Some? <==> (heads > 0 && exists half :: EvenHeads(t.shape[0], heads, half))
    ensures PermuteRows(t, nHead, nHeadKv).Some? <==> (heads > 0 && t.shape[0] % (2 * heads) == 0)
  {
    var rows, tail := t.shape[0], t.shape[1..];
    RowsTimesTail(t.shape);
    SameProduct(rows, 0, Prod(tail));
    if heads > 0 {
      var half := HalfOf(rows, heads);
      SplitTimesTail(heads, 2, half, tail);
      SameProduct(rows, (heads * 2) * half, Prod(tail));
      HalfExactly(rows, heads);
      if h :| EvenHeads(rows, heads, h) { HalfOfEven(rows, heads, h); }
      assert (heads * 2) * half == rows ==> EvenHeads(rows, heads, half);
    }
  }

  // ----- when a pair is accepted

  lemma {:induction false} PositiveFactors(a: nat, b: nat)
    requires a * b > 0
    ensures a > 0 && b > 0
  {
  }

  lemma {:induction false} OnlyOnes(shape: seq<nat>)
    requires Prod(shape) == 1
    ensures forall d :: 0 <= d < |shape| ==> shape[d] == 1
    decreases |shape|
  {
    if shape != [] {
      var n, outer := shape[|shape| - 1], shape[..|shape| - 1];
      PositiveFactors(Prod(outer), n);
      if Prod(outer) > 1 { MulLe(2, Prod(outer), n); }
      OnlyOnes(outer);
      forall d | 0 <= d < |shape| ensures shape[d] == 1 {
        if d < |outer| { assert shape[d] == outer[d]; }
      }
    }
  }

  lemma {:induction false} AllOnesCount(shape: seq<nat>)
    requires AllOnes(shape)
    ensures Prod(shape) == 1
  {
    assert shape == Ones(|shape|);
    OnesCount(|shape|);
  }

  /** A factor has only the elements of its matrix exactly when its leading dimensions are 1. */
  lemma {:induction false} PlainMatrix(lead: seq<nat>, r: nat, n: nat)
    requires Prod(lead + [r] + [n]) > 0
    ensures r > 0 && n > 0 && (Prod(lead + [r] + [n]) == r * n <==> AllOnes(lead))
  {
    ProdLast(lead + [r], n);
    ProdLast(lead, r);
    PositiveFactors(Prod(lead) * r, n);
    PositiveFactors(Prod(lead), r);
    MulAssociative(Prod(lead), r, n);
    if Prod(lead) * (r * n) == r * n { MulCancel(Prod(lead), 1, r * n); }
    if Prod(lead) == 1 { OnlyOnes(lead); }
    if AllOnes(lead) { AllOnesCount(lead); }
  }

  lemma {:induction false} RowsFit(rows: nat, mid: seq<nat>, r: nat, heads: nat)
    requires heads > 0 && Prod([rows] + mid + [r]) > 0
    ensures Prod([heads, 2, HalfOf(rows, heads)] + mid) * r == Prod([rows] + mid + [r]) <==> rows % (2 * heads) == 0
  {
    hide Prod, HalfOf;
    var half := HalfOf(rows, heads);
    ProdLast([rows] + mid, r);
    RowsTimesTail([rows] + mid);
    assert ([rows] + mid)[1..] == mid;
    SplitTimesTail(heads, 2, half, mid);
    HalfExactly(rows, heads);
    PositiveFactors(rows * Prod(mid), r);
    SameProduct(rows, (heads * 2) * half, Prod(mid));
    if ((heads * 2) * half * Prod(mid)) * r == (rows * Prod(mid)) * r { MulCancel((heads * 2) * half * Prod(mid), rows * Prod(mid), r); }
  }

  /** The first reshape of a pair. */
  lemma {:induction false} SplitAccepted(l: Lora, heads: nat)
    requires Constructed(l) && Prod(l.A.shape) > 0 && Prod(l.B.shape) > 0 && heads > 0
    ensures ReshapeTo(l, SplitRows(ShapeOf(l), heads)).Made? <==> AllOnes(Lead(l.A.shape)) && l.B.shape[0] % (2 * heads) == 0
  {
    hide Prod, HalfOf;
    var b, n := l.B.shape, |l.B.shape|;
    var mid := b[1..n - 1];
    var shape := SplitRows(ShapeOf(l), heads);
    ReshapeToAccepted(l, shape);
    assert l.A.shape == Lead(l.A.shape) + [RankOf(l)] + [Last(l.A.shape)];
    PlainMatrix(Lead(l.A.shape), RankOf(l), Last(l.A.shape));
    assert b == [b[0]] + mid + [RankOf(l)];
    assert shape[..|shape| - 1] == [heads, 2, HalfOf(b[0], heads)] + mid;
    RowsFit(b[0], mid, RankOf(l), heads);
  }

  /** What follows an accepted split is accepted. */
  lemma {:induction false} RestAccepted(l: Lora, heads: nat)
    requires Constructed(l) && heads > 0 && ReshapeTo(l, SplitRows(ShapeOf(l), heads)).Made?
    ensures var split := ReshapeTo(l, SplitRows(ShapeOf(l), heads)).l;
            && |split.A.shape| > 2 && TransposeLora(split, 1, 2).Made? && ReshapeTo(TransposeLora(split, 1, 2).l, ShapeOf(l)).Made?
  {
    hide Prod, HalfOf;
    var shape := SplitRows(ShapeOf(l), heads);
    var split := ReshapeTo(l, shape).l;
    var r, n := RankOf(l), Last(l.A.shape);
    var half := HalfOf(ShapeOf(l)[0], heads);
    var tail := split.B.shape[3..];
    SwapDimsPermutes(|shape|, 1, 2);
    PermuteAccepted(split, SwapDims(|shape|, 1, 2));
    var swapped := TransposeLora(split, 1, 2).l;
    MatrixCount(|shape| - 2, r, n);
    assert split.B.shape == [heads, 2, half] + tail;
    SwappedShape(split.B, heads, 2, half, tail);
    SwapKeepsProd(heads, 2, half, tail);
    ReshapeToAccepted(swapped, ShapeOf(l));
    assert ShapeOf(l)[..|ShapeOf(l)| - 1] == l.B.shape[..|l.B.shape| - 1];
    assert l.B.shape == l.B.shape[..|l.B.shape| - 1] + [r];
    ProdLast(l.B.shape[..|l.B.shape| - 1], r);
  }

  /** A pair whose factors have elements is accepted exactly when `A` is a plain matrix and the rows divide
      into heads of two equal halves. */
  lemma {:induction false} PairAcceptedExactly(l: Lora, nHead: nat, nHeadKv: Option<nat>, heads: nat)
    requires Constructed(l) && Prod(l.A.shape) > 0 && Prod(l.B.shape) > 0 && heads == (match nHeadKv case None => nHead case Some(k) => k)
    ensures PermuteRowsLora(l, nHead, nHeadKv).Made? <==>
            heads > 0 && (forall d :: 0 <= d < |l.A.shape| - 2 ==> l.A.shape[d] == 1) && l.B.shape[0] % (2 * heads) == 0
  {
    hide Prod, ReshapeTo, SplitRows, TransposeLora;
    assert AllOnes(Lead(l.A.shape)) <==> forall d :: 0 <= d < |l.A.shape| - 2 ==> l.A.shape[d] == 1 by {
      assert forall d :: 0 <= d < |l.A.shape| - 2 ==> Lead(l.A.shape)[d] == l.A.shape[d];
    }
    if heads > 0 {
      SplitAccepted(l, heads);
      if ReshapeTo(l, SplitRows(ShapeOf(l), heads)).Made? { RestAccepted(l, heads); }
    }
  }

  lemma {:induction false} HalfWhenEven(rows: nat, heads: nat, k: nat)
    requires heads > 0 && rows == k * (2 * heads)
    ensures (heads * 2) * HalfOf(rows, heads) == rows
  {
    assert rows == (2 * k) * heads + 0;
    DivModUnique(2 * k, heads, 0);
  }

  lemma {:induction false} EvenWhenHalf(rows: nat, heads: nat, half: nat)
    requires heads > 0 && (heads * 2) * half == rows
    ensures rows % (2 * heads) == 0
  {
    assert rows == half * (2 * heads) + 0;
    DivModUnique(half, 2 * heads, 0);
  }

  lemma {:induction false} HalfExactly(rows: nat, heads: nat)
    requires heads > 0
    ensures (heads * 2) * HalfOf(rows, heads) == rows <==> rows % (2 * heads) == 0
    ensures (heads * 2) * HalfOf(rows, heads) == heads * (2 * HalfOf(rows, heads))
  {
    hide HalfOf;
    var half := HalfOf(rows, heads);
    if rows % (2 * heads) == 0 {
      var k := rows / (2 * heads);
      assert rows == k * (2 * heads);
      HalfWhenEven(rows, heads, k);
    }
    if (heads * 2) * half == rows { EvenWhenHalf(rows, heads, half); }
  }

  lemma {:induction false} HalfOfEven(rows: nat, heads: nat, half: nat)
    requires EvenHeads(rows, heads, half)
    ensures HalfOf(rows, heads) == half
  {
    assert rows == (2 * half) * heads + 0;
    DivModUnique(2 * half, heads, 0);
  }

  lemma {:induction false} HeadBelow(heads: nat, half: nat, h: nat, d: nat, s: nat)
    requires half > 0 && d < half && s < 2 && (h * half + d) * 2 + s < heads * (2 * half)
    ensures h < heads && (h * 2 + s) * half + d < heads * (2 * half)
  {
    BlockOfParts(half, h, d, s);
    BelowByBlock((h * half + d) * 2 + s, heads, 2 * half);
    BelowByBlock((h * 2 + s) * half + d, heads, 2 * half);
  }

  lemma {:induction false} HeadBelowBack(heads: nat, half: nat, h: nat, d: nat, s: nat)
    requires half > 0 && d < half && s < 2 && (h * 2 + s) * half + d < heads * (2 * half)
    ensures h < heads && (h * half + d) * 2 + s < heads * (2 * half)
  {
    BlockOfParts(half, h, d, s);
    BelowByBlock((h * half + d) * 2 + s, heads, 2 * half);
    BelowByBlock((h * 2 + s) * half + d, heads, 2 * half);
  }

  lemma {:induction false} EvenAccepted(t: Tensor, nHead: nat, nHeadKv: Option<nat>, heads: nat, half: nat)
    requires t.shape != [] && heads == (match nHeadKv case None => nHead case Some(k) => k)
    requires EvenHeads(t.shape[0], heads, half)
    ensures PermuteRows(t, nHead, nHeadKv).Some?
  {
    hide Prod, HalfOf;
    HalfOfEven(t.shape[0], heads, half);
    RowsTimesTail(t.shape);
    SplitTimesTail(heads, 2, half, t.shape[1..]);
    TwoHalves(heads, half);
  }

  lemma {:induction false} TwoHalves(heads: nat, half: nat)
    ensures (heads * 2) * half == heads * (2 * half)
  {
  }

  /** Row `x` of the result is row `SourceRow(x)` of the tensor, element by element. */
  lemma {:induction false} PermuteMovesRows(t: Tensor, nHead: nat, nHeadKv: Option<nat>, heads: nat, half: nat, x: nat, rest: seq<nat>)
    requires t.shape != [] && heads == (match nHeadKv case None => nHead case Some(k) => k)
    requires EvenHeads(t.shape[0], heads, half)
    requires x < t.shape[0] && InShape(rest, t.shape[1..])
    ensures PermuteRows(t, nHead, nHeadKv).Some? && PermuteRows(t, nHead, nHeadKv).value.shape == t.shape
    ensures PermuteRows(t, nHead, nHeadKv).value.at([x] + rest) == t.at([SourceRow(half, x)] + rest)
  {
    EvenAccepted(t, nHead, nHeadKv, heads, half);
    HalfOfEven(t.shape[0], heads, half);
    var h, d, s := SourceParts(half, x);
    HeadBelow(heads, half, h, d, s);
    SwapWithinReads(t, heads, 2, half, h, s, d, rest);
    assert PermuteRows(t, nHead, nHeadKv).value == SwapWithin(t, heads, 2, half);
  }

  /** Splitting the permuted rows as `[heads, half, 2]` and swapping back gives the tensor again. */
  lemma {:induction false} PermuteUndone(t: Tensor, nHead: nat, nHeadKv: Option<nat>, heads: nat, half: nat)
    requires t.shape != [] && heads == (match nHeadKv case None => nHead case Some(k) => k)
    requires EvenHeads(t.shape[0], heads, half)
    ensures PermuteRows(t, nHead, nHeadKv).Some? && PermuteRows(t, nHead, nHeadKv).value.shape == t.shape
    ensures Same(SwapWithin(PermuteRows(t, nHead, nHeadKv).value, heads, half, 2), t)
  {
    EvenAccepted(t, nHead, nHeadKv, heads, half);
    var u := PermuteRows(t, nHead, nHeadKv).value;
    forall idx | InShape(idx, t.shape) ensures SwapWithin(u, heads, half, 2).at(idx) == t.at(idx) {
      var y, rest := idx[0], idx[1..];
      assert idx == [y] + rest && InShape(rest, t.shape[1..]);
      var h, d, s := TargetParts(half, y);
      HeadBelowBack(heads, half, h, d, s);
      SwapWithinReads(u, heads, half, 2, h, d, s, rest);
      SourceOfParts(half, h, d, s);
      PermuteMovesRows(t, nHead, nHeadKv, heads, half, (h * half + d) * 2 + s, rest);
    }
  }
}
