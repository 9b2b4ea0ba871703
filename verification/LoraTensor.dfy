/** Low-rank pairs and the operations that act on their factors: `LoraTorchTensor`. */
module LoraTensor {
  import opened Wrappers
  import opened Tensors

  /** A pair stands for the product of `B` and `A`. */
  datatype Lora = Lora(A: Tensor, B: Tensor)

  /** What the constructor asserts. */
  predicate Constructed(l: Lora) {
    |l.A.shape| == |l.B.shape| >= 2 && l.A.shape[|l.A.shape| - 2] == l.B.shape[|l.B.shape| - 1]
  }

  function Lead(shape: seq<nat>): seq<nat>
    requires |shape| >= 2
  {
    shape[..|shape| - 2]
  }

  function Last(shape: seq<nat>): nat
    requires shape != []
  {
    shape[|shape| - 1]
  }

  function RankOf(l: Lora): nat
    requires Constructed(l)
  {
    Last(l.B.shape)
  }

  /** The shape the class reports. */
  function ShapeOf(l: Lora): seq<nat>
    requires Constructed(l)
  {
    l.B.shape[..|l.B.shape| - 1] + [Last(l.A.shape)]
  }

  // ----- multiplying out, as torch's matmul does it

  predicate Broadcasts(a: nat, b: nat) { a == b || a == 1 || b == 1 }

  predicate Multiplies(l: Lora)
    requires Constructed(l)
  {
    forall d :: 0 <= d < |l.A.shape| - 2 ==> Broadcasts(l.A.shape[d], l.B.shape[d])
  }

  function BroadcastDim(a: nat, b: nat): nat { if a == 1 then b else a }

  /** The index into a factor of an index into the product: dimensions of size 1 are repeated. */
  function Shrink(shape: seq<nat>, idx: seq<nat>): (r: seq<nat>)
    requires |idx| == |shape|
    ensures |r| == |idx|
  {
    seq(|idx|, d requires 0 <= d < |idx| => if shape[d] == 1 then 0 else idx[d])
  }

  function FactorB(l: Lora, lead: seq<nat>, i: nat, k: nat): real
    requires Constructed(l) && |lead| == |l.A.shape| - 2
  {
    l.B.at(Shrink(Lead(l.B.shape), lead) + [i] + [k])
  }

  function FactorA(l: Lora, lead: seq<nat>, k: nat, j: nat): real
    requires Constructed(l) && |lead| == |l.A.shape| - 2
  {
    l.A.at(Shrink(Lead(l.A.shape), lead) + [k] + [j])
  }

  /** One term of the inner product. */
  function Term(l: Lora, lead: seq<nat>, i: nat, j: nat, k: nat): real
    requires Constructed(l) && |lead| == |l.A.shape| - 2
  {
    FactorB(l, lead, i, k) * FactorA(l, lead, k, j)
  }

  ghost function ProductAt(l: Lora, lead: seq<nat>, i: nat, j: nat): real
    requires Constructed(l) && |lead| == |l.A.shape| - 2
  {
    Sum(RankOf(l), (k: nat) => Term(l, lead, i, j, k))
  }

  ghost function Product(l: Lora): Tensor
    requires Constructed(l) && Multiplies(l)
  {
    var n := |l.A.shape|;
    Tensor(seq(n - 2, d requires 0 <= d < n - 2 => BroadcastDim(l.A.shape[d], l.B.shape[d])) + [l.B.shape[n - 2]] + [l.A.shape[n - 1]],
           (idx: seq<nat>) => if |idx| == n then ProductAt(l, idx[..n - 2], idx[n - 2], idx[n - 1]) else 0.0)
  }

  /** `A`'s leading dimensions are each 1 or the same as `B`'s. */
  predicate LeadFits(a: seq<nat>, b: seq<nat>) {
    |a| == |b| && forall d :: 0 <= d < |a| ==> a[d] == 1 || a[d] == b[d]
  }

  predicate Valid(l: Lora) {
    Constructed(l) && LeadFits(Lead(l.A.shape), Lead(l.B.shape))
  }

  /** A pair multiplies out to the shape it reports exactly when `A`'s leading dimensions are 1 or `B`'s. */
  lemma {:induction false} ValidExactly(l: Lora)
    requires Constructed(l)
    ensures Valid(l) <==> Multiplies(l) && Product(l).shape == ShapeOf(l)
  {
    var n := |l.A.shape|;
    if Multiplies(l) {
      var lead := Product(l).shape[..n - 2];
      assert forall d :: 0 <= d < n - 2 ==> lead[d] == BroadcastDim(l.A.shape[d], l.B.shape[d]);
      if Product(l).shape == ShapeOf(l) {
        forall d | 0 <= d < n - 2 ensures Lead(l.A.shape)[d] == 1 || Lead(l.A.shape)[d] == Lead(l.B.shape)[d] {
          assert Product(l).shape[d] == ShapeOf(l)[d] == l.B.shape[d];
        }
      }
      if Valid(l) {
        assert forall d :: 0 <= d < n - 2 ==> Lead(l.A.shape)[d] == l.A.shape[d] && Lead(l.B.shape)[d] == l.B.shape[d];
        assert Product(l).shape == ShapeOf(l);
      }
    }
    if Valid(l) {
      forall d | 0 <= d < n - 2 ensures Broadcasts(l.A.shape[d], l.B.shape[d]) {
        assert Lead(l.A.shape)[d] == 1 || Lead(l.A.shape)[d] == Lead(l.B.shape)[d];
      }
    }
  }

  lemma {:induction false} ShrinkInside(shape: seq<nat>, idx: seq<nat>)
    requires InShape(idx, shape)
    ensures Shrink(shape, idx) == idx
  {
  }

  /** Two pairs whose terms agree multiply out to the same element. */
  lemma {:induction false} ProductAtSame(l: Lora, m: Lora, lead: seq<nat>, i: nat, j: nat, lead': seq<nat>, i': nat, j': nat)
    requires Constructed(l) && |lead| == |l.A.shape| - 2
    requires Constructed(m) && |lead'| == |m.A.shape| - 2 && RankOf(l) == RankOf(m)
    requires forall k: nat :: k < RankOf(l) ==> Term(l, lead, i, j, k) == Term(m, lead', i', j', k)
    ensures ProductAt(l, lead, i, j) == ProductAt(m, lead', i', j')
  {
    SumSame(RankOf(l), (k: nat) => Term(l, lead, i, j, k), (k: nat) => Term(m, lead', i', j', k));
  }

  // ----- results of operations

  /** A new pair, or the exception raised. */
  datatype Result = Made(l: Lora) | NotImplemented | AssertionFailed | TorchError

  function Make(a: Tensor, b: Tensor): Result {
    if Constructed(Lora(a, b)) then Made(Lora(a, b)) else AssertionFailed
  }

  // ----- reshape

  function Ones(n: nat): (r: seq<nat>)
    ensures |r| == n && forall d :: 0 <= d < n ==> r[d] == 1
  {
    seq(n, _ => 1)
  }

  function ProdInt(shape: seq<int>): int {
    if shape == [] then 1 else ProdInt(shape[..|shape| - 1]) * (if shape[|shape| - 1] == -1 then 1 else shape[|shape| - 1])
  }

  /** The shape with every -1 replaced; none when the element counts do not divide or a size is negative. */
  function ExpandShape(orig: seq<nat>, shape: seq<int>): Option<seq<nat>> {
    var rest := ProdInt(shape);
    if -1 in shape && (rest == 0 || Prod(orig) % rest != 0) then None
    else
      var fill := if -1 in shape then Prod(orig) / rest else 0;
      var filled := seq(|shape|, d requires 0 <= d < |shape| => if shape[d] == -1 then fill else shape[d]);
      if forall d :: 0 <= d < |filled| ==> filled[d] >= 0 then
        Some(seq(|filled|, d requires 0 <= d < |filled| && filled[d] >= 0 => filled[d] as nat))
      else None
  }

  /** `reshape` once -1 is expanded. */
  function ReshapeTo(l: Lora, shape: seq<nat>): Result
    requires Constructed(l)
  {
    var r := RankOf(l);
    var n := Last(ShapeOf(l));
    if |shape| < 2 || Last(shape) != n then NotImplemented
    else
      var shapeA := Ones(|shape| - 2) + [r] + [n];
      var shapeB := shape[..|shape| - 1] + [r];
      if Prod(shapeA) != Prod(l.A.shape) || Prod(shapeB) != Prod(l.B.shape) then TorchError
      else Make(Reshape(l.A, shapeA), Reshape(l.B, shapeB))
  }

  function ReshapeLora(l: Lora, shape: seq<int>): Result
    requires Constructed(l)
  {
    if |shape| < 2 then NotImplemented
    else match ExpandShape(ShapeOf(l), shape)
      case None => AssertionFailed
      case Some(s) => ReshapeTo(l, s)
  }

  // ----- permute and transpose

  predicate AllOnes(shape: seq<nat>) { forall d :: 0 <= d < |shape| ==> shape[d] == 1 }

  function PermuteLora(l: Lora, dims: seq<nat>): Result
    requires Constructed(l) && |dims| == |l.A.shape| && forall k :: 0 <= k < |dims| ==> dims[k] < |dims|
  {
    var n := |dims|;
    if dims[n - 1] == n - 1 then
      if AllOnes(Lead(l.A.shape)) then Make(l.A, Permute(l.B, dims)) else AssertionFailed
    else if n == 2 && dims[1] == 0 && dims[0] == 1 then
      Make(Permute(l.B, dims), Permute(l.A, dims))
    else NotImplemented
  }

  function TransposeLora(l: Lora, dim0: nat, dim1: nat): Result
    requires Constructed(l) && dim0 < |l.A.shape| && dim1 < |l.A.shape|
  {
    PermuteLora(l, SwapDims(|l.A.shape|, dim0, dim1))
  }

  // ----- stack and cat

  function FactorsA(ls: seq<Lora>): (r: seq<Tensor>)
    ensures |r| == |ls| && forall i :: 0 <= i < |ls| ==> r[i] == ls[i].A
  {
    seq(|ls|, i requires 0 <= i < |ls| => ls[i].A)
  }

  function FactorsB(ls: seq<Lora>): (r: seq<Tensor>)
    ensures |r| == |ls| && forall i :: 0 <= i < |ls| ==> r[i] == ls[i].B
  {
    seq(|ls|, i requires 0 <= i < |ls| => ls[i].B)
  }

  predicate SameShapes(ts: seq<Tensor>) {
    forall i :: 0 <= i < |ts| ==> ts[i].shape == ts[0].shape
  }

  predicate SameRowShapes(ts: seq<Tensor>) {
    forall i :: 0 <= i < |ts| ==> ts[i].shape != [] && ts[0].shape != [] && ts[i].shape[1..] == ts[0].shape[1..]
  }

  function StackLora(ls: seq<Lora>): Result {
    if ls == [] || !SameShapes(FactorsA(ls)) || !SameShapes(FactorsB(ls)) then TorchError
    else Make(Stack(FactorsA(ls)), Stack(FactorsB(ls)))
  }

  predicate AllConstructed(ls: seq<Lora>) {
    forall i :: 0 <= i < |ls| ==> Constructed(ls[i])
  }

  /** `cat` along dimension 0; the two-dimensional case compares the `A` factors element by element. */
  ghost function CatLora(ls: seq<Lora>): Result
    requires AllConstructed(ls)
  {
    if ls == [] then TorchError
    else if |ls[0].B.shape| > 2 then
      (if !SameRowShapes(FactorsA(ls)) || !SameRowShapes(FactorsB(ls)) then TorchError
       else Make(Cat(FactorsA(ls)), Cat(FactorsB(ls))))
    else if forall i :: 0 <= i < |ls| ==> Same(ls[0].A, ls[i].A) then
      (if !SameRowShapes(FactorsB(ls)) then TorchError else Make(ls[0].A, Cat(FactorsB(ls))))
    else NotImplemented
  }

  // ----- indexing

  /** `l[i]` for an integer. */
  function GetInt(l: Lora, i: int): Result
    requires Constructed(l)
  {
    if |l.B.shape| <= 2 then NotImplemented
    else if IndexOk(At(i), l.A.shape[0]) && IndexOk(At(i), l.B.shape[0]) then
      Make(GetItem(l.A, [At(i)]), GetItem(l.B, [At(i)]))
    else TorchError
  }

  /** `l[s]` for a slice. */
  function GetSlice(l: Lora, s: Slice): Result
    requires Constructed(l)
  {
    if s.step == 0 then TorchError
    else if |l.B.shape| > 2 then Make(GetItem(l.A, [Range(s)]), GetItem(l.B, [Range(s)]))
    else Make(l.A, GetItem(l.B, [Range(s)]))
  }

  /** The index a leading position of a tuple gives the `A` factor: integers modulo its size, all of it for slices. */
  function LeadIndexA(ix: Index, size: nat): Index {
    match ix
    case At(i) => At(if size == 0 then 0 else i % size)
    case Range(_) => Range(FULL)
  }

  function LeadIndicesA(ixs: seq<Index>, shape: seq<nat>): (r: seq<Index>)
    requires |ixs| <= |shape|
    ensures |r| == |ixs|
  {
    seq(|ixs|, d requires 0 <= d < |ixs| => LeadIndexA(ixs[d], shape[d]))
  }

  function PadIndices(ixs: seq<Index>, n: nat): (r: seq<Index>)
    ensures |r| >= |ixs| && |r| >= n
  {
    if |ixs| >= n then ixs else ixs + seq(n - |ixs|, _ => Range(FULL))
  }

  /** `l[ixs]` for a tuple without an ellipsis. */
  function GetTuple(l: Lora, ixs: seq<Index>): Result
    requires Constructed(l)
  {
    var n := |l.B.shape|;
    var full := PadIndices(ixs, n);
    if ixs == [] then AssertionFailed
    else if |full| != n then TorchError
    else
      var ixsA := LeadIndicesA(full[..n - 2], l.A.shape) + [Range(FULL)] + [full[n - 1]];
      var ixsB := full[..n - 1];
      if IndicesOk(ixsA, l.A.shape) && IndicesOk(ixsB, l.B.shape) && !(exists d :: 0 <= d < n - 2 && full[d].At? && l.A.shape[d] == 0) then
        Make(GetItem(l.A, ixsA), GetItem(l.B, ixsB))
      else TorchError
  }

  // ----- the ellipsis

  datatype Item = Plain(ix: Index) | Dots

  function FullSlices(n: nat): (r: seq<Index>)
    ensures |r| == n && forall d :: 0 <= d < n ==> r[d] == Range(FULL)
  {
    seq(n, _ => Range(FULL))
  }

  /** Every ellipsis becomes one full slice less than there are items, whatever the tensor's rank. */
  function ExpandDots(items: seq<Item>, each: nat): seq<Index> {
    if items == [] then []
    else (if items[0].Dots? then FullSlices(each) else [items[0].ix]) + ExpandDots(items[1..], each)
  }

  /** `l[items]`: a trailing ellipsis is dropped first. */
  function GetItems(l: Lora, items: seq<Item>): Result
    requires Constructed(l)
    decreases |items|
  {
    if items == [] then AssertionFailed
    else if items[|items| - 1].Dots? then GetItems(l, items[..|items| - 1])
    else GetTuple(l, ExpandDots(items, |items| - 1))
  }
}
