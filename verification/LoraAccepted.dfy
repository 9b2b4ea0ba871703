/** Exactly which operations on pairs are accepted, over the shapes of the factors. */
module LoraAccepted {
  import opened Wrappers
  import opened Tensors
  import opened LoraTensor
  import opened LoraIndexing

  // ----- stack and cat

  /** Pairs stack exactly when there are some, all `A` have one shape and all `B` have one shape. */
  lemma {:induction false} StackAccepted(ls: seq<Lora>)
    requires AllConstructed(ls)
    ensures StackLora(ls).Made? <==>
            ls != [] && forall i :: 0 <= i < |ls| ==> ls[i].A.shape == ls[0].A.shape && ls[i].B.shape == ls[0].B.shape
    ensures !StackLora(ls).Made? ==> StackLora(ls) == TorchError
  {
    if ls != [] {
      var fa, fb := FactorsA(ls), FactorsB(ls);
      assert fa[0] == ls[0].A && fb[0] == ls[0].B;
      if SameShapes(fa) && SameShapes(fb) {
        assert forall i :: 0 <= i < |ls| ==> fa[i].shape == fa[0].shape && fb[i].shape == fb[0].shape;
      }
    }
  }

  /** Pairs of two dimensions concatenate exactly when all have the same `A`. */
  lemma {:induction false} CatFlatAccepted(ls: seq<Lora>)
    requires AllConstructed(ls) && ls != [] && |ls[0].B.shape| == 2
    ensures CatLora(ls).Made? <==> forall i :: 0 <= i < |ls| ==> Same(ls[i].A, ls[0].A)
    ensures !CatLora(ls).Made? ==> CatLora(ls) == NotImplemented
  {
    if forall i :: 0 <= i < |ls| ==> Same(ls[0].A, ls[i].A) {
      var fb := FactorsB(ls);
      forall i | 0 <= i < |ls| ensures fb[i].shape[1..] == fb[0].shape[1..] && Same(ls[i].A, ls[0].A) {
        assert Same(ls[0].A, ls[i].A);
        assert ls[i].B.shape[1..] == [ls[i].B.shape[1]] && ls[0].B.shape[1..] == [ls[0].B.shape[1]];
      }
      assert SameRowShapes(fb);
    } else {
      var i :| 0 <= i < |ls| && !Same(ls[0].A, ls[i].A);
      assert !Same(ls[i].A, ls[0].A);
    }
  }

  /** Pairs of more dimensions concatenate exactly when their factors agree behind the first dimension. */
  lemma {:induction false} CatDeepAccepted(ls: seq<Lora>)
    requires AllConstructed(ls) && ls != [] && |ls[0].B.shape| > 2
    ensures CatLora(ls).Made? <==>
            forall i :: 0 <= i < |ls| ==> ls[i].A.shape[1..] == ls[0].A.shape[1..] && ls[i].B.shape[1..] == ls[0].B.shape[1..]
    ensures !CatLora(ls).Made? ==> CatLora(ls) == TorchError
  {
    var fa, fb := FactorsA(ls), FactorsB(ls);
    if SameRowShapes(fa) && SameRowShapes(fb) {
      assert forall i :: 0 <= i < |ls| ==> fa[i].shape[1..] == fa[0].shape[1..] && fb[i].shape[1..] == fb[0].shape[1..];
      var a, b := Cat(fa).shape, Cat(fb).shape;
      assert a[1..] == ls[0].A.shape[1..] && b[1..] == ls[0].B.shape[1..];
      CatConstructed(ls[0], a, b);
    }
  }

  lemma {:induction false} CatConstructed(l: Lora, a: seq<nat>, b: seq<nat>)
    requires Constructed(l) && |l.B.shape| > 2 && a != [] && b != [] && a[1..] == l.A.shape[1..] && b[1..] == l.B.shape[1..]
    ensures |a| == |b| >= 2 && a[|a| - 2] == b[|b| - 1]
  {
    assert a[|a| - 2] == a[1..][|a| - 3] && b[|b| - 1] == b[1..][|b| - 2];
  }

  // ----- reshape

  /** The product of the sizes that are given. */
  function Given(shape: seq<int>): int {
    if shape == [] then 1 else (if shape[0] == -1 then 1 else shape[0]) * Given(shape[1..])
  }

  /** `s` is `shape` with every -1 replaced by what the given sizes leave of `count` elements. */
  predicate Expands(shape: seq<int>, count: nat, s: seq<nat>) {
    && |s| == |shape|
    && (-1 in shape ==> Given(shape) != 0)
    && forall d :: 0 <= d < |shape| ==> if shape[d] == -1 then s[d] * Given(shape) == count else s[d] == shape[d]
  }

  lemma {:induction false} GivenLast(shape: seq<int>, n: int)
    ensures Given(shape + [n]) == Given(shape) * (if n == -1 then 1 else n)
  {
    if shape == [] {
      assert [n][1..] == [];
    } else {
      assert (shape + [n])[0] == shape[0] && (shape + [n])[1..] == shape[1..] + [n];
      GivenLast(shape[1..], n);
      Associates(if shape[0] == -1 then 1 else shape[0], Given(shape[1..]), if n == -1 then 1 else n);
    }
  }

  lemma {:induction false} Associates(a: int, b: int, c: int)
    ensures a * (b * c) == (a * b) * c
  {
  }

  lemma {:induction false} GivenIs(shape: seq<int>)
    ensures ProdInt(shape) == Given(shape)
    decreases |shape|
  {
    if shape != [] {
      var n := shape[|shape| - 1];
      GivenIs(shape[..|shape| - 1]);
      GivenLast(shape[..|shape| - 1], n);
      assert shape == shape[..|shape| - 1] + [n];
    }
  }

  lemma {:induction false} Divides(count: nat, rest: int, f: int)
    requires rest != 0
    ensures f * rest == count <==> count % rest == 0 && f == count / rest
  {
    if f * rest == count { OneQuotient(count, rest, f); }
  }

  lemma {:induction false} OneQuotient(count: nat, rest: int, f: int)
    requires rest != 0 && f * rest == count
    ensures count % rest == 0 && f == count / rest
  {
    var q, r := count / rest, count % rest;
    assert count == rest * q + r;
    assert (f - q) * rest == r;
    NotSmall(f - q, rest);
  }

  lemma {:induction false} NotSmall(x: int, rest: int)
    requires rest != 0
    ensures x == 0 || x * rest >= (if rest > 0 then rest else -rest) || x * rest < 0
  {
    var n := if rest > 0 then rest else -rest;
    if x >= 1 { AtLeast(x, n); }
    if x <= -1 { AtLeast(-x, n); }
  }

  lemma {:induction false} AtLeast(x: int, n: int)
    requires x >= 1 && n > 0
    ensures x * n >= n
  {
  }

  /** What stands for the size `n`. */
  function Fill(n: int, fill: int): int { if n == -1 then fill else n }

  lemma {:induction false} ExpandedIs(orig: seq<nat>, shape: seq<int>, fill: int, s: seq<nat>)
    requires -1 in shape ==> ProdInt(shape) != 0 && Prod(orig) % ProdInt(shape) == 0 && fill == Prod(orig) / ProdInt(shape)
    ensures ExpandShape(orig, shape) == Some(s) <==> |s| == |shape| && forall d :: 0 <= d < |shape| ==> s[d] == Fill(shape[d], fill)
  {
    hide ProdInt, Prod;
    if |s| == |shape| && forall d :: 0 <= d < |shape| ==> s[d] == Fill(shape[d], fill) {
      assert ExpandShape(orig, shape).Some?;
      assert ExpandShape(orig, shape).value == s;
    }
  }

  /** Expanding -1 gives the one shape that keeps the number of elements, when there is one. */
  lemma {:induction false} ExpandsExactly(orig: seq<nat>, shape: seq<int>, s: seq<nat>)
    ensures ExpandShape(orig, shape) == Some(s) <==> Expands(shape, Prod(orig), s)
  {
    hide ProdInt, Prod, Given;
    var rest, count := Given(shape), Prod(orig);
    GivenIs(shape);
    if -1 !in shape {
      ExpandedIs(orig, shape, 0, s);
    } else if rest != 0 && count % rest == 0 {
      ExpandedIs(orig, shape, count / rest, s);
      forall d | 0 <= d < |s| && d < |shape| && shape[d] == -1 ensures s[d] * rest == count <==> s[d] == count / rest {
        Divides(count, rest, s[d]);
      }
    } else if rest != 0 && Expands(shape, count, s) {
      var d :| 0 <= d < |shape| && shape[d] == -1;
      Divides(count, rest, s[d]);
    }
  }

  /** A reshape is accepted exactly when it keeps the rows of `A`, asks nothing of its leading dimensions, and
      the rows of `B` fit the new ones. */
  lemma {:induction false} ReshapeToAccepted(l: Lora, s: seq<nat>)
    requires Constructed(l)
    ensures var r, n := RankOf(l), Last(l.A.shape);
            ReshapeTo(l, s).Made? <==>
            |s| >= 2 && Last(s) == n && Prod(l.A.shape) == r * n && Prod(s[..|s| - 1]) * r == Prod(l.B.shape)
  {
    if |s| >= 2 && Last(s) == Last(l.A.shape) {
      var r, n := RankOf(l), Last(l.A.shape);
      MatrixCount(|s| - 2, r, n);
      ProdLast(s[..|s| - 1], r);
    }
  }

  lemma {:induction false} MatrixCount(m: nat, r: nat, n: nat)
    ensures Prod(Ones(m) + [r] + [n]) == r * n
  {
    ProdLast(Ones(m) + [r], n);
    ProdLast(Ones(m), r);
    OnesCount(m);
  }

  lemma {:induction false} OnesCount(m: nat)
    ensures Prod(Ones(m)) == 1
  {
    if m > 0 {
      OnesCount(m - 1);
      assert Ones(m) == Ones(m - 1) + [1];
      ProdLast(Ones(m - 1), 1);
    }
  }

  lemma {:induction false} ReshapeAccepted(l: Lora, shape: seq<int>)
    requires Constructed(l)
    ensures var r, n := RankOf(l), Last(l.A.shape);
            ReshapeLora(l, shape).Made? <==>
            exists s :: Expands(shape, Prod(ShapeOf(l)), s) && |s| >= 2 && Last(s) == n && Prod(l.A.shape) == r * n && Prod(s[..|s| - 1]) * r == Prod(l.B.shape)
  {
    hide Expands, ExpandShape, ReshapeTo, Prod, ShapeOf, Last, RankOf;
    var e := ExpandShape(ShapeOf(l), shape);
    if e.Some? {
      ExpandsExactly(ShapeOf(l), shape, e.value);
      ReshapeToAccepted(l, e.value);
      ExpandedSize(ShapeOf(l), shape);
    }
    forall s | Expands(shape, Prod(ShapeOf(l)), s) ensures e == Some(s) {
      ExpandsExactly(ShapeOf(l), shape, s);
    }
  }

  /** Which exception a refused reshape raises. */
  lemma {:induction false} ReshapeRefused(l: Lora, shape: seq<int>, s: seq<nat>)
    requires Constructed(l) && !ReshapeLora(l, shape).Made?
    ensures |shape| < 2 ==> ReshapeLora(l, shape) == NotImplemented
    ensures ReshapeLora(l, shape) == AssertionFailed ==> !Expands(shape, Prod(ShapeOf(l)), s)
    ensures |shape| >= 2 && Expands(shape, Prod(ShapeOf(l)), s) ==> ReshapeLora(l, shape) == if Last(s) != Last(l.A.shape) then NotImplemented else TorchError
  {
    hide Expands, ExpandShape, Prod;
    ExpandsExactly(ShapeOf(l), shape, s);
    var e := ExpandShape(ShapeOf(l), shape);
    if |shape| >= 2 && e.Some? {
      ExpandedSize(ShapeOf(l), shape);
      ReshapeToAccepted(l, e.value);
      RefusedByTorch(l, e.value);
    }
  }

  lemma {:induction false} RefusedByTorch(l: Lora, s: seq<nat>)
    requires Constructed(l) && |s| >= 2 && !ReshapeTo(l, s).Made?
    ensures ReshapeTo(l, s) == if Last(s) != Last(l.A.shape) then NotImplemented else TorchError
  {
    hide Prod;
  }

  lemma {:induction false} ExpandedSize(orig: seq<nat>, shape: seq<int>)
    requires ExpandShape(orig, shape).Some?
    ensures |ExpandShape(orig, shape).value| == |shape|
  {
  }

  // ----- permute

  /** A permutation is accepted exactly when it leaves the last dimension in place and `A` is a plain matrix, or
      exchanges the two dimensions of a matrix. */
  lemma {:induction false} PermuteAccepted(l: Lora, dims: seq<nat>)
    requires Constructed(l) && IsPermutation(dims, |l.A.shape|)
    ensures var n := |dims|;
            PermuteLora(l, dims).Made? <==>
            (dims[n - 1] == n - 1 && forall d :: 0 <= d < n - 2 ==> l.A.shape[d] == 1) || (n == 2 && dims == [1, 0])
    ensures PermuteLora(l, dims) == AssertionFailed <==> dims[|dims| - 1] == |dims| - 1 && exists d :: 0 <= d < |dims| - 2 && l.A.shape[d] != 1
  {
    var n := |dims|;
    assert forall d :: 0 <= d < n - 2 ==> Lead(l.A.shape)[d] == l.A.shape[d];
    if exists d :: 0 <= d < n - 2 && l.A.shape[d] != 1 {
      var d :| 0 <= d < n - 2 && l.A.shape[d] != 1;
      assert Lead(l.A.shape)[d] != 1;
    }
    assert Permute(l.B, dims).shape[n - 1] == l.B.shape[dims[n - 1]];
    assert n == 2 && dims[1] == 0 && dims[0] == 1 ==> dims == [1, 0];
  }

  // ----- one index

  /** An integer index is accepted exactly when there are more than two dimensions and it is in both first ones. */
  lemma {:induction false} IntAccepted(l: Lora, i: int)
    requires Constructed(l)
    ensures GetInt(l, i).Made? <==>
            |l.A.shape| > 2 && 0 <= i + l.A.shape[0] && i < l.A.shape[0] && 0 <= i + l.B.shape[0] && i < l.B.shape[0]
    ensures |l.A.shape| <= 2 ==> GetInt(l, i) == NotImplemented
  {
    if GetInt(l, i) != TorchError && |l.A.shape| > 2 {
      OneIndexShape(At(i), l.A.shape);
      OneIndexShape(At(i), l.B.shape);
    }
  }

  /** A slice is accepted whenever its step is positive. */
  lemma {:induction false} SliceAccepted(l: Lora, s: Slice)
    requires Constructed(l)
    ensures GetSlice(l, s).Made? <==> s.step > 0
  {
    if s.step > 0 {
      hide SliceLen;
      FirstIndexed(Range(s), [], l.B.shape[0], l.B.shape[1..]);
      FirstIndexed(Range(s), [], l.A.shape[0], l.A.shape[1..]);
      assert [Range(s)] + [] == [Range(s)];
      assert [l.A.shape[0]] + l.A.shape[1..] == l.A.shape && [l.B.shape[0]] + l.B.shape[1..] == l.B.shape;
    }
  }

  // ----- tuples

  predicate InRange(ix: Index, n: nat) {
    match ix
    case At(i) => 0 <= i + n && i < n
    case Range(s) => s.step > 0
  }

  /** Each index fits its dimension: the rows' in `B`, the columns' in `A`; an integer before them also needs
      an `A` that is not empty there. */
  predicate TupleFits(l: Lora, full: seq<Index>)
    requires Constructed(l) && |full| == |l.A.shape|
  {
    && (forall d :: 0 <= d < |full| - 1 ==> InRange(full[d], l.B.shape[d]))
    && InRange(full[|full| - 1], Last(l.A.shape))
    && forall d :: 0 <= d < |full| - 2 ==> full[d].At? ==> l.A.shape[d] > 0
  }

  /** The last leading dimension that is kept has the size `size`. */
  predicate LastKept(lead: seq<Index>, shape: seq<nat>, size: nat)
    requires |lead| == |shape|
  {
    exists d :: 0 <= d < |lead| && KeptLastAt(lead, shape, size, d)
  }

  predicate KeptLastAt(lead: seq<Index>, shape: seq<nat>, size: nat, d: nat)
    requires |lead| == |shape| && d < |lead|
  {
    lead[d].Range? && shape[d] == size && forall e :: d < e < |lead| ==> lead[e].At?
  }

  lemma {:induction false} WholeLead(lead: seq<Index>, shape: seq<nat>, size: nat)
    requires |lead| == |shape|
    ensures var a := IndexedShape(LeadIndicesA(lead, shape), shape);
            |a| == Kept(lead) && (LastKept(lead, shape, size) <==> a != [] && Last(a) == size)
    decreases |lead|
  {
    var ixs := LeadIndicesA(lead, shape);
    if lead != [] {
      var front, last := lead[..|lead| - 1], lead[|lead| - 1];
      var outer, n := shape[..|shape| - 1], shape[|shape| - 1];
      WholeLead(front, outer, size);
      LastKeptLast(lead, shape, size);
      assert ixs == LeadIndicesA(front, outer) + [LeadIndexA(last, n)] && shape == outer + [n] && lead == front + [last];
      hide LastKept, LeadIndicesA;
      ShapeConcat(LeadIndicesA(front, outer), [LeadIndexA(last, n)], outer, [n]);
      OneOfA(last, n);
      KeptLast(front, last);
    }
  }

  lemma {:induction false} OneOfA(ix: Index, n: nat)
    ensures IndexedShape([LeadIndexA(ix, n)], [n]) == if ix.Range? then [n] else []
  {
    FullLen(n);
    assert [LeadIndexA(ix, n)][1..] == [] && [n][1..] == [];
  }

  lemma {:induction false} KeptLast(front: seq<Index>, last: Index)
    ensures Kept(front + [last]) == Kept(front) + if last.Range? then 1 else 0
  {
    if front == [] {
      assert [last][1..] == [];
    } else {
      assert (front + [last])[0] == front[0] && (front + [last])[1..] == front[1..] + [last];
      KeptLast(front[1..], last);
    }
  }

  lemma {:induction false} LastKeptLast(lead: seq<Index>, shape: seq<nat>, size: nat)
    requires |lead| == |shape| > 0
    ensures var n := |lead|;
            LastKept(lead, shape, size) <==>
            if lead[n - 1].Range? then shape[n - 1] == size else LastKept(lead[..n - 1], shape[..n - 1], size)
  {
    var n := |lead|;
    var front, outer := lead[..n - 1], shape[..n - 1];
    assert lead[n - 1].Range? ==> (KeptLastAt(lead, shape, size, n - 1) <==> shape[n - 1] == size);
    forall d: nat | d < n - 1
      ensures KeptLastAt(lead, shape, size, d) <==> lead[n - 1].At? && KeptLastAt(front, outer, size, d)
    {
      KeptBefore(lead, shape, size, d);
    }
    hide KeptLastAt;
  }

  lemma {:induction false} KeptBefore(lead: seq<Index>, shape: seq<nat>, size: nat, d: nat)
    requires |lead| == |shape| && d < |lead| - 1
    ensures var n := |lead|;
            KeptLastAt(lead, shape, size, d) <==> lead[n - 1].At? && KeptLastAt(lead[..n - 1], shape[..n - 1], size, d)
  {
    var front := lead[..|lead| - 1];
    assert forall e :: d < e < |front| ==> front[e] == lead[e];
  }

  /** The indices a tuple comes to for the two factors. */
  lemma {:induction false} TupleParts(l: Lora, full: seq<Index>) returns (a: seq<Index>, b: seq<Index>)
    requires Constructed(l) && |full| == |l.A.shape|
    ensures var n := |full|; var lead := full[..n - 2];
            && a == LeadIndicesA(lead, Lead(l.A.shape)) + [Range(FULL), full[n - 1]] && b == lead + [full[n - 2]]
            && |a| == n && |b| == n - 1
    ensures GetTuple(l, full) ==
            if IndicesOk(a, l.A.shape) && IndicesOk(b, l.B.shape) && !(exists d :: 0 <= d < |full| - 2 && full[d].At? && l.A.shape[d] == 0)
            then Make(GetItem(l.A, a), GetItem(l.B, b)) else TorchError
  {
    var n := |full|;
    var lead := full[..n - 2];
    assert PadIndices(full, n) == full;
    SplitFull(full);
    assert LeadIndicesA(lead, l.A.shape) == LeadIndicesA(lead, Lead(l.A.shape));
    var ixs := LeadIndicesA(lead, Lead(l.A.shape));
    a, b := ixs + [Range(FULL), full[n - 1]], full[..n - 1];
    assert ixs + [Range(FULL)] + [full[n - 1]] == a;
  }

  lemma {:induction false} TupleOkExactly(l: Lora, full: seq<Index>, a: seq<Index>, b: seq<Index>)
    requires Constructed(l) && |full| == |l.A.shape|
    requires var n := |full|; a == LeadIndicesA(full[..n - 2], Lead(l.A.shape)) + [Range(FULL), full[n - 1]] && b == full[..n - 2] + [full[n - 2]]
    ensures IndicesOk(a, l.A.shape) && IndicesOk(b, l.B.shape) && !(exists d :: 0 <= d < |full| - 2 && full[d].At? && l.A.shape[d] == 0) <==>
            TupleFits(l, full)
  {
    var n := |full|;
    assert forall d :: 0 <= d < n - 1 ==> b[d] == full[d];
    assert forall d :: 0 <= d < n - 2 ==> a[d] == LeadIndexA(full[d], l.A.shape[d]);
    assert a[n - 2] == Range(FULL) && a[n - 1] == full[n - 1];
    if TupleFits(l, full) {
      forall d | 0 <= d < n ensures IndexOk(a[d], l.A.shape[d]) { }
    } else if IndicesOk(a, l.A.shape) && IndicesOk(b, l.B.shape) {
      assert IndexOk(a[n - 1], l.A.shape[n - 1]);
      assert forall d :: 0 <= d < n - 1 ==> IndexOk(b[d], l.B.shape[d]) == InRange(full[d], l.B.shape[d]);
    }
  }

  lemma {:induction false} FirstIndexed(ix: Index, rest: seq<Index>, n: nat, more: seq<nat>)
    requires |rest| <= |more|
    ensures IndexedShape([ix] + rest, [n] + more) == (if ix.Range? then [SliceLen(ix.s, n)] else []) + IndexedShape(rest, more)
  {
    assert ([ix] + rest)[1..] == rest && ([n] + more)[1..] == more;
  }

  lemma {:induction false} ColumnShape(lead: seq<Index>, outer: seq<nat>, col: Index, r: nat, n: nat)
    requires |lead| == |outer|
    ensures IndexedShape(lead + [Range(FULL), col], outer + [r, n]) ==
            IndexedShape(lead, outer) + [r] + (if col.Range? then [SliceLen(col.s, n)] else [])
  {
    ShapeConcat(lead, [Range(FULL), col], outer, [r, n]);
    assert [Range(FULL), col] == [Range(FULL)] + [col] && [r, n] == [r] + [n] && [col] == [col] + [] && [n] == [n] + [];
    FirstIndexed(Range(FULL), [col], r, [n]);
    FirstIndexed(col, [], n, []);
    FullLen(r);
  }

  lemma {:induction false} RowShape(lead: seq<Index>, outer: seq<nat>, row: Index, m: nat, r: nat)
    requires |lead| == |outer|
    ensures IndexedShape(lead + [row], outer + [m, r]) ==
            IndexedShape(lead, outer) + (if row.Range? then [SliceLen(row.s, m)] else []) + [r]
    ensures |IndexedShape(lead, outer)| == Kept(lead)
  {
    ShapeConcat(lead, [row], outer, [m, r]);
    assert [row] == [row] + [] && [m, r] == [m] + [r];
    FirstIndexed(row, [], m, [r]);
  }

  lemma {:induction false} LastOf(l: Lora, full: seq<Index>, a: seq<Index>, b: seq<Index>)
    requires Constructed(l) && |full| == |l.A.shape|
    requires var n := |full|; a == LeadIndicesA(full[..n - 2], Lead(l.A.shape)) + [Range(FULL), full[n - 1]] && b == full[..n - 2] + [full[n - 2]]
    ensures |a| == |full| && |b| <= |full|
    ensures var n := |full|; var lead := full[..n - 2]; var x := IndexedShape(LeadIndicesA(lead, Lead(l.A.shape)), Lead(l.A.shape));
            && IndexedShape(a, l.A.shape) == x + [RankOf(l)] + (if full[n - 1].Range? then [SliceLen(full[n - 1].s, Last(l.A.shape))] else [])
    ensures var n := |full|; var lead := full[..n - 2]; var y := IndexedShape(lead, Lead(l.B.shape));
            && IndexedShape(b, l.B.shape) == y + (if full[n - 2].Range? then [SliceLen(full[n - 2].s, l.B.shape[n - 2])] else []) + [RankOf(l)]
            && |y| == Kept(lead)
  {
    hide IndexedShape, SliceLen;
    var n := |full|;
    var lead := full[..n - 2];
    assert l.A.shape == Lead(l.A.shape) + [RankOf(l), Last(l.A.shape)];
    assert l.B.shape == Lead(l.B.shape) + [l.B.shape[n - 2], RankOf(l)];
    ColumnShape(LeadIndicesA(lead, Lead(l.A.shape)), Lead(l.A.shape), full[n - 1], RankOf(l), Last(l.A.shape));
    RowShape(lead, Lead(l.B.shape), full[n - 2], l.B.shape[n - 2], RankOf(l));
  }

  /** A tuple for all dimensions is accepted exactly when every index fits and rows and columns are both slices,
      or both integers behind a leading dimension of `A` that happens to be as large as the rank. */
  lemma {:induction false} TupleAccepted(l: Lora, full: seq<Index>)
    requires Constructed(l) && |full| == |l.A.shape|
    ensures var n := |full|;
            GetTuple(l, full).Made? <==>
            && TupleFits(l, full)
            && full[n - 2].Range? == full[n - 1].Range?
            && (full[n - 1].At? ==> LastKept(full[..n - 2], Lead(l.A.shape), RankOf(l)))
    ensures !GetTuple(l, full).Made? ==> GetTuple(l, full) == if TupleFits(l, full) then AssertionFailed else TorchError
  {
    hide IndexedShape, Kept, SliceLen, LastKept, TupleFits;
    var a, b := TupleParts(l, full);
    TupleOkExactly(l, full, a, b);
    LastOf(l, full, a, b);
    WholeLead(full[..|full| - 2], Lead(l.A.shape), RankOf(l));
  }

  /** Any tuple: it is not empty, not too long, and accepted with full slices for the dimensions it leaves out. */
  lemma {:induction false} AnyTupleAccepted(l: Lora, ixs: seq<Index>)
    requires Constructed(l)
    ensures GetTuple(l, ixs).Made? <==>
            0 < |ixs| <= |l.A.shape| &&
            var n := |l.A.shape|; var full := ixs + FullSlices(n - |ixs|);
            && TupleFits(l, full)
            && full[n - 2].Range? == full[n - 1].Range?
            && (full[n - 1].At? ==> LastKept(full[..n - 2], Lead(l.A.shape), RankOf(l)))
  {
    hide TupleFits, LastKept;
    var n := |l.A.shape|;
    if 0 < |ixs| <= n {
      PaddedTuple(l, ixs);
      assert PadIndices(ixs, n) == ixs + FullSlices(n - |ixs|);
      TupleAccepted(l, ixs + FullSlices(n - |ixs|));
    }
  }
}
