/** An ellipsis inside an index tuple: what the code expands it to, and exactly when that is right. */
module LoraEllipsis {
  import opened Wrappers
  import opened Tensors
  import opened LoraTensor
  import opened LoraTheorems
  import opened LoraStacking
  import opened LoraIndexing

  // ----- the expansion

  lemma {:induction false} ExpandPlain(ixs: seq<Index>, items: seq<Item>, each: nat)
    requires |items| == |ixs| && forall d :: 0 <= d < |ixs| ==> items[d] == Plain(ixs[d])
    ensures ExpandDots(items, each) == ixs
    decreases |ixs|
  {
    if ixs != [] { ExpandPlain(ixs[1..], items[1..], each); }
  }

  lemma {:induction false} ExpandConcat(a: seq<Item>, b: seq<Item>, each: nat)
    ensures ExpandDots(a + b, each) == ExpandDots(a, each) + ExpandDots(b, each)
    decreases |a|
  {
    if a == [] {
      assert a + b == b;
    } else {
      assert (a + b)[0] == a[0] && (a + b)[1..] == a[1..] + b;
      ExpandConcat(a[1..], b, each);
    }
  }

  function Plains(ixs: seq<Index>): (r: seq<Item>)
    ensures |r| == |ixs| && forall d :: 0 <= d < |ixs| ==> r[d] == Plain(ixs[d])
  {
    seq(|ixs|, d requires 0 <= d < |ixs| => Plain(ixs[d]))
  }

  /** What an ellipsis between `pre` and `post` should stand for in a tensor of rank `n`. */
  function Intended(pre: seq<Index>, post: seq<Index>, n: nat): seq<Index>
    requires |pre| + |post| <= n
  {
    pre + FullSlices(n - |pre| - |post|) + post
  }

  lemma {:induction false} PadRest(ixs: seq<Index>, n: nat)
    requires |ixs| <= n
    ensures PadIndices(ixs, n) == ixs + FullSlices(n - |ixs|)
  {
  }

  function WithDots(pre: seq<Index>, post: seq<Index>): seq<Item> {
    Plains(pre) + [Dots] + Plains(post)
  }

  /** What the loop makes of the ellipsis: as many full slices as there are other entries. */
  function Expanded(pre: seq<Index>, post: seq<Index>): seq<Index> {
    pre + FullSlices(|pre| + |post|) + post
  }

  lemma {:induction false} ExpandsTo(pre: seq<Index>, post: seq<Index>)
    ensures |WithDots(pre, post)| == |pre| + |post| + 1
    ensures ExpandDots(WithDots(pre, post), |pre| + |post|) == Expanded(pre, post)
  {
    var c := |pre| + |post|;
    ExpandConcat(Plains(pre) + [Dots], Plains(post), c);
    ExpandConcat(Plains(pre), [Dots], c);
    ExpandPlain(pre, Plains(pre), c);
    ExpandPlain(post, Plains(post), c);
    assert [Dots][1..] == [];
  }

  // ----- the positions an index selects, dimension by dimension

  function Positions(ix: Index, n: nat): seq<nat>
    requires IndexOk(ix, n)
  {
    match ix
    case At(i) => [Pick(i, n)]
    case Range(s) => seq(SliceLen(s, n), k requires 0 <= k < SliceLen(s, n) => SlicePos(s, n, k))
  }

  function Counts(ixs: seq<Index>, shape: seq<nat>): (r: seq<nat>)
    requires |ixs| == |shape| && IndicesOk(ixs, shape)
    ensures |r| == |shape| && forall d :: 0 <= d < |r| ==> r[d] == |Positions(ixs[d], shape[d])|
  {
    if ixs == [] then [] else [|Positions(ixs[0], shape[0])|] + Counts(ixs[1..], shape[1..])
  }

  lemma {:induction false} OneDimension(a: nat, i: nat)
    ensures Prod([a]) == a && Ravel([a], [i]) == i
  {
    assert [a][..0] == [] && [i][..0] == [];
    assert Prod([a]) == Prod([]) * a && Ravel([a], [i]) == Ravel([], []) * a + i;
  }

  lemma {:induction false} FrontDimension(a: nat, s: seq<nat>, i: nat, t: seq<nat>)
    requires |s| == |t|
    ensures Prod([a] + s) == a * Prod(s) && Ravel([a] + s, [i] + t) == i * Prod(s) + Ravel(s, t)
  {
    hide Prod, Ravel;
    OneDimension(a, i);
    ProdConcat([a], s);
    RavelConcat([a], s, [i], t);
  }

  lemma {:induction false} ProdCounts(ixs: seq<Index>, shape: seq<nat>)
    requires |ixs| == |shape| && IndicesOk(ixs, shape)
    ensures Prod(Counts(ixs, shape)) == Prod(IndexedShape(ixs, shape))
    decreases |ixs|
  {
    if ixs != [] {
      hide Prod, SlicePos, SliceLen, Pick;
      ProdCounts(ixs[1..], shape[1..]);
      FrontDimension(|Positions(ixs[0], shape[0])|, Counts(ixs[1..], shape[1..]), 0, Counts(ixs[1..], shape[1..]));
      if ixs[0].Range? {
        FrontDimension(SliceLen(ixs[0].s, shape[0]), IndexedShape(ixs[1..], shape[1..]), 0, IndexedShape(ixs[1..], shape[1..]));
      } else {
        assert 1 * Prod(Counts(ixs[1..], shape[1..])) == Prod(Counts(ixs[1..], shape[1..]));
      }
    }
  }

  /** `e` picks, in each dimension, one of the selected positions, and together they are `src`. */
  predicate Picks(ixs: seq<Index>, shape: seq<nat>, e: seq<nat>, src: seq<nat>)
    requires |ixs| == |shape| && IndicesOk(ixs, shape)
  {
    && |e| == |shape| && |src| == |shape|
    && forall d :: 0 <= d < |shape| ==> e[d] < |Positions(ixs[d], shape[d])| && src[d] == Positions(ixs[d], shape[d])[e[d]]
  }

  lemma {:induction false} PicksCons(ixs: seq<Index>, shape: seq<nat>, e: seq<nat>, src: seq<nat>, k: nat)
    requires ixs != [] && |ixs| == |shape| && IndicesOk(ixs, shape) && Picks(ixs[1..], shape[1..], e, src)
    requires k < |Positions(ixs[0], shape[0])|
    ensures Picks(ixs, shape, [k] + e, [Positions(ixs[0], shape[0])[k]] + src)
  {
    var p, e1 := [Positions(ixs[0], shape[0])[k]] + src, [k] + e;
    forall d | 0 <= d < |shape|
      ensures e1[d] < |Positions(ixs[d], shape[d])| && p[d] == Positions(ixs[d], shape[d])[e1[d]]
    {
      if d > 0 { assert ixs[1..][d - 1] == ixs[d] && shape[1..][d - 1] == shape[d] && e1[d] == e[d - 1] && p[d] == src[d - 1]; }
    }
  }

  /** Where an inside index reads, as a choice of one selected position in each dimension: the choice has the
      same place in row-major order as the index. */
  lemma {:induction false} Coordinates(ixs: seq<Index>, shape: seq<nat>, idx: seq<nat>) returns (e: seq<nat>)
    requires |ixs| == |shape| && IndicesOk(ixs, shape) && InShape(idx, IndexedShape(ixs, shape))
    ensures Picks(ixs, shape, e, Source(ixs, shape, idx))
    ensures InShape(e, Counts(ixs, shape)) && Ravel(Counts(ixs, shape), e) == Ravel(IndexedShape(ixs, shape), idx)
    decreases |ixs|
  {
    hide Prod, Ravel, SlicePos, SliceLen, Pick;
    if ixs == [] {
      e := [];
    } else {
      var rest, more := ixs[1..], shape[1..];
      var counts := Counts(rest, more);
      ProdCounts(rest, more);
      if ixs[0].At? {
        e := Coordinates(rest, more, idx);
        FrontDimension(1, counts, 0, e);
        PicksCons(ixs, shape, e, Source(rest, more, idx), 0);
        e := [0] + e;
      } else {
        var k := idx[0];
        InShapeDrop(idx, IndexedShape(ixs, shape));
        e := Coordinates(rest, more, idx[1..]);
        assert idx == [k] + idx[1..];
        FrontDimension(SliceLen(ixs[0].s, shape[0]), counts, k, e);
        FrontDimension(SliceLen(ixs[0].s, shape[0]), IndexedShape(rest, more), k, idx[1..]);
        PicksCons(ixs, shape, e, Source(rest, more, idx[1..]), k);
        e := [k] + e;
      }
    }
  }

  /** Every choice of selected positions is where some inside index reads. */
  lemma {:induction false} IndexOf(ixs: seq<Index>, shape: seq<nat>, e: seq<nat>) returns (idx: seq<nat>)
    requires |ixs| == |shape| && IndicesOk(ixs, shape) && InShape(e, Counts(ixs, shape))
    ensures InShape(idx, IndexedShape(ixs, shape)) && Picks(ixs, shape, e, Source(ixs, shape, idx))
  {
    var counts, indexed := Counts(ixs, shape), IndexedShape(ixs, shape);
    ProdCounts(ixs, shape);
    RavelBelow(counts, e);
    idx := Unravel(indexed, Ravel(counts, e));
    UnravelInShape(indexed, Ravel(counts, e));
    var f := Coordinates(ixs, shape, idx);
    RavelBelow(counts, f);
  }

  // ----- when two indices read the same

  /** Two indices of a shape give the same shape and, unless that is empty, select the same positions. */
  predicate Alike(x: seq<Index>, y: seq<Index>, shape: seq<nat>)
    requires |x| == |y| == |shape| && IndicesOk(x, shape) && IndicesOk(y, shape)
  {
    && IndexedShape(x, shape) == IndexedShape(y, shape)
    && (Prod(IndexedShape(x, shape)) == 0 || forall d :: 0 <= d < |shape| ==> Positions(x[d], shape[d]) == Positions(y[d], shape[d]))
  }

  lemma {:induction false} AlikeSource(x: seq<Index>, y: seq<Index>, shape: seq<nat>, idx: seq<nat>)
    requires |x| == |y| == |shape| && IndicesOk(x, shape) && IndicesOk(y, shape) && Alike(x, y, shape)
    requires InShape(idx, IndexedShape(x, shape))
    ensures Source(x, shape, idx) == Source(y, shape, idx)
  {
    RavelBelow(IndexedShape(x, shape), idx);
    var e := Coordinates(x, shape, idx);
    var f := Coordinates(y, shape, idx);
    assert Counts(x, shape) == Counts(y, shape);
    RavelBelow(Counts(x, shape), e);
    RavelBelow(Counts(y, shape), f);
  }

  ghost predicate Increasing(s: seq<nat>) {
    forall i, j :: 0 <= i < j < |s| ==> s[i] < s[j]
  }

  lemma {:induction false} PositionsIncrease(ix: Index, n: nat)
    requires IndexOk(ix, n)
    ensures Increasing(Positions(ix, n))
  {
    if ix.Range? {
      forall i, j | 0 <= i < j < SliceLen(ix.s, n) ensures SlicePos(ix.s, n, i) < SlicePos(ix.s, n, j) {
        MulLe(i + 1, j, ix.s.step);
        assert (i + 1) * ix.s.step == i * ix.s.step + ix.s.step;
      }
    }
  }

  lemma {:induction false} IncreasingSame(a: seq<nat>, b: seq<nat>)
    requires Increasing(a) && Increasing(b) && (forall x :: x in a <==> x in b)
    ensures a == b
    decreases |a|
  {
    assert b != [] ==> b[0] in b;
    if a != [] {
      var m, k := |a| - 1, |b| - 1;
      assert a[m] in a;
      assert b != [];
      assert b[k] in b;
      assert a[m] == b[k];
      forall x ensures x in a[..m] <==> x in b[..k] {
        if x in a[..m] {
          assert x in a && x < a[m];
          assert x in b;
        }
        if x in b[..k] {
          assert x in b && x < b[k];
          assert x in a;
        }
      }
      IncreasingSame(a[..m], b[..k]);
      assert a == a[..m] + [a[m]] && b == b[..k] + [b[k]];
    }
  }

  lemma {:induction false} ProdPositive(s: seq<nat>)
    requires Prod(s) > 0
    ensures forall d :: 0 <= d < |s| ==> s[d] > 0
    decreases |s|
  {
    if s != [] {
      ProdPositive(s[..|s| - 1]);
      forall d | 0 <= d < |s| ensures s[d] > 0 {
        if d < |s| - 1 { assert s[d] == s[..|s| - 1][d]; }
      }
    }
  }

  /** Every selected position of a dimension is read by some inside index. */
  lemma {:induction false} PositionRead(ixs: seq<Index>, shape: seq<nat>, d: nat, p: nat) returns (idx: seq<nat>)
    requires |ixs| == |shape| && IndicesOk(ixs, shape) && Prod(IndexedShape(ixs, shape)) > 0
    requires d < |shape| && p in Positions(ixs[d], shape[d])
    ensures InShape(idx, IndexedShape(ixs, shape)) && |Source(ixs, shape, idx)| == |shape| && Source(ixs, shape, idx)[d] == p
  {
    hide Prod, Positions, IndexedShape, Source, IndexOk;
    ProdCounts(ixs, shape);
    ProdPositive(Counts(ixs, shape));
    var k :| 0 <= k < |Positions(ixs[d], shape[d])| && Positions(ixs[d], shape[d])[k] == p;
    var e := seq(|shape|, c => if c == d then k else 0);
    idx := IndexOf(ixs, shape, e);
  }

  ghost predicate ReadsSame(x: seq<Index>, y: seq<Index>, shape: seq<nat>)
    requires IndicesOk(x, shape) && IndicesOk(y, shape)
  {
    && IndexedShape(x, shape) == IndexedShape(y, shape)
    && forall idx :: InShape(idx, IndexedShape(x, shape)) ==> Source(x, shape, idx) == Source(y, shape, idx)
  }

  lemma {:induction false} PositionShared(x: seq<Index>, y: seq<Index>, shape: seq<nat>, d: nat, p: nat)
    requires |x| == |y| == |shape| && IndicesOk(x, shape) && IndicesOk(y, shape) && ReadsSame(x, y, shape)
    requires Prod(IndexedShape(x, shape)) > 0 && d < |shape| && p in Positions(x[d], shape[d])
    ensures p in Positions(y[d], shape[d])
  {
    var idx := PositionRead(x, shape, d, p);
    var e := Coordinates(y, shape, idx);
  }

  /** Two indices read the same everywhere exactly when they are alike. */
  lemma {:induction false} AlikeExactly(x: seq<Index>, y: seq<Index>, shape: seq<nat>)
    requires |x| == |y| == |shape| && IndicesOk(x, shape) && IndicesOk(y, shape)
    ensures ReadsSame(x, y, shape) <==> Alike(x, y, shape)
  {
    if Alike(x, y, shape) {
      forall idx | InShape(idx, IndexedShape(x, shape)) ensures Source(x, shape, idx) == Source(y, shape, idx) {
        AlikeSource(x, y, shape, idx);
      }
    }
    if ReadsSame(x, y, shape) && Prod(IndexedShape(x, shape)) > 0 {
      forall d | 0 <= d < |shape| ensures Positions(x[d], shape[d]) == Positions(y[d], shape[d]) {
        forall p ensures p in Positions(x[d], shape[d]) <==> p in Positions(y[d], shape[d]) {
          if p in Positions(x[d], shape[d]) { PositionShared(x, y, shape, d, p); }
          if p in Positions(y[d], shape[d]) { PositionShared(y, x, shape, d, p); }
        }
        PositionsIncrease(x[d], shape[d]);
        PositionsIncrease(y[d], shape[d]);
        IncreasingSame(Positions(x[d], shape[d]), Positions(y[d], shape[d]));
      }
    }
  }

  // ----- the pair indexed with an ellipsis

  /** The tuple the pair is really indexed with. */
  function Taken(pre: seq<Index>, post: seq<Index>, n: nat): seq<Index> { PadIndices(Expanded(pre, post), n) }

  lemma {:induction false} ItemsAreTuple(l: Lora, pre: seq<Index>, post: seq<Index>)
    requires Constructed(l) && post != []
    ensures GetItems(l, WithDots(pre, post)) == GetTuple(l, Expanded(pre, post)) == GetTuple(l, Taken(pre, post, |l.A.shape|))
  {
    hide GetTuple, ExpandDots, PadIndices;
    var items := WithDots(pre, post);
    ExpandsTo(pre, post);
    assert items[|items| - 1] == Plains(post)[|post| - 1];
    PaddedTuple(l, Expanded(pre, post));
  }

  /** With fewer dimensions than twice the other entries the index is refused, also where it is a right one
      for the product. */
  lemma {:induction false} EllipsisRefused(l: Lora, pre: seq<Index>, post: seq<Index>)
    requires Valid(l) && post != [] && |pre| + |post| <= |l.A.shape| < 2 * (|pre| + |post|)
    requires IndicesOk(Intended(pre, post, |l.A.shape|), ShapeOf(l))
    ensures GetItems(l, WithDots(pre, post)) == TorchError
    ensures Multiplies(l) && IndicesOk(Intended(pre, post, |l.A.shape|), Product(l).shape)
  {
    RefusedByRank(l, pre, post);
    ValidMultiplies(l);
  }

  lemma {:induction false} RefusedByRank(l: Lora, pre: seq<Index>, post: seq<Index>)
    requires Constructed(l) && post != [] && |l.A.shape| < 2 * (|pre| + |post|)
    ensures GetItems(l, WithDots(pre, post)) == TorchError
  {
    ItemsAreTuple(l, pre, post);
  }

  predicate SameFactors(l: Lora, m: Lora) { l.A.shape == m.A.shape && l.B.shape == m.B.shape }

  /** Whether a tuple is accepted, and leaves a valid pair, depends on the shapes only. */
  lemma {:induction false} AcceptedByShape(l: Lora, m: Lora, ixs: seq<Index>)
    requires Constructed(l) && SameFactors(l, m)
    ensures Constructed(m) && (GetTuple(l, ixs).Made? <==> GetTuple(m, ixs).Made?)
    ensures GetTuple(l, ixs).Made? ==> (Valid(GetTuple(l, ixs).l) <==> Valid(GetTuple(m, ixs).l))
  {
  }

  /** The indexed pair stands for what the product gives when indexed as intended. */
  ghost predicate EllipsisRight(l: Lora, pre: seq<Index>, post: seq<Index>)
    requires Valid(l) && |pre| + |post| <= |l.A.shape|
  {
    var r, want := GetItems(l, WithDots(pre, post)), Intended(pre, post, |l.A.shape|);
    && r.Made? && Constructed(r.l) && Multiplies(r.l) && Multiplies(l) && IndicesOk(want, Product(l).shape)
    && Same(Product(r.l), GetItem(Product(l), want))
  }

  /** The index is a right one for a tensor of the pair's shape, and the pair indexed with it is accepted and
      multiplies out to the shape it reports. */
  predicate EllipsisTaken(l: Lora, pre: seq<Index>, post: seq<Index>) {
    && Valid(l) && post != [] && |l.A.shape| >= 2 * (|pre| + |post|)
    && IndicesOk(Intended(pre, post, |l.A.shape|), ShapeOf(l)) && SlicesMatrix(Taken(pre, post, |l.A.shape|), |l.A.shape|)
    && GetItems(l, WithDots(pre, post)).Made? && Valid(GetItems(l, WithDots(pre, post)).l)
  }

  /** The pair stands for the product indexed with the tuple that is really taken. */
  lemma {:induction false} TakenRight(l: Lora, pre: seq<Index>, post: seq<Index>)
    requires EllipsisTaken(l, pre, post)
    ensures var full := Taken(pre, post, |l.A.shape|); var r := GetItems(l, WithDots(pre, post));
            && Multiplies(l) && Multiplies(r.l) && IndicesOk(full, ShapeOf(l)) && Product(l).shape == ShapeOf(l)
            && Same(Product(r.l), GetItem(Product(l), full))
  {
    ItemsAreTuple(l, pre, post);
    TupleCommutes(l, Taken(pre, post, |l.A.shape|));
    ValidMultiplies(l);
  }

  lemma {:induction false} TakenLength(pre: seq<Index>, post: seq<Index>, n: nat)
    requires n >= 2 * (|pre| + |post|)
    ensures |Taken(pre, post, n)| == n && |Intended(pre, post, n)| == n
    ensures n == 2 * (|pre| + |post|) ==> Taken(pre, post, n) == Intended(pre, post, n)
  {
    PadRest(Expanded(pre, post), n);
    if n == 2 * (|pre| + |post|) { assert Expanded(pre, post) + FullSlices(0) == Expanded(pre, post); }
  }

  lemma {:induction false} RightAs(l: Lora, pre: seq<Index>, post: seq<Index>)
    requires EllipsisTaken(l, pre, post)
    ensures var full, want := Taken(pre, post, |l.A.shape|), Intended(pre, post, |l.A.shape|);
            && Multiplies(l) && Product(l).shape == ShapeOf(l) && IndicesOk(full, ShapeOf(l)) && IndicesOk(want, ShapeOf(l))
            && (EllipsisRight(l, pre, post) <==> Same(GetItem(Product(l), full), GetItem(Product(l), want)))
  {
    TakenRight(l, pre, post);
  }

  // ----- a pair that tells two places apart

  function Only(a: bool): real { if a then 1.0 else 0.0 }

  /** A pair of the same shapes whose product is one at `u` and zero elsewhere. */
  function Indicator(l: Lora, u: seq<nat>): Lora
    requires Constructed(l) && |u| == |l.A.shape|
  {
    var n := |u|;
    Lora(Tensor(l.A.shape, (idx: seq<nat>) => Only(|idx| == n && idx[n - 2] == 0 && idx[n - 1] == u[n - 1])),
         Tensor(l.B.shape, (idx: seq<nat>) => Only(|idx| == n && idx[..n - 1] == u[..n - 1] && idx[n - 1] == 0)))
  }

  lemma {:induction false} SumFirst(n: nat, f: nat -> real)
    requires n > 0 && forall k: nat :: 0 < k < n ==> f(k) == 0.0
    ensures Sum(n, f) == f(0)
    decreases n
  {
    if n > 1 { SumFirst(n - 1, f); } else { assert Sum(0, f) == 0.0; }
  }

  lemma {:induction false} IndicatorTerm(l: Lora, u: seq<nat>, lead: seq<nat>, i: nat, j: nat, k: nat)
    requires Valid(l) && |u| == |l.A.shape| && |lead| == |l.A.shape| - 2 && InShape(lead, Lead(l.B.shape))
    ensures Constructed(Indicator(l, u))
    ensures Term(Indicator(l, u), lead, i, j, k) == Only(k == 0 && lead + [i, j] == u)
  {
    var n := |u|;
    ShrinkInside(Lead(l.B.shape), lead);
    var b, a := lead + [i] + [k], Shrink(Lead(l.A.shape), lead) + [k] + [j];
    assert b[..n - 1] == lead + [i] && b[n - 1] == k;
    assert a[n - 2] == k && a[n - 1] == j;
    assert lead + [i, j] == u <==> lead + [i] == u[..n - 1] && j == u[n - 1] by {
      assert lead + [i, j] == lead + [i] + [j] && u == u[..n - 1] + [u[n - 1]];
      assert (lead + [i, j])[..n - 1] == lead + [i];
    }
  }

  lemma {:induction false} IndicatorAt(l: Lora, u: seq<nat>, lead: seq<nat>, i: nat, j: nat)
    requires Valid(l) && |u| == |l.A.shape| && |lead| == |l.A.shape| - 2 && InShape(lead, Lead(l.B.shape)) && RankOf(l) > 0
    ensures Constructed(Indicator(l, u))
    ensures ProductAt(Indicator(l, u), lead, i, j) == Only(lead + [i, j] == u)
  {
    var m := Indicator(l, u);
    IndicatorTerm(l, u, lead, i, j, 0);
    var f := (k: nat) => Term(m, lead, i, j, k);
    forall k: nat | 0 < k < RankOf(l) ensures f(k) == 0.0 { IndicatorTerm(l, u, lead, i, j, k); }
    SumFirst(RankOf(l), f);
    SumSame(RankOf(l), (k: nat) => Term(m, lead, i, j, k), f);
  }

  lemma {:induction false} IndicatorProduct(l: Lora, u: seq<nat>, w: seq<nat>)
    requires Valid(l) && |u| == |l.A.shape| && InShape(w, ShapeOf(l)) && RankOf(l) > 0
    ensures Valid(Indicator(l, u)) && SameFactors(l, Indicator(l, u)) && Multiplies(Indicator(l, u))
    ensures Product(Indicator(l, u)).at(w) == Only(w == u)
  {
    var m, n := Indicator(l, u), |u|;
    ValidMultiplies(m);
    var lead, i, j := w[..n - 2], w[n - 2], w[n - 1];
    forall d | 0 <= d < n - 2 ensures lead[d] < Lead(l.B.shape)[d] {
      assert w[d] < ShapeOf(l)[d] && ShapeOf(l)[d] == l.B.shape[d];
    }
    assert w == lead + [i, j];
    IndicatorAt(l, u, lead, i, j);
  }

  // ----- exactly when the ellipsis is right

  lemma {:induction false} AlikeIsRight(l: Lora, pre: seq<Index>, post: seq<Index>)
    requires EllipsisTaken(l, pre, post)
    requires var full, want := Taken(pre, post, |l.A.shape|), Intended(pre, post, |l.A.shape|);
             IndicesOk(full, ShapeOf(l)) && |full| == |want| == |l.A.shape| && ReadsSame(full, want, ShapeOf(l))
    ensures EllipsisRight(l, pre, post)
  {
    RightAs(l, pre, post);
  }

  lemma {:induction false} ZeroRank(l: Lora, w: seq<nat>)
    requires Valid(l) && RankOf(l) == 0 && InShape(w, ShapeOf(l)) && Multiplies(l)
    ensures Product(l).at(w) == 0.0
  {
    var n := |w|;
    assert ProductAt(l, w[..n - 2], w[n - 2], w[n - 1]) == 0.0;
  }

  lemma {:induction false} ZeroRankRight(l: Lora, pre: seq<Index>, post: seq<Index>)
    requires EllipsisTaken(l, pre, post) && RankOf(l) == 0
    requires var full, want := Taken(pre, post, |l.A.shape|), Intended(pre, post, |l.A.shape|);
             |full| == |want| == |l.A.shape| && IndicesOk(full, ShapeOf(l)) && IndexedShape(full, ShapeOf(l)) == IndexedShape(want, ShapeOf(l))
    ensures EllipsisRight(l, pre, post)
  {
    var full, want := Taken(pre, post, |l.A.shape|), Intended(pre, post, |l.A.shape|);
    RightAs(l, pre, post);
    forall idx | InShape(idx, IndexedShape(full, ShapeOf(l)))
      ensures GetItem(Product(l), full).at(idx) == GetItem(Product(l), want).at(idx)
    {
      SourceInShape(full, ShapeOf(l), idx);
      SourceInShape(want, ShapeOf(l), idx);
      ZeroRank(l, Source(full, ShapeOf(l), idx));
      ZeroRank(l, Source(want, ShapeOf(l), idx));
    }
  }

  /** Where two places are read instead of one, some pair of these shapes shows it. */
  lemma {:induction false} WitnessWrong(l: Lora, pre: seq<Index>, post: seq<Index>, idx: seq<nat>) returns (m: Lora)
    requires EllipsisTaken(l, pre, post) && RankOf(l) > 0
    requires var full, want := Taken(pre, post, |l.A.shape|), Intended(pre, post, |l.A.shape|);
             && |full| == |want| == |l.A.shape| && IndicesOk(full, ShapeOf(l)) && IndexedShape(full, ShapeOf(l)) == IndexedShape(want, ShapeOf(l))
             && InShape(idx, IndexedShape(full, ShapeOf(l))) && Source(full, ShapeOf(l), idx) != Source(want, ShapeOf(l), idx)
    ensures SameFactors(l, m) && EllipsisTaken(m, pre, post) && !EllipsisRight(m, pre, post)
  {
    var shape := ShapeOf(l);
    var full, want := Taken(pre, post, |l.A.shape|), Intended(pre, post, |l.A.shape|);
    var u, v := Source(full, shape, idx), Source(want, shape, idx);
    SourceInShape(full, shape, idx);
    SourceInShape(want, shape, idx);
    m := Indicator(l, u);
    IndicatorProduct(l, u, u);
    IndicatorProduct(l, u, v);
    TakenByShape(l, m, pre, post);
    RightAs(m, pre, post);
    assert GetItem(Product(m), full).at(idx) == 1.0 && GetItem(Product(m), want).at(idx) == 0.0;
  }

  lemma {:induction false} ValidByShape(l: Lora, m: Lora)
    requires Valid(l) && SameFactors(l, m)
    ensures Constructed(l) && Valid(m) && ShapeOf(m) == ShapeOf(l) && RankOf(m) == RankOf(l)
  {
  }

  lemma {:induction false} TakenByShape(l: Lora, m: Lora, pre: seq<Index>, post: seq<Index>)
    requires EllipsisTaken(l, pre, post) && SameFactors(l, m)
    ensures EllipsisTaken(m, pre, post) && ShapeOf(m) == ShapeOf(l) && RankOf(m) == RankOf(l)
  {
    hide GetTuple, GetItems, Valid, SlicesMatrix, Intended, Taken, IndexOk;
    ValidByShape(l, m);
    ItemsAreTuple(l, pre, post);
    ItemsAreTuple(m, pre, post);
    AcceptedByShape(l, m, Taken(pre, post, |l.A.shape|));
  }

  /** The tuple taken and the one intended give the same shape, and select the same positions in every
      dimension unless there is nothing to tell apart. */
  predicate Agree(l: Lora, pre: seq<Index>, post: seq<Index>)
    requires Constructed(l) && |l.A.shape| >= 2 * (|pre| + |post|)
    requires IndicesOk(Taken(pre, post, |l.A.shape|), ShapeOf(l)) && IndicesOk(Intended(pre, post, |l.A.shape|), ShapeOf(l))
  {
    TakenLength(pre, post, |l.A.shape|);
    var full, want := Taken(pre, post, |l.A.shape|), Intended(pre, post, |l.A.shape|);
    if RankOf(l) == 0 then IndexedShape(full, ShapeOf(l)) == IndexedShape(want, ShapeOf(l)) else Alike(full, want, ShapeOf(l))
  }

  lemma {:induction false} AgreeIsRight(l: Lora, m: Lora, pre: seq<Index>, post: seq<Index>)
    requires EllipsisTaken(l, pre, post) && SameFactors(l, m)
    requires IndicesOk(Taken(pre, post, |l.A.shape|), ShapeOf(l)) && Agree(l, pre, post)
    ensures Valid(m) && EllipsisRight(m, pre, post)
  {
    var full, want := Taken(pre, post, |l.A.shape|), Intended(pre, post, |l.A.shape|);
    TakenLength(pre, post, |l.A.shape|);
    TakenByShape(l, m, pre, post);
    RightAs(m, pre, post);
    if RankOf(l) == 0 {
      ZeroRankRight(m, pre, post);
    } else {
      AlikeExactly(full, want, ShapeOf(l));
      AlikeIsRight(m, pre, post);
    }
  }

  lemma {:induction false} DisagreeIsWrong(l: Lora, pre: seq<Index>, post: seq<Index>) returns (m: Lora)
    requires EllipsisTaken(l, pre, post)
    requires IndicesOk(Taken(pre, post, |l.A.shape|), ShapeOf(l)) && !Agree(l, pre, post)
    ensures SameFactors(l, m) && Valid(m) && !EllipsisRight(m, pre, post)
  {
    var shape := ShapeOf(l);
    var full, want := Taken(pre, post, |l.A.shape|), Intended(pre, post, |l.A.shape|);
    TakenLength(pre, post, |l.A.shape|);
    RightAs(l, pre, post);
    m := l;
    if IndexedShape(full, shape) == IndexedShape(want, shape) {
      AlikeExactly(full, want, shape);
      var idx :| InShape(idx, IndexedShape(full, shape)) && Source(full, shape, idx) != Source(want, shape, idx);
      m := WitnessWrong(l, pre, post, idx);
    }
  }

  /** A pair that is accepted with an ellipsis inside the index stands for the product indexed as intended,
      whatever its elements, exactly when the tuple taken and the intended one agree on its shape. */
  lemma {:induction false} EllipsisExactly(l: Lora, pre: seq<Index>, post: seq<Index>)
    requires EllipsisTaken(l, pre, post)
    ensures IndicesOk(Taken(pre, post, |l.A.shape|), ShapeOf(l))
    ensures (forall m: Lora :: SameFactors(l, m) ==> Valid(m) && EllipsisRight(m, pre, post)) <==> Agree(l, pre, post)
  {
    RightAs(l, pre, post);
    if Agree(l, pre, post) {
      forall m: Lora | SameFactors(l, m) ensures Valid(m) && EllipsisRight(m, pre, post) {
        AgreeIsRight(l, m, pre, post);
      }
    } else {
      var m := DisagreeIsWrong(l, pre, post);
    }
  }

  lemma {:induction false} LastTaken(pre: seq<Index>, post: seq<Index>, n: nat)
    requires post != [] && n >= 2 * (|pre| + |post|)
    ensures |Taken(pre, post, n)| == |Intended(pre, post, n)| == n
    ensures Intended(pre, post, n)[n - 1] == post[|post| - 1]
    ensures n > 2 * (|pre| + |post|) ==> Taken(pre, post, n)[n - 1] == Range(FULL)
  {
    TakenLength(pre, post, n);
    PadRest(Expanded(pre, post), n);
  }

  /** In particular: when the last entry does not keep every column, the pair is right exactly when it has
      twice as many dimensions as the index has other entries. */
  lemma {:induction false} EllipsisOnColumns(l: Lora, pre: seq<Index>, post: seq<Index>)
    requires EllipsisTaken(l, pre, post) && RankOf(l) > 0
    requires Prod(IndexedShape(Intended(pre, post, |l.A.shape|), ShapeOf(l))) > 0
    requires IndexOk(post[|post| - 1], Last(l.A.shape)) && Positions(post[|post| - 1], Last(l.A.shape)) != Positions(Range(FULL), Last(l.A.shape))
    ensures (forall m: Lora :: SameFactors(l, m) ==> Valid(m) && EllipsisRight(m, pre, post)) <==> |l.A.shape| == 2 * (|pre| + |post|)
  {
    var n := |l.A.shape|;
    EllipsisExactly(l, pre, post);
    LastTaken(pre, post, n);
    TakenLength(pre, post, n);
    assert ShapeOf(l)[n - 1] == Last(l.A.shape);
  }

  lemma {:induction false} FirstOnly(n: nat)
    requires n > 0
    ensures IndexOk(Range(Slice(None, Some(1), 1)), n) && Positions(Range(Slice(None, Some(1), 1)), n) == [0]
  {
  }

  /** Being different from a full slice is not enough: here the two entries land one dimension early, each on
      the other's dimension, and still select what was meant. */
  lemma {:induction false} EarlyYetAlike(first: Index)
    requires first == Range(Slice(None, Some(1), 1))
    ensures var full, want, shape := Taken([], [first, first], 5), Intended([], [first, first], 5), [1, 1, 1, 5, 1];
            && |full| == |want| == 5 && full != want && IndicesOk(full, shape) && IndicesOk(want, shape)
            && (forall d :: 0 <= d < 5 ==> Positions(full[d], shape[d]) == Positions(want[d], shape[d]))
            && Positions(first, 5) != Positions(Range(FULL), 5)
  {
    var all := Range(FULL);
    var full, want := Taken([], [first, first], 5), Intended([], [first, first], 5);
    assert full == [all, all, first, first, all];
    assert want == [all, all, all, first, first];
    FirstOnly(1);
    FirstOnly(5);
    FullLen(1);
    FullLen(5);
    assert Positions(all, 1) == [0];
    assert full[2] != want[2];
    assert |Positions(all, 5)| == 5;
  }

  /** Ellipses at the end are dropped, however many: the index is the tuple before them, and nothing but
      ellipses is the assertion. */
  lemma {:induction false} TrailingDots(l: Lora, pre: seq<Index>, items: seq<Item>)
    requires Constructed(l) && |items| >= |pre|
    requires items[..|pre|] == Plains(pre) && forall d :: |pre| <= d < |items| ==> items[d] == Dots
    ensures GetItems(l, items) == if pre == [] then AssertionFailed else GetTuple(l, pre)
    decreases |items|
  {
    hide GetTuple;
    if |items| > |pre| {
      var front := items[..|items| - 1];
      assert front[..|pre|] == items[..|pre|];
      TrailingDots(l, pre, front);
    } else if pre != [] {
      assert items == Plains(pre);
      ExpandPlain(pre, items, |items| - 1);
    }
  }
}
