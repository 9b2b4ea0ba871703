/** Concrete pairs that the code accepts and that then stand for something else: one for each exact condition. */
module LoraCases {
  import opened Wrappers
  import opened Tensors
  import opened LoraTensor
  import opened LoraStacking
  import opened LoraIndexing
  import opened LoraEllipsis

  lemma {:induction false} SmallProducts(a: nat, b: nat, c: nat)
    ensures Prod([a, b]) == a * b && Prod([a, b, c]) == a * b * c
  {
    assert [a, b, c][..2] == [a, b] && [a, b][..1] == [a] && [a][..0] == [];
    assert Prod([a]) == 1 * a;
  }

  // ----- shapes of small indices

  /** What one index leaves of a dimension. */
  function DimOf(ix: Index, n: nat): seq<nat> { if ix.At? then [] else [SliceLen(ix.s, n)] }

  lemma {:induction false} ShapeCons(ixs: seq<Index>, shape: seq<nat>)
    requires ixs != [] && |ixs| <= |shape|
    ensures IndexedShape(ixs, shape) == DimOf(ixs[0], shape[0]) + IndexedShape(ixs[1..], shape[1..])
  {
  }

  lemma {:induction false} TwoShape(ixs: seq<Index>, shape: seq<nat>)
    requires |ixs| == 2 && |shape| == 3
    ensures IndexedShape(ixs, shape) == DimOf(ixs[0], shape[0]) + (DimOf(ixs[1], shape[1]) + [shape[2]])
  {
    ShapeCons(ixs, shape);
    ShapeCons(ixs[1..], shape[1..]);
    assert ixs[1..][1..] == [] && shape[1..][1..] == [shape[2]];
  }

  lemma {:induction false} ThreeShape(ixs: seq<Index>, shape: seq<nat>)
    requires |ixs| == |shape| == 3
    ensures IndexedShape(ixs, shape) == DimOf(ixs[0], shape[0]) + (DimOf(ixs[1], shape[1]) + DimOf(ixs[2], shape[2]))
  {
    var rest, more := ixs[1..], shape[1..];
    var last, end := rest[1..], more[1..];
    ShapeCons(ixs, shape);
    ShapeCons(rest, more);
    ShapeCons(last, end);
    assert last[1..] == [] && end[1..] == [];
    assert DimOf(ixs[2], shape[2]) + [] == DimOf(ixs[2], shape[2]);
  }

  lemma {:induction false} FullDim(n: nat)
    ensures DimOf(Range(FULL), n) == [n]
  {
  }

  /** A pair of one row of one column, twice over, reshaped to two matrices. */
  lemma {:induction false} Reshaped(l: Lora) returns (t: Lora)
    requires l.A.shape == [1, 1] && l.B.shape == [2, 1]
    ensures Valid(l) && ReshapeLora(l, [2, 1, 1]) == Made(t)
    ensures Valid(t) && t.A.shape == [1, 1, 1] && t.B.shape == [2, 1, 1]
  {
    assert ShapeOf(l) == [2, 1];
    assert ExpandShape([2, 1], [2, 1, 1]).value == [2, 1, 1];
    assert Ones(1) + [1] + [1] == [1, 1, 1] && [2, 1, 1][..2] + [1] == [2, 1, 1];
    SmallProducts(1, 1, 1);
    SmallProducts(2, 1, 1);
    t := ReshapeLora(l, [2, 1, 1]).l;
  }

  lemma {:induction false} SecondOn(t: Lora) returns (r: Lora)
    requires t.A.shape == [1, 1, 1] && t.B.shape == [2, 1, 1]
    ensures Constructed(t) && GetSlice(t, Slice(Some(1), None, 1)) == Made(r)
    ensures r.A.shape == [0, 1, 1] && r.B.shape == [1, 1, 1]
  {
    var s := Slice(Some(1), None, 1);
    OneIndexShape(Range(s), t.A.shape);
    OneIndexShape(Range(s), t.B.shape);
    r := GetSlice(t, s).l;
  }

  lemma {:induction false} NothingProduct(r: Lora)
    requires r.A.shape == [0, 1, 1] && r.B.shape == [1, 1, 1]
    ensures Constructed(r) && !Valid(r) && Multiplies(r) && ShapeOf(r) == [1, 1, 1] && Product(r).shape == [0, 1, 1]
  {
    assert Lead(r.A.shape)[0] == 0 && Lead(r.B.shape)[0] == 1;
  }

  /** `[1:]` of the reshaped pair is accepted, and its factors multiply out to nothing while it reports one
      matrix. */
  lemma {:induction false} SliceAfterReshape(l: Lora) returns (t: Lora, r: Lora)
    requires l.A.shape == [1, 1] && l.B.shape == [2, 1]
    ensures ReshapeLora(l, [2, 1, 1]) == Made(t) && Valid(t)
    ensures GetSlice(t, Slice(Some(1), None, 1)) == Made(r)
    ensures !Valid(r) && Multiplies(r) && ShapeOf(r) == [1, 1, 1] && Product(r).shape == [0, 1, 1]
  {
    hide ReshapeLora, GetSlice, Product, Valid;
    t := Reshaped(l);
    r := SecondOn(t);
    NothingProduct(r);
  }

  lemma {:induction false} TwiceCat(t: Tensor) returns (ts: seq<Tensor>)
    requires |t.shape| == 3
    ensures ts == [t, t] && SameRowShapes(ts) && Cat(ts).shape == [2 * t.shape[0]] + t.shape[1..]
  {
    ts := [t, t];
    assert ts[1..] == [t] && [t][1..] == [];
    assert SumRows([t]) == t.shape[0] + SumRows([]);
    assert SumRows(ts) == t.shape[0] + SumRows([t]);
  }

  lemma {:induction false} TwiceCatLora(t: Lora) returns (r: Lora)
    requires Constructed(t) && |t.A.shape| == 3
    requires Constructed(Lora(Cat([t.A, t.A]), Cat([t.B, t.B])))
    ensures CatLora([t, t]) == Made(r) && r == Lora(Cat([t.A, t.A]), Cat([t.B, t.B]))
  {
    assert FactorsA([t, t]) == [t.A, t.A] && FactorsB([t, t]) == [t.B, t.B];
    var ta := TwiceCat(t.A);
    var tb := TwiceCat(t.B);
    r := Lora(Cat(ta), Cat(tb));
  }

  /** Two such pairs are concatenated, and the factors can no longer be multiplied. */
  lemma {:induction false} CatAfterReshape(l: Lora) returns (t: Lora, r: Lora)
    requires l.A.shape == [1, 1] && l.B.shape == [2, 1]
    ensures ReshapeLora(l, [2, 1, 1]) == Made(t) && Valid(t)
    ensures CatLora([t, t]) == Made(r) && ShapeOf(r) == [4, 1, 1] && !Multiplies(r)
  {
    hide ReshapeLora, Cat, CatLora;
    t := Reshaped(l);
    var ta := TwiceCat(t.A);
    var tb := TwiceCat(t.B);
    assert Cat(ta).shape == [2, 1, 1] && Cat(tb).shape == [4, 1, 1];
    r := TwiceCatLora(t);
  }

  /** `[:, 0, 0]` of a pair of rank two is accepted, and reports a matrix where the product gives a vector. */
  lemma {:induction false} OneElementEach(l: Lora) returns (r: Lora)
    requires l.A.shape == [2, 2, 1] && l.B.shape == [2, 1, 2]
    ensures Valid(l) && GetTuple(l, [Range(FULL), At(0), At(0)]) == Made(r)
    ensures ShapeOf(r) == [2, 2] && IndexedShape([Range(FULL), At(0), At(0)], ShapeOf(l)) == [2]
  {
    var full := [Range(FULL), At(0), At(0)];
    var a, b := [Range(FULL), Range(FULL), At(0)], [Range(FULL), At(0)];
    FullDim(2);
    ThreeShape(a, [2, 2, 1]);
    TwoShape(b, [2, 1, 2]);
    ThreeShape(full, [2, 1, 1]);
    r := GivenTuple(l, full, a, b);
    assert ShapeOf(l) == [2, 1, 1];
  }

  /** A tuple of three entries, as the two factors are indexed with it. */
  lemma {:induction false} GivenTuple(l: Lora, full: seq<Index>, a: seq<Index>, b: seq<Index>) returns (r: Lora)
    requires Constructed(l) && |l.A.shape| == 3 && |full| == 3 && full[0] == Range(FULL)
    requires a == [Range(FULL), Range(FULL), full[2]] && b == [Range(FULL), full[1]]
    requires IndicesOk(a, l.A.shape) && IndicesOk(b, l.B.shape)
    requires Constructed(Lora(GetItem(l.A, a), GetItem(l.B, b)))
    ensures GetTuple(l, full) == Made(r) && r == Lora(GetItem(l.A, a), GetItem(l.B, b))
  {
    assert PadIndices(full, 3) == full;
    assert LeadIndicesA(full[..1], l.A.shape) == [Range(FULL)];
    assert LeadIndicesA(full[..1], l.A.shape) + [Range(FULL)] + [full[2]] == a && full[..2] == b;
    r := Lora(GetItem(l.A, a), GetItem(l.B, b));
  }

  /** `[..., :1]` of a pair of three dimensions is accepted and cuts rows where columns were meant. */
  lemma {:induction false} EllipsisOfThree(l: Lora) returns (r: Lora)
    requires l.A.shape == [1, 1, 2] && l.B.shape == [1, 2, 1]
    ensures var post := [Range(Slice(None, Some(1), 1))];
            && Valid(l) && GetItems(l, [Dots, Plain(post[0])]) == Made(r) && Valid(r)
            && ShapeOf(r) == [1, 1, 2] && IndexedShape(Intended([], post, 3), ShapeOf(l)) == [1, 2, 1]
            && !EllipsisRight(l, [], post)
  {
    var cut := Range(Slice(None, Some(1), 1));
    var post, full := [cut], [Range(FULL), cut, Range(FULL)];
    ColumnsExpanded(cut);
    ItemsAreTuple(l, [], post);
    hide GetTuple, GetItems, Taken, Intended, EllipsisRight, IndexedShape, WithDots;
    r := CutRows(l, full);
    ColumnsMeant(l, cut);
    NotRight(l, [], post, r);
  }

  /** `[:, ..., :1]` of the same pair is refused, though the product has just that index. */
  lemma {:induction false} EllipsisRefusedOfThree(l: Lora)
    requires l.A.shape == [1, 1, 2] && l.B.shape == [1, 2, 1]
    ensures var all, cut := Range(FULL), Range(Slice(None, Some(1), 1));
            && Valid(l) && GetItems(l, [Plain(all), Dots, Plain(cut)]) == TorchError
            && Multiplies(l) && IndicesOk([all, all, cut], Product(l).shape) && IndexedShape([all, all, cut], Product(l).shape) == [1, 2, 1]
  {
    var all, cut := Range(FULL), Range(Slice(None, Some(1), 1));
    assert WithDots([all], [cut]) == [Plain(all), Dots, Plain(cut)];
    assert Intended([all], [cut], 3) == [all, all, cut] == Intended([], [cut], 3);
    ColumnsMeant(l, cut);
    assert ShapeOf(l) == [1, 2, 2];
    EllipsisRefused(l, [all], [cut]);
    ValidMultiplies(l);
  }

  lemma {:induction false} ColumnsExpanded(cut: Index)
    ensures WithDots([], [cut]) == [Dots, Plain(cut)]
    ensures Taken([], [cut], 3) == [Range(FULL), cut, Range(FULL)] && Intended([], [cut], 3) == [Range(FULL), Range(FULL), cut]
  {
  }

  lemma {:induction false} ColumnsMeant(l: Lora, cut: Index)
    requires l.A.shape == [1, 1, 2] && l.B.shape == [1, 2, 1] && cut == Range(Slice(None, Some(1), 1))
    ensures Valid(l) && |Intended([], [cut], 3)| == 3 && IndexedShape(Intended([], [cut], 3), ShapeOf(l)) == [1, 2, 1]
  {
    ColumnsExpanded(cut);
    assert ShapeOf(l) == [1, 2, 2];
    FullDim(1);
    FullDim(2);
    ThreeShape([Range(FULL), Range(FULL), cut], [1, 2, 2]);
  }

  lemma {:induction false} NotRight(l: Lora, pre: seq<Index>, post: seq<Index>, r: Lora)
    requires Valid(l) && Valid(r) && |pre| + |post| <= |l.A.shape| && GetItems(l, WithDots(pre, post)) == Made(r)
    requires IndexedShape(Intended(pre, post, |l.A.shape|), ShapeOf(l)) != ShapeOf(r)
    ensures !EllipsisRight(l, pre, post)
  {
    ValidMultiplies(l);
    ValidMultiplies(r);
  }

  lemma {:induction false} CutRows(l: Lora, full: seq<Index>) returns (r: Lora)
    requires l.A.shape == [1, 1, 2] && l.B.shape == [1, 2, 1] && full == [Range(FULL), Range(Slice(None, Some(1), 1)), Range(FULL)]
    ensures Valid(l) && GetTuple(l, full) == Made(r) && Valid(r) && ShapeOf(r) == [1, 1, 2]
  {
    var a, b := [Range(FULL), Range(FULL), Range(FULL)], [Range(FULL), full[1]];
    FullDim(1);
    FullDim(2);
    ThreeShape(a, [1, 1, 2]);
    TwoShape(b, [1, 2, 1]);
    r := GivenTuple(l, full, a, b);
    assert r.A.shape == [1, 1, 2] && r.B.shape == [1, 1, 1];
  }
}
