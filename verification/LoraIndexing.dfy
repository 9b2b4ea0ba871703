/** Indexing a pair: when it is accepted, and when it stands for the indexed product. */
module LoraIndexing {
  import opened Wrappers
  import opened Tensors
  import opened LoraTensor
  import opened LoraTheorems
  import opened LoraStacking

  // ----- one integer

  lemma {:induction false} OneIndexShape(ix: Index, shape: seq<nat>)
    requires shape != [] && IndexOk(ix, shape[0])
    ensures IndicesOk([ix], shape)
    ensures IndexedShape([ix], shape) == (if ix.At? then shape[1..] else [SliceLen(ix.s, shape[0])] + shape[1..])
  {
    assert [ix][1..] == [];
  }

  lemma {:induction false} OneIndexSource(ix: Index, shape: seq<nat>, idx: seq<nat>)
    requires shape != [] && IndexOk(ix, shape[0]) && (ix.Range? ==> idx != [])
    ensures IndicesOk([ix], shape)
    ensures Source([ix], shape, idx) == (if ix.At? then [Pick(ix.i, shape[0])] + idx else [SlicePos(ix.s, shape[0], idx[0])] + idx[1..])
  {
    assert [ix][1..] == [];
  }

  lemma {:induction false} LeadDrop(shape: seq<nat>)
    requires |shape| > 2
    ensures Lead(shape[1..]) == Lead(shape)[1..] && Last(shape[1..]) == Last(shape) && Lead(shape)[0] == shape[0]
  {
  }

  lemma {:induction false} IntValid(l: Lora, i: int)
    requires Valid(l) && GetInt(l, i).Made?
    ensures var t := GetInt(l, i).l;
            Valid(t) && |t.A.shape| == |l.A.shape| - 1 && t.A.shape == l.A.shape[1..] && t.B.shape == l.B.shape[1..]
  {
    var t := GetInt(l, i).l;
    OneIndexShape(At(i), l.A.shape);
    OneIndexShape(At(i), l.B.shape);
    LeadDrop(l.A.shape);
    LeadDrop(l.B.shape);
    forall d | 0 <= d < |Lead(t.A.shape)| ensures Lead(t.A.shape)[d] == 1 || Lead(t.A.shape)[d] == Lead(t.B.shape)[d] {
      assert Lead(t.A.shape)[d] == Lead(l.A.shape)[d + 1] && Lead(t.B.shape)[d] == Lead(l.B.shape)[d + 1];
    }
  }

  /** Factors of an integer-indexed pair are the factors at that first index. */
  lemma {:induction false} IntFactors(l: Lora, i: int, lead: seq<nat>, r: nat, j: nat, k: nat)
    requires Valid(l) && GetInt(l, i).Made? && |lead| == |l.A.shape| - 3
    ensures var t := GetInt(l, i).l; var p := Pick(i, l.B.shape[0]);
            |t.A.shape| == |lead| + 2 && FactorB(t, lead, r, k) == FactorB(l, [p] + lead, r, k)
            && FactorA(t, lead, k, j) == FactorA(l, [p] + lead, k, j)
  {
    var t := GetInt(l, i).l;
    var p := Pick(i, l.B.shape[0]);
    IntValid(l, i);
    LeadDrop(l.A.shape);
    LeadDrop(l.B.shape);
    assert Lead(l.A.shape)[0] == 1 || Lead(l.A.shape)[0] == Lead(l.B.shape)[0];
    ShrinkFirst(Lead(l.A.shape), [p] + lead);
    ShrinkFirst(Lead(l.B.shape), [p] + lead);
    assert ([p] + lead)[1..] == lead;
    var sa, sb := Shrink(Lead(t.A.shape), lead), Shrink(Lead(t.B.shape), lead);
    FirstOfThree(p, sb, r, k);
    FirstOfThree(Pick(i, l.A.shape[0]), sa, k, j);
    OneIndexSource(At(i), l.B.shape, sb + [r] + [k]);
    OneIndexSource(At(i), l.A.shape, sa + [k] + [j]);
  }

  /** Indexing with one integer commutes with multiplying out, whenever it is accepted. */
  lemma {:induction false} IntCommutes(l: Lora, i: int)
    requires Valid(l) && GetInt(l, i).Made?
    ensures var t := GetInt(l, i).l;
            && Valid(t) && Multiplies(t) && Multiplies(l) && IndicesOk([At(i)], Product(l).shape)
            && Same(Product(t), GetItem(Product(l), [At(i)]))
  {
    var t := GetInt(l, i).l;
    IntValid(l, i);
    ValidMultiplies(l);
    ValidMultiplies(t);
    OneIndexShape(At(i), Product(l).shape);
    forall idx | InShape(idx, Product(t).shape) ensures Product(t).at(idx) == GetItem(Product(l), [At(i)]).at(idx) {
      OneIndexSource(At(i), Product(l).shape, idx);
      IntElement(l, i, idx);
    }
  }

  lemma {:induction false} IntElement(l: Lora, i: int, idx: seq<nat>)
    requires Valid(l) && GetInt(l, i).Made? && Multiplies(l) && Multiplies(GetInt(l, i).l) && |idx| == |l.A.shape| - 1
    ensures Product(GetInt(l, i).l).at(idx) == Product(l).at([Pick(i, l.B.shape[0])] + idx)
  {
    var t := GetInt(l, i).l;
    var n := |l.A.shape|;
    var p := Pick(i, l.B.shape[0]);
    var lead, r, j := idx[..n - 3], idx[n - 3], idx[n - 2];
    IntFactors(l, i, lead, r, j, 0);
    IntRank(l, i);
    forall k: nat ensures FactorB(t, lead, r, k) == FactorB(l, [p] + lead, r, k) { IntFactors(l, i, lead, r, j, k); }
    forall k: nat ensures FactorA(t, lead, k, j) == FactorA(l, [p] + lead, k, j) { IntFactors(l, i, lead, r, j, k); }
    ProductAtFactors(t, l, lead, r, j, [p] + lead, r);
    assert idx == lead + [r] + [j];
    ProductAtParts(l, p, lead, r, j);
  }

  lemma {:induction false} IntRank(l: Lora, i: int)
    requires Valid(l) && GetInt(l, i).Made?
    ensures RankOf(GetInt(l, i).l) == RankOf(l)
  {
    IntValid(l, i);
    LeadDrop(l.B.shape);
  }

  // ----- one slice

  lemma {:induction false} SliceShapes(l: Lora, s: Slice)
    requires Valid(l) && GetSlice(l, s).Made? && |l.A.shape| > 2
    ensures var t := GetSlice(l, s).l;
            && t.A.shape == [SliceLen(s, l.A.shape[0])] + l.A.shape[1..] && t.B.shape == [SliceLen(s, l.B.shape[0])] + l.B.shape[1..]
            && Lead(t.A.shape) == [SliceLen(s, l.A.shape[0])] + Lead(l.A.shape)[1..]
            && Lead(t.B.shape) == [SliceLen(s, l.B.shape[0])] + Lead(l.B.shape)[1..]
            && RankOf(t) == RankOf(l)
  {
    OneIndexShape(Range(s), l.A.shape);
    OneIndexShape(Range(s), l.B.shape);
    LeadDrop(l.A.shape);
    LeadDrop(l.B.shape);
  }

  /** A deep slice, which cuts both factors, leaves a pair exactly when `A` keeps one row or as many as `B`. */
  lemma {:induction false} SliceValidExactly(l: Lora, s: Slice)
    requires Valid(l) && GetSlice(l, s).Made? && |l.A.shape| > 2
    ensures Valid(GetSlice(l, s).l) <==> SliceLen(s, l.A.shape[0]) == 1 || SliceLen(s, l.A.shape[0]) == SliceLen(s, l.B.shape[0])
  {
    var t := GetSlice(l, s).l;
    SliceShapes(l, s);
    var a, b := Lead(t.A.shape), Lead(t.B.shape);
    assert forall d :: 1 <= d < |a| ==> a[d] == Lead(l.A.shape)[d] && b[d] == Lead(l.B.shape)[d];
    if Valid(t) { assert a[0] == 1 || a[0] == b[0]; }
  }

  lemma {:induction false} SliceFactors(l: Lora, s: Slice, c: nat, lead: seq<nat>, r: nat, j: nat, k: nat)
    requires Valid(l) && GetSlice(l, s).Made? && |l.A.shape| > 2 && |lead| == |l.A.shape| - 3
    requires Valid(GetSlice(l, s).l) && c < SliceLen(s, l.B.shape[0])
    ensures var t := GetSlice(l, s).l; var p := SlicePos(s, l.B.shape[0], c);
            && |t.A.shape| == |lead| + 3
            && FactorB(t, [c] + lead, r, k) == FactorB(l, [p] + lead, r, k)
            && FactorA(t, [c] + lead, k, j) == FactorA(l, [p] + lead, k, j)
  {
    var t := GetSlice(l, s).l;
    var p := SlicePos(s, l.B.shape[0], c);
    SliceShapes(l, s);
    SliceValidExactly(l, s);
    SlicePosInside(s, l.B.shape[0], c);
    assert Lead(l.A.shape)[0] == 1 || Lead(l.A.shape)[0] == Lead(l.B.shape)[0];
    ShrinkFirst(Lead(l.A.shape), [p] + lead);
    ShrinkFirst(Lead(l.B.shape), [p] + lead);
    ShrinkFirst(Lead(t.A.shape), [c] + lead);
    ShrinkFirst(Lead(t.B.shape), [c] + lead);
    assert ([p] + lead)[1..] == lead && ([c] + lead)[1..] == lead;
    var sa, sb := Shrink(Lead(l.A.shape)[1..], lead), Shrink(Lead(l.B.shape)[1..], lead);
    var ca := if SliceLen(s, l.A.shape[0]) == 1 then 0 else c;
    var cb := if SliceLen(s, l.B.shape[0]) == 1 then 0 else c;
    SlicePosInside(s, l.A.shape[0], ca);
    SlicedAt(s, l.B, cb, sb, r, k);
    SlicedAt(s, l.A, ca, sa, k, j);
  }

  lemma {:induction false} SlicedAt(s: Slice, t: Tensor, c: nat, rest: seq<nat>, p: nat, q: nat)
    requires t.shape != [] && s.step > 0
    ensures IndicesOk([Range(s)], t.shape)
    ensures GetItem(t, [Range(s)]).at([c] + rest + [p] + [q]) == t.at([SlicePos(s, t.shape[0], c)] + rest + [p] + [q])
  {
    FirstOfThree(c, rest, p, q);
    FirstOfThree(SlicePos(s, t.shape[0], c), rest, p, q);
    OneIndexSource(Range(s), t.shape, [c] + (rest + [p] + [q]));
    assert ([c] + (rest + [p] + [q]))[1..] == rest + [p] + [q];
  }

  lemma {:induction false} SliceElement(l: Lora, s: Slice, c: nat, lead: seq<nat>, r: nat, j: nat)
    requires Valid(l) && GetSlice(l, s).Made? && |l.A.shape| > 2 && |lead| == |l.A.shape| - 3
    requires Valid(GetSlice(l, s).l) && c < SliceLen(s, l.B.shape[0]) && Multiplies(l) && Multiplies(GetSlice(l, s).l)
    ensures Product(GetSlice(l, s).l).at([c] + (lead + [r] + [j])) == Product(l).at([SlicePos(s, l.B.shape[0], c)] + (lead + [r] + [j]))
  {
    var t := GetSlice(l, s).l;
    var p := SlicePos(s, l.B.shape[0], c);
    SliceShapes(l, s);
    SliceFactors(l, s, c, lead, r, j, 0);
    forall k: nat ensures FactorB(t, [c] + lead, r, k) == FactorB(l, [p] + lead, r, k) { SliceFactors(l, s, c, lead, r, j, k); }
    forall k: nat ensures FactorA(t, [c] + lead, k, j) == FactorA(l, [p] + lead, k, j) { SliceFactors(l, s, c, lead, r, j, k); }
    ProductAtFactors(t, l, [c] + lead, r, j, [p] + lead, r);
    ProductAtParts(t, c, lead, r, j);
    ProductAtParts(l, p, lead, r, j);
  }

  /** A slice of three or more dimensions commutes with multiplying out whenever it leaves a valid pair. */
  lemma {:induction false} SliceDeepCommutes(l: Lora, s: Slice)
    requires Valid(l) && GetSlice(l, s).Made? && |l.A.shape| > 2 && Valid(GetSlice(l, s).l)
    ensures var t := GetSlice(l, s).l;
            && Multiplies(t) && Multiplies(l) && IndicesOk([Range(s)], Product(l).shape)
            && Same(Product(t), GetItem(Product(l), [Range(s)]))
  {
    var t := GetSlice(l, s).l;
    SliceShapes(l, s);
    ValidMultiplies(l);
    ValidMultiplies(t);
    OneIndexShape(Range(s), Product(l).shape);
    forall idx | InShape(idx, Product(t).shape) ensures Product(t).at(idx) == GetItem(Product(l), [Range(s)]).at(idx) {
      assert idx[0] < SliceLen(s, l.B.shape[0]);
      var c, lead, r, j := SplitIndex(idx);
      OneIndexSource(Range(s), Product(l).shape, idx);
      assert idx[1..] == lead + [r] + [j];
      SliceElement(l, s, c, lead, r, j);
    }
  }

  /** A slice of a two-dimensional pair cuts rows of `B` only, and always commutes. */
  lemma {:induction false} SliceFlatCommutes(l: Lora, s: Slice)
    requires Valid(l) && GetSlice(l, s).Made? && |l.A.shape| == 2
    ensures var t := GetSlice(l, s).l;
            && Valid(t) && Multiplies(t) && Multiplies(l) && IndicesOk([Range(s)], Product(l).shape)
            && Same(Product(t), GetItem(Product(l), [Range(s)]))
  {
    var t := GetSlice(l, s).l;
    OneIndexShape(Range(s), l.B.shape);
    FlatShape(l);
    FlatShape(t);
    OneIndexShape(Range(s), Product(l).shape);
    forall idx | InShape(idx, Product(t).shape) ensures Product(t).at(idx) == GetItem(Product(l), [Range(s)]).at(idx) {
      var c, j := idx[0], idx[1];
      assert idx == [c] + [j] && idx[1..] == [j];
      OneIndexSource(Range(s), Product(l).shape, idx);
      SliceFlatElement(l, s, c, j);
    }
  }

  lemma {:induction false} SliceFlatElement(l: Lora, s: Slice, c: nat, j: nat)
    requires Valid(l) && GetSlice(l, s).Made? && |l.A.shape| == 2 && Multiplies(l) && Multiplies(GetSlice(l, s).l)
    ensures Product(GetSlice(l, s).l).at([c] + [j]) == Product(l).at([SlicePos(s, l.B.shape[0], c)] + [j])
  {
    var t := GetSlice(l, s).l;
    var p := SlicePos(s, l.B.shape[0], c);
    OneIndexShape(Range(s), l.B.shape);
    forall k: nat ensures FactorB(t, [], c, k) == FactorB(l, [], p, k) {
      FlatFactors(t, c, j, k);
      FlatFactors(l, p, j, k);
      OneIndexSource(Range(s), l.B.shape, [c] + [k]);
      assert ([c] + [k])[1..] == [k];
    }
    forall k: nat ensures FactorA(t, [], k, j) == FactorA(l, [], k, j) {
      FlatFactors(t, c, j, k);
      FlatFactors(l, p, j, k);
    }
    ProductAtFactors(t, l, [], c, j, [], p);
    FlatProductAt(t, c, j);
    FlatProductAt(l, p, j);
  }

  /** After a reshape `A`'s first dimension is 1, and a slice that starts past its first row empties `A`: the
      pair no longer stands for anything. */
  lemma {:induction false} SliceOfBroadcastFails(l: Lora, s: Slice)
    requires Valid(l) && GetSlice(l, s).Made? && |l.A.shape| > 2 && l.A.shape[0] == 1
    ensures Valid(GetSlice(l, s).l) <==> (SliceStart(s, 1) == 0 && SliceStop(s, 1) == 1) || SliceLen(s, l.B.shape[0]) == 0
  {
    SliceValidExactly(l, s);
  }

  // ----- tuples

  /** How many dimensions a tuple keeps. */
  function Kept(ixs: seq<Index>): nat {
    if ixs == [] then 0 else (if ixs[0].Range? then 1 else 0) + Kept(ixs[1..])
  }

  lemma {:induction false} ShapeConcat(a: seq<Index>, b: seq<Index>, shape: seq<nat>, more: seq<nat>)
    requires |a| == |shape| && |b| <= |more|
    ensures IndexedShape(a + b, shape + more) == IndexedShape(a, shape) + IndexedShape(b, more)
    ensures |IndexedShape(a, shape)| == Kept(a)
    decreases |a|
  {
    if a == [] {
      assert a + b == b && shape + more == more;
    } else {
      assert (a + b)[0] == a[0] && (a + b)[1..] == a[1..] + b;
      assert (shape + more)[0] == shape[0] && (shape + more)[1..] == shape[1..] + more;
      ShapeConcat(a[1..], b, shape[1..], more);
    }
  }

  lemma {:induction false} ConcatHead<T>(a: seq<T>, b: seq<T>)
    requires a != []
    ensures (a + b)[0] == a[0] && (a + b)[1..] == a[1..] + b
  {
  }

  lemma {:induction false} SourceConcat(a: seq<Index>, b: seq<Index>, shape: seq<nat>, more: seq<nat>, x: seq<nat>, y: seq<nat>)
    requires |a| == |shape| && IndicesOk(a, shape) && IndicesOk(b, more) && |x| == Kept(a)
    ensures IndicesOk(a + b, shape + more)
    ensures Source(a + b, shape + more, x + y) == Source(a, shape, x) + Source(b, more, y)
    ensures |Source(a, shape, x)| == |shape|
    decreases |a|
  {
    if a == [] {
      assert a + b == b && shape + more == more && x + y == y;
    } else {
      ConcatHead(a, b);
      ConcatHead(shape, more);
      var inner := if a[0].At? then x else x[1..];
      SourceConcat(a[1..], b, shape[1..], more, inner, y);
      if a[0].Range? { ConcatHead(x, y); }
      SourceCons(a[0], Source(a[1..], shape[1..], inner), Source(b, more, y));
    }
  }

  lemma {:induction false} SourceCons(ix: Index, s: seq<nat>, t: seq<nat>)
    ensures forall p: nat :: [p] + (s + t) == ([p] + s) + t
  {
    forall p: nat ensures [p] + (s + t) == ([p] + s) + t {
      assert |[p] + (s + t)| == |([p] + s) + t|;
    }
  }

  /** A slice of a leading dimension is harmless where `A` has one row there, or keeps as many as `A` has. */
  predicate RangesFit(ixs: seq<Index>, a: seq<nat>, b: seq<nat>)
    requires |ixs| == |a| == |b|
  {
    forall d :: 0 <= d < |ixs| ==> ixs[d].Range? ==> a[d] == 1 || a[d] == SliceLen(ixs[d].s, b[d])
  }

  lemma {:induction false} LeadFitsAfter(ixs: seq<Index>, a: seq<nat>, b: seq<nat>)
    requires |ixs| == |a| == |b|
    ensures LeadFits(IndexedShape(LeadIndicesA(ixs, a), a), IndexedShape(ixs, b)) <==> RangesFit(ixs, a, b)
    decreases |ixs|
  {
    if ixs != [] {
      LeadFitsAfter(ixs[1..], a[1..], b[1..]);
      assert LeadIndicesA(ixs, a)[1..] == LeadIndicesA(ixs[1..], a[1..]);
      var x, y := IndexedShape(LeadIndicesA(ixs[1..], a[1..]), a[1..]), IndexedShape(ixs[1..], b[1..]);
      FullLen(a[0]);
      RangesFitTail(ixs, a, b);
      if ixs[0].Range? { LeadFitsCons(a[0], x, SliceLen(ixs[0].s, b[0]), y); }
    }
  }

  lemma {:induction false} FullLen(n: nat)
    ensures SliceLen(FULL, n) == n && forall k: nat :: SlicePos(FULL, n, k) == k
  {
  }

  lemma {:induction false} RangesFitTail(ixs: seq<Index>, a: seq<nat>, b: seq<nat>)
    requires |ixs| == |a| == |b| > 0
    ensures RangesFit(ixs, a, b) <==>
            RangesFit(ixs[1..], a[1..], b[1..]) && (ixs[0].Range? ==> a[0] == 1 || a[0] == SliceLen(ixs[0].s, b[0]))
  {
    if RangesFit(ixs[1..], a[1..], b[1..]) && (ixs[0].Range? ==> a[0] == 1 || a[0] == SliceLen(ixs[0].s, b[0])) {
      forall d | 0 <= d < |ixs| ensures ixs[d].Range? ==> a[d] == 1 || a[d] == SliceLen(ixs[d].s, b[d]) {
        if d > 0 { assert ixs[d] == ixs[1..][d - 1]; }
      }
    }
    if RangesFit(ixs, a, b) {
      forall d | 0 <= d < |ixs| - 1 ensures ixs[1..][d].Range? ==> a[1..][d] == 1 || a[1..][d] == SliceLen(ixs[1..][d].s, b[1..][d]) {
        assert ixs[d + 1] == ixs[1..][d];
      }
    }
  }

  lemma {:induction false} LeadFitsCons(p: nat, x: seq<nat>, q: nat, y: seq<nat>)
    ensures LeadFits([p] + x, [q] + y) <==> (p == 1 || p == q) && LeadFits(x, y)
  {
    if LeadFits([p] + x, [q] + y) {
      assert ([p] + x)[0] == p && ([q] + y)[0] == q;
      forall d | 0 <= d < |x| ensures x[d] == 1 || x[d] == y[d] {
        assert ([p] + x)[d + 1] == x[d] && ([q] + y)[d + 1] == y[d];
      }
    }
  }

  /** Where the leading index of the product comes from, `A` reads the same place as the indexed `A`. */
  lemma {:induction false} LeadSources(ixs: seq<Index>, a: seq<nat>, b: seq<nat>, x: seq<nat>)
    requires |ixs| == |a| == |b| && IndicesOk(ixs, b) && LeadFits(a, b) && RangesFit(ixs, a, b)
    requires InShape(x, IndexedShape(ixs, b))
    ensures IndicesOk(LeadIndicesA(ixs, a), a) && |IndexedShape(LeadIndicesA(ixs, a), a)| == |x|
    ensures |Source(ixs, b, x)| == |a|
    ensures Shrink(a, Source(ixs, b, x)) == Source(LeadIndicesA(ixs, a), a, Shrink(IndexedShape(LeadIndicesA(ixs, a), a), x))
    decreases |ixs|
  {
    var la := LeadIndicesA(ixs, a);
    if ixs != [] {
      assert la[1..] == LeadIndicesA(ixs[1..], a[1..]);
      RangesFitTail(ixs, a, b);
      assert a == [a[0]] + a[1..] && b == [b[0]] + b[1..];
      LeadFitsCons(a[0], a[1..], b[0], b[1..]);
      FullLen(a[0]);
      var inner := if ixs[0].At? then x else x[1..];
      if ixs[0].Range? { InShapeDrop(x, IndexedShape(ixs, b)); }
      LeadSources(ixs[1..], a[1..], b[1..], inner);
      var src := Source(ixs[1..], b[1..], inner);
      var head := if ixs[0].At? then Pick(ixs[0].i, b[0]) else SlicePos(ixs[0].s, b[0], x[0]);
      ShrinkFirst(a, [head] + src);
      assert ([head] + src)[1..] == src;
      HeadReads(ixs[0], a[0], b[0], if ixs[0].At? then 0 else x[0]);
      if ixs[0].Range? { ShrinkFirst(IndexedShape(la, a), x); }
    }
  }

  /** One leading position. */
  lemma {:induction false} HeadReads(ix: Index, a: nat, b: nat, x: nat)
    requires IndexOk(ix, b) && (a == 1 || a == b)
    requires ix.Range? ==> x < SliceLen(ix.s, b) && (a == 1 || a == SliceLen(ix.s, b))
    ensures IndexOk(LeadIndexA(ix, a), a)
    ensures ix.At? ==> Pick(LeadIndexA(ix, a).i, a) == (if a == 1 then 0 else Pick(ix.i, b))
    ensures ix.Range? ==> (if a == 1 then 0 else x) == (if a == 1 then 0 else SlicePos(ix.s, b, x))
  {
    if ix.Range? && a > 1 { WholeSlice(ix.s, b); }
    if ix.At? {
      assert a > 0;
      if ix.i < 0 { DivModUnique(0, b, ix.i + b); assert ix.i == -1 * b + (ix.i + b); }
    }
  }

  // ----- the whole tuple

  /** A tuple, padded to the pair's rank, whose last two entries are slices. */
  predicate SlicesMatrix(full: seq<Index>, n: nat) {
    |full| == n >= 2 && full[n - 2].Range? && full[n - 1].Range?
  }

  lemma {:induction false} SplitFull(full: seq<Index>)
    requires |full| >= 2
    ensures full == full[..|full| - 2] + [full[|full| - 2], full[|full| - 1]]
    ensures full[..|full| - 1] == full[..|full| - 2] + [full[|full| - 2]]
  {
  }

  lemma {:induction false} TwoIndices(row: Index, col: Index, m: nat, n: nat)
    requires row.Range? && col.Range? && IndexOk(row, m) && IndexOk(col, n)
    ensures IndicesOk([row, col], [m, n]) && IndexedShape([row, col], [m, n]) == [SliceLen(row.s, m), SliceLen(col.s, n)]
    ensures forall i: nat, j: nat :: Source([row, col], [m, n], [i, j]) == [SlicePos(row.s, m, i), SlicePos(col.s, n, j)]
  {
    OneIndexShape(col, [n]);
    assert [row, col][1..] == [col] && [m, n][1..] == [n];
    forall i: nat, j: nat ensures Source([row, col], [m, n], [i, j]) == [SlicePos(row.s, m, i), SlicePos(col.s, n, j)] {
      OneIndexSource(col, [n], [j]);
      assert [i, j][1..] == [j] && [j][1..] == [];
    }
  }

  /** What a tuple-indexed pair's factors are made of. */
  lemma {:induction false} TupleMade(l: Lora, full: seq<Index>)
    requires Constructed(l) && SlicesMatrix(full, |l.A.shape|) && GetTuple(l, full).Made?
    ensures var t := GetTuple(l, full).l; var n := |l.A.shape|; var lead := full[..n - 2];
            var ixsA := LeadIndicesA(lead, Lead(l.A.shape));
            && IndicesOk(lead, Lead(l.B.shape)) && IndicesOk(ixsA, Lead(l.A.shape))
            && IndexOk(full[n - 2], l.B.shape[n - 2]) && IndexOk(full[n - 1], Last(l.A.shape))
            && IndicesOk(ixsA + [Range(FULL), full[n - 1]], l.A.shape) && IndicesOk(lead + [full[n - 2]], l.B.shape)
            && t == Lora(GetItem(l.A, ixsA + [Range(FULL), full[n - 1]]), GetItem(l.B, lead + [full[n - 2]]))
  {
    var n := |l.A.shape|;
    var lead := full[..n - 2];
    SplitFull(full);
    assert LeadIndicesA(lead, l.A.shape) == LeadIndicesA(lead, Lead(l.A.shape));
    var ixsA := LeadIndicesA(lead, Lead(l.A.shape));
    assert ixsA + [Range(FULL)] + [full[n - 1]] == ixsA + [Range(FULL), full[n - 1]];
    assert PadIndices(full, n) == full;
    forall d | 0 <= d < n - 2 ensures IndexOk(lead[d], Lead(l.B.shape)[d]) && IndexOk(ixsA[d], Lead(l.A.shape)[d]) {
      assert IndexOk((lead + [full[n - 2]])[d], l.B.shape[d]);
      assert IndexOk((ixsA + [Range(FULL), full[n - 1]])[d], l.A.shape[d]);
    }
    assert IndexOk((lead + [full[n - 2]])[n - 2], l.B.shape[n - 2]);
    assert IndexOk((ixsA + [Range(FULL), full[n - 1]])[n - 1], l.A.shape[n - 1]);
  }

  lemma {:induction false} TupleShapeA(l: Lora, full: seq<Index>)
    requires Constructed(l) && SlicesMatrix(full, |l.A.shape|) && GetTuple(l, full).Made?
    ensures var t := GetTuple(l, full).l; var a := IndexedShape(LeadIndicesA(full[..|full| - 2], Lead(l.A.shape)), Lead(l.A.shape));
            t.A.shape == a + [RankOf(l), SliceLen(full[|full| - 1].s, Last(l.A.shape))] && Lead(t.A.shape) == a
  {
    var ixsA := LeadIndicesA(full[..|full| - 2], Lead(l.A.shape));
    var col := full[|full| - 1];
    var more := [RankOf(l), Last(l.A.shape)];
    TupleMade(l, full);
    assert l.A.shape == Lead(l.A.shape) + more;
    ShapeConcat(ixsA, [Range(FULL), col], Lead(l.A.shape), more);
    TwoIndices(Range(FULL), col, RankOf(l), Last(l.A.shape));
    FullLen(RankOf(l));
  }

  lemma {:induction false} TupleShapeB(l: Lora, full: seq<Index>)
    requires Constructed(l) && SlicesMatrix(full, |l.A.shape|) && GetTuple(l, full).Made?
    ensures var t := GetTuple(l, full).l; var n := |full|; var b := IndexedShape(full[..n - 2], Lead(l.B.shape));
            t.B.shape == b + [SliceLen(full[n - 2].s, l.B.shape[n - 2]), RankOf(l)] && Lead(t.B.shape) == b
  {
    var n := |full|;
    var row := full[n - 2];
    var more := [l.B.shape[n - 2], RankOf(l)];
    TupleMade(l, full);
    assert l.B.shape == Lead(l.B.shape) + more;
    ShapeConcat(full[..n - 2], [row], Lead(l.B.shape), more);
    OneIndexShape(row, more);
    assert more[1..] == [RankOf(l)];
  }

  lemma {:induction false} TupleShapes(l: Lora, full: seq<Index>)
    requires Constructed(l) && SlicesMatrix(full, |l.A.shape|) && GetTuple(l, full).Made?
    ensures var t := GetTuple(l, full).l; var n := |l.A.shape|; var lead := full[..n - 2];
            var a := IndexedShape(LeadIndicesA(lead, Lead(l.A.shape)), Lead(l.A.shape)); var b := IndexedShape(lead, Lead(l.B.shape));
            && t.A.shape == a + [RankOf(l), SliceLen(full[n - 1].s, Last(l.A.shape))]
            && t.B.shape == b + [SliceLen(full[n - 2].s, l.B.shape[n - 2]), RankOf(l)]
            && Lead(t.A.shape) == a && Lead(t.B.shape) == b && RankOf(t) == RankOf(l)
  {
    TupleShapeA(l, full);
    TupleShapeB(l, full);
  }

  /** A tuple of integers and slices leaves a valid pair exactly when every slice of a leading dimension
      meets a single row of `A`, or keeps as many rows as `A` has. */
  lemma {:induction false} TupleValidExactly(l: Lora, full: seq<Index>)
    requires Valid(l) && SlicesMatrix(full, |l.A.shape|) && GetTuple(l, full).Made?
    ensures Valid(GetTuple(l, full).l) <==> RangesFit(full[..|full| - 2], Lead(l.A.shape), Lead(l.B.shape))
  {
    TupleShapes(l, full);
    LeadFitsAfter(full[..|full| - 2], Lead(l.A.shape), Lead(l.B.shape));
  }

  /** A row of the matrix of an indexed tensor, read in the tensor. */
  lemma {:induction false} RowGiven(t: Tensor, lead: seq<Index>, row: Index, outer: seq<nat>, m: nat, r: nat, x: seq<nat>, i: nat, k: nat)
    requires t.shape == outer + [m, r] && |lead| == |outer| && IndicesOk(lead, outer) && IndexOk(row, m) && row.Range?
    requires |x| == Kept(lead)
    ensures IndicesOk(lead + [row], t.shape)
    ensures GetItem(t, lead + [row]).at(x + [i] + [k]) == t.at(Source(lead, outer, x) + [SlicePos(row.s, m, i)] + [k])
  {
    SourceConcat(lead, [row], outer, [m, r], x, [i, k]);
    OneIndexSource(row, [m, r], [i, k]);
    assert [i, k][1..] == [k];
    assert x + [i] + [k] == x + [i, k];
    var src, p := Source(lead, outer, x), SlicePos(row.s, m, i);
    assert src + ([p] + [k]) == src + [p] + [k];
  }

  /** An element of the matrix of an indexed tensor whose rows are all kept. */
  lemma {:induction false} ColumnGiven(t: Tensor, lead: seq<Index>, col: Index, outer: seq<nat>, r: nat, n: nat, y: seq<nat>, k: nat, j: nat)
    requires t.shape == outer + [r, n] && |lead| == |outer| && IndicesOk(lead, outer) && IndexOk(col, n) && col.Range?
    requires |y| == Kept(lead) && IndexOk(Range(FULL), r)
    ensures IndicesOk(lead + [Range(FULL), col], t.shape)
    ensures GetItem(t, lead + [Range(FULL), col]).at(y + [k] + [j]) == t.at(Source(lead, outer, y) + [k] + [SlicePos(col.s, n, j)])
  {
    TwoIndices(Range(FULL), col, r, n);
    FullLen(r);
    SourceConcat(lead, [Range(FULL), col], outer, [r, n], y, [k, j]);
    assert y + [k] + [j] == y + [k, j];
    var src, q := Source(lead, outer, y), SlicePos(col.s, n, j);
    assert src + [k, q] == src + [k] + [q];
  }

  lemma {:induction false} TupleLead(l: Lora, full: seq<Index>, x: seq<nat>)
    requires Valid(l) && SlicesMatrix(full, |l.A.shape|) && GetTuple(l, full).Made?
    requires InShape(x, IndexedShape(full[..|full| - 2], Lead(l.B.shape)))
    ensures var lead := full[..|full| - 2]; var t := GetTuple(l, full).l;
            && |x| == Kept(lead) == |t.A.shape| - 2 && IndicesOk(lead, Lead(l.B.shape))
            && InShape(Source(lead, Lead(l.B.shape), x), Lead(l.B.shape)) && InShape(x, Lead(t.B.shape))
  {
    var lead := full[..|full| - 2];
    TupleMade(l, full);
    TupleShapes(l, full);
    ShapeConcat(lead, [], Lead(l.B.shape), []);
    SourceInShape(lead, Lead(l.B.shape), x);
    assert IndexedShape(lead, Lead(l.B.shape)) == Lead(GetTuple(l, full).l.B.shape);
  }

  lemma {:induction false} SplitB(l: Lora)
    requires Constructed(l)
    ensures l.B.shape == Lead(l.B.shape) + [l.B.shape[|l.B.shape| - 2], RankOf(l)]
    ensures l.A.shape == Lead(l.A.shape) + [RankOf(l), Last(l.A.shape)]
  {
  }

  lemma {:induction false} TupleFactorB(l: Lora, full: seq<Index>, x: seq<nat>, i: nat, k: nat)
    requires Valid(l) && SlicesMatrix(full, |l.A.shape|) && GetTuple(l, full).Made?
    requires InShape(x, IndexedShape(full[..|full| - 2], Lead(l.B.shape)))
    ensures var n := |full|; var lead := full[..n - 2]; var t := GetTuple(l, full).l;
            && |x| == |t.A.shape| - 2 && IndicesOk(lead, Lead(l.B.shape)) && |Source(lead, Lead(l.B.shape), x)| == n - 2
            && FactorB(t, x, i, k) == FactorB(l, Source(lead, Lead(l.B.shape), x), SlicePos(full[n - 2].s, l.B.shape[n - 2], i), k)
  {
    var n := |full|;
    var lead := full[..n - 2];
    TupleMade(l, full);
    TupleLead(l, full, x);
    ShrinkInside(Lead(GetTuple(l, full).l.B.shape), x);
    ShrinkInside(Lead(l.B.shape), Source(lead, Lead(l.B.shape), x));
    SplitB(l);
    RowGiven(l.B, lead, full[n - 2], Lead(l.B.shape), l.B.shape[n - 2], RankOf(l), x, i, k);
  }

  lemma {:induction false} KeptSame(lead: seq<Index>, a: seq<nat>)
    requires |lead| == |a|
    ensures Kept(LeadIndicesA(lead, a)) == Kept(lead)
    decreases |lead|
  {
    if lead != [] {
      KeptSame(lead[1..], a[1..]);
      assert LeadIndicesA(lead, a)[1..] == LeadIndicesA(lead[1..], a[1..]);
    }
  }

  lemma {:induction false} TupleFactorA(l: Lora, full: seq<Index>, x: seq<nat>, j: nat, k: nat)
    requires Valid(l) && SlicesMatrix(full, |l.A.shape|) && GetTuple(l, full).Made? && Valid(GetTuple(l, full).l)
    requires InShape(x, IndexedShape(full[..|full| - 2], Lead(l.B.shape)))
    ensures var n := |full|; var lead := full[..n - 2]; var t := GetTuple(l, full).l;
            && |x| == |t.A.shape| - 2 && IndicesOk(lead, Lead(l.B.shape)) && |Source(lead, Lead(l.B.shape), x)| == n - 2
            && FactorA(t, x, k, j) == FactorA(l, Source(lead, Lead(l.B.shape), x), k, SlicePos(full[n - 1].s, Last(l.A.shape), j))
  {
    var n := |full|;
    var lead := full[..n - 2];
    var a := Lead(l.A.shape);
    var ixsA := LeadIndicesA(lead, a);
    TupleMade(l, full);
    TupleLead(l, full, x);
    TupleShapeA(l, full);
    TupleValidExactly(l, full);
    LeadSources(lead, a, Lead(l.B.shape), x);
    ShapeConcat(ixsA, [], a, []);
    SplitB(l);
    ColumnGiven(l.A, ixsA, full[n - 1], a, RankOf(l), Last(l.A.shape), Shrink(IndexedShape(ixsA, a), x), k, j);
  }

  lemma {:induction false} TupleProductAt(l: Lora, full: seq<Index>, x: seq<nat>, i: nat, j: nat)
    requires Valid(l) && SlicesMatrix(full, |l.A.shape|) && GetTuple(l, full).Made? && Valid(GetTuple(l, full).l)
    requires InShape(x, IndexedShape(full[..|full| - 2], Lead(l.B.shape)))
    ensures var n := |full|; var lead := full[..n - 2]; var t := GetTuple(l, full).l;
            && |x| == |t.A.shape| - 2 && IndicesOk(lead, Lead(l.B.shape)) && |Source(lead, Lead(l.B.shape), x)| == n - 2
            && ProductAt(t, x, i, j) == ProductAt(l, Source(lead, Lead(l.B.shape), x),
                                                  SlicePos(full[n - 2].s, l.B.shape[n - 2], i), SlicePos(full[n - 1].s, Last(l.A.shape), j))
  {
    hide SlicePos, FactorA, FactorB, IndexedShape, Source, GetTuple;
    var n := |full|;
    var t := GetTuple(l, full).l;
    TupleShapes(l, full);
    TupleFactorB(l, full, x, i, 0);
    var src := Source(full[..n - 2], Lead(l.B.shape), x);
    var p, q := SlicePos(full[n - 2].s, l.B.shape[n - 2], i), SlicePos(full[n - 1].s, Last(l.A.shape), j);
    forall k: nat | k < RankOf(l) ensures Term(t, x, i, j, k) == Term(l, src, p, q, k) {
      TupleFactorB(l, full, x, i, k);
      TupleFactorA(l, full, x, j, k);
    }
    ProductAtSame(t, l, x, i, j, src, p, q);
  }

  lemma {:induction false} ConcatOk(a: seq<Index>, b: seq<Index>, shape: seq<nat>, more: seq<nat>)
    requires |a| == |shape| && IndicesOk(a, shape) && IndicesOk(b, more)
    ensures IndicesOk(a + b, shape + more)
  {
  }

  lemma {:induction false} MatrixShape(lead: seq<Index>, row: Index, col: Index, outer: seq<nat>, m: nat, n: nat)
    requires |lead| == |outer| && IndicesOk(lead, outer) && row.Range? && col.Range? && IndexOk(row, m) && IndexOk(col, n)
    ensures IndicesOk(lead + [row, col], outer + [m, n])
    ensures IndexedShape(lead + [row, col], outer + [m, n]) == IndexedShape(lead, outer) + [SliceLen(row.s, m), SliceLen(col.s, n)]
  {
    TwoIndices(row, col, m, n);
    ShapeConcat(lead, [row, col], outer, [m, n]);
    ConcatOk(lead, [row, col], outer, [m, n]);
  }

  /** Indexing the product itself with the tuple. */
  lemma {:induction false} TupleOfProduct(l: Lora, full: seq<Index>)
    requires Valid(l) && SlicesMatrix(full, |l.A.shape|) && GetTuple(l, full).Made?
    ensures var n := |full|; var lead := full[..n - 2];
            && Multiplies(l) && IndicesOk(full, Product(l).shape) && IndicesOk(lead, Lead(l.B.shape))
            && IndexedShape(full, Product(l).shape) ==
                 IndexedShape(lead, Lead(l.B.shape)) + [SliceLen(full[n - 2].s, l.B.shape[n - 2]), SliceLen(full[n - 1].s, Last(l.A.shape))]
  {
    var n := |full|;
    TupleMade(l, full);
    ProductShape(l);
    SplitFull(full);
    MatrixShape(full[..n - 2], full[n - 2], full[n - 1], Lead(l.B.shape), l.B.shape[n - 2], Last(l.A.shape));
  }

  lemma {:induction false} MatrixSource(lead: seq<Index>, row: Index, col: Index, outer: seq<nat>, m: nat, n: nat, x: seq<nat>, i: nat, j: nat)
    requires |lead| == |outer| && IndicesOk(lead, outer) && row.Range? && col.Range? && IndexOk(row, m) && IndexOk(col, n)
    requires |x| == Kept(lead)
    ensures IndicesOk(lead + [row, col], outer + [m, n])
    ensures Source(lead + [row, col], outer + [m, n], x + [i, j]) ==
            Source(lead, outer, x) + [SlicePos(row.s, m, i), SlicePos(col.s, n, j)]
  {
    TwoIndices(row, col, m, n);
    SourceConcat(lead, [row, col], outer, [m, n], x, [i, j]);
  }

  lemma {:induction false} TupleSource(l: Lora, full: seq<Index>, x: seq<nat>, i: nat, j: nat)
    requires Valid(l) && SlicesMatrix(full, |l.A.shape|) && GetTuple(l, full).Made? && |x| == Kept(full[..|full| - 2])
    ensures var n := |full|; var lead := full[..n - 2];
            && Multiplies(l) && IndicesOk(full, Product(l).shape) && IndicesOk(lead, Lead(l.B.shape))
            && Source(full, Product(l).shape, x + [i, j]) ==
                 Source(lead, Lead(l.B.shape), x) + [SlicePos(full[n - 2].s, l.B.shape[n - 2], i), SlicePos(full[n - 1].s, Last(l.A.shape), j)]
  {
    var n := |full|;
    TupleMade(l, full);
    ProductShape(l);
    SplitFull(full);
    MatrixSource(full[..n - 2], full[n - 2], full[n - 1], Lead(l.B.shape), l.B.shape[n - 2], Last(l.A.shape), x, i, j);
  }

  lemma {:induction false} ProductShape(l: Lora)
    requires Valid(l)
    ensures Multiplies(l) && Product(l).shape == Lead(l.B.shape) + [l.B.shape[|l.B.shape| - 2], Last(l.A.shape)]
  {
    ValidMultiplies(l);
    SplitB(l);
  }

  lemma {:induction false} ProductAtTwo(l: Lora, lead: seq<nat>, i: nat, j: nat)
    requires Constructed(l) && Multiplies(l) && |lead| == |l.A.shape| - 2
    ensures Product(l).at(lead + [i, j]) == ProductAt(l, lead, i, j)
  {
    assert (lead + [i, j])[..|lead|] == lead;
  }

  lemma {:induction false} TupleElement(l: Lora, full: seq<Index>, x: seq<nat>, i: nat, j: nat)
    requires Valid(l) && SlicesMatrix(full, |l.A.shape|) && GetTuple(l, full).Made? && Valid(GetTuple(l, full).l)
    requires InShape(x, IndexedShape(full[..|full| - 2], Lead(l.B.shape))) && Multiplies(GetTuple(l, full).l)
    ensures Multiplies(l) && IndicesOk(full, Product(l).shape)
    ensures Product(GetTuple(l, full).l).at(x + [i, j]) == GetItem(Product(l), full).at(x + [i, j])
  {
    TupleProductAt(l, full, x, i, j);
    ShapeConcat(full[..|full| - 2], [], Lead(l.B.shape), []);
    TupleSource(l, full, x, i, j);
    ProductAtTwo(GetTuple(l, full).l, x, i, j);
    var n := |full|;
    ProductAtTwo(l, Source(full[..n - 2], Lead(l.B.shape), x), SlicePos(full[n - 2].s, l.B.shape[n - 2], i), SlicePos(full[n - 1].s, Last(l.A.shape), j));
  }

  /** Indexing with a tuple whose last two entries are slices commutes with multiplying out whenever it
      leaves a valid pair. */
  lemma {:induction false} TupleCommutes(l: Lora, full: seq<Index>)
    requires Valid(l) && SlicesMatrix(full, |l.A.shape|) && GetTuple(l, full).Made? && Valid(GetTuple(l, full).l)
    ensures var t := GetTuple(l, full).l;
            && Multiplies(t) && Multiplies(l) && IndicesOk(full, Product(l).shape)
            && Same(Product(t), GetItem(Product(l), full))
  {
    var t := GetTuple(l, full).l;
    TupleProductShape(l, full);
    forall idx | InShape(idx, Product(t).shape) ensures Product(t).at(idx) == GetItem(Product(l), full).at(idx) {
      var x, i, j := TupleIndex(idx, IndexedShape(full[..|full| - 2], Lead(l.B.shape)),
                                SliceLen(full[|full| - 2].s, l.B.shape[|full| - 2]), SliceLen(full[|full| - 1].s, Last(l.A.shape)));
      TupleElement(l, full, x, i, j);
    }
  }

  lemma {:induction false} PaddedTuple(l: Lora, ixs: seq<Index>)
    requires Constructed(l) && ixs != []
    ensures GetTuple(l, ixs) == GetTuple(l, PadIndices(ixs, |l.A.shape|))
  {
    var n := |l.A.shape|;
    assert PadIndices(PadIndices(ixs, n), n) == PadIndices(ixs, n);
  }

  /** Full slices behind an index change nothing. */
  lemma {:induction false} FullBehind(ixs: seq<Index>, m: nat, shape: seq<nat>)
    requires |ixs| + m <= |shape| && IndicesOk(ixs, shape)
    ensures IndicesOk(ixs + FullSlices(m), shape)
    ensures IndexedShape(ixs + FullSlices(m), shape) == IndexedShape(ixs, shape)
    ensures forall idx :: InShape(idx, IndexedShape(ixs, shape)) ==> Source(ixs + FullSlices(m), shape, idx) == Source(ixs, shape, idx)
    decreases |ixs|, m
  {
    var all := ixs + FullSlices(m);
    if ixs != [] {
      assert all[0] == ixs[0] && all[1..] == ixs[1..] + FullSlices(m);
      FullBehind(ixs[1..], m, shape[1..]);
      FullSource(ixs, all, shape);
    } else if m > 0 {
      assert all[0] == Range(FULL) && all[1..] == ixs + FullSlices(m - 1);
      FullLen(shape[0]);
      FullBehind(ixs, m - 1, shape[1..]);
      FullFirst(all, shape);
    } else {
      assert all == ixs;
    }
  }

  lemma {:induction false} FullSource(ixs: seq<Index>, all: seq<Index>, shape: seq<nat>)
    requires ixs != [] && all != [] && all[0] == ixs[0] && IndicesOk(ixs, shape) && IndicesOk(all, shape)
    requires IndexedShape(all[1..], shape[1..]) == IndexedShape(ixs[1..], shape[1..])
    requires forall idx :: InShape(idx, IndexedShape(ixs[1..], shape[1..])) ==> Source(all[1..], shape[1..], idx) == Source(ixs[1..], shape[1..], idx)
    ensures forall idx :: InShape(idx, IndexedShape(ixs, shape)) ==> Source(all, shape, idx) == Source(ixs, shape, idx)
  {
    forall idx | InShape(idx, IndexedShape(ixs, shape)) ensures Source(all, shape, idx) == Source(ixs, shape, idx) {
      if ixs[0].Range? { InShapeDrop(idx, IndexedShape(ixs, shape)); }
    }
  }

  lemma {:induction false} FullFirst(all: seq<Index>, shape: seq<nat>)
    requires all != [] && all[0] == Range(FULL) && IndicesOk(all, shape) && IndexedShape(all[1..], shape[1..]) == shape[1..]
    requires forall idx :: InShape(idx, shape[1..]) ==> Source(all[1..], shape[1..], idx) == idx
    ensures IndexedShape(all, shape) == shape
    ensures forall idx :: InShape(idx, shape) ==> Source(all, shape, idx) == idx
  {
    FullLen(shape[0]);
    forall idx | InShape(idx, shape) ensures Source(all, shape, idx) == idx {
      InShapeDrop(idx, shape);
      assert idx == [idx[0]] + idx[1..];
    }
  }

  /** The same for any tuple, short ones included, as the product itself would be indexed with it. */
  lemma {:induction false} AnyTupleCommutes(l: Lora, ixs: seq<Index>)
    requires Valid(l) && SlicesMatrix(PadIndices(ixs, |l.A.shape|), |l.A.shape|)
    requires GetTuple(l, ixs).Made? && Valid(GetTuple(l, ixs).l)
    ensures var t := GetTuple(l, ixs).l;
            && Multiplies(t) && Multiplies(l) && IndicesOk(ixs, Product(l).shape)
            && Same(Product(t), GetItem(Product(l), ixs))
  {
    var full := PadIndices(ixs, |l.A.shape|);
    PaddedTuple(l, ixs);
    TupleCommutes(l, full);
    ProductShape(l);
    assert full == ixs + FullSlices(|full| - |ixs|);
    assert forall d :: 0 <= d < |ixs| ==> full[d] == ixs[d];
    FullBehind(ixs, |full| - |ixs|, Product(l).shape);
  }

  lemma {:induction false} TupleProductShape(l: Lora, full: seq<Index>)
    requires Valid(l) && SlicesMatrix(full, |l.A.shape|) && GetTuple(l, full).Made? && Valid(GetTuple(l, full).l)
    ensures var t := GetTuple(l, full).l; var n := |full|;
            && IndicesOk(full[..n - 2], Lead(l.B.shape)) && Multiplies(t) && Multiplies(l) && IndicesOk(full, Product(l).shape)
            && Product(t).shape == IndexedShape(full, Product(l).shape)
            && Product(t).shape == IndexedShape(full[..n - 2], Lead(l.B.shape)) + [SliceLen(full[n - 2].s, l.B.shape[n - 2]), SliceLen(full[n - 1].s, Last(l.A.shape))]
  {
    TupleMade(l, full);
    TupleOfProduct(l, full);
    TupleReported(l, full);
    ValidMultiplies(GetTuple(l, full).l);
  }

  lemma {:induction false} TupleReported(l: Lora, full: seq<Index>)
    requires Constructed(l) && SlicesMatrix(full, |l.A.shape|) && GetTuple(l, full).Made?
    ensures var n := |full|;
            ShapeOf(GetTuple(l, full).l) == IndexedShape(full[..n - 2], Lead(l.B.shape)) + [SliceLen(full[n - 2].s, l.B.shape[n - 2]), SliceLen(full[n - 1].s, Last(l.A.shape))]
  {
    TupleShapes(l, full);
  }

  lemma {:induction false} TupleIndex(idx: seq<nat>, b: seq<nat>, m: nat, n: nat) returns (x: seq<nat>, i: nat, j: nat)
    requires InShape(idx, b + [m, n])
    ensures idx == x + [i, j] && InShape(x, b)
  {
    InShapeTake(idx, b + [m, n], |b|);
    assert (b + [m, n])[..|b|] == b;
    x, i, j := idx[..|b|], idx[|b|], idx[|b| + 1];
  }

  /** Picking one row but all columns, or one column but all rows, is never accepted. */
  lemma {:induction false} OneOfRowAndColumnRejected(l: Lora, full: seq<Index>)
    requires Constructed(l) && |full| == |l.A.shape| && full[|full| - 2].At? != full[|full| - 1].At?
    ensures !GetTuple(l, full).Made?
  {
    var n := |full|;
    var lead := full[..n - 2];
    assert PadIndices(full, n) == full;
    if GetTuple(l, full).Made? { TupleRanks(l, full); }
  }

  /** How many dimensions the factors of a tuple-indexed pair have. */
  lemma {:induction false} TupleRanks(l: Lora, full: seq<Index>)
    requires Constructed(l) && |full| == |l.A.shape| && GetTuple(l, full).Made?
    ensures var t := GetTuple(l, full).l; var n := |full|; var kept := Kept(full[..n - 2]);
            && |t.A.shape| == kept + (if full[n - 1].At? then 1 else 2)
            && |t.B.shape| == kept + (if full[n - 2].At? then 1 else 2)
  {
    var n := |full|;
    var lead := full[..n - 2];
    assert PadIndices(full, n) == full;
    assert LeadIndicesA(lead, l.A.shape) == LeadIndicesA(lead, Lead(l.A.shape));
    var ixsA := LeadIndicesA(lead, Lead(l.A.shape));
    KeptSame(lead, Lead(l.A.shape));
    SplitFull(full);
    assert ixsA + [Range(FULL)] + [full[n - 1]] == ixsA + [Range(FULL), full[n - 1]];
    assert l.A.shape == Lead(l.A.shape) + [RankOf(l), Last(l.A.shape)];
    assert l.B.shape == Lead(l.B.shape) + [l.B.shape[n - 2], RankOf(l)];
    ShapeConcat(ixsA, [Range(FULL), full[n - 1]], Lead(l.A.shape), [RankOf(l), Last(l.A.shape)]);
    ShapeConcat(lead, [full[n - 2]], Lead(l.B.shape), [l.B.shape[n - 2], RankOf(l)]);
    TwoShapes(Range(FULL), full[n - 1], RankOf(l), Last(l.A.shape));
    OneShape(full[n - 2], [l.B.shape[n - 2], RankOf(l)]);
  }

  lemma {:induction false} OneShape(ix: Index, shape: seq<nat>)
    requires shape != []
    ensures |IndexedShape([ix], shape)| == |shape| - (if ix.At? then 1 else 0)
  {
    assert [ix][1..] == [];
  }

  lemma {:induction false} TwoShapes(row: Index, col: Index, m: nat, n: nat)
    requires row.Range?
    ensures |IndexedShape([row, col], [m, n])| == (if col.At? then 1 else 2)
  {
    assert [row, col][1..] == [col] && [m, n][1..] == [n];
    OneShape(col, [n]);
  }

  /** Picking a single element of the matrix is never right: if the constructor's checks happen to pass, the
      pair still reports one dimension more than the indexed product has. */
  lemma {:induction false} SingleElementNeverRight(l: Lora, full: seq<Index>)
    requires Constructed(l) && |full| == |l.A.shape| && full[|full| - 2].At? && full[|full| - 1].At? && GetTuple(l, full).Made?
    ensures |ShapeOf(GetTuple(l, full).l)| == |IndexedShape(full, ShapeOf(l))| + 1
  {
    var n := |full|;
    TupleRanks(l, full);
    SplitFull(full);
    var more := [l.B.shape[n - 2], Last(l.A.shape)];
    assert ShapeOf(l) == Lead(l.B.shape) + more;
    ShapeConcat(full[..n - 2], [full[n - 2], full[n - 1]], Lead(l.B.shape), more);
    assert [full[n - 2], full[n - 1]][1..] == [full[n - 1]] && more[1..] == [Last(l.A.shape)];
    OneShape(full[n - 1], [Last(l.A.shape)]);
  }
}
