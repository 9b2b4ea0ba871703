/** Stacking and concatenating pairs commute with multiplying them out. */
module LoraStacking {
  import opened Wrappers
  import opened Tensors
  import opened LoraTensor
  import opened LoraTheorems

  // ----- stack

  ghost predicate AllValid(ls: seq<Lora>) {
    forall i :: 0 <= i < |ls| ==> Valid(ls[i])
  }

  lemma {:induction false} ValidMultiplies(l: Lora)
    requires Valid(l)
    ensures Multiplies(l) && Product(l).shape == ShapeOf(l)
  {
    ValidExactly(l);
  }

  ghost function Products(ls: seq<Lora>): (r: seq<Tensor>)
    requires AllValid(ls)
    ensures |r| == |ls| && forall i :: 0 <= i < |ls| ==> Multiplies(ls[i]) && r[i] == Product(ls[i])
  {
    if ls == [] then [] else ValidMultiplies(ls[0]); [Product(ls[0])] + Products(ls[1..])
  }

  lemma {:induction false} ShrinkFirst(shape: seq<nat>, idx: seq<nat>)
    requires |idx| == |shape| > 0
    ensures Shrink(shape, idx) == [if shape[0] == 1 then 0 else idx[0]] + Shrink(shape[1..], idx[1..])
  {
  }

  lemma {:induction false} FirstOfThree(c: nat, lead: seq<nat>, i: nat, k: nat)
    ensures ([c] + lead) + [i] + [k] == [c] + (lead + [i] + [k])
  {
  }

  /** An element of a stacked factor is an element of the chosen pair's factor. */
  lemma {:induction false} StackedFactors(ls: seq<Lora>, c: nat, lead: seq<nat>, i: nat, j: nat, k: nat)
    requires StackLora(ls).Made? && c < |ls| && Constructed(ls[c]) && |lead| == |ls[c].A.shape| - 2
    requires InShape(lead, Lead(ls[c].B.shape))
    ensures var t := StackLora(ls).l;
            |t.A.shape| == |ls[c].A.shape| + 1 && RankOf(t) == RankOf(ls[c])
            && FactorB(t, [c] + lead, i, k) == FactorB(ls[c], lead, i, k)
            && FactorA(t, [c] + lead, k, j) == FactorA(ls[c], lead, k, j)
  {
    var t := StackLora(ls).l;
    assert FactorsA(ls)[c].shape == FactorsA(ls)[0].shape && FactorsB(ls)[c].shape == FactorsB(ls)[0].shape;
    assert t.A.shape == [|ls|] + ls[c].A.shape && t.B.shape == [|ls|] + ls[c].B.shape;
    assert Lead(t.A.shape) == [|ls|] + Lead(ls[c].A.shape) && Lead(t.B.shape) == [|ls|] + Lead(ls[c].B.shape);
    ShrinkFirst(Lead(t.A.shape), [c] + lead);
    ShrinkFirst(Lead(t.B.shape), [c] + lead);
    assert Lead(t.A.shape)[1..] == Lead(ls[c].A.shape) && Lead(t.B.shape)[1..] == Lead(ls[c].B.shape) && ([c] + lead)[1..] == lead;
    FirstOfThree(c, Shrink(Lead(ls[c].B.shape), lead), i, k);
    FirstOfThree(c, Shrink(Lead(ls[c].A.shape), lead), k, j);
    assert ([c] + (Shrink(Lead(ls[c].B.shape), lead) + [i] + [k]))[1..] == Shrink(Lead(ls[c].B.shape), lead) + [i] + [k];
    assert ([c] + (Shrink(Lead(ls[c].A.shape), lead) + [k] + [j]))[1..] == Shrink(Lead(ls[c].A.shape), lead) + [k] + [j];
  }

  lemma {:induction false} StackedValid(ls: seq<Lora>)
    requires AllValid(ls) && StackLora(ls).Made?
    ensures Valid(StackLora(ls).l) && ShapeOf(StackLora(ls).l) == [|ls|] + ShapeOf(ls[0])
  {
    var t := StackLora(ls).l;
    assert FactorsA(ls)[0] == ls[0].A && FactorsB(ls)[0] == ls[0].B;
    assert Lead(t.A.shape) == [|ls|] + Lead(ls[0].A.shape) && Lead(t.B.shape) == [|ls|] + Lead(ls[0].B.shape);
  }

  /** Stacking pairs commutes with multiplying out, whenever it is accepted. */
  lemma {:induction false} StackCommutes(ls: seq<Lora>)
    requires AllValid(ls) && StackLora(ls).Made?
    ensures var t := StackLora(ls).l;
            Valid(t) && Multiplies(t) && Same(Product(t), Stack(Products(ls)))
  {
    var t := StackLora(ls).l;
    StackedValid(ls);
    ValidMultiplies(t);
    ValidMultiplies(ls[0]);
    forall idx | InShape(idx, Product(t).shape) ensures Product(t).at(idx) == Stack(Products(ls)).at(idx) {
      StackedElement(ls, idx);
    }
  }

  lemma {:induction false} StackedProductAt(ls: seq<Lora>, c: nat, lead: seq<nat>, i: nat, j: nat)
    requires StackLora(ls).Made? && c < |ls| && Constructed(ls[c]) && |lead| == |ls[c].A.shape| - 2
    requires InShape(lead, Lead(ls[c].B.shape))
    ensures var t := StackLora(ls).l;
            |t.A.shape| == |ls[c].A.shape| + 1 && ProductAt(t, [c] + lead, i, j) == ProductAt(ls[c], lead, i, j)
  {
    var t := StackLora(ls).l;
    var l := ls[c];
    var deeper := [c] + lead;
    StackedFactors(ls, c, lead, i, j, 0);
    forall k: nat | k < RankOf(l) ensures Term(t, deeper, i, j, k) == Term(l, lead, i, j, k) {
      StackedFactors(ls, c, lead, i, j, k);
    }
    ProductAtSame(t, l, deeper, i, j, lead, i, j);
  }

  lemma {:induction false} InShapeDrop(idx: seq<nat>, shape: seq<nat>)
    requires InShape(idx, shape) && shape != []
    ensures InShape(idx[1..], shape[1..]) && idx[0] < shape[0]
  {
    forall d | 0 <= d < |shape| - 1 ensures idx[1..][d] < shape[1..][d] { assert idx[d + 1] < shape[d + 1]; }
  }

  lemma {:induction false} StackedShapes(ls: seq<Lora>, c: nat)
    requires AllValid(ls) && StackLora(ls).Made? && c < |ls|
    ensures ls[c].A.shape == ls[0].A.shape && ls[c].B.shape == ls[0].B.shape
  {
    assert FactorsA(ls)[c].shape == FactorsA(ls)[0].shape && FactorsB(ls)[c].shape == FactorsB(ls)[0].shape;
  }

  lemma {:induction false} SameRest(idx: seq<nat>, shape: seq<nat>)
    requires InShape(idx, shape) && |shape| >= 3
    ensures idx == [idx[0]] + idx[1..] && |idx[1..]| == |shape| - 1
    ensures idx[..|idx| - 2] == [idx[0]] + idx[1..][..|idx| - 3] && idx[1..][|idx| - 3] == idx[|idx| - 2] && idx[1..][|idx| - 2] == idx[|idx| - 1]
  {
  }

  /** The member of the stack and the index inside it. */
  lemma {:induction false} StackedPlace(ls: seq<Lora>, idx: seq<nat>)
    requires AllValid(ls) && StackLora(ls).Made? && InShape(idx, ShapeOf(StackLora(ls).l))
    ensures |idx| >= 3 && idx[0] < |ls| && |ls[idx[0]].A.shape| == |idx| - 1 && |StackLora(ls).l.A.shape| == |idx|
    ensures InShape(idx[1..][..|idx| - 3], Lead(ls[idx[0]].B.shape))
  {
    StackedValid(ls);
    InShapeDrop(idx, ShapeOf(StackLora(ls).l));
    var c := idx[0];
    StackedShapes(ls, c);
    var n := |ls[c].A.shape|;
    assert InShape(idx[1..], ShapeOf(ls[c]));
    InShapeTake(idx[1..], ShapeOf(ls[c]), n - 2);
    assert ShapeOf(ls[c])[..n - 2] == Lead(ls[c].B.shape);
  }

  lemma {:induction false} StackReads(ts: seq<Tensor>, idx: seq<nat>)
    requires idx != [] && idx[0] < |ts|
    ensures Stack(ts).at(idx) == ts[idx[0]].at(idx[1..])
  {
  }

  lemma {:induction false} StackedElement(ls: seq<Lora>, idx: seq<nat>)
    requires AllValid(ls) && StackLora(ls).Made? && Multiplies(StackLora(ls).l) && InShape(idx, ShapeOf(StackLora(ls).l))
    ensures Product(StackLora(ls).l).at(idx) == Stack(Products(ls)).at(idx)
  {
    StackedPlace(ls, idx);
    SameRest(idx, ShapeOf(StackLora(ls).l));
    var c, rest, n := idx[0], idx[1..], |idx|;
    ProductReads(StackLora(ls).l, idx);
    StackedProductAt(ls, c, rest[..n - 3], rest[n - 3], rest[n - 2]);
    ValidMultiplies(ls[c]);
    ProductReads(ls[c], rest);
    StackReads(Products(ls), idx);
  }

  // ----- cat

  /** Which tensor of a concatenation row `i` falls in, and its row there. */
  function Locate(ts: seq<Tensor>, i: nat): (r: (nat, nat))
    requires i < SumRows(ts)
    ensures r.0 < |ts| && r.1 < Rows(ts[r.0])
    decreases |ts|
  {
    if i < Rows(ts[0]) then (0, i)
    else var r := Locate(ts[1..], i - Rows(ts[0])); (r.0 + 1, r.1)
  }

  lemma {:induction false} CatAtLocated(ts: seq<Tensor>, us: seq<Tensor>, i: nat, rest: seq<nat>)
    requires i < SumRows(ts) && |us| == |ts| && forall c :: 0 <= c < |ts| ==> Rows(us[c]) == Rows(ts[c])
    ensures var (c, i') := Locate(ts, i); CatAt(us, i, rest) == us[c].at([i'] + rest)
    decreases |ts|
  {
    if i >= Rows(ts[0]) {
      CatAtLocated(ts[1..], us[1..], i - Rows(ts[0]), rest);
    }
  }

  lemma {:induction false} SumRowsSame(ts: seq<Tensor>, us: seq<Tensor>)
    requires |us| == |ts| && forall c :: 0 <= c < |ts| ==> Rows(us[c]) == Rows(ts[c])
    ensures SumRows(us) == SumRows(ts)
    decreases |ts|
  {
    if ts != [] { SumRowsSame(ts[1..], us[1..]); }
  }

  lemma {:induction false} CatElement(ts: seq<Tensor>, us: seq<Tensor>, i: nat, rest: seq<nat>)
    requires i < SumRows(ts) && |us| == |ts| && forall c :: 0 <= c < |ts| ==> Rows(us[c]) == Rows(ts[c])
    ensures var (c, i') := Locate(ts, i); us != [] && Cat(us).at([i] + rest) == us[c].at([i'] + rest)
  {
    CatAtLocated(ts, us, i, rest);
    assert ([i] + rest)[1..] == rest;
  }

  /** No pair's `A` repeats its single leading row over several of `B`'s. */
  predicate Unbroadcast(ls: seq<Lora>) {
    forall i :: 0 <= i < |ls| ==> Rows(ls[i].A) == Rows(ls[i].B)
  }

  lemma {:induction false} CatFactors(ls: seq<Lora>, i: nat, lead: seq<nat>, r: nat, j: nat, k: nat)
    requires AllConstructed(ls) && CatLora(ls).Made?
    requires |ls[0].B.shape| > 2 && Unbroadcast(ls) && i < SumRows(FactorsB(ls))
    requires |lead| == |ls[0].B.shape| - 3
    ensures var t := CatLora(ls).l; var (c, i') := Locate(FactorsB(ls), i);
            && |t.A.shape| == |ls[c].A.shape| == |lead| + 3 && RankOf(t) == RankOf(ls[c])
            && FactorB(t, [i] + lead, r, k) == FactorB(ls[c], [i'] + lead, r, k)
            && FactorA(t, [i] + lead, k, j) == FactorA(ls[c], [i'] + lead, k, j)
  {
    var t := CatLora(ls).l;
    var (c, i') := Locate(FactorsB(ls), i);
    var l := ls[c];
    var as', bs := FactorsA(ls), FactorsB(ls);
    assert as'[c].shape[1..] == as'[0].shape[1..] && bs[c].shape[1..] == bs[0].shape[1..];
    SumRowsSame(bs, as');
    LeadTail(t.A.shape, l.A.shape);
    LeadTail(t.B.shape, l.B.shape);
    CatFactor(bs, bs, i, Lead(t.B.shape), Lead(l.B.shape), lead, r, k);
    CatFactor(bs, as', i, Lead(t.A.shape), Lead(l.A.shape), lead, k, j);
  }

  lemma {:induction false} LeadTail(a: seq<nat>, b: seq<nat>)
    requires |a| > 2 && |b| > 2 && a[1..] == b[1..]
    ensures |a| == |b| && Lead(a)[1..] == Lead(b)[1..] && Lead(a)[0] == a[0] && Lead(b)[0] == b[0] && Last(a) == Last(b)
  {
    assert a[1..][..|a| - 3] == Lead(a)[1..] && b[1..][..|b| - 3] == Lead(b)[1..];
    assert a[1..][|a| - 2] == Last(a);
  }

  lemma {:induction false} CatFactor(ts: seq<Tensor>, us: seq<Tensor>, i: nat, catLead: seq<nat>, oneLead: seq<nat>, lead: seq<nat>, p: nat, q: nat)
    requires i < SumRows(ts) && |us| == |ts| && forall c :: 0 <= c < |ts| ==> Rows(us[c]) == Rows(ts[c])
    requires |catLead| == |oneLead| == |lead| + 1 && catLead[1..] == oneLead[1..]
    requires catLead[0] == SumRows(ts) && oneLead[0] == Rows(ts[Locate(ts, i).0])
    ensures var (c, i') := Locate(ts, i);
            us != [] && Cat(us).at(Shrink(catLead, [i] + lead) + [p] + [q]) == us[c].at(Shrink(oneLead, [i'] + lead) + [p] + [q])
  {
    var (c, i') := Locate(ts, i);
    ShrinkFirst(catLead, [i] + lead);
    ShrinkFirst(oneLead, [i'] + lead);
    assert ([i] + lead)[1..] == lead && ([i'] + lead)[1..] == lead;
    var rest := Shrink(oneLead[1..], lead);
    FirstOfThree(i, rest, p, q);
    FirstOfThree(i', rest, p, q);
    CatElement(ts, us, i, rest + [p] + [q]);
  }

  lemma {:induction false} CatShapes(ls: seq<Lora>, c: nat)
    requires AllConstructed(ls) && CatLora(ls).Made? && c < |ls|
    ensures ls[c].B.shape[1..] == ls[0].B.shape[1..]
    ensures |ls[0].B.shape| > 2 ==> ls[c].A.shape[1..] == ls[0].A.shape[1..]
  {
    assert FactorsB(ls)[c].shape[1..] == FactorsB(ls)[0].shape[1..];
    if |ls[0].B.shape| > 2 { assert FactorsA(ls)[c].shape[1..] == FactorsA(ls)[0].shape[1..]; }
  }

  lemma {:induction false} CatProductAt(ls: seq<Lora>, i: nat, lead: seq<nat>, r: nat, j: nat)
    requires AllConstructed(ls) && CatLora(ls).Made?
    requires |ls[0].B.shape| > 2 && Unbroadcast(ls) && i < SumRows(FactorsB(ls)) && |lead| == |ls[0].B.shape| - 3
    ensures var t := CatLora(ls).l; var (c, i') := Locate(FactorsB(ls), i);
            |t.A.shape| == |ls[c].A.shape| == |lead| + 3 && ProductAt(t, [i] + lead, r, j) == ProductAt(ls[c], [i'] + lead, r, j)
  {
    var t := CatLora(ls).l;
    var (c, i') := Locate(FactorsB(ls), i);
    CatFactors(ls, i, lead, r, j, 0);
    forall k: nat ensures k < RankOf(ls[c]) ==> FactorB(t, [i] + lead, r, k) == FactorB(ls[c], [i'] + lead, r, k) {
      CatFactors(ls, i, lead, r, j, k);
    }
    forall k: nat ensures k < RankOf(ls[c]) ==> FactorA(t, [i] + lead, k, j) == FactorA(ls[c], [i'] + lead, k, j) {
      CatFactors(ls, i, lead, r, j, k);
    }
    ProductAtFactors(t, ls[c], [i] + lead, r, j, [i'] + lead, r);
  }

  lemma {:induction false} ProductAtFactors(l: Lora, m: Lora, lead: seq<nat>, i: nat, j: nat, lead': seq<nat>, i': nat)
    requires Constructed(l) && |lead| == |l.A.shape| - 2
    requires Constructed(m) && |lead'| == |m.A.shape| - 2 && RankOf(l) == RankOf(m)
    requires forall k: nat :: k < RankOf(l) ==> FactorB(l, lead, i, k) == FactorB(m, lead', i', k)
    requires forall k: nat :: k < RankOf(l) ==> FactorA(l, lead, k, j) == FactorA(m, lead', k, j)
    ensures ProductAt(l, lead, i, j) == ProductAt(m, lead', i', j)
  {
    ProductAtSame(l, m, lead, i, j, lead', i', j);
  }

  lemma {:induction false} ProductRows(ls: seq<Lora>)
    requires AllValid(ls)
    ensures forall c :: 0 <= c < |ls| ==> Rows(Products(ls)[c]) == Rows(FactorsB(ls)[c])
    ensures SumRows(Products(ls)) == SumRows(FactorsB(ls))
  {
    forall c | 0 <= c < |ls| ensures Rows(Products(ls)[c]) == Rows(FactorsB(ls)[c]) { ValidMultiplies(ls[c]); }
    SumRowsSame(FactorsB(ls), Products(ls));
  }

  lemma {:induction false} LeadFitsTail(x: seq<nat>, y: seq<nat>, a: seq<nat>, b: seq<nat>)
    requires |x| == |y| == |a| == |b| > 0 && LeadFits(a, b) && x[1..] == a[1..] && y[1..] == b[1..] && x[0] == y[0]
    ensures LeadFits(x, y)
  {
    forall d | 0 <= d < |x| ensures x[d] == 1 || x[d] == y[d] {
      if d > 0 {
        assert x[d] == x[1..][d - 1] == a[d] && y[d] == y[1..][d - 1] == b[d];
      }
    }
  }

  /** The shapes of the factors of a deep concatenation. */
  lemma {:induction false} CatDeepShapes(ls: seq<Lora>)
    requires AllConstructed(ls) && CatLora(ls).Made? && |ls[0].B.shape| > 2
    ensures var t := CatLora(ls).l;
            && t == Lora(Cat(FactorsA(ls)), Cat(FactorsB(ls))) && Constructed(t)
            && t.A.shape == [SumRows(FactorsA(ls))] + ls[0].A.shape[1..] && t.B.shape == [SumRows(FactorsB(ls))] + ls[0].B.shape[1..]
  {
    assert FactorsA(ls)[0] == ls[0].A && FactorsB(ls)[0] == ls[0].B;
  }

  lemma {:induction false} CatDeepReported(t: Lora, l: Lora, rows: nat)
    requires Constructed(t) && Constructed(l) && |l.B.shape| > 2
    requires t.A.shape[1..] == l.A.shape[1..] && t.B.shape == [rows] + l.B.shape[1..]
    ensures ShapeOf(t) == [rows] + ShapeOf(l)[1..]
  {
    var n := |t.B.shape|;
    assert t.B.shape[..n - 1] == [rows] + l.B.shape[1..][..n - 2];
    assert l.B.shape[1..][..n - 2] == l.B.shape[..n - 1][1..];
    assert t.A.shape[1..][n - 2] == l.A.shape[1..][n - 2];
  }

  lemma {:induction false} CatDeepFits(t: Lora, l: Lora)
    requires Constructed(t) && Valid(l) && |l.B.shape| > 2 && t.A.shape[0] == t.B.shape[0]
    requires t.A.shape[1..] == l.A.shape[1..] && t.B.shape[1..] == l.B.shape[1..]
    ensures Valid(t)
  {
    LeadTail(t.A.shape, l.A.shape);
    LeadTail(t.B.shape, l.B.shape);
    LeadFitsTail(Lead(t.A.shape), Lead(t.B.shape), Lead(l.A.shape), Lead(l.B.shape));
  }

  lemma {:induction false} CatDeepValid(ls: seq<Lora>)
    requires AllValid(ls) && CatLora(ls).Made? && |ls[0].B.shape| > 2 && Unbroadcast(ls)
    ensures var t := CatLora(ls).l;
            Valid(t) && ShapeOf(t) == [SumRows(FactorsB(ls))] + ShapeOf(ls[0])[1..] && |t.A.shape| == |ls[0].A.shape|
  {
    hide Cat, SumRows;
    SumRowsSame(FactorsB(ls), FactorsA(ls));
    CatDeepShapes(ls);
    hide CatLora;
    var t := CatLora(ls).l;
    assert t.A.shape[1..] == ls[0].A.shape[1..] && t.B.shape[1..] == ls[0].B.shape[1..];
    CatDeepFits(t, ls[0]);
    CatDeepReported(t, ls[0], SumRows(FactorsB(ls)));
  }

  /** Concatenating three-or-more-dimensional pairs commutes with multiplying out, when no `A` is broadcast
      along the first dimension. */
  lemma {:induction false} CatDeepCommutes(ls: seq<Lora>)
    requires AllValid(ls) && CatLora(ls).Made? && |ls[0].B.shape| > 2 && Unbroadcast(ls)
    ensures var t := CatLora(ls).l;
            Valid(t) && Multiplies(t) && Products(ls) != [] && Same(Product(t), Cat(Products(ls)))
  {
    var t := CatLora(ls).l;
    CatDeepValid(ls);
    ValidMultiplies(t);
    ValidMultiplies(ls[0]);
    ProductRows(ls);
    forall idx | InShape(idx, Product(t).shape) ensures Product(t).at(idx) == Cat(Products(ls)).at(idx) {
      CatDeepElement(ls, idx);
    }
  }

  lemma {:induction false} ProductAtParts(l: Lora, i: nat, lead: seq<nat>, r: nat, j: nat)
    requires Constructed(l) && Multiplies(l) && |l.A.shape| == |lead| + 3
    ensures Product(l).at([i] + (lead + [r] + [j])) == ProductAt(l, [i] + lead, r, j)
  {
    var idx := [i] + (lead + [r] + [j]);
    assert idx[..|lead| + 1] == [i] + lead && idx[|lead| + 1] == r && idx[|lead| + 2] == j;
  }

  lemma {:induction false} SplitIndex(idx: seq<nat>) returns (i: nat, lead: seq<nat>, r: nat, j: nat)
    requires |idx| >= 3
    ensures idx == [i] + (lead + [r] + [j]) && |lead| == |idx| - 3 && i == idx[0]
  {
    var n := |idx|;
    i, lead, r, j := idx[0], idx[1..n - 2], idx[n - 2], idx[n - 1];
  }

  lemma {:induction false} CatDeepElement(ls: seq<Lora>, idx: seq<nat>)
    requires AllValid(ls) && CatLora(ls).Made? && |ls[0].B.shape| > 2 && Unbroadcast(ls)
    requires Multiplies(CatLora(ls).l) && InShape(idx, ShapeOf(CatLora(ls).l))
    ensures Products(ls) != [] && Product(CatLora(ls).l).at(idx) == Cat(Products(ls)).at(idx)
  {
    CatDeepValid(ls);
    ProductRows(ls);
    assert idx[0] < SumRows(FactorsB(ls));
    var i, lead, r, j := SplitIndex(idx);
    CatDeepRow(ls, i, lead, r, j);
    ProductAtParts(CatLora(ls).l, i, lead, r, j);
    CatElement(FactorsB(ls), Products(ls), i, lead + [r] + [j]);
  }

  lemma {:induction false} CatDeepRow(ls: seq<Lora>, i: nat, lead: seq<nat>, r: nat, j: nat)
    requires AllValid(ls) && CatLora(ls).Made? && |ls[0].B.shape| > 2 && Unbroadcast(ls)
    requires i < SumRows(FactorsB(ls)) && |lead| == |ls[0].B.shape| - 3
    ensures var (c, i') := Locate(FactorsB(ls), i);
            |CatLora(ls).l.A.shape| == |lead| + 3 &&
            ProductAt(CatLora(ls).l, [i] + lead, r, j) == Products(ls)[c].at([i'] + (lead + [r] + [j]))
  {
    var (c, i') := Locate(FactorsB(ls), i);
    CatProductAt(ls, i, lead, r, j);
    ValidMultiplies(ls[c]);
    var idx := [i'] + (lead + [r] + [j]);
    assert idx[..|lead| + 1] == [i'] + lead && idx[|lead| + 1] == r && idx[|lead| + 2] == j;
  }

  // ----- cat of two-dimensional pairs

  lemma {:induction false} FlatFactors(l: Lora, i: nat, j: nat, k: nat)
    requires Constructed(l) && |l.A.shape| == 2
    ensures FactorB(l, [], i, k) == l.B.at([i] + [k]) && FactorA(l, [], k, j) == l.A.at([k] + [j])
  {
    assert Shrink([], []) + [i] == [i] && Shrink([], []) + [k] == [k];
    assert Lead(l.A.shape) == [] && Lead(l.B.shape) == [];
  }

  lemma {:induction false} CatFlatShapes(ls: seq<Lora>, c: nat)
    requires AllConstructed(ls) && CatLora(ls).Made? && |ls[0].B.shape| == 2 && c < |ls|
    ensures var t := CatLora(ls).l;
            && t.A == ls[0].A && |t.B.shape| == 2 && t.B.shape[0] == SumRows(FactorsB(ls)) && t.B.shape[1] == RankOf(ls[c])
            && |ls[c].A.shape| == 2 && Same(ls[0].A, ls[c].A)
  {
    CatShapes(ls, c);
    assert FactorsB(ls)[0] == ls[0].B && ls[0].B.shape[1..] == [ls[0].B.shape[1]];
    assert ls[c].B.shape[1..][0] == ls[c].B.shape[1];
  }

  lemma {:induction false} CatFlatRow(ls: seq<Lora>, i: nat, j: nat)
    requires AllConstructed(ls) && CatLora(ls).Made? && |ls[0].B.shape| == 2
    requires i < SumRows(FactorsB(ls)) && j < Last(ls[0].A.shape)
    ensures var t := CatLora(ls).l; var (c, i') := Locate(FactorsB(ls), i);
            |t.A.shape| == |ls[c].A.shape| == 2 && ProductAt(t, [], i, j) == ProductAt(ls[c], [], i', j)
  {
    var t := CatLora(ls).l;
    var (c, i') := Locate(FactorsB(ls), i);
    var l := ls[c];
    CatFlatShapes(ls, c);
    forall k: nat ensures k < RankOf(l) ==> FactorB(t, [], i, k) == FactorB(l, [], i', k) {
      FlatFactors(t, i, j, k);
      FlatFactors(l, i', j, k);
      CatElement(FactorsB(ls), FactorsB(ls), i, [k]);
    }
    forall k: nat ensures k < RankOf(l) ==> FactorA(t, [], k, j) == FactorA(l, [], k, j) {
      FlatFactors(t, i, j, k);
      FlatFactors(l, i', j, k);
      if k < RankOf(l) { assert InShape([k] + [j], ls[0].A.shape); }
    }
    ProductAtFactors(t, l, [], i, j, [], i');
  }

  lemma {:induction false} TwoPlaces(idx: seq<nat>, m: nat, n: nat) returns (i: nat, j: nat)
    requires InShape(idx, [m, n])
    ensures i < m && j < n && idx == [i] + [j]
  {
    i, j := idx[0], idx[1];
    assert idx[0] < [m, n][0] && idx[1] < [m, n][1];
  }

  lemma {:induction false} CatFlatAt(ls: seq<Lora>, idx: seq<nat>)
    requires AllValid(ls) && CatLora(ls).Made? && |ls[0].B.shape| == 2 && Multiplies(CatLora(ls).l) && Products(ls) != []
    requires InShape(idx, [SumRows(FactorsB(ls)), Last(ls[0].A.shape)])
    ensures Product(CatLora(ls).l).at(idx) == Cat(Products(ls)).at(idx)
  {
    var i, j := TwoPlaces(idx, SumRows(FactorsB(ls)), Last(ls[0].A.shape));
    CatFlatElement(ls, i, j);
  }

  /** Concatenating two-dimensional pairs, accepted only when all `A` factors are equal, commutes with
      multiplying out. */
  lemma {:induction false} CatFlatCommutes(ls: seq<Lora>)
    requires AllValid(ls) && CatLora(ls).Made? && |ls[0].B.shape| == 2
    ensures var t := CatLora(ls).l;
            Valid(t) && Multiplies(t) && Products(ls) != [] && Same(Product(t), Cat(Products(ls)))
  {
    CatFlatProductShape(ls);
    forall idx | InShape(idx, Product(CatLora(ls).l).shape) ensures Product(CatLora(ls).l).at(idx) == Cat(Products(ls)).at(idx) {
      CatFlatAt(ls, idx);
    }
  }

  lemma {:induction false} CatFlatProductShape(ls: seq<Lora>)
    requires AllValid(ls) && CatLora(ls).Made? && |ls[0].B.shape| == 2
    ensures var t := CatLora(ls).l;
            && Valid(t) && Multiplies(t) && Products(ls) != []
            && Product(t).shape == [SumRows(FactorsB(ls)), Last(ls[0].A.shape)] == Cat(Products(ls)).shape
  {
    var t := CatLora(ls).l;
    CatFlatShapes(ls, 0);
    FlatShape(t);
    FlatShape(ls[0]);
    ProductRows(ls);
    CatShape(Products(ls));
  }

  lemma {:induction false} FlatShape(l: Lora)
    requires Constructed(l) && |l.A.shape| == 2
    ensures Valid(l) && Multiplies(l) && Product(l).shape == [l.B.shape[0], l.A.shape[1]]
  {
    assert Valid(l);
    ValidMultiplies(l);
  }

  lemma {:induction false} CatShape(ts: seq<Tensor>)
    requires ts != [] && |ts[0].shape| == 2
    ensures Cat(ts).shape == [SumRows(ts), ts[0].shape[1]]
  {
  }

  lemma {:induction false} FlatProductAt(l: Lora, i: nat, j: nat)
    requires Constructed(l) && Multiplies(l) && |l.A.shape| == 2
    ensures Product(l).at([i] + [j]) == ProductAt(l, [], i, j)
  {
    assert ([i] + [j])[..0] == [];
  }

  lemma {:induction false} CatFlatLeft(ls: seq<Lora>, i: nat, j: nat) returns (c: nat, i': nat, x: real)
    requires AllValid(ls) && CatLora(ls).Made? && |ls[0].B.shape| == 2 && Multiplies(CatLora(ls).l)
    requires i < SumRows(FactorsB(ls)) && j < Last(ls[0].A.shape)
    ensures (c, i') == Locate(FactorsB(ls), i) && c < |ls| && Multiplies(ls[c])
    ensures Product(CatLora(ls).l).at([i] + [j]) == x && Product(ls[c]).at([i'] + [j]) == x
  {
    c, i' := Locate(FactorsB(ls), i).0, Locate(FactorsB(ls), i).1;
    CatFlatShapes(ls, c);
    CatFlatRow(ls, i, j);
    ValidMultiplies(ls[c]);
    FlatProductAt(CatLora(ls).l, i, j);
    FlatProductAt(ls[c], i', j);
    x := ProductAt(ls[c], [], i', j);
  }

  lemma {:induction false} CatFlatElement(ls: seq<Lora>, i: nat, j: nat)
    requires AllValid(ls) && CatLora(ls).Made? && |ls[0].B.shape| == 2 && Multiplies(CatLora(ls).l)
    requires i < SumRows(FactorsB(ls)) && j < Last(ls[0].A.shape)
    ensures Products(ls) != [] && Product(CatLora(ls).l).at([i] + [j]) == Cat(Products(ls)).at([i] + [j])
  {
    var c, i', x := CatFlatLeft(ls, i, j);
    ProductRows(ls);
    CatElement(FactorsB(ls), Products(ls), i, [j]);
    assert Products(ls)[c] == Product(ls[c]);
  }

  // ----- when a concatenation of deeper pairs still stands for a product

  lemma {:induction false} SumRowsBelow(ts: seq<Tensor>, us: seq<Tensor>)
    requires |us| == |ts| && forall c :: 0 <= c < |ts| ==> 1 <= Rows(ts[c]) <= Rows(us[c])
    ensures |ts| <= SumRows(ts) <= SumRows(us)
    ensures SumRows(ts) == SumRows(us) ==> forall c :: 0 <= c < |ts| ==> Rows(ts[c]) == Rows(us[c])
    decreases |ts|
  {
    if ts != [] {
      SumRowsBelow(ts[1..], us[1..]);
      if SumRows(ts) == SumRows(us) {
        forall c | 0 <= c < |ts| ensures Rows(ts[c]) == Rows(us[c]) {
          if c > 0 { assert ts[c] == ts[1..][c - 1] && us[c] == us[1..][c - 1]; }
        }
      }
    }
  }

  /** A concatenation along the first of three or more dimensions is a valid pair exactly when no `A` is
      broadcast along it, or there is only one pair. */
  lemma {:induction false} CatDeepValidExactly(ls: seq<Lora>)
    requires AllValid(ls) && CatLora(ls).Made? && |ls[0].B.shape| > 2
    requires forall i :: 0 <= i < |ls| ==> Rows(ls[i].A) >= 1 && Rows(ls[i].B) >= 1
    ensures Valid(CatLora(ls).l) <==> Unbroadcast(ls) || |ls| == 1
  {
    var t := CatLora(ls).l;
    var as', bs := FactorsA(ls), FactorsB(ls);
    assert as'[0] == ls[0].A && bs[0] == ls[0].B;
    forall c | 0 <= c < |ls| ensures 1 <= Rows(as'[c]) <= Rows(bs[c]) {
      CatShapes(ls, c);
      assert Lead(ls[c].A.shape)[0] == 1 || Lead(ls[c].A.shape)[0] == Lead(ls[c].B.shape)[0];
    }
    SumRowsBelow(as', bs);
    LeadTail(t.A.shape, ls[0].A.shape);
    LeadTail(t.B.shape, ls[0].B.shape);
    if Valid(t) {
      assert Lead(t.A.shape)[0] == 1 || Lead(t.A.shape)[0] == Lead(t.B.shape)[0];
      if |ls| > 1 {
        forall i | 0 <= i < |ls| ensures Rows(ls[i].A) == Rows(ls[i].B) { assert as'[i] == ls[i].A && bs[i] == ls[i].B; }
      }
    } else if Unbroadcast(ls) {
      CatDeepValid(ls);
    } else if |ls| == 1 {
      SingleCat(ls);
    }
  }

  lemma {:induction false} SingleCat(ls: seq<Lora>)
    requires AllValid(ls) && CatLora(ls).Made? && |ls[0].B.shape| > 2 && |ls| == 1
    ensures CatLora(ls).l.A.shape == ls[0].A.shape && CatLora(ls).l.B.shape == ls[0].B.shape
  {
    var as', bs := FactorsA(ls), FactorsB(ls);
    assert as' == [ls[0].A] && bs == [ls[0].B];
    assert as'[1..] == [] && bs[1..] == [];
    assert SumRows(as') == Rows(ls[0].A) && SumRows(bs) == Rows(ls[0].B);
    assert [ls[0].A.shape[0]] + ls[0].A.shape[1..] == ls[0].A.shape;
    assert [ls[0].B.shape[0]] + ls[0].B.shape[1..] == ls[0].B.shape;
  }
}
