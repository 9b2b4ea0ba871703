/** Pairing the A and B tensors of an adapter: `get_base_tensor_name` and `LoraModel.get_tensors`. */
module LoraPairing {
  import opened Collections
  import opened Wrappers
  import opened Tensors
  import opened LoraTensor
  import opened Text

  datatype Entry = Entry(name: string, data: Tensor)

  // ----- names

  const LORA_A: string := ".lora_A.weight"
  const LORA_B: string := ".lora_B.weight"
  const EMBEDDING_A: string := ".lora_embedding_A"
  const EMBEDDING_B: string := ".lora_embedding_B"
  const PEFT_PREFIX: string := "base_model.model."
  const WEIGHT: string := ".weight"

  /** `s.replace(what, other)`: every occurrence, left to right. */
  function Replace(s: string, what: string, other: string): string
    requires what != ""
    decreases |s|
  {
    var p := Find(s, what, 0);
    if p < 0 then s else s[..p] + other + Replace(s[p + |what|..], what, other)
  }

  function BaseName(name: string): string {
    Replace(Replace(Replace(Replace(Replace(name, PEFT_PREFIX, ""), LORA_A, WEIGHT), LORA_B, WEIGHT), EMBEDDING_A, WEIGHT), EMBEDDING_B, WEIGHT)
  }

  datatype Kind = SideA | SideB | BaseLayer | Norm | Unexpected

  /** What `get_tensors` does with an entry; a name with both sides' patterns counts as A. */
  function KindOf(name: string): Kind {
    if Occurs(name, LORA_A) || Occurs(name, EMBEDDING_A) then SideA
    else if Occurs(name, LORA_B) || Occurs(name, EMBEDDING_B) then SideB
    else if Occurs(name, ".base_layer.weight") then BaseLayer
    else if Occurs(name, "_layernorm") || Occurs(name, ".norm") then Norm
    else Unexpected
  }

  // ----- gathering

  datatype Partial = Partial(A: Option<Tensor>, B: Option<Tensor>)

  /** The dictionary of partial pairs with its insertion order, and what has been yielded on the way. */
  datatype Gathering = Gathering(order: seq<string>, partials: map<string, Partial>, yielded: seq<Entry>) | Exit

  function Put(p: Partial, side: Kind, t: Tensor): Partial {
    if side == SideA then p.(A := Some(t)) else p.(B := Some(t))
  }

  function Gather(g: Gathering, e: Entry): Gathering {
    if g.Exit? then g
    else
      var base, kind := BaseName(e.name), KindOf(e.name);
      match kind
      case BaseLayer => g
      case Norm => g.(yielded := g.yielded + [Entry(base, e.data)])
      case Unexpected => Exit
      case _ =>
        if base in g.partials then g.(partials := g.partials[base := Put(g.partials[base], kind, e.data)])
        else Gathering(g.order + [base], g.partials[base := Put(Partial(None, None), kind, e.data)], g.yielded)
  }

  function GatherAll(items: seq<Entry>): Gathering {
    if items == [] then Gathering([], map[], [])
    else Gather(GatherAll(items[..|items| - 1]), items[|items| - 1])
  }

  datatype Pair = Pair(name: string, l: Lora)

  /** The pairs of the first names, none when one has no A, no B, or factors that do not fit. */
  function PairUp(order: seq<string>, partials: map<string, Partial>): Option<seq<Pair>> {
    if order == [] then Some([])
    else
      var before, name := PairUp(order[..|order| - 1], partials), order[|order| - 1];
      if before.None? || name !in partials || partials[name].A.None? || partials[name].B.None? then None
      else
        var l := Lora(partials[name].A.value, partials[name].B.value);
        if Constructed(l) then Some(before.value + [Pair(name, l)]) else None
  }

  datatype Outcome = Yields(tensors: seq<Entry>, pairs: seq<Pair>) | AssertionError | SystemExit

  function TensorsOf(items: seq<Entry>): Outcome {
    var g := GatherAll(items);
    if g.Exit? then SystemExit
    else
      var pairs := PairUp(g.order, g.partials);
      if pairs.None? then AssertionError else Yields(g.yielded, pairs.value)
  }

  method GetTensors(items: seq<Entry>) returns (r: Outcome)
    ensures r == TensorsOf(items)
  {
    var order: seq<string>, partials: map<string, Partial>, yielded: seq<Entry> := [], map[], [];
    for i := 0 to |items|
      invariant GatherAll(items[..i]) == Gathering(order, partials, yielded)
    {
      assert items[..i + 1][..i] == items[..i];
      var base, kind := BaseName(items[i].name), KindOf(items[i].name);
      if kind == Unexpected {
        ExitStays(items, i + 1);
        return SystemExit;
      }
      if kind == Norm {
        yielded := yielded + [Entry(base, items[i].data)];
      } else if kind != BaseLayer {
        if base in partials {
          partials := partials[base := Put(partials[base], kind, items[i].data)];
        } else {
          order := order + [base];
          partials := partials[base := Put(Partial(None, None), kind, items[i].data)];
        }
      }
    }
    assert items[..|items|] == items;
    var pairs := YieldPairs(order, partials);
    r := if pairs.None? then AssertionError else Yields(yielded, pairs.value);
  }

  /** The second loop. */
  method YieldPairs(order: seq<string>, partials: map<string, Partial>) returns (r: Option<seq<Pair>>)
    ensures r == PairUp(order, partials)
  {
    var pairs: seq<Pair> := [];
    for i := 0 to |order|
      invariant PairUp(order[..i], partials) == Some(pairs)
    {
      assert order[..i + 1][..i] == order[..i];
      var name := order[i];
      if name !in partials || partials[name].A.None? || partials[name].B.None?
         || !Constructed(Lora(partials[name].A.value, partials[name].B.value)) {
        PairFails(order, partials, i + 1);
        return None;
      }
      pairs := pairs + [Pair(name, Lora(partials[name].A.value, partials[name].B.value))];
    }
    assert order[..|order|] == order;
    r := Some(pairs);
  }

  lemma {:induction false} ExitStays(items: seq<Entry>, k: nat)
    requires k <= |items| && GatherAll(items[..k]).Exit?
    ensures GatherAll(items).Exit?
    decreases |items|
  {
    if k < |items| {
      assert items[..|items| - 1][..k] == items[..k];
      ExitStays(items[..|items| - 1], k);
    } else {
      assert items[..k] == items;
    }
  }

  lemma {:induction false} PairFails(order: seq<string>, partials: map<string, Partial>, k: nat)
    requires k <= |order| && PairUp(order[..k], partials).None?
    ensures PairUp(order, partials).None?
    decreases |order|
  {
    if k < |order| {
      assert order[..|order| - 1][..k] == order[..k];
      PairFails(order[..|order| - 1], partials, k);
    } else {
      assert order[..k] == order;
    }
  }

  // ----- what is paired

  /** The last tensor given for one side of a base name. */
  function LastFor(items: seq<Entry>, base: string, side: Kind): Option<Tensor> {
    if items == [] then None
    else
      var e := items[|items| - 1];
      if KindOf(e.name) == side && BaseName(e.name) == base then Some(e.data) else LastFor(items[..|items| - 1], base, side)
  }

  ghost predicate Gathered(items: seq<Entry>, g: Gathering) {
    && g.Gathering? && Distinct(g.order)
    && (forall x :: x in g.order <==> x in g.partials)
    && (forall x | x in g.partials :: g.partials[x] == Partial(LastFor(items, x, SideA), LastFor(items, x, SideB)))
    && (forall x | x !in g.partials :: LastFor(items, x, SideA).None? && LastFor(items, x, SideB).None?)
  }

  lemma {:induction false} LastForNext(items: seq<Entry>, e: Entry, base: string, side: Kind)
    ensures LastFor(items + [e], base, side) ==
            if KindOf(e.name) == side && BaseName(e.name) == base then Some(e.data) else LastFor(items, base, side)
  {
    var all := items + [e];
    assert all[|all| - 1] == e && all[..|all| - 1] == items;
  }

  /** One entry more: the order gets a new name at most, and only that name's partners change. */
  lemma {:induction false} GatherNext(items: seq<Entry>, e: Entry, g: Gathering)
    requires Gathered(items, g) && !Gather(g, e).Exit?
    ensures Gathered(items + [e], Gather(g, e))
  {
    hide KindOf, BaseName, LastFor;
    forall x ensures LastFor(items + [e], x, SideA) == (if KindOf(e.name) == SideA && BaseName(e.name) == x then Some(e.data) else LastFor(items, x, SideA)) {
      LastForNext(items, e, x, SideA);
    }
    forall x ensures LastFor(items + [e], x, SideB) == (if KindOf(e.name) == SideB && BaseName(e.name) == x then Some(e.data) else LastFor(items, x, SideB)) {
      LastForNext(items, e, x, SideB);
    }
  }

  lemma {:induction false} GatherMeans(items: seq<Entry>)
    requires !GatherAll(items).Exit?
    ensures Gathered(items, GatherAll(items))
    decreases |items|
  {
    if items != [] {
      hide Gather, Gathered, LastFor;
      var before, e := items[..|items| - 1], items[|items| - 1];
      ExitKept(before, e);
      GatherMeans(before);
      GatherNext(before, e, GatherAll(before));
      assert items == before + [e];
    }
  }

  lemma {:induction false} ExitKept(items: seq<Entry>, e: Entry)
    ensures GatherAll(items).Exit? ==> Gather(GatherAll(items), e).Exit?
  {
  }

  /** Both sides are there and fit. */
  predicate Complete(items: seq<Entry>, base: string) {
    var a, b := LastFor(items, base, SideA), LastFor(items, base, SideB);
    a.Some? && b.Some? && Constructed(Lora(a.value, b.value))
  }

  /** Some side is there. */
  predicate Started(items: seq<Entry>, base: string) {
    LastFor(items, base, SideA).Some? || LastFor(items, base, SideB).Some?
  }

  ghost predicate AllComplete(items: seq<Entry>, order: seq<string>) {
    forall i | 0 <= i < |order| :: Complete(items, order[i])
  }

  ghost predicate PairsAt(items: seq<Entry>, pairs: seq<Pair>, order: seq<string>, i: nat)
    requires |pairs| == |order| && i < |order|
  {
    var a, b := LastFor(items, order[i], SideA), LastFor(items, order[i], SideB);
    a.Some? && b.Some? && pairs[i] == Pair(order[i], Lora(a.value, b.value))
  }

  ghost predicate AllPaired(items: seq<Entry>, pairs: seq<Pair>, order: seq<string>) {
    |pairs| == |order| && forall i | 0 <= i < |order| :: PairsAt(items, pairs, order, i)
  }

  lemma {:induction false} AllPairedLast(items: seq<Entry>, pairs: seq<Pair>, order: seq<string>, p: Pair, name: string)
    requires AllPaired(items, pairs, order) && Complete(items, name)
    requires p == Pair(name, Lora(LastFor(items, name, SideA).value, LastFor(items, name, SideB).value))
    ensures AllPaired(items, pairs + [p], order + [name])
  {
    forall i | 0 <= i < |order| + 1 ensures PairsAt(items, pairs + [p], order + [name], i) {
      if i < |order| { assert PairsAt(items, pairs, order, i); }
    }
  }

  lemma {:induction false} PairUpMeans(items: seq<Entry>, g: Gathering, order: seq<string>)
    requires Gathered(items, g) && forall i | 0 <= i < |order| :: order[i] in g.partials
    ensures PairUp(order, g.partials).Some? <==> AllComplete(items, order)
    ensures PairUp(order, g.partials).Some? ==> AllPaired(items, PairUp(order, g.partials).value, order)
    decreases |order|
  {
    if order != [] {
      var before, name := order[..|order| - 1], order[|order| - 1];
      PairUpMeans(items, g, before);
      assert order == before + [name];
      assert g.partials[name] == Partial(LastFor(items, name, SideA), LastFor(items, name, SideB));
      var was, now := PairUp(before, g.partials), PairUp(order, g.partials);
      if AllComplete(items, order) {
        assert forall i | 0 <= i < |before| :: Complete(items, order[i]);
        assert Complete(items, order[|order| - 1]);
      }
      if now.Some? {
        assert Complete(items, name);
        AllPairedLast(items, was.value, before, now.value[|before|], name);
      }
    }
  }

  /** When no name is unexpected: pairing succeeds exactly when every base name with one side has both, fitting;
      then each such name is yielded once, with its own A and its own B. */
  lemma {:induction false} PairedExactly(items: seq<Entry>)
    requires !GatherAll(items).Exit?
    ensures TensorsOf(items).Yields? <==> forall x | Started(items, x) :: Complete(items, x)
    ensures TensorsOf(items).Yields? ==>
              var order := GatherAll(items).order;
              && Distinct(order) && (forall x :: x in order <==> Started(items, x))
              && AllPaired(items, TensorsOf(items).pairs, order)
  {
    var g := GatherAll(items);
    GatherMeans(items);
    PairUpMeans(items, g, g.order);
    forall x ensures x in g.order <==> Started(items, x) { OrderIsStarted(items, g, x); }
    CompleteEach(items, g.order);
  }

  lemma {:induction false} CompleteEach(items: seq<Entry>, order: seq<string>)
    requires forall x :: x in order <==> Started(items, x)
    ensures AllComplete(items, order) <==> forall x | Started(items, x) :: Complete(items, x)
  {
    if AllComplete(items, order) {
      forall x | Started(items, x) ensures Complete(items, x) {
        assert x in order;
        var i :| 0 <= i < |order| && order[i] == x;
      }
    }
    if forall x | Started(items, x) :: Complete(items, x) {
      forall i | 0 <= i < |order| ensures Complete(items, order[i]) { assert order[i] in order; }
    }
  }

  lemma {:induction false} OrderIsStarted(items: seq<Entry>, g: Gathering, x: string)
    requires Gathered(items, g) && g == GatherAll(items)
    ensures x in g.order <==> Started(items, x)
  {
    if x in g.partials { PartialStarted(items, x); }
  }

  lemma {:induction false} PartialStarted(items: seq<Entry>, x: string)
    requires !GatherAll(items).Exit? && x in GatherAll(items).partials
    ensures Started(items, x)
    decreases |items|
  {
    var k := |items| - 1;
    if x in GatherAll(items[..k]).partials {
      PartialStarted(items[..k], x);
    }
  }

  // ----- order does not matter

  predicate IsSide(k: Kind) { k == SideA || k == SideB }

  /** No side of a base name is given twice. */
  ghost predicate OnceEach(items: seq<Entry>) {
    forall i, j | 0 <= i < j < |items| && IsSide(KindOf(items[i].name)) && KindOf(items[i].name) == KindOf(items[j].name) ::
      BaseName(items[i].name) != BaseName(items[j].name)
  }

  lemma {:induction false} LastForFrom(items: seq<Entry>, base: string, side: Kind)
    requires LastFor(items, base, side).Some?
    ensures exists e :: e in items && KindOf(e.name) == side && BaseName(e.name) == base && LastFor(items, base, side) == Some(e.data)
    decreases |items|
  {
    var k := |items| - 1;
    var e := items[k];
    if KindOf(e.name) == side && BaseName(e.name) == base {
      assert e in items;
    } else {
      LastForFrom(items[..k], base, side);
    }
  }

  lemma {:induction false} LastForIs(items: seq<Entry>, i: nat)
    requires OnceEach(items) && i < |items| && IsSide(KindOf(items[i].name))
    ensures LastFor(items, BaseName(items[i].name), KindOf(items[i].name)) == Some(items[i].data)
    decreases |items|
  {
    var k := |items| - 1;
    if i < k {
      assert items[..k][i] == items[i];
      LastForIs(items[..k], i);
    }
  }

  ghost predicate SameEntries(items: seq<Entry>, items': seq<Entry>) {
    forall e :: e in items <==> e in items'
  }

  lemma {:induction false} LastForWithin(items: seq<Entry>, items': seq<Entry>, base: string, side: Kind)
    requires OnceEach(items') && SameEntries(items, items') && IsSide(side) && LastFor(items, base, side).Some?
    ensures LastFor(items', base, side) == LastFor(items, base, side)
  {
    LastForFrom(items, base, side);
    var e :| e in items && KindOf(e.name) == side && BaseName(e.name) == base && LastFor(items, base, side) == Some(e.data);
    assert e in items';
    var j :| 0 <= j < |items'| && items'[j] == e;
    LastForIs(items', j);
  }

  lemma {:induction false} LastForAnyOrder(items: seq<Entry>, items': seq<Entry>, base: string, side: Kind)
    requires OnceEach(items) && OnceEach(items') && SameEntries(items, items') && IsSide(side)
    ensures LastFor(items, base, side) == LastFor(items', base, side)
  {
    if LastFor(items, base, side).Some? {
      LastForWithin(items, items', base, side);
    } else if LastFor(items', base, side).Some? {
      LastForWithin(items', items, base, side);
    }
  }

  lemma {:induction false} ExitExactly(items: seq<Entry>)
    ensures GatherAll(items).Exit? <==> exists e :: e in items && KindOf(e.name) == Unexpected
    decreases |items|
  {
    if items != [] {
      ExitExactly(items[..|items| - 1]);
      assert items == items[..|items| - 1] + [items[|items| - 1]];
    }
  }

  /** Whether the adapter is accepted, and which A goes with which B, does not depend on the order of its
      entries. */
  lemma {:induction false} PairingAnyOrder(items: seq<Entry>, items': seq<Entry>, base: string)
    requires OnceEach(items) && OnceEach(items') && SameEntries(items, items')
    ensures TensorsOf(items).SystemExit? <==> TensorsOf(items').SystemExit?
    ensures TensorsOf(items).Yields? <==> TensorsOf(items').Yields?
    ensures LastFor(items, base, SideA) == LastFor(items', base, SideA) && LastFor(items, base, SideB) == LastFor(items', base, SideB)
  {
    ExitExactly(items);
    ExitExactly(items');
    forall x ensures Started(items, x) == Started(items', x) && Complete(items, x) == Complete(items', x) {
      LastForAnyOrder(items, items', x, SideA);
      LastForAnyOrder(items, items', x, SideB);
    }
    LastForAnyOrder(items, items', base, SideA);
    LastForAnyOrder(items, items', base, SideB);
    if !GatherAll(items).Exit? {
      PairedExactly(items);
      PairedExactly(items');
    }
  }

  // ----- the names of the two sides meet

  lemma {:induction false} ReplaceNone(s: string, what: string, other: string)
    requires what != "" && !Occurs(s, what)
    ensures Replace(s, what, other) == s
  {
  }

  lemma {:induction false} ReplaceFront(t: string, what: string, other: string)
    requires what != "" && !Occurs(t, what)
    ensures Replace(what + t, what, other) == other + t
  {
    var s := what + t;
    assert s[0..0 + |what|] == what && OccursAt(s, what, 0);
    assert s[|what|..] == t;
    ReplaceNone(t, what, other);
    assert s[..0] + other == other;
  }

  /** At the end of a text in which it neither occurs nor starts. */
  lemma {:induction false} ReplaceBack(x: string, what: string, other: string)
    requires what != "" && !Occurs(x, what) && forall p :: 0 < p < |what| ==> !Straddles(x, what, p)
    ensures Replace(x + what, what, other) == x + other
  {
    FirstAtJoin(x, what, "");
    var s := x + what;
    assert s + "" == s;
    assert s[|x| + |what|..] == "";
    ReplaceNone("", what, other);
    assert s[..|x|] == x && x + other + "" == x + other;
  }

  /** The two patterns never start again inside themselves. */
  lemma {:induction false} SideNeverStraddles(x: string, p: nat)
    ensures !Straddles(x, LORA_A, p) && !Straddles(x, LORA_B, p)
  {
    if 0 < p < 14 {
      SelfOverlapNone(LORA_A, p);
      SelfOverlapNone(LORA_B, p);
    }
  }

  lemma {:induction false} SelfOverlapNone(d: string, p: nat)
    requires (d == LORA_A || d == LORA_B) && 0 < p < 14
    ensures d[p..] != d[..|d| - p]
  {
    if p == 7 {
      assert d[p..][1] == 'w' && d[..|d| - p][1] == 'l';
    } else {
      assert d[p..][0] == d[p] && d[..|d| - p][0] == '.';
    }
  }

  /** What PEFT writes before a weight's name, if anything. */
  predicate IsPrefix(pre: string) { pre == "" || pre == PEFT_PREFIX }

  /** A name with none of the patterns. */
  predicate Bare(x: string) {
    && !Occurs(x + LORA_A, PEFT_PREFIX) && !Occurs(x + LORA_B, PEFT_PREFIX)
    && !Occurs(x, LORA_A) && !Occurs(x, LORA_B)
    && !Occurs(x + LORA_B, LORA_A) && !Occurs(x + WEIGHT, LORA_B)
    && !Occurs(x + WEIGHT, EMBEDDING_A) && !Occurs(x + WEIGHT, EMBEDDING_B)
  }

  lemma {:induction false} PrefixDropped(pre: string, name: string)
    requires IsPrefix(pre) && !Occurs(name, PEFT_PREFIX)
    ensures Replace(pre + name, PEFT_PREFIX, "") == name
  {
    assert "" + name == name;
    if pre == "" { ReplaceNone(name, PEFT_PREFIX, ""); } else { ReplaceFront(name, PEFT_PREFIX, ""); }
  }

  lemma {:induction false} BaseOfA(pre: string, x: string)
    requires IsPrefix(pre) && Bare(x)
    ensures BaseName(pre + (x + LORA_A)) == x + WEIGHT
  {
    PrefixDropped(pre, x + LORA_A);
    forall p | 0 < p < |LORA_A| ensures !Straddles(x, LORA_A, p) { SideNeverStraddles(x, p); }
    ReplaceBack(x, LORA_A, WEIGHT);
    ReplaceNone(x + WEIGHT, LORA_B, WEIGHT);
    ReplaceNone(x + WEIGHT, EMBEDDING_A, WEIGHT);
    ReplaceNone(x + WEIGHT, EMBEDDING_B, WEIGHT);
  }

  lemma {:induction false} BaseOfB(pre: string, x: string)
    requires IsPrefix(pre) && Bare(x)
    ensures BaseName(pre + (x + LORA_B)) == x + WEIGHT
  {
    PrefixDropped(pre, x + LORA_B);
    ReplaceNone(x + LORA_B, LORA_A, WEIGHT);
    forall p | 0 < p < |LORA_B| ensures !Straddles(x, LORA_B, p) { SideNeverStraddles(x, p); }
    ReplaceBack(x, LORA_B, WEIGHT);
    ReplaceNone(x + WEIGHT, EMBEDDING_A, WEIGHT);
    ReplaceNone(x + WEIGHT, EMBEDDING_B, WEIGHT);
  }

  /** The same for the names of token embeddings. */
  predicate BareEmbedding(x: string) {
    && (forall e | e in [EMBEDDING_A, EMBEDDING_B] :: !Occurs(x + e, PEFT_PREFIX) && !Occurs(x + e, LORA_A) && !Occurs(x + e, LORA_B))
    && !Occurs(x, EMBEDDING_A) && !Occurs(x, EMBEDDING_B)
    && !Occurs(x + EMBEDDING_B, EMBEDDING_A) && !Occurs(x + WEIGHT, EMBEDDING_B)
  }

  /** The embedding patterns have one dot, at their beginning, and never start again inside themselves. */
  lemma {:induction false} EmbeddingNeverStraddles(x: string, d: string, p: nat)
    requires d == EMBEDDING_A || d == EMBEDDING_B
    ensures !Straddles(x, d, p)
  {
    if 0 < p < |d| { assert d[p..][0] == d[p] && d[..|d| - p][0] == '.'; }
  }

  lemma {:induction false} EmbeddingBase(pre: string, x: string, e: string)
    requires IsPrefix(pre) && BareEmbedding(x) && (e == EMBEDDING_A || e == EMBEDDING_B)
    ensures BaseName(pre + (x + e)) == x + WEIGHT
  {
    assert e in [EMBEDDING_A, EMBEDDING_B];
    PrefixDropped(pre, x + e);
    ReplaceNone(x + e, LORA_A, WEIGHT);
    ReplaceNone(x + e, LORA_B, WEIGHT);
    forall p | 0 < p < |e| ensures !Straddles(x, e, p) { EmbeddingNeverStraddles(x, e, p); }
    if e == EMBEDDING_A {
      ReplaceBack(x, EMBEDDING_A, WEIGHT);
      ReplaceNone(x + WEIGHT, EMBEDDING_B, WEIGHT);
    } else {
      ReplaceNone(x + EMBEDDING_B, EMBEDDING_A, WEIGHT);
      ReplaceBack(x, EMBEDDING_B, WEIGHT);
    }
  }

  /** The names of the two sides of a weight, with or without PEFT's prefix, come to the same base name, the
      weight's own; so do those of a token embedding. */
  lemma {:induction false} SidesMeet(pre: string, x: string)
    requires IsPrefix(pre)
    ensures Bare(x) ==>
              BaseName(pre + (x + ".lora_A.weight")) == BaseName(pre + (x + ".lora_B.weight")) == x + ".weight"
    ensures BareEmbedding(x) ==>
              BaseName(pre + (x + ".lora_embedding_A")) == BaseName(pre + (x + ".lora_embedding_B")) == x + ".weight"
  {
    if Bare(x) {
      BaseOfA(pre, x);
      BaseOfB(pre, x);
    }
    if BareEmbedding(x) {
      EmbeddingBase(pre, x, EMBEDDING_A);
      EmbeddingBase(pre, x, EMBEDDING_B);
    }
  }

  /** Which entries are of which side, and what becomes of the others: a name with both sides' patterns is an A,
      and a base layer's weight is skipped before norms are looked for. */
  lemma {:induction false} KindExactly(name: string)
    ensures KindOf(name) == SideA <==> Occurs(name, ".lora_A.weight") || Occurs(name, ".lora_embedding_A")
    ensures KindOf(name) == SideB <==> KindOf(name) != SideA && (Occurs(name, ".lora_B.weight") || Occurs(name, ".lora_embedding_B"))
    ensures KindOf(name) == BaseLayer <==> KindOf(name) != SideA && KindOf(name) != SideB && Occurs(name, ".base_layer.weight")
    ensures KindOf(name) == Norm <==>
            KindOf(name) != SideA && KindOf(name) != SideB && KindOf(name) != BaseLayer &&
            (Occurs(name, "_layernorm") || Occurs(name, ".norm"))
  {
  }

  /** `str.replace` replaces the first occurrence and goes on behind it; without one it changes nothing. */
  lemma {:induction false} ReplaceNext(front: string, what: string, rest: string, other: string)
    requires what != "" && FirstAt(front + what + rest, what, |front|)
    ensures Replace(front + what + rest, what, other) == front + other + Replace(rest, what, other)
    ensures !Occurs(rest, what) ==> Replace(rest, what, other) == rest
  {
    var s := front + what + rest;
    FindIs(s, what, 0, |front|);
    assert s[..|front|] == front && s[|front| + |what|..] == rest;
    if !Occurs(rest, what) { ReplaceNone(rest, what, other); }
  }

  /** Every entry of a side reaches that side under the base name of the weight. */
  lemma {:induction false} GatheredSide(g: Gathering, e: Entry)
    requires !g.Exit? && (KindOf(e.name) == SideA || KindOf(e.name) == SideB)
    ensures var h := Gather(g, e);
            && !h.Exit? && BaseName(e.name) in h.partials && h.yielded == g.yielded
            && (KindOf(e.name) == SideA ==> h.partials[BaseName(e.name)].A == Some(e.data))
            && (KindOf(e.name) == SideB ==> h.partials[BaseName(e.name)].B == Some(e.data))
  {
  }

  // ----- the order of what is yielded

  predicate Ascending(at: seq<nat>) { forall i, k :: 0 <= i < k < |at| ==> at[i] < at[k] }

  /** Entry `i` is the first of a side under its base name. */
  predicate FirstOfName(items: seq<Entry>, i: nat)
    requires i < |items|
  {
    && (KindOf(items[i].name) == SideA || KindOf(items[i].name) == SideB)
    && forall k :: 0 <= k < i && (KindOf(items[k].name) == SideA || KindOf(items[k].name) == SideB) ==> BaseName(items[k].name) != BaseName(items[i].name)
  }

  /** `at` lists, in order, the entries before `n` that are first of their name. */
  predicate FirstEntries(items: seq<Entry>, n: nat, at: seq<nat>)
    requires n <= |items|
  {
    && Ascending(at) && (forall j :: 0 <= j < |at| ==> at[j] < n)
    && forall i :: 0 <= i < n ==> (FirstOfName(items, i) <==> i in at)
  }

  predicate NormEntries(items: seq<Entry>, n: nat, at: seq<nat>)
    requires n <= |items|
  {
    && Ascending(at) && (forall j :: 0 <= j < |at| ==> at[j] < n)
    && forall i :: 0 <= i < n ==> (KindOf(items[i].name) == Norm <==> i in at)
  }

  lemma {:induction false} AscendingMore(at: seq<nat>, n: nat)
    requires Ascending(at) && forall j :: 0 <= j < |at| ==> at[j] < n
    ensures Ascending(at + [n]) && forall j :: 0 <= j < |at + [n]| ==> (at + [n])[j] < n + 1
    ensures forall i: nat :: i in at + [n] <==> i in at || i == n
    ensures n !in at
  {
  }

  lemma {:induction false} NormStep(items: seq<Entry>, n: nat, at: seq<nat>)
    requires n < |items| && NormEntries(items, n, at)
    ensures NormEntries(items, n + 1, if KindOf(items[n].name) == Norm then at + [n] else at)
  {
    hide KindOf, Ascending;
    AscendingMore(at, n);
  }

  lemma {:induction false} FirstStep(items: seq<Entry>, n: nat, at: seq<nat>)
    requires n < |items| && FirstEntries(items, n, at)
    ensures FirstEntries(items, n + 1, if FirstOfName(items, n) then at + [n] else at)
  {
    hide FirstOfName, Ascending;
    AscendingMore(at, n);
  }

  lemma {:induction false} NotExited(items: seq<Entry>, n: nat)
    requires n < |items| && !GatherAll(items[..n + 1]).Exit?
    ensures !GatherAll(items[..n]).Exit? && GatherAll(items[..n + 1]) == Gather(GatherAll(items[..n]), items[n])
  {
    assert items[..n + 1][..n] == items[..n];
  }

  lemma {:induction false} NormGathered(g: Gathering, e: Entry)
    requires !g.Exit? && !Gather(g, e).Exit?
    ensures Gather(g, e).yielded == g.yielded + if KindOf(e.name) == Norm then [Entry(BaseName(e.name), e.data)] else []
  {
  }

  ghost predicate EntriesAt(items: seq<Entry>, n: nat, at: seq<nat>, out: seq<Entry>)
    requires n <= |items|
  {
    |out| == |at| && forall j :: 0 <= j < |at| ==> at[j] < n && out[j] == Entry(BaseName(items[at[j]].name), items[at[j]].data)
  }

  lemma {:induction false} EntriesMore(items: seq<Entry>, n: nat, at: seq<nat>, out: seq<Entry>)
    requires n < |items| && EntriesAt(items, n, at, out)
    ensures EntriesAt(items, n + 1, at, out)
    ensures EntriesAt(items, n + 1, at + [n], out + [Entry(BaseName(items[n].name), items[n].data)])
  {
    hide BaseName;
  }

  lemma {:induction false} NothingYet(items: seq<Entry>)
    ensures !GatherAll(items[..0]).Exit? && NormEntries(items, 0, []) && EntriesAt(items, 0, [], GatherAll(items[..0]).yielded)
  {
    assert items[..0] == [];
  }

  /** The norms are yielded first, in the order of the file, under their base names. */
  lemma {:induction false} NormsInOrder(items: seq<Entry>, n: nat) returns (at: seq<nat>)
    requires n <= |items| && !GatherAll(items[..n]).Exit?
    ensures NormEntries(items, n, at) && EntriesAt(items, n, at, GatherAll(items[..n]).yielded)
  {
    hide KindOf, BaseName, GatherAll, Gather, NormEntries, EntriesAt;
    if n == 0 {
      at := [];
      NothingYet(items);
    } else {
      NotExited(items, n - 1);
      at := NormsInOrder(items, n - 1);
      NormStep(items, n - 1, at);
      NormGathered(GatherAll(items[..n - 1]), items[n - 1]);
      EntriesMore(items, n - 1, at, GatherAll(items[..n - 1]).yielded);
      var norm := KindOf(items[n - 1].name) == Norm;
      var was, now := GatherAll(items[..n - 1]).yielded, GatherAll(items[..n]).yielded;
      assert !norm ==> now == was;
      at := if norm then at + [n - 1] else at;
    }
  }

  predicate IsSideEntry(e: Entry) { KindOf(e.name) == SideA || KindOf(e.name) == SideB }

  /** The names gathered are those of the entries `at`, and of every side entry before `n`. */
  predicate OrderIs(items: seq<Entry>, n: nat, at: seq<nat>, order: seq<string>)
    requires n <= |items|
  {
    && |order| == |at| && (forall j :: 0 <= j < |at| ==> at[j] < n && FirstOfName(items, at[j]) && order[j] == BaseName(items[at[j]].name))
    && forall i :: 0 <= i < n && IsSideEntry(items[i]) ==> BaseName(items[i].name) in order
  }

  lemma {:induction false} NameGathered(g: Gathering, e: Entry)
    requires !g.Exit? && !Gather(g, e).Exit? && forall x :: x in g.partials <==> x in g.order
    ensures var h := Gather(g, e);
            && h.order == (if IsSideEntry(e) && BaseName(e.name) !in g.order then g.order + [BaseName(e.name)] else g.order)
            && forall x :: x in h.partials <==> x in h.order
  {
  }

  lemma {:induction false} OrderGrows(items: seq<Entry>, n: nat, at: seq<nat>, order: seq<string>)
    requires n < |items| && OrderIs(items, n, at, order)
    ensures FirstOfName(items, n) <==> IsSideEntry(items[n]) && BaseName(items[n].name) !in order
    ensures if FirstOfName(items, n) then OrderIs(items, n + 1, at + [n], order + [BaseName(items[n].name)]) else OrderIs(items, n + 1, at, order)
  {
    hide KindOf, BaseName;
    if IsSideEntry(items[n]) && BaseName(items[n].name) in order {
      var j :| 0 <= j < |order| && order[j] == BaseName(items[n].name);
      assert FirstOfName(items, at[j]) && !FirstOfName(items, n);
    }
  }

  ghost predicate KeysListed(g: Gathering)
    requires !g.Exit?
  {
    forall x :: x in g.partials <==> x in g.order
  }

  lemma {:induction false} OrderNext(items: seq<Entry>, n: nat, at: seq<nat>, g: Gathering, h: Gathering)
    requires n < |items| && !g.Exit? && !h.Exit? && h == Gather(g, items[n]) && KeysListed(g) && OrderIs(items, n, at, g.order)
    ensures KeysListed(h) && OrderIs(items, n + 1, if FirstOfName(items, n) then at + [n] else at, h.order)
  {
    NameGathered(g, items[n]);
    OrderGrows(items, n, at, g.order);
    hide Gather, OrderIs, FirstOfName, IsSideEntry, BaseName;
  }

  lemma {:induction false} NoNamesYet(items: seq<Entry>)
    ensures var g := GatherAll(items[..0]);
            !g.Exit? && FirstEntries(items, 0, []) && OrderIs(items, 0, [], g.order) && KeysListed(g)
  {
    assert items[..0] == [];
  }

  /** Then the pairs, in the order in which the file first has either side of them. */
  lemma {:induction false} NamesInOrder(items: seq<Entry>, n: nat) returns (at: seq<nat>)
    requires n <= |items| && !GatherAll(items[..n]).Exit?
    ensures FirstEntries(items, n, at) && OrderIs(items, n, at, GatherAll(items[..n]).order) && KeysListed(GatherAll(items[..n]))
  {
    hide KindOf, BaseName, GatherAll, Gather, OrderIs, FirstEntries, FirstOfName, KeysListed;
    if n == 0 {
      at := [];
      NoNamesYet(items);
    } else {
      NotExited(items, n - 1);
      at := NamesInOrder(items, n - 1);
      OrderNext(items, n - 1, at, GatherAll(items[..n - 1]), GatherAll(items[..n]));
      FirstStep(items, n - 1, at);
      at := if FirstOfName(items, n - 1) then at + [n - 1] else at;
    }
  }
}
