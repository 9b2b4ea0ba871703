/** Merging a mixture-of-experts layer: the expert part of `LlamaModel.modify_tensors` and the leftover check
    of `prepare_tensors`. */
module ExpertMerge {
  import opened Collections
  import opened Wrappers
  import opened Tensors

  datatype Named = Named(name: string, data: Tensor)

  datatype Failure = NoBlockId | IndexError | KeyError(name: string) | StackError

  datatype Outcome = Emits(tensors: seq<Named>) | Fails(why: Failure)

  type Buffer = map<string, Tensor>

  // ----- names

  function Digit(d: nat): char
    requires d < 10
  {
    ('0' as int + d) as char
  }

  function Decimal(n: nat): (s: string)
    ensures |s| > 0
  {
    if n < 10 then [Digit(n)] else Decimal(n / 10) + [Digit(n % 10)]
  }

  const WIDS: seq<string> := ["w1", "w2", "w3"]

  function Prefix(bid: nat): string {
    "model.layers." + Decimal(bid) + ".block_sparse_moe.experts."
  }

  function ExpertName(bid: nat, xid: nat, wid: string): string {
    Prefix(bid) + (Decimal(xid) + ("." + wid + ".weight"))
  }

  function MergedName(bid: nat, wid: string): string {
    "layers." + Decimal(bid) + ".feed_forward.experts." + wid + ".weight"
  }

  /** The names of one weight, in expert order. */
  function Names(bid: nat, wid: string, n: nat): seq<string> {
    seq(n, xid requires 0 <= xid < n => ExpertName(bid, xid, wid))
  }

  // ----- one arrival

  datatype Taking = Took(rest: Buffer, datas: seq<Tensor>) | Missing(rest: Buffer, name: string)

  /** Look each name up and delete it, in order. */
  function Taken(buffer: Buffer, names: seq<string>): Taking {
    if names == [] then Took(buffer, [])
    else
      var before, name := Taken(buffer, names[..|names| - 1]), names[|names| - 1];
      if before.Missing? then before
      else if name !in before.rest then Missing(before.rest, name)
      else Took(before.rest - {name}, before.datas + [before.rest[name]])
  }

  predicate Stackable(datas: seq<Tensor>) {
    datas != [] && forall i, j | 0 <= i < |datas| && 0 <= j < |datas| :: datas[i].shape == datas[j].shape
  }

  datatype Merging = Merged(rest: Buffer, tensors: seq<Named>) | Stopped(rest: Buffer, why: Failure)

  /** The stacks of the given weights, in order, taken out of the buffer. */
  function MergedWids(bid: nat, n: nat, buffer: Buffer, wids: seq<string>): Merging {
    if wids == [] then Merged(buffer, [])
    else
      var before, wid := MergedWids(bid, n, buffer, wids[..|wids| - 1]), wids[|wids| - 1];
      if before.Stopped? then before
      else
        match Taken(before.rest, Names(bid, wid, n))
        case Missing(rest, name) => Stopped(rest, KeyError(name))
        case Took(rest, datas) =>
          if Stackable(datas) then Merged(rest, before.tensors + [Named(MergedName(bid, wid), Stack(datas))])
          else Stopped(rest, StackError)
  }

  function Started(blockCount: nat, experts: Option<seq<Buffer>>): seq<Buffer> {
    if experts.Some? then experts.value else seq(blockCount, _ => map[])
  }

  /** The state after an arrival and what it gives. */
  function Collected(n: nat, blockCount: nat, experts: Option<seq<Buffer>>, bid: Option<nat>, name: string, data: Tensor):
    (Option<seq<Buffer>>, Outcome)
  {
    if bid.None? then (experts, Fails(NoBlockId))
    else
      var all := Started(blockCount, experts);
      if bid.value >= |all| then (Some(all), Fails(IndexError))
      else
        var buffer := all[bid.value][name := data];
        if |buffer| < n * 3 then (Some(all[bid.value := buffer]), Emits([]))
        else
          match MergedWids(bid.value, n, buffer, WIDS)
          case Merged(rest, tensors) => (Some(all[bid.value := rest]), Emits(tensors))
          case Stopped(rest, why) => (Some(all[bid.value := rest]), Fails(why))
  }

  class ExpertCollector {
    const nExperts: nat
    const blockCount: nat
    var experts: Option<seq<Buffer>>

    constructor (nExperts: nat, blockCount: nat)
      ensures this.nExperts == nExperts && this.blockCount == blockCount && experts == None
    {
      this.nExperts, this.blockCount := nExperts, blockCount;
      experts := None;
    }

    /** The inner loop: look up and delete the tensors of one weight, in expert order. */
    method TakeWid(b: nat, wid: string) returns (missing: Option<string>, datas: seq<Tensor>)
      requires experts.Some? && b < |experts.value|
      modifies this
      ensures experts.Some? && b < |experts.value| && experts.value == old(experts.value)[b := experts.value[b]]
      ensures Taken(old(experts.value[b]), Names(b, wid, nExperts)) ==
              (if missing.Some? then Missing(experts.value[b], missing.value) else Took(experts.value[b], datas))
    {
      missing, datas := None, [];
      ghost var all, start, names := experts.value, experts.value[b], Names(b, wid, nExperts);
      assert all == all[b := all[b]];
      for xid := 0 to nExperts
        invariant experts.Some? && b < |experts.value| && experts.value == all[b := experts.value[b]]
        invariant Taken(start, names[..xid]) == Took(experts.value[b], datas)
      {
        assert names[..xid + 1][..xid] == names[..xid];
        var ename := ExpertName(b, xid, wid);
        if ename !in experts.value[b] {
          TakenFails(start, names, xid + 1);
          return Some(ename), datas;
        }
        datas := datas + [experts.value[b][ename]];
        experts := Some(experts.value[b := experts.value[b] - {ename}]);
      }
      assert names[..nExperts] == names;
    }

    /** The outer loop: one stack for each weight. */
    method MergeLayer(b: nat) returns (r: Outcome)
      requires experts.Some? && b < |experts.value|
      modifies this
      ensures experts.Some? && b < |experts.value| && experts.value == old(experts.value)[b := experts.value[b]]
      ensures MergedWids(b, nExperts, old(experts.value[b]), WIDS) ==
              (match r case Emits(tensors) => Merged(experts.value[b], tensors) case Fails(why) => Stopped(experts.value[b], why))
    {
      hide Taken, Names, MergedName;
      ghost var all, buffer := experts.value, experts.value[b];
      assert all == all[b := all[b]];
      var tensors: seq<Named> := [];
      for w := 0 to |WIDS|
        invariant experts.Some? && b < |experts.value| && experts.value == all[b := experts.value[b]]
        invariant MergedWids(b, nExperts, buffer, WIDS[..w]) == Merged(experts.value[b], tensors)
      {
        assert WIDS[..w + 1][..w] == WIDS[..w];
        var missing, datas := TakeWid(b, WIDS[w]);
        if missing.Some? {
          MergedFails(b, nExperts, buffer, WIDS, w + 1);
          return Fails(KeyError(missing.value));
        }
        if !Stackable(datas) {
          MergedFails(b, nExperts, buffer, WIDS, w + 1);
          return Fails(StackError);
        }
        tensors := tensors + [Named(MergedName(b, WIDS[w]), Stack(datas))];
      }
      assert WIDS[..|WIDS|] == WIDS;
      r := Emits(tensors);
    }

    method Collect(bid: Option<nat>, name: string, data: Tensor) returns (r: Outcome)
      modifies this
      ensures (experts, r) == Collected(nExperts, blockCount, old(experts), bid, name, data)
    {
      if bid.None? {
        return Fails(NoBlockId);
      }
      if experts.None? {
        experts := Some(seq(blockCount, _ => map[]));
      }
      var b := bid.value;
      ghost var all := experts.value;
      if b >= |experts.value| {
        return Fails(IndexError);
      }
      experts := Some(experts.value[b := experts.value[b][name := data]]);
      if |experts.value[b]| < nExperts * 3 {
        return Emits([]);
      }
      r := MergeLayer(b);
      assert experts.value == all[b := experts.value[b]];
    }

    /** The check after the last tensor: it raises when some buffer still holds a tensor. */
    method CheckLeftover() returns (raised: bool, names: set<string>)
      ensures raised <==> Leftover(experts)
      ensures forall k :: k in names <==> experts.Some? && exists b :: 0 <= b < |experts.value| && k in experts.value[b]
    {
      raised, names := false, {};
      if experts.Some? {
        for b := 0 to |experts.value|
          invariant raised <==> exists c :: 0 <= c < b && experts.value[c] != map[]
          invariant forall k :: k in names <==> exists c :: 0 <= c < b && k in experts.value[c]
        {
          names := names + experts.value[b].Keys;
          raised := raised || |experts.value[b]| > 0;
        }
      }
    }
  }

  ghost predicate Leftover(experts: Option<seq<Buffer>>) {
    experts.Some? && exists b :: 0 <= b < |experts.value| && experts.value[b] != map[]
  }

  lemma {:induction false} TakenFails(buffer: Buffer, names: seq<string>, k: nat)
    requires k <= |names| && Taken(buffer, names[..k]).Missing?
    ensures Taken(buffer, names) == Taken(buffer, names[..k])
    decreases |names|
  {
    if k < |names| {
      assert names[..|names| - 1][..k] == names[..k];
      TakenFails(buffer, names[..|names| - 1], k);
    } else {
      assert names[..k] == names;
    }
  }

  lemma {:induction false} MergedFails(bid: nat, n: nat, buffer: Buffer, wids: seq<string>, k: nat)
    requires k <= |wids| && MergedWids(bid, n, buffer, wids[..k]).Stopped?
    ensures MergedWids(bid, n, buffer, wids) == MergedWids(bid, n, buffer, wids[..k])
    decreases |wids|
  {
    if k < |wids| {
      assert wids[..|wids| - 1][..k] == wids[..k];
      MergedFails(bid, n, buffer, wids[..|wids| - 1], k);
    } else {
      assert wids[..k] == wids;
    }
  }

  // ----- names are distinct

  lemma {:induction false} DecimalInjective(a: nat, b: nat)
    requires Decimal(a) == Decimal(b)
    ensures a == b
    decreases a
  {
    var s, t := Decimal(a), Decimal(b);
    assert s[|s| - 1] == t[|t| - 1];
    if a >= 10 && b >= 10 {
      assert s[..|s| - 1] == Decimal(a / 10) && t[..|t| - 1] == Decimal(b / 10);
      DecimalInjective(a / 10, b / 10);
    }
  }

  lemma {:induction false} SuffixSplit(p: string, a: string, s: string, b: string, t: string)
    requires p + (a + s) == p + (b + t) && |s| == |t|
    ensures a == b && s == t
  {
    assert (p + (a + s))[|p|..] == a + s && (p + (b + t))[|p|..] == b + t;
    assert (a + s)[|a|..] == s && (b + t)[|b|..] == t && (a + s)[..|a|] == a && (b + t)[..|b|] == b;
  }

  lemma {:induction false} WidSplit(v: string, w: string)
    requires |v| == |w| && "." + v + ".weight" == "." + w + ".weight"
    ensures v == w
  {
    var x, y := "." + v, "." + w;
    assert (x + ".weight")[..|x|] == x && (y + ".weight")[..|y|] == y;
    assert x[1..] == v && y[1..] == w;
  }

  lemma {:induction false} NameInjective(bid: nat, x: nat, v: string, y: nat, w: string)
    requires v in WIDS && w in WIDS && ExpertName(bid, x, v) == ExpertName(bid, y, w)
    ensures x == y && v == w
  {
    SuffixSplit(Prefix(bid), Decimal(x), "." + v + ".weight", Decimal(y), "." + w + ".weight");
    WidSplit(v, w);
    DecimalInjective(x, y);
  }

  // ----- a layer's expected names

  function AllNames(bid: nat, n: nat): seq<string> {
    Names(bid, WIDS[0], n) + Names(bid, WIDS[1], n) + Names(bid, WIDS[2], n)
  }

  lemma {:induction false} DistinctConcat<T>(a: seq<T>, b: seq<T>)
    requires Distinct(a) && Distinct(b) && forall x | x in a :: x !in b
    ensures Distinct(a + b)
  {
    var s := a + b;
    forall i, j | 0 <= i < j < |s| ensures s[i] != s[j] {
      if j < |a| {
        assert s[i] == a[i] && s[j] == a[j];
      } else if i >= |a| {
        assert s[i] == b[i - |a|] && s[j] == b[j - |a|];
      } else {
        assert a[i] in a;
      }
    }
  }

  lemma {:induction false} NamesDistinct(bid: nat, wid: string, n: nat)
    requires wid in WIDS
    ensures Distinct(Names(bid, wid, n))
  {
    var names := Names(bid, wid, n);
    forall i, j | 0 <= i < j < n ensures names[i] != names[j] {
      if names[i] == names[j] { NameInjective(bid, i, wid, j, wid); }
    }
  }

  lemma {:induction false} NamesApart(bid: nat, v: string, w: string, n: nat)
    requires v in WIDS && w in WIDS && v != w
    ensures forall x | x in Names(bid, v, n) :: x !in Names(bid, w, n)
  {
    forall x | x in Names(bid, v, n) ensures x !in Names(bid, w, n) {
      if x in Names(bid, w, n) {
        var i :| 0 <= i < n && x == Names(bid, v, n)[i];
        var j :| 0 <= j < n && x == Names(bid, w, n)[j];
        NameInjective(bid, i, v, j, w);
      }
    }
  }

  lemma {:induction false} AllNamesDistinct(bid: nat, n: nat)
    ensures Distinct(AllNames(bid, n)) && |ToSet(AllNames(bid, n))| == 3 * n
  {
    var a, b, c := Names(bid, WIDS[0], n), Names(bid, WIDS[1], n), Names(bid, WIDS[2], n);
    NamesDistinct(bid, WIDS[0], n);
    NamesDistinct(bid, WIDS[1], n);
    NamesDistinct(bid, WIDS[2], n);
    NamesApart(bid, WIDS[0], WIDS[1], n);
    NamesApart(bid, WIDS[0], WIDS[2], n);
    NamesApart(bid, WIDS[1], WIDS[2], n);
    DistinctConcat(a, b);
    DistinctConcat(a + b, c);
    DistinctCount(AllNames(bid, n));
  }

  // ----- taking a full buffer apart

  lemma {:induction false} TakenAll(buffer: Buffer, names: seq<string>)
    requires Distinct(names) && forall x | x in names :: x in buffer
    ensures Taken(buffer, names) == Took(buffer - ToSet(names), LookedUp(buffer, names))
  {
    if names != [] {
      var rest, last := names[..|names| - 1], names[|names| - 1];
      TakenAll(buffer, rest);
      assert last !in ToSet(rest);
      assert ToSet(names) == ToSet(rest) + {last};
      assert buffer - ToSet(rest) - {last} == buffer - ToSet(names);
    }
  }

  function LookedUp(buffer: Buffer, names: seq<string>): seq<Tensor>
    requires forall x | x in names :: x in buffer
  {
    seq(|names|, i requires 0 <= i < |names| => buffer[names[i]])
  }

  /** A layer's buffer holds exactly the expected names. */
  predicate Full(bid: nat, n: nat, buffer: Buffer) {
    buffer.Keys == ToSet(AllNames(bid, n))
  }

  lemma {:induction false} NamesInFull(bid: nat, n: nat, buffer: Buffer, wid: string, x: string)
    requires Full(bid, n, buffer) && wid in WIDS && x in Names(bid, wid, n)
    ensures x in buffer
  {
    assert x in AllNames(bid, n);
  }

  /** The three stacks of a full buffer: the weights in order, the experts of each in index order. */
  function StacksOf(bid: nat, n: nat, buffer: Buffer): seq<Named>
    requires Full(bid, n, buffer) && n > 0
  {
    StackOf(bid, n, buffer, WIDS[0]) + StackOf(bid, n, buffer, WIDS[1]) + StackOf(bid, n, buffer, WIDS[2])
  }

  function StackOf(bid: nat, n: nat, buffer: Buffer, wid: string): seq<Named>
    requires Full(bid, n, buffer) && n > 0 && wid in WIDS
  {
    NamesInFullAll(bid, n, buffer, wid);
    [Named(MergedName(bid, wid), Stack(LookedUp(buffer, Names(bid, wid, n))))]
  }

  lemma {:induction false} NamesInFullAll(bid: nat, n: nat, buffer: Buffer, wid: string)
    requires Full(bid, n, buffer) && wid in WIDS
    ensures forall x | x in Names(bid, wid, n) :: x in buffer
  {
    forall x | x in Names(bid, wid, n) ensures x in buffer { NamesInFull(bid, n, buffer, wid, x); }
  }

  /** The tensors of one weight can be stacked. */
  ghost predicate Alike(bid: nat, n: nat, buffer: Buffer, wid: string)
    requires Full(bid, n, buffer) && wid in WIDS
  {
    NamesInFullAll(bid, n, buffer, wid);
    Stackable(LookedUp(buffer, Names(bid, wid, n)))
  }

  lemma {:induction false} TakeStep(bid: nat, n: nat, full: Buffer, gone: set<string>, wid: string)
    requires Full(bid, n, full) && n > 0 && wid in WIDS && Alike(bid, n, full, wid)
    requires forall x | x in Names(bid, wid, n) :: x !in gone
    ensures forall x | x in Names(bid, wid, n) :: x in full
    ensures Taken(full - gone, Names(bid, wid, n)) ==
            Took(full - (gone + ToSet(Names(bid, wid, n))), LookedUp(full, Names(bid, wid, n)))
  {
    var names := Names(bid, wid, n);
    NamesInFullAll(bid, n, full, wid);
    NamesDistinct(bid, wid, n);
    TakenAll(full - gone, names);
    assert LookedUp(full - gone, names) == LookedUp(full, names);
    assert full - gone - ToSet(names) == full - (gone + ToSet(names));
  }

  /** Taking the three weights out of a full buffer leaves it empty and gives its stacks. */
  lemma {:induction false} MergedFull(bid: nat, n: nat, buffer: Buffer)
    requires Full(bid, n, buffer) && n > 0 && forall wid | wid in WIDS :: Alike(bid, n, buffer, wid)
    ensures MergedWids(bid, n, buffer, WIDS) == Merged(map[], StacksOf(bid, n, buffer))
  {
    MergedTwo(bid, n, buffer);
    var a, b, c := Names(bid, WIDS[0], n), Names(bid, WIDS[1], n), Names(bid, WIDS[2], n);
    NamesApart(bid, WIDS[2], WIDS[0], n);
    NamesApart(bid, WIDS[2], WIDS[1], n);
    TakeStep(bid, n, buffer, ToSet(a) + ToSet(b), WIDS[2]);
    assert ToSet(AllNames(bid, n)) == ToSet(a) + ToSet(b) + ToSet(c);
    assert buffer - (ToSet(a) + ToSet(b) + ToSet(c)) == map[];
    assert WIDS[..|WIDS| - 1] == WIDS[..2];
  }

  lemma {:induction false} MergedTwo(bid: nat, n: nat, buffer: Buffer)
    requires Full(bid, n, buffer) && n > 0 && forall wid | wid in WIDS :: Alike(bid, n, buffer, wid)
    ensures MergedWids(bid, n, buffer, WIDS[..2]) ==
            Merged(buffer - (ToSet(Names(bid, WIDS[0], n)) + ToSet(Names(bid, WIDS[1], n))),
                   StackOf(bid, n, buffer, WIDS[0]) + StackOf(bid, n, buffer, WIDS[1]))
  {
    MergedOne(bid, n, buffer);
    NamesApart(bid, WIDS[1], WIDS[0], n);
    TakeStep(bid, n, buffer, ToSet(Names(bid, WIDS[0], n)), WIDS[1]);
    assert WIDS[..2][..1] == WIDS[..1];
  }

  lemma {:induction false} MergedOne(bid: nat, n: nat, buffer: Buffer)
    requires Full(bid, n, buffer) && n > 0 && forall wid | wid in WIDS :: Alike(bid, n, buffer, wid)
    ensures MergedWids(bid, n, buffer, WIDS[..1]) ==
            Merged(buffer - ToSet(Names(bid, WIDS[0], n)), StackOf(bid, n, buffer, WIDS[0]))
  {
    TakeStep(bid, n, buffer, {}, WIDS[0]);
    assert buffer - {} == buffer && {} + ToSet(Names(bid, WIDS[0], n)) == ToSet(Names(bid, WIDS[0], n));
    assert WIDS[..1][..0] == [];
  }

  // ----- whole runs

  datatype Arrival = Arrival(bid: nat, name: string, data: Tensor)

  datatype Played = Played(experts: Option<seq<Buffer>>, emitted: seq<Named>, failed: bool)

  function Play(n: nat, blocks: nat, run: seq<Arrival>): Played {
    if run == [] then Played(None, [], false)
    else
      var before, a := Play(n, blocks, run[..|run| - 1]), run[|run| - 1];
      if before.failed then before
      else
        var (experts, r) := Collected(n, blocks, before.experts, Some(a.bid), a.name, a.data);
        match r
        case Emits(tensors) => Played(experts, before.emitted + tensors, false)
        case Fails(_) => Played(experts, before.emitted, true)
  }

  /** What has arrived for a layer. */
  function Received(run: seq<Arrival>, bid: nat): Buffer {
    if run == [] then map[]
    else
      var before, a := Received(run[..|run| - 1], bid), run[|run| - 1];
      if a.bid == bid then before[a.name := a.data] else before
  }

  ghost predicate EachOnce(run: seq<Arrival>) {
    forall i, j | 0 <= i < j < |run| && run[i].bid == run[j].bid :: run[i].name != run[j].name
  }

  ghost predicate Awaited(n: nat, blocks: nat, a: Arrival) {
    a.bid < blocks && a.name in AllNames(a.bid, n)
  }

  ghost predicate ForWeight(a: Arrival, wid: string, n: nat) {
    a.name in Names(a.bid, wid, n)
  }

  /** The tensors of one weight of one layer have one shape. */
  ghost predicate SameShapes(n: nat, run: seq<Arrival>) {
    forall i, j, wid | 0 <= i < |run| && 0 <= j < |run| && wid in WIDS && run[i].bid == run[j].bid
                       && ForWeight(run[i], wid, n) && ForWeight(run[j], wid, n) ::
      run[i].data.shape == run[j].data.shape
  }

  /** A run in which every tensor is an expected one, none comes twice, and shapes agree. */
  ghost predicate Orderly(n: nat, blocks: nat, run: seq<Arrival>) {
    n > 0 && EachOnce(run) && SameShapes(n, run) && forall i | 0 <= i < |run| :: Awaited(n, blocks, run[i])
  }

  lemma {:induction false} OrderlyPrefix(n: nat, blocks: nat, run: seq<Arrival>, k: nat)
    requires Orderly(n, blocks, run) && k <= |run|
    ensures Orderly(n, blocks, run[..k])
  {
  }

  lemma {:induction false} ReceivedFrom(run: seq<Arrival>, bid: nat, name: string)
    requires name in Received(run, bid)
    ensures exists i :: 0 <= i < |run| && run[i] == Arrival(bid, name, Received(run, bid)[name])
  {
    var k := |run| - 1;
    if run[k].bid == bid && run[k].name == name {
      assert run[k] == Arrival(bid, name, Received(run, bid)[name]);
    } else {
      ReceivedFrom(run[..k], bid, name);
      var i :| 0 <= i < k && run[..k][i] == Arrival(bid, name, Received(run[..k], bid)[name]);
      assert run[i] == run[..k][i];
    }
  }

  lemma {:induction false} ReceivedHas(run: seq<Arrival>, i: nat)
    requires EachOnce(run) && i < |run|
    ensures run[i].name in Received(run, run[i].bid) && Received(run, run[i].bid)[run[i].name] == run[i].data
  {
    var k := |run| - 1;
    if i < k {
      ReceivedHas(run[..k], i);
      assert run[..k][i] == run[i];
    }
  }

  /** The names received for a layer are expected ones. */
  lemma {:induction false} ReceivedAwaited(n: nat, blocks: nat, run: seq<Arrival>, bid: nat)
    requires Orderly(n, blocks, run)
    ensures Received(run, bid).Keys <= ToSet(AllNames(bid, n))
    ensures |Received(run, bid)| <= 3 * n
    ensures |Received(run, bid)| == 3 * n <==> Full(bid, n, Received(run, bid))
    ensures bid >= blocks ==> Received(run, bid) == map[]
  {
    var m := Received(run, bid);
    forall x | x in m ensures x in ToSet(AllNames(bid, n)) && bid < blocks {
      ReceivedFrom(run, bid, x);
    }
    AllNamesDistinct(bid, n);
    SubsetCount(m.Keys, ToSet(AllNames(bid, n)));
    assert |m| == |m.Keys|;
  }

  lemma {:induction false} FullIsAlike(n: nat, blocks: nat, run: seq<Arrival>, bid: nat, wid: string)
    requires Orderly(n, blocks, run) && wid in WIDS && Full(bid, n, Received(run, bid))
    ensures Alike(bid, n, Received(run, bid), wid)
  {
    var m, names := Received(run, bid), Names(bid, wid, n);
    NamesInFullAll(bid, n, m, wid);
    var datas := LookedUp(m, names);
    forall x, y | 0 <= x < n && 0 <= y < n ensures datas[x].shape == datas[y].shape {
      assert names[x] in names && names[y] in names;
      ReceivedFrom(run, bid, names[x]);
      ReceivedFrom(run, bid, names[y]);
      var i :| 0 <= i < |run| && run[i] == Arrival(bid, names[x], m[names[x]]);
      var j :| 0 <= j < |run| && run[j] == Arrival(bid, names[y], m[names[y]]);
      assert ForWeight(run[i], wid, n) && ForWeight(run[j], wid, n);
    }
  }

  /** What a layer's buffer holds: everything received, or nothing once the layer is full. */
  function Held(n: nat, run: seq<Arrival>, bid: nat): Buffer {
    if Full(bid, n, Received(run, bid)) then map[] else Received(run, bid)
  }

  ghost predicate Holds(n: nat, blocks: nat, run: seq<Arrival>) {
    var p := Play(n, blocks, run);
    && !p.failed
    && (p.experts.None? <==> run == [])
    && |Started(blocks, p.experts)| == blocks
    && forall b | 0 <= b < blocks :: Started(blocks, p.experts)[b] == Held(n, run, b)
  }

  /** What the last arrival of a run emits. */
  function LastEmits(n: nat, run: seq<Arrival>): seq<Named>
    requires run != [] && n > 0
  {
    var bid := run[|run| - 1].bid;
    if Full(bid, n, Received(run, bid)) then StacksOf(bid, n, Received(run, bid)) else []
  }

  /** An expected tensor that has not come before finds its layer unfinished. */
  lemma {:induction false} NotFullBefore(n: nat, blocks: nat, run: seq<Arrival>)
    requires Orderly(n, blocks, run) && run != []
    ensures var k := |run| - 1; var bid := run[k].bid;
            !Full(bid, n, Received(run[..k], bid)) && Received(run, bid) == Received(run[..k], bid)[run[k].name := run[k].data]
  {
    var k := |run| - 1;
    var a := run[k];
    if Full(a.bid, n, Received(run[..k], a.bid)) {
      assert a.name in Received(run[..k], a.bid);
      ReceivedFrom(run[..k], a.bid, a.name);
      assert false;
    }
  }

  lemma {:induction false} MergedReceived(n: nat, blocks: nat, run: seq<Arrival>, bid: nat)
    requires Orderly(n, blocks, run) && Full(bid, n, Received(run, bid))
    ensures MergedWids(bid, n, Received(run, bid), WIDS) == Merged(map[], StacksOf(bid, n, Received(run, bid)))
  {
    forall wid | wid in WIDS ensures Alike(bid, n, Received(run, bid), wid) { FullIsAlike(n, blocks, run, bid, wid); }
    MergedFull(bid, n, Received(run, bid));
  }

  /** The last arrival of a run, taken into buffers that hold what came before. */
  lemma {:induction false} LastCollected(n: nat, blocks: nat, run: seq<Arrival>, experts: Option<seq<Buffer>>)
    requires Orderly(n, blocks, run) && run != []
    requires var a := run[|run| - 1];
             |Started(blocks, experts)| == blocks && Started(blocks, experts)[a.bid] == Received(run[..|run| - 1], a.bid)
    ensures var a := run[|run| - 1];
            Collected(n, blocks, experts, Some(a.bid), a.name, a.data) ==
            (Some(Started(blocks, experts)[a.bid := Held(n, run, a.bid)]), Emits(LastEmits(n, run)))
  {
    var a := run[|run| - 1];
    var m := Received(run, a.bid);
    NotFullBefore(n, blocks, run);
    ReceivedAwaited(n, blocks, run, a.bid);
    if Full(a.bid, n, m) { MergedReceived(n, blocks, run, a.bid); }
  }

  lemma {:induction false} StepHolds(n: nat, blocks: nat, run: seq<Arrival>)
    requires Orderly(n, blocks, run) && run != [] && Holds(n, blocks, run[..|run| - 1])
    ensures Holds(n, blocks, run)
    ensures Play(n, blocks, run).emitted == Play(n, blocks, run[..|run| - 1]).emitted + LastEmits(n, run)
  {
    var k := |run| - 1;
    var before, a := Play(n, blocks, run[..k]), run[k];
    var all := Started(blocks, before.experts);
    NotFullBefore(n, blocks, run);
    assert all[a.bid] == Held(n, run[..k], a.bid);
    LastCollected(n, blocks, run, before.experts);
    forall b | 0 <= b < blocks && b != a.bid ensures Held(n, run, b) == all[b] {
      assert Received(run, b) == Received(run[..k], b);
    }
  }

  lemma {:induction false} RunHolds(n: nat, blocks: nat, run: seq<Arrival>)
    requires Orderly(n, blocks, run)
    ensures Holds(n, blocks, run)
    decreases |run|
  {
    if run == [] {
      forall b | 0 <= b < blocks ensures Started(blocks, None)[b] == Held(n, run, b) {
        EmptyNotFull(b, n);
      }
    } else {
      OrderlyPrefix(n, blocks, run, |run| - 1);
      RunHolds(n, blocks, run[..|run| - 1]);
      StepHolds(n, blocks, run);
    }
  }

  lemma {:induction false} EmptyNotFull(bid: nat, n: nat)
    requires n > 0
    ensures !Full(bid, n, map[])
  {
    AllNamesDistinct(bid, n);
    var empty: Buffer := map[];
    assert empty.Keys == {};
  }

  /** The layers in the order in which their last tensor arrived. */
  function Finished(n: nat, run: seq<Arrival>): seq<nat> {
    if run == [] then []
    else
      var before, bid := Finished(n, run[..|run| - 1]), run[|run| - 1].bid;
      if Full(bid, n, Received(run, bid)) then before + [bid] else before
  }

  /** The stacks of the given layers, one layer after another. */
  function StacksFor(n: nat, run: seq<Arrival>, layers: seq<nat>): seq<Named>
    requires n > 0
  {
    if layers == [] then []
    else
      var before, bid := StacksFor(n, run, layers[..|layers| - 1]), layers[|layers| - 1];
      if Full(bid, n, Received(run, bid)) then before + StacksOf(bid, n, Received(run, bid)) else before
  }

  lemma {:induction false} StacksForSame(n: nat, run: seq<Arrival>, run': seq<Arrival>, layers: seq<nat>)
    requires n > 0 && forall b | b in layers :: Received(run, b) == Received(run', b)
    ensures StacksFor(n, run, layers) == StacksFor(n, run', layers)
  {
    if layers != [] {
      StacksForSame(n, run, run', layers[..|layers| - 1]);
      assert layers[|layers| - 1] in layers;
    }
  }

  /** A layer is finished exactly when all its tensors have come, and only once. */
  lemma {:induction false} FinishedExactly(n: nat, blocks: nat, run: seq<Arrival>)
    requires Orderly(n, blocks, run)
    ensures Distinct(Finished(n, run))
    ensures forall b :: b in Finished(n, run) <==> Full(b, n, Received(run, b))
    decreases |run|
  {
    if run == [] {
      forall b ensures !Full(b, n, Received(run, b)) { EmptyNotFull(b, n); }
    } else {
      var k := |run| - 1;
      var bid := run[k].bid;
      OrderlyPrefix(n, blocks, run, k);
      FinishedExactly(n, blocks, run[..k]);
      NotFullBefore(n, blocks, run);
      forall b | b != bid ensures Received(run, b) == Received(run[..k], b) {}
    }
  }

  /** Each layer's three stacks are emitted once, when its last tensor arrives, and hold that layer's tensors
      in index order. */
  lemma {:induction false} EmitsFinished(n: nat, blocks: nat, run: seq<Arrival>)
    requires Orderly(n, blocks, run)
    ensures !Play(n, blocks, run).failed
    ensures Play(n, blocks, run).emitted == StacksFor(n, run, Finished(n, run))
    decreases |run|
  {
    RunHolds(n, blocks, run);
    if run != [] {
      var k := |run| - 1;
      OrderlyPrefix(n, blocks, run, k);
      EmitsFinished(n, blocks, run[..k]);
      RunHolds(n, blocks, run[..k]);
      StepHolds(n, blocks, run);
      var layers := Finished(n, run[..k]);
      FinishedExactly(n, blocks, run[..k]);
      NotFullBefore(n, blocks, run);
      forall b | b in layers ensures Received(run, b) == Received(run[..k], b) {}
      StacksForSame(n, run[..k], run, layers);
      var bid := run[k].bid;
      if Full(bid, n, Received(run, bid)) {
        assert (layers + [bid])[..|layers|] == layers;
      }
    }
  }

  /** A layer that has received some of its tensors but not all. */
  predicate Unfinished(n: nat, run: seq<Arrival>, bid: nat) {
    Received(run, bid) != map[] && !Full(bid, n, Received(run, bid))
  }

  lemma {:induction false} BufferAt(n: nat, blocks: nat, run: seq<Arrival>, b: nat)
    requires Orderly(n, blocks, run) && b < blocks && run != []
    ensures var e := Play(n, blocks, run).experts;
            e.Some? && |e.value| == blocks && (e.value[b] != map[] <==> Unfinished(n, run, b))
  {
    RunHolds(n, blocks, run);
    var e := Play(n, blocks, run).experts;
    assert Started(blocks, e)[b] == Held(n, run, b);
  }

  /** The final check raises exactly when some layer is unfinished. */
  lemma {:induction false} LeftoverExactly(n: nat, blocks: nat, run: seq<Arrival>)
    requires Orderly(n, blocks, run)
    ensures Leftover(Play(n, blocks, run).experts) <==> exists b: nat :: b < blocks && Unfinished(n, run, b)
  {
    if run == [] {
      forall b: nat ensures !Unfinished(n, run, b) {}
    } else {
      RunHolds(n, blocks, run);
      forall b: nat | b < blocks ensures Play(n, blocks, run).experts.value[b] != map[] <==> Unfinished(n, run, b) {
        BufferAt(n, blocks, run, b);
      }
    }
  }

  ghost predicate SameArrivals(run: seq<Arrival>, run': seq<Arrival>) {
    forall a :: a in run <==> a in run'
  }

  lemma {:induction false} ReceivedWithin(run: seq<Arrival>, run': seq<Arrival>, bid: nat, name: string)
    requires EachOnce(run') && SameArrivals(run, run') && name in Received(run, bid)
    ensures name in Received(run', bid) && Received(run', bid)[name] == Received(run, bid)[name]
  {
    ReceivedFrom(run, bid, name);
    var a := Arrival(bid, name, Received(run, bid)[name]);
    assert a in run;
    var j :| 0 <= j < |run'| && run'[j] == a;
    ReceivedHas(run', j);
  }

  lemma {:induction false} ReceivedAnyOrder(run: seq<Arrival>, run': seq<Arrival>, bid: nat)
    requires EachOnce(run) && EachOnce(run') && SameArrivals(run, run')
    ensures Received(run, bid) == Received(run', bid)
  {
    var m, m' := Received(run, bid), Received(run', bid);
    forall x | x in m ensures x in m' && m'[x] == m[x] { ReceivedWithin(run, run', bid, x); }
    forall x | x in m' ensures x in m && m[x] == m'[x] { ReceivedWithin(run', run, bid, x); }
    assert m.Keys == m'.Keys;
  }

  /** The order of arrival changes only the order in which layers are emitted: the same layers are finished,
      each with the same three stacks, and the final check answers the same. */
  lemma {:induction false} OrderDoesNotMatter(n: nat, blocks: nat, run: seq<Arrival>, run': seq<Arrival>)
    requires Orderly(n, blocks, run) && Orderly(n, blocks, run') && SameArrivals(run, run')
    ensures forall b :: b in Finished(n, run) <==> b in Finished(n, run')
    ensures Play(n, blocks, run').emitted == StacksFor(n, run, Finished(n, run'))
    ensures Leftover(Play(n, blocks, run).experts) <==> Leftover(Play(n, blocks, run').experts)
  {
    forall b ensures Received(run, b) == Received(run', b) { ReceivedAnyOrder(run, run', b); }
    FinishedExactly(n, blocks, run);
    FinishedExactly(n, blocks, run');
    EmitsFinished(n, blocks, run');
    StacksForSame(n, run, run', Finished(n, run'));
    LeftoverExactly(n, blocks, run);
    LeftoverExactly(n, blocks, run');
    forall b: nat ensures Unfinished(n, run, b) <==> Unfinished(n, run', b) {}
  }

  // ----- what a buffer that is large enough gives

  predicate AllIn(buffer: Buffer, names: seq<string>) { forall x | x in names :: x in buffer }

  /** All tensors of the weight are there and can be stacked. */
  ghost predicate Fit(bid: nat, n: nat, buffer: Buffer, wid: string) {
    AllIn(buffer, Names(bid, wid, n)) && Stackable(LookedUp(buffer, Names(bid, wid, n)))
  }

  lemma {:induction false} TakenStops(buffer: Buffer, names: seq<string>)
    requires Distinct(names) && !AllIn(buffer, names)
    ensures var t := Taken(buffer, names); t.Missing? && t.name in names && t.name !in buffer
  {
    var rest, last := names[..|names| - 1], names[|names| - 1];
    assert names == rest + [last];
    if AllIn(buffer, rest) {
      TakenAll(buffer, rest);
    } else {
      TakenStops(buffer, rest);
    }
  }

  /** The names of the first weights. */
  function FirstNames(bid: nat, n: nat, k: nat): set<string>
    requires k <= 3
  {
    if k == 0 then {} else FirstNames(bid, n, k - 1) + ToSet(Names(bid, WIDS[k - 1], n))
  }

  lemma {:induction false} FirstNamesApart(bid: nat, n: nat, k: nat, j: nat)
    requires k <= j < 3
    ensures forall x | x in Names(bid, WIDS[j], n) :: x !in FirstNames(bid, n, k)
  {
    if k > 0 {
      FirstNamesApart(bid, n, k - 1, j);
      NamesApart(bid, WIDS[j], WIDS[k - 1], n);
    }
  }

  /** One weight, after `gone` has been taken out. */
  lemma {:induction false} OneWeight(bid: nat, n: nat, buffer: Buffer, gone: set<string>, wid: string)
    requires wid in WIDS && forall x | x in Names(bid, wid, n) :: x !in gone
    ensures var names := Names(bid, wid, n); var t := Taken(buffer - gone, names);
            if AllIn(buffer, names) then t == Took(buffer - (gone + ToSet(names)), LookedUp(buffer, names))
            else t.Missing? && t.name in names && t.name !in buffer
  {
    var names := Names(bid, wid, n);
    NamesDistinct(bid, wid, n);
    if AllIn(buffer, names) {
      TakenAll(buffer - gone, names);
      assert LookedUp(buffer - gone, names) == LookedUp(buffer, names);
      assert buffer - gone - ToSet(names) == buffer - (gone + ToSet(names));
    } else {
      TakenStops(buffer - gone, names);
    }
  }

  /** Merging succeeds exactly when every weight has all its tensors, of one shape; otherwise it stops at an
      expected name that is missing, or at a weight whose tensors do not stack. */
  lemma {:induction false} MergedExactly(bid: nat, n: nat, buffer: Buffer, k: nat)
    requires k <= 3
    ensures var r := MergedWids(bid, n, buffer, WIDS[..k]);
            && (r.Merged? <==> forall w :: 0 <= w < k ==> Fit(bid, n, buffer, WIDS[w]))
            && (r.Merged? ==> r.rest == buffer - FirstNames(bid, n, k))
            && (r.Stopped? ==> (r.why.KeyError? && r.why.name !in buffer && exists w :: 0 <= w < k && r.why.name in Names(bid, WIDS[w], n)) ||
                               (r.why == StackError && exists w :: 0 <= w < k && AllIn(buffer, Names(bid, WIDS[w], n)) && !Fit(bid, n, buffer, WIDS[w])))
  {
    if k > 0 {
      var wid := WIDS[k - 1];
      assert WIDS[..k][..k - 1] == WIDS[..k - 1] && WIDS[..k][k - 1] == wid;
      MergedExactly(bid, n, buffer, k - 1);
      FirstNamesApart(bid, n, k - 1, k - 1);
      hide Names, Stackable, Taken, MergedName;
      OneWeight(bid, n, buffer, FirstNames(bid, n, k - 1), wid);
      assert forall w :: 0 <= w < k ==> w < k - 1 || WIDS[w] == wid;
    } else {
      assert buffer - {} == buffer;
    }
  }

  /** What a buffer that is large enough gives. */
  ghost predicate MergeGives(bid: nat, n: nat, buffer: Buffer, r: Outcome) {
    && (r.Emits? <==> forall w :: 0 <= w < 3 ==> Fit(bid, n, buffer, WIDS[w]))
    && (r.Fails? ==> (r.why.KeyError? && r.why.name !in buffer && exists w :: 0 <= w < 3 && r.why.name in Names(bid, WIDS[w], n)) ||
                     (r.why == StackError && exists w :: 0 <= w < 3 && AllIn(buffer, Names(bid, WIDS[w], n)) && !Fit(bid, n, buffer, WIDS[w])))
  }

  lemma {:induction false} MergeGivesAll(bid: nat, n: nat, buffer: Buffer, r: Outcome)
    requires match MergedWids(bid, n, buffer, WIDS) case Merged(_, tensors) => r == Emits(tensors) case Stopped(_, why) => r == Fails(why)
    ensures MergeGives(bid, n, buffer, r)
  {
    hide MergedWids, Fit, AllIn, Names;
    assert WIDS[..3] == WIDS;
    MergedExactly(bid, n, buffer, 3);
  }

  /** What one arrival gives: an assertion without a block, an index error behind the last one, nothing while
      tensors are missing in number, and then the merged weights or the error of the first thing that is wrong. */
  lemma {:induction false} CollectExactly(n: nat, blocks: nat, experts: Option<seq<Buffer>>, bid: Option<nat>, name: string, data: Tensor)
    ensures var (after, r) := Collected(n, blocks, experts, bid, name, data);
            var all := if experts.Some? then experts.value else seq(blocks, _ => map[]);
            match bid
            case None => after == experts && r == Fails(NoBlockId)
            case Some(b) =>
              after.Some? && |after.value| == |all| &&
              if b >= |all| then after.value == all && r == Fails(IndexError)
              else
                var buffer := all[b][name := data];
                && after.value == all[b := after.value[b]]
                && if |buffer| < 3 * n then after.value[b] == buffer && r == Emits([]) else MergeGives(b, n, buffer, r)
  {
    hide MergedWids, MergeGives;
    var (after, r) := Collected(n, blocks, experts, bid, name, data);
    var all := if experts.Some? then experts.value else seq(blocks, _ => map[]);
    if bid.Some? && bid.value < |all| {
      var buffer := all[bid.value][name := data];
      if |buffer| >= 3 * n { MergeGivesAll(bid.value, n, buffer, r); }
    }
  }

  // ----- the names themselves

  lemma {:induction false} MergedParts(bid: nat, wid: string)
    ensures MergedName(bid, wid) == "layers." + (Decimal(bid) + (".feed_forward.experts." + wid + ".weight"))
  {
  }

  /** The name of a merged weight determines its layer and which weight it is. */
  lemma {:induction false} MergedNameInjective(b: nat, v: string, c: nat, w: string)
    requires v in WIDS && w in WIDS && MergedName(b, v) == MergedName(c, w)
    ensures b == c && v == w
  {
    var front, middle := "layers.", ".feed_forward.experts.";
    MergedParts(b, v);
    MergedParts(c, w);
    SuffixSplit(front, Decimal(b), middle + v + ".weight", Decimal(c), middle + w + ".weight");
    assert (middle + v + ".weight")[|middle|..] == v + ".weight" && (middle + w + ".weight")[|middle|..] == w + ".weight";
    assert (v + ".weight")[..2] == v && (w + ".weight")[..2] == w;
    DecimalInjective(b, c);
  }

  /** What the names look like. */
  lemma {:induction false} ExpertNameExample()
    ensures ExpertName(10, 7, "w1") == "model.layers.10.block_sparse_moe.experts.7.w1.weight"
    ensures WIDS == ["w1", "w2", "w3"]
  {
    DecimalExamples();
    hide Decimal;
    assert Prefix(10) == "model.layers.10.block_sparse_moe.experts.";
    assert "7" + ("." + "w1" + ".weight") == "7.w1.weight";
  }

  lemma {:induction false} MergedNameExample()
    ensures MergedName(10, "w3") == "layers.10.feed_forward.experts.w3.weight"
  {
    DecimalExamples();
    hide Decimal;
    assert "layers." + "10" == "layers.10";
    assert "layers.10" + ".feed_forward.experts." == "layers.10.feed_forward.experts.";
  }

  lemma {:induction false} DecimalExamples()
    ensures Decimal(10) == "10" && Decimal(7) == "7"
  {
    assert Decimal(1) == "1";
  }
}
