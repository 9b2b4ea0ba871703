/** A GGML file written field by field is read back as it was written. */
module GgmlRoundTrip {
  import opened Wrappers
  import opened GgmlScan
  import opened GgmlTheorems

  // ----- writing words

  predicate IsWord(n: nat) { n < 0x1_0000_0000 }

  /** The low `k` bytes of `n`, least significant first. */
  function LowBytes(n: nat, k: nat): (s: seq<Byte>)
    ensures |s| == k
  {
    if k == 0 then [] else [n % 256] + LowBytes(n / 256, k - 1)
  }

  function Word(n: nat): (s: seq<Byte>)
    requires IsWord(n)
    ensures |s| == 4
  {
    LowBytes(n, 4)
  }

  predicate AreWords(ws: seq<nat>) {
    forall i | 0 <= i < |ws| :: IsWord(ws[i])
  }

  function Words(ws: seq<nat>): (s: seq<Byte>)
    requires AreWords(ws)
    ensures |s| == 4 * |ws|
  {
    if ws == [] then [] else Word(ws[0]) + Words(ws[1..])
  }

  lemma {:induction false} WordBack(n: nat)
    requires IsWord(n)
    ensures U32(Word(n)) == n
  {
    var n1, n2, n3 := n / 256, n / 256 / 256, n / 256 / 256 / 256;
    assert LowBytes(n3, 1) == [n3 % 256] + LowBytes(n3 / 256, 0);
    assert LowBytes(n2, 2) == [n2 % 256] + LowBytes(n3, 1);
    assert LowBytes(n1, 3) == [n1 % 256] + LowBytes(n2, 2);
    assert Word(n) == [n % 256, n1 % 256, n2 % 256, n3 % 256];
    assert n3 < 256;
  }

  lemma {:induction false} WordsAt(ws: seq<nat>, i: nat)
    requires AreWords(ws) && i < |ws|
    ensures Words(ws)[4 * i..4 * i + 4] == Word(ws[i])
    decreases |ws|
  {
    var first, rest := Word(ws[0]), Words(ws[1..]);
    assert Words(ws) == first + rest;
    if i == 0 {
      assert (first + rest)[0..4] == first;
    } else {
      WordsAt(ws[1..], i - 1);
      assert (first + rest)[4 * i..4 * i + 4] == rest[4 * (i - 1)..4 * (i - 1) + 4];
    }
  }

  lemma {:induction false} WordsBack(ws: seq<nat>)
    requires AreWords(ws)
    ensures U32s(Words(ws)) == ws
  {
    forall i | 0 <= i < |ws| ensures U32s(Words(ws))[i] == ws[i] {
      WordsAt(ws, i);
      WordBack(ws[i]);
    }
  }

  /** The file holds these bytes at this place. */
  ghost predicate Holds(data: seq<Byte>, at: nat, s: seq<Byte>) {
    at + |s| <= |data| && data[at..at + |s|] == s
  }

  lemma {:induction false} HoldsParts(data: seq<Byte>, at: nat, s: seq<Byte>, t: seq<Byte>)
    requires Holds(data, at, s + t)
    ensures Holds(data, at, s) && Holds(data, at + |s|, t)
  {
    var all := s + t;
    assert |all| == |s| + |t|;
    SliceAt(data, at, all, 0, |s|);
    SliceAt(data, at, all, |s|, |all|);
    assert all[0..|s|] == s && all[|s|..|all|] == t;
  }

  lemma {:induction false} SliceAt(data: seq<Byte>, at: nat, r: seq<Byte>, a: nat, b: nat)
    requires Holds(data, at, r) && a <= b <= |r|
    ensures data[at + a..at + b] == r[a..b]
  {
    if a < b {
      SubSlice(data, at, r, a, b);
    }
  }

  lemma {:induction false} SliceHeld(data: seq<Byte>, at: nat, s: seq<Byte>)
    requires Holds(data, at, s)
    ensures PySlice(data, at, at + |s|) == s
  {
  }

  lemma {:induction false} UnpackHeld(data: seq<Byte>, at: nat, ws: seq<nat>)
    requires AreWords(ws) && Holds(data, at, Words(ws))
    ensures Unpack(data, at, |ws|) == Ok(ws)
  {
    WordsBack(ws);
    UnpackOf(data, at, Words(ws), ws);
  }

  lemma {:induction false} UnpackOf(data: seq<Byte>, at: nat, s: seq<Byte>, ws: seq<nat>)
    requires |s| == 4 * |ws| && Holds(data, at, s) && U32s(s) == ws
    ensures Unpack(data, at, |ws|) == Ok(ws)
  {
    SliceHeld(data, at, s);
    UnpackSlice(data, at, |ws|, s);
  }

  lemma {:induction false} UnpackSlice(data: seq<Byte>, at: nat, n: nat, s: seq<Byte>)
    requires PySlice(data, at, at + 4 * n) == s && |s| == 4 * n
    ensures Unpack(data, at, n) == Ok(U32s(s))
  {
  }

  // ----- tensors

  datatype Spec = Spec(name: seq<Byte>, dims: seq<nat>, dtype: nat)

  predicate Writable(t: Spec) {
    |t.name| < 4096 && |t.dims| <= 4 && AreWords(t.dims) && IsWord(t.dtype) && QuantSize(t.dtype).Some?
  }

  function TensorHeader(t: Spec): seq<Byte>
    requires Writable(t)
  {
    Words([|t.dims|, |t.name|, t.dtype]) + (Words(t.dims) + t.name)
  }

  function StartOf(at: nat, t: Spec, usePadding: bool): nat {
    var end := at + 12 + 4 * |t.dims| + |t.name|;
    if usePadding then Align32(end) else end
  }

  function InfoOf(at: nat, t: Spec, usePadding: bool): TensorInfo
    requires Writable(t)
  {
    TensorInfo(t.name, t.dims, t.dtype, StartOf(at, t, usePadding), TrueBytes(t.dims, t.dtype))
  }

  lemma {:induction false} MadeOf(data: seq<Byte>, at: nat, usePadding: bool, t: Spec)
    requires Writable(t) && Plain(InfoOf(at, t, usePadding))
    requires PySlice(data, at + 12 + 4 * |t.dims|, at + 12 + 4 * |t.dims| + |t.name|) == t.name
    ensures var info := InfoOf(at, t, usePadding);
            MakeRecord(data, at, usePadding, |t.name|, t.dtype, t.dims) == Record(info, End(info))
  {
    LengthExactly(t.dims, t.dtype);
    WrapSame(End(InfoOf(at, t, usePadding)));
  }

  lemma {:induction false} CountsHeld(data: seq<Byte>, at: nat, x: nat, y: nat, z: nat)
    requires AreWords([x, y, z]) && Holds(data, at, Words([x, y, z]))
    ensures Unpack(data, at, 3) == Ok([x, y, z])
  {
    UnpackHeld(data, at, [x, y, z]);
  }

  lemma {:induction false} HeaderParts(data: seq<Byte>, at: nat, counts: seq<Byte>, dims: seq<Byte>, name: seq<Byte>)
    requires Holds(data, at, counts + (dims + name))
    ensures Holds(data, at, counts) && Holds(data, at + |counts|, dims) && Holds(data, at + |counts| + |dims|, name)
  {
    HoldsParts(data, at, counts, dims + name);
    HoldsParts(data, at + |counts|, dims, name);
  }

  lemma {:induction false} HeaderHeld(data: seq<Byte>, at: nat, t: Spec)
    requires Writable(t) && Holds(data, at, TensorHeader(t))
    ensures Holds(data, at, Words([|t.dims|, |t.name|, t.dtype])) && Holds(data, at + 12, Words(t.dims))
    ensures Holds(data, at + 12 + 4 * |t.dims|, t.name)
  {
    HeaderParts(data, at, Words([|t.dims|, |t.name|, t.dtype]), Words(t.dims), t.name);
  }

  lemma {:induction false} HeaderReads(data: seq<Byte>, at: nat, t: Spec)
    requires Writable(t) && Holds(data, at, Words([|t.dims|, |t.name|, t.dtype])) && Holds(data, at + 12, Words(t.dims))
    requires Holds(data, at + 12 + 4 * |t.dims|, t.name)
    ensures Unpack(data, at, 3) == Ok([|t.dims|, |t.name|, t.dtype]) && Unpack(data, at + 12, |t.dims|) == Ok(t.dims)
    ensures PySlice(data, at + 12 + 4 * |t.dims|, at + 12 + 4 * |t.dims| + |t.name|) == t.name
  {
    CountsHeld(data, at, |t.dims|, |t.name|, t.dtype);
    UnpackHeld(data, at + 12, t.dims);
    SliceHeld(data, at + 12 + 4 * |t.dims|, t.name);
  }

  /** A tensor header is read back field by field, and its data is found where it was put. */
  lemma {:induction false} TensorBack(data: seq<Byte>, at: nat, t: Spec, usePadding: bool)
    requires Writable(t) && Holds(data, at, TensorHeader(t)) && Plain(InfoOf(at, t, usePadding))
    ensures var info := InfoOf(at, t, usePadding);
            LoadTensor(data, at, usePadding) == Ok(Record(info, End(info)))
  {
    HeaderHeld(data, at, t);
    HeaderReads(data, at, t);
    LoadedBy(data, at, usePadding, |t.dims|, |t.name|, t.dtype);
    CountedBy(data, at, usePadding, |t.name|, t.dtype, t.dims);
    MadeOf(data, at, usePadding, t);
  }

  predicate AllWritable(ts: seq<Spec>) {
    forall i | 0 <= i < |ts| :: Writable(ts[i])
  }

  function EndOf(from: nat, ts: seq<Spec>, usePadding: bool): nat
    requires AllWritable(ts)
  {
    if ts == [] then from
    else
      var t := ts[|ts| - 1];
      var at := EndOf(from, ts[..|ts| - 1], usePadding);
      StartOf(at, t, usePadding) + TrueBytes(t.dims, t.dtype)
  }

  function InfosOf(from: nat, ts: seq<Spec>, usePadding: bool): seq<TensorInfo>
    requires AllWritable(ts)
  {
    if ts == [] then []
    else
      InfosOf(from, ts[..|ts| - 1], usePadding)
      + [InfoOf(EndOf(from, ts[..|ts| - 1], usePadding), ts[|ts| - 1], usePadding)]
  }

  /** The tensors are written one after another from `from`, each plain. */
  ghost predicate Written(data: seq<Byte>, from: nat, ts: seq<Spec>, usePadding: bool) {
    && AllWritable(ts)
    && (ts != [] ==>
          var before, t := ts[..|ts| - 1], ts[|ts| - 1];
          var at := EndOf(from, before, usePadding);
          && Written(data, from, before, usePadding)
          && Holds(data, at, TensorHeader(t)) && Plain(InfoOf(at, t, usePadding)))
  }

  /** Reading at each tensor's place gives its record. */
  ghost predicate Gives(read: int -> Result<Record>, size: nat, from: nat, ts: seq<Spec>, usePadding: bool)
    requires AllWritable(ts)
  {
    ts != [] ==>
      var before, t := ts[..|ts| - 1], ts[|ts| - 1];
      var at := EndOf(from, before, usePadding);
      var info := InfoOf(at, t, usePadding);
      Gives(read, size, from, before, usePadding) && at < size && read(at) == Ok(Record(info, End(info)))
  }

  lemma {:induction false} WrittenGives(data: seq<Byte>, from: nat, ts: seq<Spec>, usePadding: bool)
    requires Written(data, from, ts, usePadding)
    ensures Gives(Reader(data, usePadding), |data|, from, ts, usePadding)
    decreases |ts|
  {
    if ts != [] {
      var before, t := ts[..|ts| - 1], ts[|ts| - 1];
      var at := EndOf(from, before, usePadding);
      WrittenGives(data, from, before, usePadding);
      HeaderInside(data, at, t);
      TensorBack(data, at, t, usePadding);
      ReaderReads(data, usePadding, at);
    }
  }

  lemma {:induction false} HeaderInside(data: seq<Byte>, at: nat, t: Spec)
    requires Writable(t) && Holds(data, at, TensorHeader(t))
    ensures at < |data|
  {
    assert |TensorHeader(t)| >= 12;
  }

  lemma {:induction false} ReaderReads(data: seq<Byte>, usePadding: bool, at: int)
    ensures Reader(data, usePadding)(at) == LoadTensor(data, at, usePadding)
  {
  }

  lemma {:induction false} GivenScan(read: int -> Result<Record>, size: nat, from: nat, ts: seq<Spec>, usePadding: bool)
    requires AllWritable(ts) && Gives(read, size, from, ts, usePadding)
    ensures ScanAfter(read, size, from, |ts|) == At(size, EndOf(from, ts, usePadding), InfosOf(from, ts, usePadding))
    decreases |ts|
  {
    if ts != [] {
      var before, t := ts[..|ts| - 1], ts[|ts| - 1];
      var at := EndOf(from, before, usePadding);
      GivenScan(read, size, from, before, usePadding);
      var info := InfoOf(at, t, usePadding);
      ScanNext(read, size, from, |ts| - 1, at, InfosOf(from, before, usePadding), Record(info, End(info)));
    }
  }

  /** The scan of the written tensors records them all. */
  lemma {:induction false} ScanBack(data: seq<Byte>, from: nat, ts: seq<Spec>, usePadding: bool)
    requires Written(data, from, ts, usePadding)
    ensures ScanAfter(Reader(data, usePadding), |data|, from, |ts|) ==
            At(|data|, EndOf(from, ts, usePadding), InfosOf(from, ts, usePadding))
  {
    WrittenGives(data, from, ts, usePadding);
    GivenScan(Reader(data, usePadding), |data|, from, ts, usePadding);
  }

  lemma {:induction false} ScanNext(read: int -> Result<Record>, size: nat, offset: int, k: nat, at: int, ts: seq<TensorInfo>, r: Record)
    requires ScanAfter(read, size, offset, k) == Running(at, ts) && read(at) == Ok(r)
    ensures ScanAfter(read, size, offset, k + 1) == At(size, r.next, ts + [r.tensor])
  {
  }

  // ----- vocabulary

  predicate WritableItem(item: Item, scores: bool) {
    |item.text| < 4096 && (if scores then item.score.Some? && |item.score.value| == 4 else item.score.None?)
  }

  function ItemBytes(item: Item): seq<Byte>
    requires |item.text| < 4096
  {
    Word(|item.text|) + (item.text + ScoreBytes(item))
  }

  function ScoreBytes(item: Item): seq<Byte> {
    if item.score.Some? then item.score.value else []
  }

  lemma {:induction false} ItemLength(item: Item, scores: bool)
    requires WritableItem(item, scores)
    ensures |ScoreBytes(item)| == (if scores then 4 else 0) && (scores ==> ScoreBytes(item) == item.score.value)
    ensures |ItemBytes(item)| == 4 + |item.text| + (if scores then 4 else 0)
  {
  }

  lemma {:induction false} OneWord(n: nat)
    requires IsWord(n)
    ensures Words([n]) == Word(n)
  {
    assert Words([n]) == Word(n) + Words([]);
  }

  lemma {:induction false} WordHeld(data: seq<Byte>, at: nat, n: nat)
    requires IsWord(n) && Holds(data, at, Word(n))
    ensures Unpack(data, at, 1) == Ok([n])
  {
    OneWord(n);
    UnpackHeld(data, at, [n]);
  }

  lemma {:induction false} TailHeld(data: seq<Byte>, at: nat, s: seq<Byte>, t: seq<Byte>)
    requires Holds(data, at, s) && Holds(data, at + |s|, t)
    ensures PySlice(data, at, at + |s|) == s && PySlice(data, at + |s|, at + |s| + |t|) == t
  {
    SliceHeld(data, at, s);
    SliceHeld(data, at + |s|, t);
  }

  lemma {:induction false} ItemOf(data: seq<Byte>, at: nat, item: Item, scores: bool)
    requires WritableItem(item, scores) && Unpack(data, at, 1) == Ok([|item.text|])
    requires PySlice(data, at + 4, at + 4 + |item.text|) == item.text
    requires scores ==> PySlice(data, at + 4 + |item.text|, at + 4 + |item.text| + 4) == item.score.value
    ensures LoadItem(data, at, scores) == Ok(Loaded(item, at + 4 + |item.text| + if scores then 4 else 0))
  {
  }

  lemma {:induction false} ItemParts(data: seq<Byte>, at: nat, item: Item)
    requires |item.text| < 4096 && Holds(data, at, ItemBytes(item))
    ensures Holds(data, at, Word(|item.text|)) && Holds(data, at + 4, item.text)
    ensures Holds(data, at + 4 + |item.text|, ScoreBytes(item))
  {
    HeaderParts(data, at, Word(|item.text|), item.text, ScoreBytes(item));
  }

  lemma {:induction false} ItemBack(data: seq<Byte>, at: nat, item: Item, scores: bool)
    requires WritableItem(item, scores) && Holds(data, at, ItemBytes(item))
    ensures LoadItem(data, at, scores) == Ok(Loaded(item, at + |ItemBytes(item)|))
  {
    ItemParts(data, at, item);
    ItemLength(item, scores);
    ItemHeld(data, at, item, scores);
  }

  lemma {:induction false} ItemHeld(data: seq<Byte>, at: nat, item: Item, scores: bool)
    requires WritableItem(item, scores) && |ScoreBytes(item)| == (if scores then 4 else 0)
    requires Holds(data, at, Word(|item.text|)) && Holds(data, at + 4, item.text)
    requires Holds(data, at + 4 + |item.text|, ScoreBytes(item))
    ensures LoadItem(data, at, scores) == Ok(Loaded(item, at + 4 + |item.text| + if scores then 4 else 0))
  {
    WordHeld(data, at, |item.text|);
    TailHeld(data, at + 4, item.text, ScoreBytes(item));
    ItemOf(data, at, item, scores);
  }

  lemma {:induction false} ItemReaderBack(data: seq<Byte>, at: nat, item: Item, scores: bool)
    requires WritableItem(item, scores) && Holds(data, at, ItemBytes(item))
    ensures ItemReader(data, scores)(at) == Ok(Loaded(item, at + |ItemBytes(item)|))
  {
    ItemBack(data, at, item, scores);
  }

  /** Where the item after one at `at` is. */
  function AfterItem(at: nat, item: Item): nat
    requires |item.text| < 4096
  {
    at + |ItemBytes(item)|
  }

  predicate ShortItems(items: seq<Item>) {
    forall i | 0 <= i < |items| :: |items[i].text| < 4096
  }

  function AfterItems(at: nat, items: seq<Item>): nat
    requires ShortItems(items)
  {
    if items == [] then at else AfterItem(AfterItems(at, items[..|items| - 1]), items[|items| - 1])
  }

  ghost predicate WrittenItem(data: seq<Byte>, at: nat, item: Item, scores: bool) {
    WritableItem(item, scores) && Holds(data, at, ItemBytes(item))
  }

  /** The items are written one after another from `at`. */
  ghost predicate WrittenItems(data: seq<Byte>, at: nat, items: seq<Item>, scores: bool) {
    && ShortItems(items)
    && (items != [] ==>
          var before, item := items[..|items| - 1], items[|items| - 1];
          WrittenItems(data, at, before, scores) && WrittenItem(data, AfterItems(at, before), item, scores))
  }

  /** The reader answers with the item wherever one is written. */
  ghost predicate Answers(read: nat -> Result<Loaded>, data: seq<Byte>, scores: bool) {
    forall here: nat, item: Item | WrittenItem(data, here, item, scores) :: read(here) == Ok(Loaded(item, AfterItem(here, item)))
  }

  lemma {:induction false} ReaderAnswers(data: seq<Byte>, scores: bool)
    ensures Answers(ItemReader(data, scores), data, scores)
  {
    forall here: nat, item: Item | WrittenItem(data, here, item, scores)
      ensures ItemReader(data, scores)(here) == Ok(Loaded(item, AfterItem(here, item)))
    {
      ItemReaderBack(data, here, item, scores);
    }
  }

  lemma {:induction false} ItemsNext(read: nat -> Result<Loaded>, offset: nat, before: seq<Item>, at: nat, l: Loaded)
    requires LoadItems(read, offset, |before|) == Ok(Items(before, at)) && read(at) == Ok(l)
    ensures LoadItems(read, offset, |before| + 1) == Ok(Items(before + [l.item], l.next))
  {
  }

  lemma {:induction false} ItemsBack(read: nat -> Result<Loaded>, data: seq<Byte>, at: nat, items: seq<Item>, scores: bool)
    requires Answers(read, data, scores) && WrittenItems(data, at, items, scores)
    ensures LoadItems(read, at, |items|) == Ok(Items(items, AfterItems(at, items)))
    decreases |items|
  {
    if items != [] {
      var before, item := items[..|items| - 1], items[|items| - 1];
      var here := AfterItems(at, before);
      ItemsBack(read, data, at, before, scores);
      assert read(here) == Ok(Loaded(item, AfterItem(here, item)));
      ItemsNext(read, at, before, here, Loaded(item, AfterItem(here, item)));
      assert items == before + [item];
    }
  }

  // ----- header and hyperparameters

  predicate WritableHeader(h: Header) {
    match h.format
    case GGML => h.version == 1 && h.size == 4
    case GGMF => h.version == 1 && h.size == 8
    case GGJT => 1 <= h.version <= 3 && h.size == 8
  }

  function HeaderBytes(h: Header): (s: seq<Byte>)
    requires WritableHeader(h)
    ensures |s| == h.size
  {
    match h.format
    case GGML => [108, 109, 103, 103]
    case GGMF => [102, 109, 103, 103] + Word(h.version)
    case GGJT => [116, 106, 103, 103] + Word(h.version)
  }

  lemma {:induction false} HeaderBack(data: seq<Byte>, h: Header)
    requires WritableHeader(h) && Holds(data, 0, HeaderBytes(h))
    ensures ValidateHeader(data) == Ok(h)
  {
    if h.format == GGML {
      SliceHeld(data, 0, HeaderBytes(h));
    } else {
      var magic: seq<Byte> := if h.format == GGMF then [102, 109, 103, 103] else [116, 106, 103, 103];
      HoldsParts(data, 0, magic, Word(h.version));
      SliceHeld(data, 0, magic);
      OneWord(h.version);
      UnpackHeld(data, 4, [h.version]);
    }
  }

  function HyperWords(hp: Hyper): seq<nat> {
    [hp.nVocab, hp.nEmbd, hp.nMult, hp.nHead, hp.nLayer, hp.nRot, hp.ftype]
  }

  lemma {:induction false} HyperBack(data: seq<Byte>, at: nat, hp: Hyper)
    requires AreWords(HyperWords(hp)) && KnownFtype(hp.ftype) && hp.nFf == 0 && Holds(data, at, Words(HyperWords(hp)))
    ensures LoadHyper(data, at) == Ok(hp)
  {
    UnpackHeld(data, at, HyperWords(hp));
  }

  /** A file written from a header, hyperparameters, vocabulary and tensors. */
  ghost predicate IsFile(data: seq<Byte>, h: Header, hp: Hyper, items: seq<Item>, ts: seq<Spec>) {
    && WritableHeader(h) && AreWords(HyperWords(hp)) && KnownFtype(hp.ftype) && hp.nFf == 0 && hp.nVocab == |items|
    && Holds(data, 0, HeaderBytes(h)) && Holds(data, h.size, Words(HyperWords(hp)))
    && IsBody(data, h.size + 28, items, ts, h.format != GGML, h.format == GGJT)
  }

  ghost predicate IsBody(data: seq<Byte>, at: nat, items: seq<Item>, ts: seq<Spec>, scores: bool, usePadding: bool) {
    && WrittenItems(data, at, items, scores) && Written(data, AfterItems(at, items), ts, usePadding)
    && EndOf(AfterItems(at, items), ts, usePadding) == |data|
  }

  lemma {:induction false} RestOf(items: nat -> Result<Loaded>, records: int -> Result<Record>, size: nat, h: Header, hp: Hyper, all: Items,
               n: nat, tensors: seq<TensorInfo>, limit: nat)
    requires LoadItems(items, h.size + 28, hp.nVocab) == Ok(all)
    requires ScanAfter(records, size, all.offset, n) == At(size, size, tensors) && n <= limit
    ensures ReadRest(items, records, size, h, hp, limit) == Ok(File(h, hp, all.items, Finished(size, tensors)))
  {
    ScanEnded(records, size, all.offset, n, limit);
  }

  lemma {:induction false} PartsBack(data: seq<Byte>, at: nat, items: seq<Item>, ts: seq<Spec>, scores: bool, usePadding: bool)
    requires IsBody(data, at, items, ts, scores, usePadding)
    ensures LoadItems(ItemReader(data, scores), at, |items|) == Ok(Items(items, AfterItems(at, items)))
    ensures ScanAfter(Reader(data, usePadding), |data|, AfterItems(at, items), |ts|) ==
            At(|data|, |data|, InfosOf(AfterItems(at, items), ts, usePadding))
  {
    ReaderAnswers(data, scores);
    ItemsBack(ItemReader(data, scores), data, at, items, scores);
    ScanBack(data, AfterItems(at, items), ts, usePadding);
  }

  lemma {:induction false} RestBack(data: seq<Byte>, h: Header, hp: Hyper, items: seq<Item>, ts: seq<Spec>, scores: bool, usePadding: bool, limit: nat)
    requires IsBody(data, h.size + 28, items, ts, scores, usePadding) && hp.nVocab == |items| && limit >= |ts|
    ensures ReadRest(ItemReader(data, scores), Reader(data, usePadding), |data|, h, hp, limit) ==
            Ok(File(h, hp, items, Finished(|data|, InfosOf(AfterItems(h.size + 28, items), ts, usePadding))))
  {
    var from := AfterItems(h.size + 28, items);
    PartsBack(data, h.size + 28, items, ts, scores, usePadding);
    RestOf(ItemReader(data, scores), Reader(data, usePadding), |data|, h, hp, Items(items, from),
           |ts|, InfosOf(from, ts, usePadding), limit);
  }

  lemma {:induction false} BodyOf(data: seq<Byte>, h: Header, hp: Hyper, limit: nat)
    requires LoadHyper(data, h.size) == Ok(hp) && Eligible(h, hp.ftype)
    ensures ReadBody(data, h, limit) ==
            ReadRest(ItemReader(data, h.format != GGML), Reader(data, h.format == GGJT), |data|, h, hp, limit)
  {
  }

  lemma {:induction false} FileOf(data: seq<Byte>, h: Header, limit: nat)
    requires ValidateHeader(data) == Ok(h)
    ensures ReadFile(data, limit) == ReadBody(data, h, limit)
  {
  }

  /** An eligible file is read back: every field, item and tensor as written, each tensor's data where it was
      put, up to the end of the file. */
  lemma {:induction false} FileBack(data: seq<Byte>, h: Header, hp: Hyper, items: seq<Item>, ts: seq<Spec>, limit: nat)
    requires IsFile(data, h, hp, items, ts) && Eligible(h, hp.ftype) && limit >= |ts|
    ensures ReadFile(data, limit) ==
            Ok(File(h, hp, items, Finished(|data|, InfosOf(AfterItems(h.size + 28, items), ts, h.format == GGJT))))
  {
    HeaderBack(data, h);
    HyperBack(data, h.size, hp);
    FileOf(data, h, limit);
    BodyOf(data, h, hp, limit);
    RestBack(data, h, hp, items, ts, h.format != GGML, h.format == GGJT, limit);
  }

  // ----- a whole file that is never read to its end

  /** An eligible file up to its tensors, and then the record that leads back to itself. */
  ghost predicate IsLoopingFile(data: seq<Byte>, h: Header, hp: Hyper, items: seq<Item>, name: seq<Byte>) {
    && WritableHeader(h) && AreWords(HyperWords(hp)) && KnownFtype(hp.ftype) && hp.nFf == 0 && hp.nVocab == |items|
    && Holds(data, 0, HeaderBytes(h)) && Holds(data, h.size, Words(HyperWords(hp))) && Eligible(h, hp.ftype)
    && WrittenItems(data, h.size + 28, items, h.format != GGML) && |name| == 16 && |data| < TWO63
    && Holds(data, AfterItems(h.size + 28, items), LoopingRecord(name))
    && (h.format == GGJT ==> AfterItems(h.size + 28, items) % 32 == 28)
  }

  lemma {:induction false} RestRunning(items: nat -> Result<Loaded>, records: int -> Result<Record>, size: nat, h: Header, hp: Hyper,
                                       all: Items, limit: nat)
    requires LoadItems(items, h.size + 28, hp.nVocab) == Ok(all) && ScanAfter(records, size, all.offset, limit).Running?
    ensures ReadRest(items, records, size, h, hp, limit) == Ok(File(h, hp, all.items, ScanAfter(records, size, all.offset, limit)))
  {
  }

  lemma {:induction false} RecordHeld(data: seq<Byte>, at: nat, name: seq<Byte>)
    requires |name| == 16 && Holds(data, at, LoopingRecord(name))
    ensures at + 36 <= |data| && data[at..at + 36] == LoopingRecord(name)
  {
  }

  /** Loading such a file is still reading tensors after any number of records. */
  lemma {:induction false} LoopingFileStillRead(data: seq<Byte>, h: Header, hp: Hyper, items: seq<Item>, name: seq<Byte>, limit: nat)
    requires IsLoopingFile(data, h, hp, items, name)
    ensures ReadFile(data, limit).Ok? && ReadFile(data, limit).value.scan.Running?
  {
    hide Holds, ScanAfter, ReadFile, ReadBody, ReadRest, LoadItems, HeaderBytes, Words, LoopingRecord, Answers, Eligible,
      ValidateHeader, LoadHyper, Laid;
    var at, usePadding, scores := AfterItems(h.size + 28, items), h.format == GGJT, h.format != GGML;
    RecordHeld(data, at, name);
    HeaderBack(data, h);
    HyperBack(data, h.size, hp);
    FileOf(data, h, limit);
    BodyOf(data, h, hp, limit);
    ReaderAnswers(data, scores);
    ItemsBack(ItemReader(data, scores), data, h.size + 28, items, scores);
    LoopingFileNeverEnds(data, usePadding, at, name, limit);
    RestRunning(ItemReader(data, scores), Reader(data, usePadding), |data|, h, hp, Items(items, at), limit);
  }

  /** The shortest: 68 bytes, with no vocabulary. */
  function LoopingFile(): (data: seq<Byte>) {
    [108, 109, 103, 103] + (Words([0, 0, 0, 0, 0, 0, 0]) + LoopingRecord(seq(16, _ => 0)))
  }

  lemma {:induction false} LoopingFileIsOne(limit: nat)
    ensures |LoopingFile()| == 68 && ReadFile(LoopingFile(), limit).Ok? && ReadFile(LoopingFile(), limit).value.scan.Running?
  {
    var data, h, hp := LoopingFile(), Header(GGML, 1, 4), Hyper(0, 0, 0, 0, 0, 0, 0, 0);
    var magic: seq<Byte>, zeros, record := [108, 109, 103, 103], Words([0, 0, 0, 0, 0, 0, 0]), LoopingRecord(seq(16, _ => 0));
    assert |record| == 36;
    HeldThree(data, magic, zeros, record);
    assert AfterItems(32, []) == 32;
    LoopingFileStillRead(data, h, hp, [], seq(16, _ => 0), limit);
  }

  lemma {:induction false} HeldThree(data: seq<Byte>, a: seq<Byte>, b: seq<Byte>, c: seq<Byte>)
    requires data == a + (b + c)
    ensures Holds(data, 0, a) && Holds(data, |a|, b) && Holds(data, |a| + |b|, c)
  {
    assert data[0..|a|] == a && data[|a|..|a| + |b|] == b && data[|a| + |b|..|a| + |b| + |c|] == c;
  }
}
