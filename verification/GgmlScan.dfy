/** Reading a GGML file: `GGMLModel.load` and what it calls. Offsets follow NumPy's 64-bit arithmetic, and
    slices Python's rules for negative bounds. */
module GgmlScan {
  import opened Wrappers

  type Byte = b: int | 0 <= b < 256

  datatype Format = GGML | GGMF | GGJT

  datatype Error =
    | AlreadyGguf
    | BadMagic
    | BadVersion(format: Format, version: nat)
    | StructError
    | InvalidFtype(ftype: nat)
    | NotEligible
    | AbsurdItem
    | InvalidDimensions(n: nat)
    | AbsurdName
    | UnknownType(dtype: nat)
    | MissingFeedForward
    | NoSecondDimension

  datatype Result<T> = Ok(value: T) | Err(error: Error)

  // ----- bytes

  /** `data[lo:hi]`: negative bounds count from the end, and what lies outside is cut off. */
  function PySlice(data: seq<Byte>, lo: int, hi: int): seq<Byte> {
    var a, b := Bound(|data|, lo), Bound(|data|, hi);
    if a < b then data[a..b] else []
  }

  function Bound(n: nat, i: int): (r: nat)
    ensures r <= n
  {
    if i >= 0 then (if i < n then i else n) else if i + n >= 0 then i + n else 0
  }

  function U32(s: seq<Byte>): nat
    requires |s| == 4
  {
    var b0: nat, b1: nat, b2: nat, b3: nat := s[0], s[1], s[2], s[3];
    b0 + 256 * b1 + 65536 * b2 + 16777216 * b3
  }

  function U32s(s: seq<Byte>): seq<nat>
    requires |s| % 4 == 0
  {
    seq(|s| / 4, i requires 0 <= i < |s| / 4 => U32(s[4 * i..4 * i + 4]))
  }

  /** `struct.unpack('<{n}I', data[at:at + 4 * n])`. */
  function Unpack(data: seq<Byte>, at: int, n: nat): (r: Result<seq<nat>>)
    ensures r.Ok? ==> |r.value| == n
    ensures r.Err? ==> r.error == StructError
  {
    var s := PySlice(data, at, at + 4 * n);
    if |s| == 4 * n then Ok(U32s(s)) else Err(StructError)
  }

  // ----- 64-bit arithmetic

  const TWO63: int := 0x8000_0000_0000_0000
  const TWO64: int := 0x1_0000_0000_0000_0000

  /** Two's complement of 64 bits. */
  function Wrap64(x: int): int {
    (x + TWO63) % TWO64 - TWO63
  }

  // ----- header, hyperparameters and vocabulary

  datatype Header = Header(format: Format, version: nat, size: nat)

  function ValidateHeader(data: seq<Byte>): Result<Header> {
    var magic := PySlice(data, 0, 4);
    if magic == [71, 71, 85, 70] then Err(AlreadyGguf)
    else if magic == [108, 109, 103, 103] then Ok(Header(GGML, 1, 4))
    else
      match Unpack(data, 4, 1)
      case Err(e) => Err(e)
      case Ok(words) =>
        var version := words[0];
        if magic == [102, 109, 103, 103] then
          if version != 1 then Err(BadVersion(GGMF, version)) else Ok(Header(GGMF, version, 8))
        else if magic == [116, 106, 103, 103] then
          if version < 1 || version > 3 then Err(BadVersion(GGJT, version)) else Ok(Header(GGJT, version, 8))
        else Err(BadMagic)
  }

  datatype Hyper = Hyper(nVocab: nat, nEmbd: nat, nMult: nat, nHead: nat, nLayer: nat, nRot: nat, ftype: nat, nFf: nat)

  predicate KnownFtype(ftype: nat) { ftype <= 4 || 7 <= ftype <= 18 }

  function LoadHyper(data: seq<Byte>, offset: nat): Result<Hyper> {
    match Unpack(data, offset, 7)
    case Err(e) => Err(e)
    case Ok(w) =>
      if !KnownFtype(w[6]) then Err(InvalidFtype(w[6]))
      else Ok(Hyper(w[0], w[1], w[2], w[3], w[4], w[5], w[6], 0))
  }

  /** `validate_conversion`: files older than GGJTv2 must be unquantized, GGJTv2 files must not use the types
      that changed afterwards. */
  predicate Eligible(h: Header, ftype: nat) {
    if h.format != GGJT || h.version < 2 then ftype == 0 || ftype == 1
    else h.version == 2 ==> ftype !in {2, 3, 4, 7}
  }

  /** A vocabulary item; the score is its four bytes, or none for the format without scores. */
  datatype Item = Item(text: seq<Byte>, score: Option<seq<Byte>>)

  datatype Loaded = Loaded(item: Item, next: nat)

  datatype Items = Items(items: seq<Item>, offset: nat)

  function LoadItem(data: seq<Byte>, offset: nat, scores: bool): Result<Loaded> {
    match Unpack(data, offset, 1)
    case Err(e) => Err(e)
    case Ok(w) =>
      if w[0] >= 4096 then Err(AbsurdItem)
      else
        var at := offset + 4 + w[0];
        var text := PySlice(data, offset + 4, at);
        if !scores then Ok(Loaded(Item(text, None), at))
        else
          var score := PySlice(data, at, at + 4);
          if |score| != 4 then Err(StructError) else Ok(Loaded(Item(text, Some(score)), at + 4))
  }

  /** The item reader of a file, as the loop over items uses it. */
  function ItemReader(data: seq<Byte>, scores: bool): nat -> Result<Loaded> {
    (offset: nat) => LoadItem(data, offset, scores)
  }

  function LoadItems(read: nat -> Result<Loaded>, offset: nat, n: nat): Result<Items> {
    if n == 0 then Ok(Items([], offset))
    else
      match LoadItems(read, offset, n - 1)
      case Err(e) => Err(e)
      case Ok(before) =>
        match read(before.offset)
        case Err(e) => Err(e)
        case Ok(l) => Ok(Items(before.items + [l.item], l.next))
  }

  class Vocab {
    var items: seq<Item>

    constructor ()
      ensures items == []
    {
      items := [];
    }

    /** The loop over `n_vocab` items; the answer is the number of bytes read. */
    method Load(read: nat -> Result<Loaded>, start: nat, nVocab: nat) returns (r: Result<int>)
      requires items == []
      modifies this
      ensures match LoadItems(read, start, nVocab)
              case Ok(all) => items == all.items && r == Ok(all.offset - start)
              case Err(e) => r == Err(e)
    {
      var offset: nat := start;
      for i := 0 to nVocab
        invariant LoadItems(read, start, i) == Ok(Items(items, offset))
      {
        match read(offset)
        case Err(e) =>
          ItemsFail(read, start, i + 1, nVocab);
          return Err(e);
        case Ok(l) =>
          items := items + [l.item];
          offset := l.next;
      }
      r := Ok(offset - start);
    }
  }

  lemma {:induction false} ItemsFail(read: nat -> Result<Loaded>, offset: nat, k: nat, n: nat)
    requires k <= n && LoadItems(read, offset, k).Err?
    ensures LoadItems(read, offset, n) == LoadItems(read, offset, k)
    decreases n
  {
    if k < n {
      ItemsFail(read, offset, k, n - 1);
    }
  }

  // ----- one tensor record

  datatype Quant = Quant(blockSize: nat, typeSize: nat)

  /** `GGML_QUANT_SIZES`: block size and bytes per block of each type. */
  function QuantSize(dtype: nat): (q: Option<Quant>)
    ensures q.Some? ==> 0 < q.value.blockSize <= 256 && 0 < q.value.typeSize <= 292
  {
    match dtype
    case 0 => Some(Quant(1, 4))
    case 1 => Some(Quant(1, 2))
    case 2 => Some(Quant(32, 18))
    case 3 => Some(Quant(32, 20))
    case 6 => Some(Quant(32, 22))
    case 7 => Some(Quant(32, 24))
    case 8 => Some(Quant(32, 34))
    case 9 => Some(Quant(32, 40))
    case 10 => Some(Quant(256, 84))
    case 11 => Some(Quant(256, 110))
    case 12 => Some(Quant(256, 144))
    case 13 => Some(Quant(256, 176))
    case 14 => Some(Quant(256, 210))
    case 15 => Some(Quant(256, 292))
    case 16 => Some(Quant(256, 66))
    case 17 => Some(Quant(256, 74))
    case 18 => Some(Quant(256, 98))
    case 19 => Some(Quant(256, 50))
    case 20 => Some(Quant(32, 18))
    case 21 => Some(Quant(256, 110))
    case 22 => Some(Quant(256, 82))
    case 23 => Some(Quant(256, 136))
    case 24 => Some(Quant(1, 1))
    case 25 => Some(Quant(1, 2))
    case 26 => Some(Quant(1, 4))
    case 27 => Some(Quant(1, 8))
    case 28 => Some(Quant(1, 8))
    case 29 => Some(Quant(256, 56))
    case 30 => Some(Quant(1, 2))
    case 34 => Some(Quant(256, 54))
    case 35 => Some(Quant(256, 66))
    case 39 => Some(Quant(32, 17))
    case _ => None
  }

  function Elements(dims: seq<nat>): nat {
    if dims == [] then 1 else Elements(dims[..|dims| - 1]) * dims[|dims| - 1]
  }

  /** `np.prod`: each partial product wraps. */
  function NpProd(dims: seq<nat>): int {
    if dims == [] then 1 else Wrap64(NpProd(dims[..|dims| - 1]) * dims[|dims| - 1])
  }

  /** `np.int64(n_elems * tysize) // blksize`: the last factor multiplies and wraps like the others, and the
      division rounds down. */
  function LenBytes(dims: seq<nat>, dtype: nat): int
    requires QuantSize(dtype).Some?
  {
    var q := QuantSize(dtype).value;
    NpProd(dims + [q.typeSize]) / q.blockSize
  }

  /** `(x + 31) & ~31`. */
  function Align32(x: int): int { (x + 31) / 32 * 32 }

  datatype TensorInfo = TensorInfo(name: seq<Byte>, dims: seq<nat>, dtype: nat, start: int, lenBytes: int)

  datatype Record = Record(tensor: TensorInfo, next: int)

  /** The end of the record's header: name, dimensions and counts. */
  function HeaderEnd(offset: int, nDims: nat, nameLen: nat): int { offset + 12 + 4 * nDims + nameLen }

  /** The record whose header has been read. */
  function MakeRecord(data: seq<Byte>, offset: int, usePadding: bool, nameLen: nat, dtype: nat, dims: seq<nat>): Record
    requires QuantSize(dtype).Some?
  {
    var nameAt := offset + 12 + 4 * |dims|;
    var name := PySlice(data, nameAt, nameAt + nameLen);
    var end := HeaderEnd(offset, |dims|, nameLen);
    var start := if usePadding then Align32(end) else end;
    var len := LenBytes(dims, dtype);
    Record(TensorInfo(name, dims, dtype, start, len), Wrap64(start + len))
  }

  /** The checks on the three counts, in order, and the rest of the header. */
  function LoadCounted(data: seq<Byte>, offset: int, usePadding: bool, nDims: nat, nameLen: nat, dtype: nat): Result<Record> {
    if nDims > 4 then Err(InvalidDimensions(nDims))
    else if nameLen >= 4096 then Err(AbsurdName)
    else if QuantSize(dtype).None? then Err(UnknownType(dtype))
    else
      match Unpack(data, offset + 12, nDims)
      case Err(e) => Err(e)
      case Ok(dims) => Ok(MakeRecord(data, offset, usePadding, nameLen, dtype, dims))
  }

  /** The record at an offset, and the offset after it. */
  function LoadTensor(data: seq<Byte>, offset: int, usePadding: bool): Result<Record> {
    match Unpack(data, offset, 3)
    case Err(e) => Err(e)
    case Ok(w) => LoadCounted(data, offset, usePadding, w[0], w[1], w[2])
  }

  // ----- the scan

  datatype Scan =
    | Running(offset: int, tensors: seq<TensorInfo>)
    | Finished(offset: int, tensors: seq<TensorInfo>)
    | Failed(error: Error)

  /** The record reader of a file, as the loop over records uses it. */
  function Reader(data: seq<Byte>, usePadding: bool): int -> Result<Record> {
    (offset: int) => LoadTensor(data, offset, usePadding)
  }

  function At(size: nat, offset: int, tensors: seq<TensorInfo>): Scan {
    if offset < size then Running(offset, tensors) else Finished(offset, tensors)
  }

  /** The scan after at most `k` records: the loop has no other bound. */
  function ScanAfter(read: int -> Result<Record>, size: nat, offset: int, k: nat): Scan {
    if k == 0 then At(size, offset, [])
    else
      match ScanAfter(read, size, offset, k - 1)
      case Running(at, tensors) =>
        (match read(at)
         case Err(e) => Failed(e)
         case Ok(record) => At(size, record.next, tensors + [record.tensor]))
      case ended => ended
  }

  method ScanTensors(read: int -> Result<Record>, size: nat, start: int, limit: nat) returns (s: Scan)
    ensures s == ScanAfter(read, size, start, limit)
  {
    var offset := start;
    var tensors: seq<TensorInfo> := [];
    var k := 0;
    while offset < size && k < limit
      invariant k <= limit
      invariant ScanAfter(read, size, start, k) == At(size, offset, tensors)
      decreases limit - k
    {
      match read(offset)
      case Err(e) =>
        ScanEnded(read, size, start, k + 1, limit);
        return Failed(e);
      case Ok(record) =>
        tensors := tensors + [record.tensor];
        offset := record.next;
      k := k + 1;
    }
    if offset < size {
      return Running(offset, tensors);
    }
    ScanEnded(read, size, start, k, limit);
    s := Finished(offset, tensors);
  }

  /** A scan that has ended stays as it is. */
  lemma {:induction false} ScanEnded(read: int -> Result<Record>, size: nat, offset: int, k: nat, n: nat)
    requires k <= n && !ScanAfter(read, size, offset, k).Running?
    ensures ScanAfter(read, size, offset, n) == ScanAfter(read, size, offset, k)
    decreases n
  {
    if k < n {
      ScanEnded(read, size, offset, k, n - 1);
    }
  }

  // ----- the model object

  const FEED_FORWARD: seq<Byte> :=
    [108, 97, 121, 101, 114, 115, 46, 48, 46, 102, 101, 101, 100, 95, 102, 111, 114, 119, 97, 114, 100, 46, 119, 49, 46,
     119, 101, 105, 103, 104, 116]

  /** The index of the last tensor of each name. */
  function TensorMap(tensors: seq<TensorInfo>): map<seq<Byte>, nat> {
    if tensors == [] then map[]
    else TensorMap(tensors[..|tensors| - 1])[tensors[|tensors| - 1].name := |tensors| - 1]
  }

  /** A name is mapped exactly when some tensor has it, to the last one that does. */
  lemma {:induction false} TensorMapLast(tensors: seq<TensorInfo>, name: seq<Byte>)
    ensures name in TensorMap(tensors) <==> exists i :: 0 <= i < |tensors| && tensors[i].name == name
    ensures name in TensorMap(tensors) ==>
              var j := TensorMap(tensors)[name];
              j < |tensors| && tensors[j].name == name && forall i | j < i < |tensors| :: tensors[i].name != name
    decreases |tensors|
  {
    if tensors != [] {
      TensorMapLast(tensors[..|tensors| - 1], name);
    }
  }

  /** The index each name is left with when the tensors are entered one after another. */
  method MapTensors(tensors: seq<TensorInfo>) returns (m: map<seq<Byte>, nat>)
    ensures m == TensorMap(tensors)
  {
    m := map[];
    for i := 0 to |tensors|
      invariant m == TensorMap(tensors[..i])
    {
      assert tensors[..i + 1][..i] == tensors[..i];
      m := m[tensors[i].name := i];
    }
    assert tensors[..|tensors|] == tensors;
  }

  /** `set_n_ff`. */
  function FeedForward(tensors: seq<TensorInfo>): Result<nat> {
    var m := TensorMap(tensors);
    if FEED_FORWARD !in m then Err(MissingFeedForward)
    else if m[FEED_FORWARD] >= |tensors| then Err(MissingFeedForward)
    else if |tensors[m[FEED_FORWARD]].dims| < 2 then Err(NoSecondDimension)
    else Ok(tensors[m[FEED_FORWARD]].dims[1])
  }

  datatype File = File(header: Header, hyper: Hyper, items: seq<Item>, scan: Scan)

  /** What `load` reads after the header. */
  function ReadBody(data: seq<Byte>, h: Header, limit: nat): Result<File> {
    match LoadHyper(data, h.size)
    case Err(e) => Err(e)
    case Ok(hp) =>
      if !Eligible(h, hp.ftype) then Err(NotEligible)
      else ReadRest(ItemReader(data, h.format != GGML), Reader(data, h.format == GGJT), |data|, h, hp, limit)
  }

  function ReadRest(items: nat -> Result<Loaded>, records: int -> Result<Record>, size: nat, h: Header, hp: Hyper, limit: nat):
    Result<File>
  {
    match LoadItems(items, h.size + 28, hp.nVocab)
    case Err(e) => Err(e)
    case Ok(all) =>
      var scan := ScanAfter(records, size, all.offset, limit);
      if scan.Failed? then Err(scan.error) else Ok(File(h, hp, all.items, scan))
  }

  /** Everything `load` reads before it looks for the feed-forward tensor. */
  function ReadFile(data: seq<Byte>, limit: nat): Result<File> {
    match ValidateHeader(data)
    case Err(e) => Err(e)
    case Ok(h) => ReadBody(data, h, limit)
  }

  datatype Loading = Done(offset: int) | Raises(error: Error) | StillReading

  class GGMLModel {
    var fileFormat: Option<Format>
    var formatVersion: nat
    var hyperparameters: Option<Hyper>
    var vocab: seq<Item>
    var tensors: seq<TensorInfo>
    var tensorMap: map<seq<Byte>, nat>

    constructor ()
      ensures hyperparameters == None && tensors == [] && tensorMap == map[] && vocab == []
    {
      fileFormat, formatVersion, hyperparameters, vocab, tensors, tensorMap := None, 0, None, [], [], map[];
    }

    method ReadItemsAndTensors(items: nat -> Result<Loaded>, records: int -> Result<Record>, size: nat, h: Header, hp: Hyper,
                               limit: nat) returns (r: Result<File>)
      ensures r == ReadRest(items, records, size, h, hp, limit)
    {
      var v := new Vocab();
      var read := v.Load(items, h.size + 28, hp.nVocab);
      if read.Err? {
        return Err(read.error);
      }
      var scan := ScanTensors(records, size, h.size + 28 + read.value, limit);
      if scan.Failed? {
        return Err(scan.error);
      }
      r := Ok(File(h, hp, v.items, scan));
    }

    /** The end of `load`: the object takes what was read, then the feed-forward size is looked up. */
    method Take(f: File) returns (r: Loading)
      modifies `hyperparameters, `vocab, `tensors, `tensorMap
      ensures Taken(f, r)
      ensures f.scan.Running? ==> hyperparameters == old(hyperparameters) && tensors == old(tensors)
    {
      if f.scan.Failed? || f.scan.Running? {
        return StillReading;
      }
      vocab, tensors := f.items, f.scan.tensors;
      tensorMap := MapTensors(tensors);
      hyperparameters := Some(f.hyper);
      var n := FeedForward(tensors);
      if n.Err? {
        return Raises(n.error);
      }
      hyperparameters := Some(f.hyper.(nFf := n.value));
      r := Done(f.scan.offset);
    }

    ghost predicate Taken(f: File, r: Loading)
      reads this
    {
      if !f.scan.Finished? then r == StillReading
      else
        && vocab == f.items && tensors == f.scan.tensors && tensorMap == TensorMap(tensors)
        && match FeedForward(tensors)
           case Ok(n) => r == Done(f.scan.offset) && hyperparameters == Some(f.hyper.(nFf := n))
           case Err(e) => r == Raises(e) && hyperparameters == Some(f.hyper)
    }

    /** Load a file, reading at most `limit` tensor records. */
    method Load(data: seq<Byte>, limit: nat) returns (r: Loading)
      modifies this
      ensures match ValidateHeader(data)
              case Ok(h) => fileFormat == Some(h.format) && formatVersion == h.version
              case Err(_) => fileFormat == old(fileFormat) && formatVersion == old(formatVersion)
      ensures match ReadFile(data, limit)
              case Err(e) => r == Raises(e)
              case Ok(f) => Taken(f, r)
      ensures ReadFile(data, limit).Err? || r == StillReading ==>
                hyperparameters == old(hyperparameters) && tensors == old(tensors)
    {
      var header := ValidateHeader(data);
      if header.Err? {
        return Raises(header.error);
      }
      var h := header.value;
      fileFormat, formatVersion := Some(h.format), h.version;
      var hyper := LoadHyper(data, h.size);
      if hyper.Err? {
        return Raises(hyper.error);
      }
      var hp := hyper.value;
      if !Eligible(h, hp.ftype) {
        return Raises(NotEligible);
      }
      var file := ReadItemsAndTensors(ItemReader(data, h.format != GGML), Reader(data, h.format == GGJT), |data|, h, hp, limit);
      if file.Err? {
        return Raises(file.error);
      }
      r := Take(file.value);
    }
  }
}
