/** What holds of a GGML scan: recorded sizes, alignment, order of the data spans, and when the loop ends. */
module GgmlTheorems {
  import opened Collections
  import opened Wrappers
  import opened GgmlScan

  // ----- wrapping

  lemma {:induction false} WrapSame(x: int)
    requires -TWO63 <= x < TWO63
    ensures Wrap64(x) == x
  {
  }

  lemma {:induction false} WrapShift(x: int) returns (k: int)
    ensures Wrap64(x) == x - k * TWO64 && -TWO63 <= Wrap64(x) < TWO63
  {
    k := (x + TWO63) / TWO64;
  }

  lemma {:induction false} WrapUnique(x: int, y: int, k: int)
    requires x == y + k * TWO64
    ensures Wrap64(x) == Wrap64(y)
  {
    var a, b := x + TWO63, y + TWO63;
    assert a == b + k * TWO64;
    ModShift(b, k);
  }

  lemma {:induction false} ModShift(b: int, k: int)
    ensures (b + k * TWO64) % TWO64 == b % TWO64
  {
  }

  lemma {:induction false} WrapMul(x: int, y: int)
    ensures Wrap64(Wrap64(x) * y) == Wrap64(x * y)
  {
    var k := WrapShift(x);
    assert Wrap64(x) * y == (x - k * TWO64) * y;
    assert (x - k * TWO64) * y == x * y + (-(k * y)) * TWO64;
    WrapUnique(Wrap64(x) * y, x * y, -(k * y));
  }

  /** Wrapping every partial product is wrapping the product. */
  lemma {:induction false} NpProdWraps(dims: seq<nat>)
    ensures NpProd(dims) == Wrap64(Elements(dims))
    decreases |dims|
  {
    if dims == [] {
      WrapSame(1);
    } else {
      var rest, d := dims[..|dims| - 1], dims[|dims| - 1];
      NpProdWraps(rest);
      WrapMul(Elements(rest), d);
    }
  }

  // ----- recorded sizes

  /** The number of bytes the blocks of a tensor take before division into blocks is rounded. */
  function BlockBytes(dims: seq<nat>, dtype: nat): nat
    requires QuantSize(dtype).Some?
  {
    Elements(dims + [QuantSize(dtype).value.typeSize])
  }

  function TrueBytes(dims: seq<nat>, dtype: nat): nat
    requires QuantSize(dtype).Some?
  {
    BlockBytes(dims, dtype) / QuantSize(dtype).value.blockSize
  }

  lemma {:induction false} DivBelow(p: int, w: int, n: int)
    requires 0 < n <= 256 && w <= p - TWO64
    ensures w / n < p / n
  {
    var q, r := p / n, p % n;
    assert p == n * q + r;
    assert w == n * (w / n) + w % n;
    if w / n >= q {
      MulAtLeast(n, w / n, q);
    }
  }

  lemma {:induction false} MulAtLeast(n: int, a: int, b: int)
    requires n > 0 && a >= b
    ensures n * a >= n * b
  {
  }

  /** The recorded length is the true one exactly when the product of the dimensions and the bytes per block
      fits in 63 bits; then it is not negative. */
  lemma {:induction false} LengthExactly(dims: seq<nat>, dtype: nat)
    requires QuantSize(dtype).Some?
    ensures LenBytes(dims, dtype) == TrueBytes(dims, dtype) <==> BlockBytes(dims, dtype) < TWO63
  {
    var q := QuantSize(dtype).value;
    var p := BlockBytes(dims, dtype);
    NpProdWraps(dims + [q.typeSize]);
    if p < TWO63 {
      WrapSame(p);
    } else {
      var k := WrapShift(p);
      assert k >= 1;
      DivBelow(p, Wrap64(p), q.blockSize);
    }
  }

  // ----- one record

  /** A tensor whose recorded length is the true one and whose end does not overflow. */
  predicate Plain(t: TensorInfo) {
    QuantSize(t.dtype).Some? && BlockBytes(t.dims, t.dtype) < TWO63 && t.start + TrueBytes(t.dims, t.dtype) < TWO63
  }

  /** A tensor whose recorded length is not negative and whose end does not overflow. */
  predicate Sound(t: TensorInfo) {
    t.lenBytes >= 0 && t.start + t.lenBytes < TWO63
  }

  predicate Passes(x: int, r: Record) {
    r.tensor.lenBytes >= 0 && r.next == r.tensor.start + r.tensor.lenBytes && r.tensor.start >= x + 12
  }

  /** Where no size overflows the recorded length is right, so what is plain is sound. */
  lemma {:induction false} PlainIsSound(t: TensorInfo)
    requires Plain(t) && t.lenBytes == LenBytes(t.dims, t.dtype)
    ensures t.lenBytes == TrueBytes(t.dims, t.dtype) && Sound(t)
  {
    LengthExactly(t.dims, t.dtype);
  }

  lemma {:induction false} StartPast(offset: int, nDims: nat, nameLen: nat)
    ensures HeaderEnd(offset, nDims, nameLen) >= offset + 12 && Align32(HeaderEnd(offset, nDims, nameLen)) >= offset + 12
  {
  }

  /** The record comes from a header of this many name bytes at this offset. */
  predicate HeadedAt(r: Record, offset: int, usePadding: bool, nameLen: nat) {
    var end := HeaderEnd(offset, |r.tensor.dims|, nameLen);
    && QuantSize(r.tensor.dtype).Some? && r.tensor.lenBytes == LenBytes(r.tensor.dims, r.tensor.dtype)
    && r.next == Wrap64(r.tensor.start + r.tensor.lenBytes) && r.tensor.start == if usePadding then Align32(end) else end
  }

  lemma {:induction false} HeadedPasses(r: Record, offset: nat, usePadding: bool, nameLen: nat)
    requires HeadedAt(r, offset, usePadding, nameLen) && Sound(r.tensor)
    ensures Passes(offset, r)
  {
    StartPast(offset, |r.tensor.dims|, nameLen);
    WrapSame(r.tensor.start + r.tensor.lenBytes);
  }

  lemma {:induction false} MadeHeaded(data: seq<Byte>, offset: int, usePadding: bool, nameLen: nat, dtype: nat, dims: seq<nat>)
    requires QuantSize(dtype).Some?
    ensures HeadedAt(MakeRecord(data, offset, usePadding, nameLen, dtype, dims), offset, usePadding, nameLen)
  {
  }

  lemma {:induction false} CountedHeaded(data: seq<Byte>, offset: int, usePadding: bool, nDims: nat, nameLen: nat, dtype: nat)
    requires LoadCounted(data, offset, usePadding, nDims, nameLen, dtype).Ok?
    ensures HeadedAt(LoadCounted(data, offset, usePadding, nDims, nameLen, dtype).value, offset, usePadding, nameLen)
  {
    MadeHeaded(data, offset, usePadding, nameLen, dtype, Unpack(data, offset + 12, nDims).value);
  }

  /** The length of the name, as the header at an offset gives it. */
  function NameLength(data: seq<Byte>, offset: int): nat {
    match Unpack(data, offset, 3)
    case Err(_) => 0
    case Ok(w) => w[1]
  }

  lemma {:induction false} RecordHeaded(data: seq<Byte>, offset: int, usePadding: bool)
    requires LoadTensor(data, offset, usePadding).Ok?
    ensures HeadedAt(LoadTensor(data, offset, usePadding).value, offset, usePadding, NameLength(data, offset))
  {
    var w := Unpack(data, offset, 3).value;
    CountedHeaded(data, offset, usePadding, w[0], w[1], w[2]);
  }

  predicate AlignedAt(t: TensorInfo, offset: int, usePadding: bool, nameLen: nat) {
    var pad := t.start - HeaderEnd(offset, |t.dims|, nameLen);
    if usePadding then t.start % 32 == 0 && 0 <= pad < 32 else pad == 0
  }

  lemma {:induction false} AlignFacts(x: int)
    ensures Align32(x) % 32 == 0 && 0 <= Align32(x) - x < 32
  {
  }

  predicate StartsAt(start: int, end: int, usePadding: bool) {
    start == if usePadding then Align32(end) else end
  }

  lemma {:induction false} HeadedStart(r: Record, offset: int, usePadding: bool, nameLen: nat)
    requires HeadedAt(r, offset, usePadding, nameLen)
    ensures StartsAt(r.tensor.start, HeaderEnd(offset, |r.tensor.dims|, nameLen), usePadding)
  {
  }

  lemma {:induction false} StartAligned(t: TensorInfo, offset: int, usePadding: bool, nameLen: nat)
    requires StartsAt(t.start, HeaderEnd(offset, |t.dims|, nameLen), usePadding)
    ensures AlignedAt(t, offset, usePadding, nameLen)
  {
    AlignFacts(HeaderEnd(offset, |t.dims|, nameLen));
  }

  /** In a padded file data starts at a multiple of 32, less than 32 bytes after the record's header. */
  lemma {:induction false} RecordAligned(data: seq<Byte>, offset: int, usePadding: bool)
    requires LoadTensor(data, offset, usePadding).Ok?
    ensures AlignedAt(LoadTensor(data, offset, usePadding).value.tensor, offset, usePadding, NameLength(data, offset))
  {
    RecordHeaded(data, offset, usePadding);
    var r := LoadTensor(data, offset, usePadding).value;
    HeadedStart(r, offset, usePadding, NameLength(data, offset));
    StartAligned(r.tensor, offset, usePadding, NameLength(data, offset));
  }

  /** A plain record's recorded length is its true one, and a sound one moves the offset past its data. */
  lemma {:induction false} RecordPlain(data: seq<Byte>, offset: nat, usePadding: bool)
    requires LoadTensor(data, offset, usePadding).Ok?
    ensures var r := LoadTensor(data, offset, usePadding).value;
            && (Plain(r.tensor) ==> r.tensor.lenBytes == TrueBytes(r.tensor.dims, r.tensor.dtype) && Sound(r.tensor))
            && (Sound(r.tensor) ==> Passes(offset, r))
  {
    RecordHeaded(data, offset, usePadding);
    var r := LoadTensor(data, offset, usePadding).value;
    if Plain(r.tensor) { PlainIsSound(r.tensor); }
    if Sound(r.tensor) { HeadedPasses(r, offset, usePadding, NameLength(data, offset)); }
  }

  lemma {:induction false} LoadedBy(data: seq<Byte>, at: nat, usePadding: bool, nDims: nat, nameLen: nat, dtype: nat)
    requires Unpack(data, at, 3) == Ok([nDims, nameLen, dtype])
    ensures LoadTensor(data, at, usePadding) == LoadCounted(data, at, usePadding, nDims, nameLen, dtype)
  {
  }

  lemma {:induction false} CountedBy(data: seq<Byte>, at: nat, usePadding: bool, nameLen: nat, dtype: nat, dims: seq<nat>)
    requires |dims| <= 4 && nameLen < 4096 && QuantSize(dtype).Some? && Unpack(data, at + 12, |dims|) == Ok(dims)
    ensures LoadCounted(data, at, usePadding, |dims|, nameLen, dtype) ==
            Ok(MakeRecord(data, at, usePadding, nameLen, dtype, dims))
  {
  }

  // ----- the order of the spans

  /** A reader that gets past every sound record, and whose offsets are 64-bit values. */
  ghost predicate Forward(read: int -> Result<Record>) {
    && (forall x: int | x >= 0 && read(x).Ok? && Sound(read(x).value.tensor) :: Passes(x, read(x).value))
    && (forall x: int | read(x).Ok? :: read(x).value.next < TWO63)
  }

  lemma {:induction false} ReaderForward(data: seq<Byte>, usePadding: bool)
    ensures Forward(Reader(data, usePadding))
  {
    var read := Reader(data, usePadding);
    forall x: int | x >= 0 && read(x).Ok? && Sound(read(x).value.tensor) ensures Passes(x, read(x).value) {
      RecordPlain(data, x, usePadding);
    }
    forall x: int | read(x).Ok? ensures read(x).value.next < TWO63 {
      RecordHeaded(data, x, usePadding);
      var t := read(x).value.tensor;
      var k := WrapShift(t.start + t.lenBytes);
    }
  }

  predicate AllSound(tensors: seq<TensorInfo>) {
    forall t | t in tensors :: Sound(t)
  }

  function End(t: TensorInfo): int { t.start + t.lenBytes }

  /** Data spans in file order: each ends before the next one starts, all within the bounds, all but the last
      inside the file. */
  ghost predicate Laid(tensors: seq<TensorInfo>, from: int, to: int, size: nat) {
    && (forall i | 0 <= i < |tensors| :: from <= tensors[i].start <= End(tensors[i]) <= to)
    && (forall i, j | 0 <= i < j < |tensors| :: End(tensors[i]) <= tensors[j].start)
    && (forall i | 0 <= i < |tensors| - 1 :: End(tensors[i]) < size)
  }

  lemma {:induction false} LaidNext(tensors: seq<TensorInfo>, t: TensorInfo, from: int, at: int, size: nat)
    requires Laid(tensors, from, at, size) && from <= at < size && at <= t.start <= End(t)
    ensures Laid(tensors + [t], from, End(t), size)
  {
    var all := tensors + [t];
    forall i, j | 0 <= i < j < |all| ensures End(all[i]) <= all[j].start {
      if j < |tensors| { assert End(tensors[i]) <= tensors[j].start; } else { assert End(tensors[i]) <= at; }
    }
  }

  function OffsetOf(s: Scan): int
    requires !s.Failed?
  {
    s.offset
  }

  /** The spans recorded by any number of sound records are in file order and disjoint, all but the last lie
      inside the file, and every record takes at least twelve bytes. */
  lemma {:induction false} SpansInOrder(read: int -> Result<Record>, size: nat, offset: nat, k: nat)
    requires Forward(read) && !ScanAfter(read, size, offset, k).Failed?
    requires AllSound(ScanAfter(read, size, offset, k).tensors)
    ensures var s := ScanAfter(read, size, offset, k);
            && Laid(s.tensors, offset, OffsetOf(s), size) && OffsetOf(s) >= offset + 12 * |s.tensors|
            && (s.Running? ==> |s.tensors| == k && OffsetOf(s) < size)
    decreases k
  {
    if k > 0 {
      var before := ScanAfter(read, size, offset, k - 1);
      var s := ScanAfter(read, size, offset, k);
      if before.Running? {
        var r := read(before.offset).value;
        assert s.tensors == before.tensors + [r.tensor];
        assert r.tensor in s.tensors;
        assert forall t | t in before.tensors :: t in s.tensors;
        SpansInOrder(read, size, offset, k - 1);
        assert Passes(before.offset, r);
        LaidNext(before.tensors, r.tensor, offset, before.offset, size);
      } else {
        SpansInOrder(read, size, offset, k - 1);
      }
    }
  }

  lemma {:induction false} OffsetBelow(read: int -> Result<Record>, size: nat, offset: int, k: nat)
    requires Forward(read) && !ScanAfter(read, size, offset, k).Failed? && ScanAfter(read, size, offset, k).tensors != []
    ensures OffsetOf(ScanAfter(read, size, offset, k)) < TWO63
    decreases k
  {
    if k > 0 {
      if !ScanAfter(read, size, offset, k - 1).Running? { OffsetBelow(read, size, offset, k - 1); }
    }
  }

  /** The spans a file's scan records are in file order, disjoint and, but for the last, inside the file
      exactly when no recorded length is negative and no end overflows. */
  lemma {:induction false} FileSpansInOrder(data: seq<Byte>, usePadding: bool, offset: nat, k: nat)
    requires !ScanAfter(Reader(data, usePadding), |data|, offset, k).Failed?
    ensures var s := ScanAfter(Reader(data, usePadding), |data|, offset, k);
            Laid(s.tensors, offset, OffsetOf(s), |data|) <==> AllSound(s.tensors)
  {
    var s := ScanAfter(Reader(data, usePadding), |data|, offset, k);
    ReaderForward(data, usePadding);
    if AllSound(s.tensors) {
      SpansInOrder(Reader(data, usePadding), |data|, offset, k);
    } else if Laid(s.tensors, offset, OffsetOf(s), |data|) {
      OffsetBelow(Reader(data, usePadding), |data|, offset, k);
      LaidSound(s.tensors, offset, OffsetOf(s), |data|);
    }
  }

  lemma {:induction false} LaidSound(tensors: seq<TensorInfo>, from: int, to: int, size: nat)
    requires Laid(tensors, from, to, size) && to < TWO63
    ensures AllSound(tensors)
  {
    forall t | t in tensors ensures Sound(t) {
      var i :| 0 <= i < |tensors| && tensors[i] == t;
      assert tensors[i].start <= End(tensors[i]) <= to;
    }
  }

  /** A file of sound records is scanned to its end, or to an error, within one record for every twelve bytes. */
  lemma {:induction false} SoundFilesEnd(data: seq<Byte>, usePadding: bool, offset: nat, k: nat)
    requires 12 * k >= |data|
    ensures var s := ScanAfter(Reader(data, usePadding), |data|, offset, k); s.Running? ==> !AllSound(s.tensors)
  {
    var s := ScanAfter(Reader(data, usePadding), |data|, offset, k);
    if s.Running? && AllSound(s.tensors) {
      ReaderForward(data, usePadding);
      SpansInOrder(Reader(data, usePadding), |data|, offset, k);
      assert false;
    }
  }

  // ----- when the loop ends

  /** The offset reached after `k` records from an offset, none when the loop has ended by then. */
  function Reached(read: int -> Result<Record>, size: nat, offset: int, k: nat): Option<int> {
    if k == 0 then (if offset < size then Some(offset) else None)
    else
      match Reached(read, size, offset, k - 1)
      case None => None
      case Some(at) => if read(at).Ok? && read(at).value.next < size then Some(read(at).value.next) else None
  }

  lemma {:induction false} ReachedIsRunning(read: int -> Result<Record>, size: nat, offset: int, k: nat)
    ensures ScanAfter(read, size, offset, k).Running? <==> Reached(read, size, offset, k).Some?
    ensures ScanAfter(read, size, offset, k).Running? ==>
              Reached(read, size, offset, k).value == ScanAfter(read, size, offset, k).offset
    decreases k
  {
    if k > 0 {
      ReachedIsRunning(read, size, offset, k - 1);
    }
  }

  lemma {:induction false} ReachedBefore(read: int -> Result<Record>, size: nat, offset: int, j: nat, k: nat)
    requires j <= k && Reached(read, size, offset, k).Some?
    ensures Reached(read, size, offset, j).Some?
    ensures j < k ==> read(Reached(read, size, offset, j).value).Ok?
    decreases k
  {
    if j < k {
      ReachedBefore(read, size, offset, j, k - 1);
    }
  }

  lemma {:induction false} ReachedSplit(read: int -> Result<Record>, size: nat, offset: int, j: nat, k: nat)
    requires Reached(read, size, offset, j).Some?
    ensures Reached(read, size, offset, j + k) == Reached(read, size, Reached(read, size, offset, j).value, k)
    decreases k
  {
    ReachedInside(read, size, offset, j);
    if k > 0 {
      ReachedSplit(read, size, offset, j, k - 1);
    }
  }

  lemma {:induction false} ReachedInside(read: int -> Result<Record>, size: nat, offset: int, j: nat)
    requires Reached(read, size, offset, j).Some?
    ensures Reached(read, size, offset, j).value < size
  {
  }

  /** The tensors of a scan are those of the records at the offsets it reached, in order. */
  lemma {:induction false} TensorsRead(read: int -> Result<Record>, size: nat, offset: int, k: nat)
    requires !ScanAfter(read, size, offset, k).Failed?
    ensures var tensors := ScanAfter(read, size, offset, k).tensors;
            && (ScanAfter(read, size, offset, k).Running? ==> |tensors| == k)
            && forall i: nat :: i < |tensors| ==>
                 && Reached(read, size, offset, i).Some? && read(Reached(read, size, offset, i).value).Ok?
                 && tensors[i] == read(Reached(read, size, offset, i).value).value.tensor
    decreases k
  {
    if k > 0 {
      TensorsRead(read, size, offset, k - 1);
      ReachedIsRunning(read, size, offset, k - 1);
    }
  }

  /** Over a whole scan: every tensor starts right after the header of its record or, in a padded file, at the
      next multiple of 32. */
  lemma {:induction false} StartsAligned(data: seq<Byte>, usePadding: bool, offset: int, k: nat)
    requires !ScanAfter(Reader(data, usePadding), |data|, offset, k).Failed?
    ensures var read := Reader(data, usePadding);
            var tensors := ScanAfter(read, |data|, offset, k).tensors;
            forall i: nat :: i < |tensors| ==>
              && Reached(read, |data|, offset, i).Some?
              && var at := Reached(read, |data|, offset, i).value;
                 AlignedAt(tensors[i], at, usePadding, NameLength(data, at))
  {
    var read := Reader(data, usePadding);
    var tensors := ScanAfter(read, |data|, offset, k).tensors;
    TensorsRead(read, |data|, offset, k);
    forall i: nat | i < |tensors|
      ensures Reached(read, |data|, offset, i).Some?
      ensures AlignedAt(tensors[i], Reached(read, |data|, offset, i).value, usePadding, NameLength(data, Reached(read, |data|, offset, i).value))
    {
      RecordAligned(data, Reached(read, |data|, offset, i).value, usePadding);
    }
  }

  /** A scan that comes back to an offset goes round for ever. */
  lemma {:induction false} RoundAndRound(read: int -> Result<Record>, size: nat, offset: int, period: nat, rounds: nat)
    requires period > 0 && Reached(read, size, offset, period) == Some(offset)
    ensures Reached(read, size, offset, rounds * period) == Some(offset)
    decreases rounds
  {
    if rounds == 0 {
      ReachedBefore(read, size, offset, 0, period);
      assert rounds * period == 0;
    } else {
      RoundAndRound(read, size, offset, period, rounds - 1);
      assert rounds * period == (rounds - 1) * period + period;
      ReachedSplit(read, size, offset, (rounds - 1) * period, period);
    }
  }

  lemma {:induction false} TimesAtLeast(k: nat, period: nat)
    requires period > 0
    ensures k * period >= k
  {
  }

  lemma {:induction false} RevisitNeverEnds(read: int -> Result<Record>, size: nat, offset: int, i: nat, j: nat, k: nat)
    requires i < j && Reached(read, size, offset, j).Some? && Reached(read, size, offset, i) == Reached(read, size, offset, j)
    ensures Reached(read, size, offset, k).Some?
  {
    var at, period := Reached(read, size, offset, i).value, j - i;
    ReachedSplit(read, size, offset, i, period);
    RoundAndRound(read, size, at, period, k);
    ReachedSplit(read, size, offset, i, k * period);
    TimesAtLeast(k, period);
    ReachedBefore(read, size, offset, k, i + k * period);
  }

  function Range(lo: int, n: nat): set<int> {
    if n == 0 then {} else Range(lo, n - 1) + {lo + (n - 1)}
  }

  lemma {:induction false} RangeCount(lo: int, n: nat)
    ensures |Range(lo, n)| == n && forall x :: x in Range(lo, n) <==> lo <= x < lo + n
    decreases n
  {
    if n > 0 {
      RangeCount(lo, n - 1);
    }
  }

  /** More numbers than places: two are equal. */
  lemma {:induction false} Pigeonhole(s: seq<int>, lo: int, n: nat)
    requires |s| > n && forall x | x in s :: lo <= x < lo + n
    ensures !Distinct(s)
  {
    if Distinct(s) {
      DistinctCount(s);
      RangeCount(lo, n);
      forall x | x in ToSet(s) ensures x in Range(lo, n) {
        assert lo <= x < lo + n;
      }
      SubsetCount(ToSet(s), Range(lo, n));
      assert false;
    }
  }

  /** A reader that fails further than one file length before the start of the file. */
  ghost predicate FailsFarBefore(read: int -> Result<Record>, size: nat) {
    forall x: int | read(x).Ok? :: 0 - size <= x
  }

  lemma {:induction false} ReaderFailsFarBefore(data: seq<Byte>, usePadding: bool)
    ensures FailsFarBefore(Reader(data, usePadding), |data|)
  {
    var read := Reader(data, usePadding);
    forall x: int | read(x).Ok? ensures 0 - |data| <= x {
      assert LoadTensor(data, x, usePadding).Ok?;
      UnpackReach(data, x);
    }
  }

  lemma {:induction false} UnpackReach(data: seq<Byte>, x: int)
    requires Unpack(data, x, 3).Ok?
    ensures 0 - |data| <= x
  {
  }

  /** A scan still running after two file lengths of records has come back to an offset. */
  lemma {:induction false} ManyRecordsRevisit(read: int -> Result<Record>, size: nat, offset: int) returns (i: nat, j: nat)
    requires FailsFarBefore(read, size) && Reached(read, size, offset, 2 * size + 1).Some?
    ensures i < j && Reached(read, size, offset, j).Some? && Reached(read, size, offset, i) == Reached(read, size, offset, j)
  {
    var n := 2 * size + 1;
    forall k: nat | k < n ensures Reached(read, size, offset, k).Some? && 0 - size <= Reached(read, size, offset, k).value < size {
      ReachedBefore(read, size, offset, k, n);
      ReachedInside(read, size, offset, k);
    }
    var s := seq(n, k requires 0 <= k < n => Reached(read, size, offset, k).value);
    assert forall x | x in s :: 0 - size <= x < (0 - size) + 2 * size;
    Pigeonhole(s, 0 - size, 2 * size);
    i, j :| 0 <= i < j < n && s[i] == s[j];
  }

  /** The scan of a file either ends within twice as many records as the file has bytes, or never: still
      running then is still running after any number of records. */
  lemma {:induction false} EndsSoonOrNever(data: seq<Byte>, usePadding: bool, offset: int, k: nat)
    ensures var read := Reader(data, usePadding);
            ScanAfter(read, |data|, offset, 2 * |data| + 1).Running? ==> ScanAfter(read, |data|, offset, k).Running?
  {
    var read := Reader(data, usePadding);
    ReachedIsRunning(read, |data|, offset, 2 * |data| + 1);
    if Reached(read, |data|, offset, 2 * |data| + 1).Some? {
      ReaderFailsFarBefore(data, usePadding);
      var i, j := ManyRecordsRevisit(read, |data|, offset);
      RevisitNeverEnds(read, |data|, offset, i, j, k);
      ReachedIsRunning(read, |data|, offset, k);
    }
  }

  predicate SameOffset(a: Scan, b: Scan) { a.Running? && b.Running? && a.offset == b.offset }

  /** Some offset is reached twice. */
  ghost predicate ComesBack(read: int -> Result<Record>, size: nat, offset: int) {
    exists i: nat, j: nat :: SameTwice(read, size, offset, i, j)
  }

  predicate SameTwice(read: int -> Result<Record>, size: nat, offset: int, i: nat, j: nat) {
    i < j && SameOffset(ScanAfter(read, size, offset, i), ScanAfter(read, size, offset, j))
  }

  ghost predicate NeverEnds(read: int -> Result<Record>, size: nat, offset: int) {
    forall k: nat :: ScanAfter(read, size, offset, k).Running?
  }

  lemma {:induction false} TwiceReached(read: int -> Result<Record>, size: nat, offset: int, i: nat, j: nat)
    ensures SameTwice(read, size, offset, i, j) <==>
            i < j && Reached(read, size, offset, j).Some? && Reached(read, size, offset, i) == Reached(read, size, offset, j)
  {
    ReachedIsRunning(read, size, offset, i);
    ReachedIsRunning(read, size, offset, j);
  }

  lemma {:induction false} EndlessComesBack(read: int -> Result<Record>, size: nat, offset: int)
    requires FailsFarBefore(read, size) && NeverEnds(read, size, offset)
    ensures ComesBack(read, size, offset)
  {
    hide SameTwice, ScanAfter, Reached, FailsFarBefore;
    var n := 2 * size + 1;
    assert ScanAfter(read, size, offset, n).Running?;
    ReachedIsRunning(read, size, offset, n);
    var i, j := ManyRecordsRevisit(read, size, offset);
    TwiceReached(read, size, offset, i, j);
  }

  lemma {:induction false} ComingBackIsEndless(read: int -> Result<Record>, size: nat, offset: int)
    requires ComesBack(read, size, offset)
    ensures NeverEnds(read, size, offset)
  {
    hide SameTwice, ScanAfter, Reached;
    var i: nat, j: nat :| SameTwice(read, size, offset, i, j);
    TwiceReached(read, size, offset, i, j);
    forall k: nat ensures ScanAfter(read, size, offset, k).Running? {
      RevisitNeverEnds(read, size, offset, i, j, k);
      ReachedIsRunning(read, size, offset, k);
    }
  }

  /** The scan of a file goes on for ever exactly when it reaches some offset twice. */
  lemma {:induction false} NeverEndsExactly(data: seq<Byte>, usePadding: bool, offset: int)
    ensures NeverEnds(Reader(data, usePadding), |data|, offset) <==> ComesBack(Reader(data, usePadding), |data|, offset)
  {
    hide NeverEnds, ComesBack;
    ReaderFailsFarBefore(data, usePadding);
    if NeverEnds(Reader(data, usePadding), |data|, offset) { EndlessComesBack(Reader(data, usePadding), |data|, offset); }
    if ComesBack(Reader(data, usePadding), |data|, offset) { ComingBackIsEndless(Reader(data, usePadding), |data|, offset); }
  }

  // ----- a scan that does not end

  /** Thirty-six bytes: two dimensions of 2^31 - 3 and 2^31 + 3 of type F32 and a name of sixteen bytes. */
  function LoopingRecord(name: seq<Byte>): seq<Byte>
    requires |name| == 16
  {
    [2, 0, 0, 0, 16, 0, 0, 0, 0, 0, 0, 0, 253, 255, 255, 127, 3, 0, 0, 128] + name
  }

  lemma {:induction false} LoopingCounts(data: seq<Byte>, at: nat, name: seq<Byte>)
    requires at + 36 <= |data| && |name| == 16 && data[at..at + 36] == LoopingRecord(name)
    ensures Unpack(data, at, 3) == Ok([2, 16, 0])
  {
    SubSlice(data, at, LoopingRecord(name), 0, 12);
    assert LoopingRecord(name)[0..12] == [2, 0, 0, 0] + ([16, 0, 0, 0] + [0, 0, 0, 0]);
    Words3([2, 0, 0, 0], [16, 0, 0, 0], [0, 0, 0, 0]);
  }

  lemma {:induction false} LoopingDims(data: seq<Byte>, at: nat, name: seq<Byte>)
    requires at + 36 <= |data| && |name| == 16 && data[at..at + 36] == LoopingRecord(name)
    ensures Unpack(data, at + 12, 2) == Ok([0x7fff_fffd, 0x8000_0003])
  {
    SubSlice(data, at, LoopingRecord(name), 12, 20);
    assert LoopingRecord(name)[12..20] == [253, 255, 255, 127] + [3, 0, 0, 128];
    Words2([253, 255, 255, 127], [3, 0, 0, 128]);
  }

  lemma {:induction false} LoopingName(data: seq<Byte>, at: nat, name: seq<Byte>)
    requires at + 36 <= |data| && |name| == 16 && data[at..at + 36] == LoopingRecord(name)
    ensures PySlice(data, at + 20, at + 36) == name
  {
    SubSlice(data, at, LoopingRecord(name), 20, 36);
    assert LoopingRecord(name)[20..36] == name;
  }

  lemma {:induction false} SubSlice(data: seq<Byte>, at: nat, r: seq<Byte>, a: nat, b: nat)
    requires at + |r| <= |data| && data[at..at + |r|] == r && a < b <= |r|
    ensures PySlice(data, at + a, at + b) == r[a..b]
  {
    var part := data[at + a..at + b];
    forall i | 0 <= i < b - a ensures part[i] == r[a..b][i] {
      assert data[at..at + |r|][a + i] == data[at + (a + i)];
    }
    assert |part| == |r[a..b]|;
    assert part == r[a..b];
  }

  lemma {:induction false} Words2(x: seq<Byte>, y: seq<Byte>)
    requires |x| == 4 && |y| == 4
    ensures U32s(x + y) == [U32(x), U32(y)]
  {
    var s := x + y;
    assert s[0..4] == x && s[4..8] == y;
    assert U32s(s)[0] == U32(s[4 * 0..4 * 0 + 4]) && U32s(s)[1] == U32(s[4 * 1..4 * 1 + 4]);
  }

  lemma {:induction false} Words3(x: seq<Byte>, y: seq<Byte>, z: seq<Byte>)
    requires |x| == 4 && |y| == 4 && |z| == 4
    ensures U32s(x + (y + z)) == [U32(x), U32(y), U32(z)]
  {
    var s := x + (y + z);
    assert s[0..4] == x && s[4..8] == y && s[8..12] == z;
    assert U32s(s)[0] == U32(s[4 * 0..4 * 0 + 4]) && U32s(s)[1] == U32(s[4 * 1..4 * 1 + 4]) && U32s(s)[2] == U32(s[4 * 2..4 * 2 + 4]);
  }

  lemma {:induction false} LoopingLength()
    ensures LenBytes([0x7fff_fffd, 0x8000_0003], 0) == -36 && BlockBytes([0x7fff_fffd, 0x8000_0003], 0) >= TWO63
  {
    var dims: seq<nat> := [0x7fff_fffd, 0x8000_0003];
    var all := dims + [4];
    assert all == [0x7fff_fffd, 0x8000_0003, 4];
    assert all[..2] == dims && dims[..1] == [0x7fff_fffd] && [0x7fff_fffd][..0] == [];
    assert Elements([0x7fff_fffd]) == 0x7fff_fffd;
    assert Elements(dims) == 0x7fff_fffd * 0x8000_0003;
    assert Elements(all) == TWO64 - 36;
    NpProdWraps(all);
    WrapUnique(TWO64 - 36, -36, 1);
    WrapSame(-36);
  }

  lemma {:induction false} LoopingMade(data: seq<Byte>, usePadding: bool, at: nat, name: seq<Byte>)
    requires PySlice(data, at + 20, at + 36) == name && at < TWO63 && (usePadding ==> at % 32 == 28)
    requires LenBytes([0x7fff_fffd, 0x8000_0003], 0) == -36 && QuantSize(0).Some?
    ensures MakeRecord(data, at, usePadding, 16, 0, [0x7fff_fffd, 0x8000_0003]) ==
            Record(TensorInfo(name, [0x7fff_fffd, 0x8000_0003], 0, at + 36, -36), at)
  {
    hide LenBytes, Align32, Wrap64, PySlice, QuantSize;
    WrapSame(at);
    if usePadding { AlignedAlready(at + 36); }
  }

  /** Its recorded length is -36, so the scan reads the record again; in a padded file when no padding is due
      after the header. */
  lemma {:induction false} LoopingRecordStays(data: seq<Byte>, usePadding: bool, at: nat, name: seq<Byte>)
    requires at + 36 <= |data| < TWO63 && |name| == 16 && data[at..at + 36] == LoopingRecord(name)
    requires usePadding ==> at % 32 == 28
    ensures LoadTensor(data, at, usePadding) == Ok(Record(TensorInfo(name, [0x7fff_fffd, 0x8000_0003], 0, at + 36, -36), at))
    ensures !Sound(LoadTensor(data, at, usePadding).value.tensor)
  {
    hide LenBytes, MakeRecord, LoadTensor, LoadCounted, LoopingRecord;
    LoopingCounts(data, at, name);
    LoopingDims(data, at, name);
    LoopingName(data, at, name);
    LoopingLength();
    LoadedBy(data, at, usePadding, 2, 16, 0);
    CountedBy(data, at, usePadding, 16, 0, [0x7fff_fffd, 0x8000_0003]);
    LoopingMade(data, usePadding, at, name);
  }

  lemma {:induction false} AlignedAlready(x: nat)
    requires x % 32 == 0
    ensures Align32(x) == x
  {
  }

  /** A file with this record where a tensor is expected is scanned for ever, and its spans are not in order. */
  lemma {:induction false} LoopingFileNeverEnds(data: seq<Byte>, usePadding: bool, at: nat, name: seq<Byte>, k: nat)
    requires at + 36 <= |data| < TWO63 && |name| == 16 && data[at..at + 36] == LoopingRecord(name)
    requires usePadding ==> at % 32 == 28
    ensures var s := ScanAfter(Reader(data, usePadding), |data|, at, k);
            s.Running? && (k > 0 ==> !Laid(s.tensors, at, s.offset, |data|))
  {
    var read := Reader(data, usePadding);
    LoopingRecordStays(data, usePadding, at, name);
    assert read(at) == LoadTensor(data, at, usePadding);
    assert Reached(read, |data|, at, 0) == Some(at);
    assert Reached(read, |data|, at, 1) == Some(at);
    RoundAndRound(read, |data|, at, 1, k);
    assert k * 1 == k;
    ReachedIsRunning(read, |data|, at, k);
    if k > 0 {
      TensorsRead(read, |data|, at, k);
      var t := ScanAfter(read, |data|, at, k).tensors[0];
      assert !Sound(t) && t in ScanAfter(read, |data|, at, k).tensors;
      FileSpansInOrder(data, usePadding, at, k);
    }
  }
}
