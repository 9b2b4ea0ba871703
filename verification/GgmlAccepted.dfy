/** Exactly what the GGML reader accepts, over the bytes of the file. */
module GgmlAccepted {
  import opened Wrappers
  import opened GgmlScan

  /** The bytes are the characters of `text`. */
  predicate Spells(s: seq<Byte>, text: string) {
    |s| == |text| && forall i :: 0 <= i < |s| ==> s[i] == text[i] as int
  }

  /** The four bytes at `at` are the number `n`, lowest byte first. */
  predicate WordIs(data: seq<Byte>, at: nat, n: nat) {
    at + 4 <= |data| &&
    var a: int, b: int, c: int, d: int := data[at], data[at + 1], data[at + 2], data[at + 3];
    n == a + 0x100 * b + 0x1_0000 * c + 0x100_0000 * d
  }

  /** A slice bound: counted from the end when negative, and never outside. */
  predicate Cut(n: nat, bound: int, at: nat) {
    var from := if bound < 0 then n + bound else bound;
    at == if from < 0 then 0 else if from > n then n else from
  }

  /** A Python slice is what lies between its two bounds. */
  lemma {:induction false} SliceExactly(data: seq<Byte>, lo: int, hi: int, a: nat, b: nat)
    requires Cut(|data|, lo, a) && Cut(|data|, hi, b)
    ensures a <= |data| && b <= |data| && PySlice(data, lo, hi) == if a < b then data[a..b] else []
  {
  }

  lemma {:induction false} WordAt(data: seq<Byte>, at: nat, n: nat, i: nat)
    requires at + 4 * n <= |data| && i < n
    ensures WordIs(data, at + 4 * i, U32s(data[at..at + 4 * n])[i])
  {
    var s := data[at..at + 4 * n];
    var w := s[4 * i..4 * i + 4];
    assert w[0] == s[4 * i] && w[1] == s[4 * i + 1] && w[2] == s[4 * i + 2] && w[3] == s[4 * i + 3];
    assert U32s(s)[i] == U32(w);
  }

  lemma {:induction false} WordsExactly(data: seq<Byte>, at: nat, n: nat)
    ensures Unpack(data, at, n).Ok? <==> at + 4 * n <= |data| || n == 0
    ensures Unpack(data, at, n).Ok? ==> forall i :: 0 <= i < n ==> WordIs(data, at + 4 * i, Unpack(data, at, n).value[i])
    ensures Unpack(data, at, n).Err? ==> Unpack(data, at, n) == Err(StructError)
  {
    var s := PySlice(data, at, at + 4 * n);
    if n > 0 && |s| == 4 * n {
      forall i | 0 <= i < n ensures WordIs(data, at + 4 * i, U32s(s)[i]) {
        assert s == data[at..at + 4 * n];
        WordAt(data, at, n, i);
      }
    }
  }

  // ----- header and hyperparameters

  predicate VersionIs(data: seq<Byte>, magic: string, version: nat) {
    |data| >= 8 && Spells(data[..4], magic) && WordIs(data, 4, version)
  }

  lemma {:induction false} SpellsOnly(s: seq<Byte>)
    ensures Spells(s, "GGUF") <==> s == [71, 71, 85, 70]
    ensures Spells(s, "lmgg") <==> s == [108, 109, 103, 103]
    ensures Spells(s, "fmgg") <==> s == [102, 109, 103, 103]
    ensures Spells(s, "tjgg") <==> s == [116, 106, 103, 103]
  {
    if |s| == 4 { assert s == [s[0], s[1], s[2], s[3]]; }
  }

  /** Which headers are taken: GGML, GGMF of version 1, and GGJT of versions 1 to 3. */
  lemma {:induction false} HeaderExactly(data: seq<Byte>, h: Header)
    ensures ValidateHeader(data) == Ok(h) <==>
            || (|data| >= 4 && Spells(data[..4], "lmgg") && h == Header(GGML, 1, 4))
            || (VersionIs(data, "fmgg", 1) && h == Header(GGMF, 1, 8))
            || (1 <= h.version <= 3 && VersionIs(data, "tjgg", h.version) && h == Header(GGJT, h.version, 8))
    ensures ValidateHeader(data) == Err(AlreadyGguf) <==> |data| >= 4 && Spells(data[..4], "GGUF")
  {
    hide Unpack, Spells, WordIs;
    var magic := PySlice(data, 0, 4);
    SpellsOnly(magic);
    SpellsOnly([]);
    WordsExactly(data, 4, 1);
    WordOnce(data, 4);
    if |data| >= 4 { assert magic == data[..4]; } else { ShortMagic(data); }
  }

  lemma {:induction false} ShortMagic(data: seq<Byte>)
    requires |data| < 4
    ensures |PySlice(data, 0, 4)| < 4
  {
  }

  lemma {:induction false} WordOnce(data: seq<Byte>, at: nat)
    ensures forall m: nat, n: nat :: WordIs(data, at, m) && WordIs(data, at, n) ==> m == n
  {
  }

  /** Hyperparameters are taken when all are there and the last is a file type that exists. */
  lemma {:induction false} HyperExactly(data: seq<Byte>, at: nat, ftype: nat)
    requires at + 28 <= |data| ==> WordIs(data, at + 24, ftype)
    ensures LoadHyper(data, at).Ok? <==> at + 28 <= |data| && (ftype in {0, 1, 2, 3, 4} || 7 <= ftype <= 18)
    ensures LoadHyper(data, at) == Err(StructError) <==> at + 28 > |data|
  {
    hide Unpack, WordIs;
    WordsExactly(data, at, 7);
    WordOnce(data, at + 24);
    if at + 28 <= |data| { assert WordIs(data, at + 4 * 6, Unpack(data, at, 7).value[6]); }
  }

  /** Before version 2 of GGJT files must be of 32 or 16 bit floats; in version 2 the quantizations that
      changed afterwards, 4-bit ones and Q8_0, are refused; later everything is taken. */
  lemma {:induction false} EligibleExactly(h: Header, ftype: nat)
    ensures h.format == GGML || h.format == GGMF || (h.format == GGJT && h.version <= 1) ==> (Eligible(h, ftype) <==> ftype <= 1)
    ensures h.format == GGJT && h.version == 2 ==> (Eligible(h, ftype) <==> !(2 <= ftype <= 4) && ftype != 7)
    ensures h.format == GGJT && h.version >= 3 ==> Eligible(h, ftype)
  {
  }

  // ----- items and records

  /** A vocabulary item is taken when it is shorter than 4096 bytes and its score, if there is one, is all there;
      only its text may be cut off by the end of the file. */
  lemma {:induction false} ItemExactly(data: seq<Byte>, at: nat, scores: bool, n: nat)
    requires WordIs(data, at, n)
    ensures LoadItem(data, at, scores).Ok? <==> n < 4096 && (scores ==> at + 8 + n <= |data|)
    ensures var r := LoadItem(data, at, scores);
            r.Ok? ==> && r.value.item.text == data[at + 4..if at + 4 + n < |data| then at + 4 + n else |data|]
                      && r.value.item.score == (if scores then Some(data[at + 4 + n..at + 8 + n]) else None)
                      && r.value.next == at + 4 + n + if scores then 4 else 0
  {
    WordsExactly(data, at, 1);
    assert WordIs(data, at + 4 * 0, Unpack(data, at, 1).value[0]);
    WordOnce(data, at);
    hide Unpack, WordIs;
  }

  /** A tensor record is taken when its three counts are sound and its dimensions are all there; otherwise the
      first count that is not decides the error. */
  lemma {:induction false} RecordExactly(data: seq<Byte>, at: nat, usePadding: bool, nDims: nat, nameLen: nat, dtype: nat)
    requires WordIs(data, at, nDims) && WordIs(data, at + 4, nameLen) && WordIs(data, at + 8, dtype)
    ensures var r := LoadTensor(data, at, usePadding);
            && (r == Err(InvalidDimensions(nDims)) <==> nDims > 4)
            && (r == Err(AbsurdName) <==> nDims <= 4 && nameLen >= 4096)
            && (r == Err(UnknownType(dtype)) <==> nDims <= 4 && nameLen < 4096 && QuantSize(dtype).None?)
            && (r.Ok? <==> nDims <= 4 && nameLen < 4096 && QuantSize(dtype).Some? && at + 12 + 4 * nDims <= |data|)
            && (r.Ok? ==> |r.value.tensor.dims| == nDims && r.value.tensor.dtype == dtype &&
                          forall i :: 0 <= i < nDims ==> WordIs(data, at + 12 + 4 * i, r.value.tensor.dims[i]))
  {
    assert at + 12 <= |data|;
    hide Unpack, WordIs, QuantSize, LenBytes, LoadCounted;
    var w := ThreeWords(data, at, nDims, nameLen, dtype);
    CountedExactly(data, at, usePadding, nDims, nameLen, dtype);
  }

  lemma {:induction false} ThreeWords(data: seq<Byte>, at: nat, x: nat, y: nat, z: nat) returns (w: seq<nat>)
    requires WordIs(data, at, x) && WordIs(data, at + 4, y) && WordIs(data, at + 8, z)
    ensures w == [x, y, z] && Unpack(data, at, 3) == Ok(w)
  {
    assert at + 12 <= |data|;
    hide Unpack, WordIs;
    WordsExactly(data, at, 3);
    w := Unpack(data, at, 3).value;
    assert WordIs(data, at + 4 * 0, w[0]) && WordIs(data, at + 4 * 1, w[1]) && WordIs(data, at + 4 * 2, w[2]);
    WordOnce(data, at);
    WordOnce(data, at + 4);
    WordOnce(data, at + 8);
  }

  lemma {:induction false} CountedExactly(data: seq<Byte>, at: nat, usePadding: bool, nDims: nat, nameLen: nat, dtype: nat)
    requires at + 12 <= |data|
    ensures var r := LoadCounted(data, at, usePadding, nDims, nameLen, dtype);
            && (r == Err(InvalidDimensions(nDims)) <==> nDims > 4)
            && (r == Err(AbsurdName) <==> nDims <= 4 && nameLen >= 4096)
            && (r == Err(UnknownType(dtype)) <==> nDims <= 4 && nameLen < 4096 && QuantSize(dtype).None?)
            && (r.Ok? <==> nDims <= 4 && nameLen < 4096 && QuantSize(dtype).Some? && at + 12 + 4 * nDims <= |data|)
            && (r.Ok? ==> |r.value.tensor.dims| == nDims && r.value.tensor.dtype == dtype &&
                          forall i :: 0 <= i < nDims ==> WordIs(data, at + 12 + 4 * i, r.value.tensor.dims[i]))
  {
    hide Unpack, WordIs, QuantSize, LenBytes, PySlice, Wrap64;
    WordsExactly(data, at + 12, nDims);
  }

  /** Which types are known. */
  lemma {:induction false} QuantKnown(t: nat)
    ensures QuantSize(t).Some? <==> t <= 3 || 6 <= t <= 30 || t == 34 || t == 35 || t == 39
  {
  }

  /** The blocks of plain numbers: one element each. */
  lemma {:induction false} PlainTypes(t: nat)
    requires t == 0 || t == 1 || 24 <= t <= 28 || t == 30
    ensures QuantSize(t) == Some(Quant(1, if t == 24 then 1 else if t == 1 || t == 25 || t == 30 then 2 else if t == 0 || t == 26 then 4 else 8))
  {
  }

  /** Blocks of 32 elements, by the bytes of their fields. */
  lemma {:induction false} SmallBlocks()
    ensures QuantSize(2) == QuantSize(20) == Some(Quant(32, 2 + 16)) && QuantSize(3) == Some(Quant(32, 2 + 2 + 16))
    ensures QuantSize(6) == Some(Quant(32, 2 + 4 + 16)) && QuantSize(7) == Some(Quant(32, 2 + 2 + 4 + 16))
    ensures QuantSize(8) == Some(Quant(32, 2 + 32)) && QuantSize(9) == Some(Quant(32, 4 + 4 + 32))
    ensures QuantSize(39) == Some(Quant(32, 1 + 16))
  {
  }

  /** Blocks of 256 elements. */
  lemma {:induction false} LargeBlocks(k: nat)
    requires k == 256
    ensures QuantSize(10) == Some(Quant(k, 2 + 2 + k / 16 + k / 4)) && QuantSize(11) == Some(Quant(k, 2 + k / 4 + k / 8 + 12))
    ensures QuantSize(12) == Some(Quant(k, 2 + 2 + k / 2 + 12)) && QuantSize(13) == Some(Quant(k, 2 + 2 + k / 2 + k / 8 + 12))
    ensures QuantSize(14) == Some(Quant(k, 2 + k / 2 + k / 4 + k / 16)) && QuantSize(15) == Some(Quant(k, 4 + k + k / 8))
    ensures QuantSize(34) == Some(Quant(k, 2 + 4 * 13)) && QuantSize(35) == Some(Quant(k, 2 + 64))
  {
  }

  /** Blocks of 256 elements with importance matrices. */
  lemma {:induction false} ImportanceBlocks(k: nat)
    requires k == 256
    ensures QuantSize(16) == Some(Quant(k, 2 + k / 4)) && QuantSize(17) == Some(Quant(k, 2 + k / 4 + k / 32))
    ensures QuantSize(18) == Some(Quant(k, 2 + k / 4 + k / 8)) && QuantSize(19) == Some(Quant(k, 2 + k / 8 + k / 16))
    ensures QuantSize(21) == Some(Quant(k, 2 + k / 4 + k / 8 + k / 32 + 4)) && QuantSize(22) == Some(Quant(k, 2 + k / 4 + k / 16))
    ensures QuantSize(23) == Some(Quant(k, 2 + 2 + k / 2 + k / 64)) && QuantSize(29) == Some(Quant(k, k / 8 + k / 16 + k / 32))
  {
  }

  // ----- the feed-forward size

  lemma {:induction false} FeedForwardSpelled(name: seq<Byte>)
    ensures Spells(name, "layers.0.feed_forward.w1.weight") <==> name == FEED_FORWARD
  {
    assert Spells(FEED_FORWARD, "layers.0.feed_forward.w1.weight");
    if Spells(name, "layers.0.feed_forward.w1.weight") {
      assert forall i :: 0 <= i < |name| ==> name[i] == FEED_FORWARD[i];
    }
  }

  /** The last tensor of layer 0's first feed-forward matrix is `j`. */
  predicate LastFeedForward(tensors: seq<TensorInfo>, j: nat) {
    && j < |tensors| && Spells(tensors[j].name, "layers.0.feed_forward.w1.weight")
    && forall i :: j < i < |tensors| ==> !Spells(tensors[i].name, "layers.0.feed_forward.w1.weight")
  }

  /** The feed-forward size is the second dimension of the last tensor of that name. */
  lemma {:induction false} FeedForwardExactly(tensors: seq<TensorInfo>, j: nat)
    requires LastFeedForward(tensors, j)
    ensures FeedForward(tensors) == if |tensors[j].dims| >= 2 then Ok(tensors[j].dims[1]) else Err(NoSecondDimension)
  {
    hide Spells;
    forall i | 0 <= i < |tensors| ensures Spells(tensors[i].name, "layers.0.feed_forward.w1.weight") <==> tensors[i].name == FEED_FORWARD {
      FeedForwardSpelled(tensors[i].name);
    }
    TensorMapLast(tensors, FEED_FORWARD);
  }

  lemma {:induction false} NoFeedForward(tensors: seq<TensorInfo>)
    ensures FeedForward(tensors) == Err(MissingFeedForward) <==>
            forall i :: 0 <= i < |tensors| ==> !Spells(tensors[i].name, "layers.0.feed_forward.w1.weight")
  {
    hide Spells;
    forall i | 0 <= i < |tensors| ensures Spells(tensors[i].name, "layers.0.feed_forward.w1.weight") <==> tensors[i].name == FEED_FORWARD {
      FeedForwardSpelled(tensors[i].name);
    }
    TensorMapLast(tensors, FEED_FORWARD);
  }

  // ----- the whole file

  /** The first thing that is wrong decides the error: the header, the hyperparameters, the file type, the
      vocabulary, which begins 28 bytes after the header, and then the first bad tensor record. */
  lemma {:induction false} FirstErrorDecides(data: seq<Byte>, limit: nat)
    ensures var header := ValidateHeader(data); var file := ReadFile(data, limit);
            match header
            case Err(e) => file == Err(e)
            case Ok(h) =>
              match LoadHyper(data, h.size)
              case Err(e) => file == Err(e)
              case Ok(hp) =>
                if !Eligible(h, hp.ftype) then file == Err(NotEligible)
                else
                  match LoadItems(ItemReader(data, h.format != GGML), h.size + 28, hp.nVocab)
                  case Err(e) => file == Err(e)
                  case Ok(all) =>
                    match ScanAfter(Reader(data, h.format == GGJT), |data|, all.offset, limit)
                    case Failed(e) => file == Err(e)
                    case scan => file == Ok(File(h, hp, all.items, scan))
  {
  }
}
