/** The base64 codec of `base64.hpp` (RFC 4648, sections 4 and 5). Bytes and characters are 8-bit values. */
module Base64 {
  import opened Collections
  import opened Wrappers

  type Byte = bv8

  datatype Alphabet = Auto | Standard | UrlFilenameSafe

  datatype Behavior = Moderate | Loose

  const PAD: Byte := 61

  /** The character of a 6-bit value: `A`-`Z`, `a`-`z`, `0`-`9` and the two characters that depend on the
      alphabet. Encoding uses the standard table unless the URL-safe one is asked for. */
  function Alpha(alphabet: Alphabet, v: Byte): Byte {
    if v < 26 then v + 65
    else if v < 52 then v - 26 + 97
    else if v < 62 then v - 52 + 48
    else if v == 62 then (if alphabet.UrlFilenameSafe? then 45 else 43)
    else if alphabet.UrlFilenameSafe? then 95 else 47
  }

  datatype Looked = Value(v: Byte, alphabet: Alphabet) | Unknown

  /** `_base64_value`: the value of a character and the alphabet afterwards. */
  function Lookup(alphabet: Alphabet, c: Byte): Looked {
    if 65 <= c <= 90 then Value(c - 65, alphabet)
    else if 97 <= c <= 122 then Value(c - 97 + 26, alphabet)
    else if 48 <= c <= 57 then Value(c - 48 + 52, alphabet)
    else
      match alphabet
      case Standard => if c == 43 then Value(62, alphabet) else if c == 47 then Value(63, alphabet) else Unknown
      case UrlFilenameSafe => if c == 45 then Value(62, alphabet) else if c == 95 then Value(63, alphabet) else Unknown
      case Auto =>
        if c == 43 then Value(62, Standard)
        else if c == 47 then Value(63, Standard)
        else if c == 45 then Value(62, UrlFilenameSafe)
        else if c == 95 then Value(63, UrlFilenameSafe)
        else Unknown
  }

  function RequiredEncodeSize(size: nat): nat {
    (size / 3 + if size % 3 != 0 then 1 else 0) * 4
  }

  function MaxDecodeSize(size: nat): nat {
    (size / 4 + if size % 4 != 0 then 1 else 0) * 3
  }

  // ----- encoding

  function Six0(x: Byte): Byte { (x >> 2) & 0x3f }
  function Six1(x: Byte, y: Byte): Byte { ((x & 0x3) << 4) | ((y >> 4) & 0x0f) }
  function Six2(y: Byte, z: Byte): Byte { ((y & 0xf) << 2) | ((z >> 6) & 0x03) }
  function Six3(z: Byte): Byte { z & 0x3f }

  /** The data characters of a group of one to three bytes. */
  function Data(a: Alphabet, group: seq<Byte>): seq<Byte>
    requires 1 <= |group| <= 3
  {
    if |group| == 1 then [Alpha(a, Six0(group[0])), Alpha(a, Six1(group[0], 0))]
    else if |group| == 2 then [Alpha(a, Six0(group[0])), Alpha(a, Six1(group[0], group[1])), Alpha(a, Six2(group[1], 0))]
    else [Alpha(a, Six0(group[0])), Alpha(a, Six1(group[0], group[1])), Alpha(a, Six2(group[1], group[2])), Alpha(a, Six3(group[2]))]
  }

  function Padding(n: nat): seq<Byte>
    requires n <= 2
  {
    if n == 0 then [] else if n == 1 then [PAD] else [PAD, PAD]
  }

  /** Section 4 of RFC 4648: whole groups of three bytes, then a padded rest. */
  function Encoded(a: Alphabet, bytes: seq<Byte>): seq<Byte>
    decreases |bytes|
  {
    if bytes == [] then []
    else if |bytes| < 3 then Data(a, bytes) + Padding(3 - |bytes|)
    else Data(a, bytes[..3]) + Encoded(a, bytes[3..])
  }

  lemma {:induction false} EncodedLength(a: Alphabet, bytes: seq<Byte>)
    ensures |Encoded(a, bytes)| == RequiredEncodeSize(|bytes|)
    decreases |bytes|
  {
    if |bytes| >= 3 {
      EncodedLength(a, bytes[3..]);
      assert |bytes| / 3 == |bytes[3..]| / 3 + 1 && |bytes| % 3 == |bytes[3..]| % 3;
    }
  }

  lemma {:induction false} EncodedOne(a: Alphabet, bytes: seq<Byte>, i: nat)
    requires i + 1 == |bytes|
    ensures Encoded(a, bytes[i..]) == [Alpha(a, (bytes[i] >> 2) & 0x3f), Alpha(a, (bytes[i] & 0x3) << 4), PAD, PAD]
  {
    ShortBits(bytes[i]);
    assert bytes[i..] == [bytes[i]];
  }

  lemma {:induction false} EncodedTwo(a: Alphabet, bytes: seq<Byte>, i: nat)
    requires i + 2 == |bytes|
    ensures Encoded(a, bytes[i..]) ==
            [Alpha(a, (bytes[i] >> 2) & 0x3f), Alpha(a, ((bytes[i] & 0x3) << 4) | ((bytes[i + 1] >> 4) & 0x0f)),
             Alpha(a, (bytes[i + 1] & 0xf) << 2), PAD]
  {
    ShortBits(bytes[i + 1]);
    assert bytes[i..] == [bytes[i], bytes[i + 1]];
  }

  lemma {:induction false} EncodedThree(a: Alphabet, bytes: seq<Byte>, i: nat)
    requires i + 3 <= |bytes|
    ensures Encoded(a, bytes[i..]) == Data(a, [bytes[i], bytes[i + 1], bytes[i + 2]]) + Encoded(a, bytes[i + 3..])
  {
    assert bytes[i..][..3] == [bytes[i], bytes[i + 1], bytes[i + 2]] && bytes[i..][3..] == bytes[i + 3..];
  }

  lemma {:induction false} DataThree(a: Alphabet, x: Byte, y: Byte, z: Byte)
    ensures Data(a, [x, y, z]) ==
            [Alpha(a, (x >> 2) & 0x3f), Alpha(a, ((x & 0x3) << 4) | ((y >> 4) & 0x0f)),
             Alpha(a, ((y & 0xf) << 2) | ((z >> 6) & 0x03)), Alpha(a, z & 0x3f)]
  {
  }

  lemma {:induction false} Append4(p: seq<Byte>, c0: Byte, c1: Byte, c2: Byte, c3: Byte)
    ensures p + [c0] + [c1] + [c2] + [c3] == p + [c0, c1, c2, c3]
  {
  }

  method Encode(bytes: seq<Byte>, a: Alphabet) returns (out: seq<Byte>)
    ensures out == Encoded(a, bytes)
    ensures |out| == RequiredEncodeSize(|bytes|)
  {
    out := [];
    var i := 0;
    while i != |bytes|
      invariant i <= |bytes|
      invariant out + Encoded(a, bytes[i..]) == Encoded(a, bytes)
      decreases |bytes| - i
    {
      ghost var start, before := i, out;
      var i0 := bytes[i];
      i := i + 1;
      var c0 := Alpha(a, (i0 >> 2) & 0x3f);
      out := out + [c0];
      if i == |bytes| {
        var c1 := Alpha(a, (i0 & 0x3) << 4);
        out := out + [c1];
        out := out + [PAD];
        out := out + [PAD];
        EncodedOne(a, bytes, start);
        Append4(before, c0, c1, PAD, PAD);
        assert Encoded(a, bytes[i..]) == [];
        break;
      }
      var i1 := bytes[i];
      i := i + 1;
      var c1 := Alpha(a, ((i0 & 0x3) << 4) | ((i1 >> 4) & 0x0f));
      out := out + [c1];
      if i == |bytes| {
        var c2 := Alpha(a, (i1 & 0xf) << 2);
        out := out + [c2];
        out := out + [PAD];
        EncodedTwo(a, bytes, start);
        Append4(before, c0, c1, c2, PAD);
        assert Encoded(a, bytes[i..]) == [];
        break;
      }
      var i2 := bytes[i];
      i := i + 1;
      var c2 := Alpha(a, ((i1 & 0xf) << 2) | ((i2 >> 6) & 0x03));
      out := out + [c2];
      var c3 := Alpha(a, i2 & 0x3f);
      out := out + [c3];
      EncodedThree(a, bytes, start);
      DataThree(a, i0, i1, i2);
      Append4(before, c0, c1, c2, c3);
      Associate(before, [c0, c1, c2, c3], Encoded(a, bytes[i..]));
    }
    EncodedLength(a, bytes);
  }

  lemma {:induction false} ShortBits(x: Byte)
    ensures Six1(x, 0) == (x & 0x3) << 4 && Six2(x, 0) == (x & 0xf) << 2
  {
  }

  // ----- decoding

  /** What the first loop of `decode` carries: the bytes written, the last value, the number of its bits not
      yet used, and the alphabet. */
  datatype State = State(out: seq<Byte>, last: Byte, bits: nat, alphabet: Alphabet)

  datatype Fed = Fed(s: State) | Bad(written: seq<Byte>)

  predicate Bits(bits: nat) { bits == 0 || bits == 2 || bits == 4 || bits == 6 }

  /** `(last << (8 - bits)) | (part >> (bits - 2))`, cut to a byte. */
  function Joined(bits: nat, last: Byte, part: Byte): Byte
    requires Bits(bits) && bits >= 2
  {
    if bits == 6 then (last << 2) | (part >> 4)
    else if bits == 4 then (last << 4) | (part >> 2)
    else (last << 6) | part
  }

  function Step(s: State, c: Byte): Fed
    requires Bits(s.bits)
  {
    match Lookup(s.alphabet, c)
    case Unknown => Bad(s.out)
    case Value(part, alphabet) =>
      if s.bits + 6 >= 8 then Fed(State(s.out + [Joined(s.bits, s.last, part)], part, s.bits - 2, alphabet))
      else Fed(State(s.out, part, s.bits + 6, alphabet))
  }

  function Feed(s: State, data: seq<Byte>): (f: Fed)
    requires Bits(s.bits)
    ensures f.Fed? ==> Bits(f.s.bits)
    decreases |data|
  {
    if data == [] then Fed(s)
    else
      var before := Feed(s, data[..|data| - 1]);
      if before.Bad? then before else Step(before.s, data[|data| - 1])
  }

  function Start(a: Alphabet): State { State([], 0, 0, a) }

  /** Where the data ends: at the first padding character or the end. */
  function DataEnd(text: seq<Byte>): (e: nat)
    ensures e <= |text| && (e < |text| ==> text[e] == PAD) && PAD !in text[..e]
  {
    if text == [] || text[0] == PAD then 0 else 1 + DataEnd(text[1..])
  }

  predicate AllPads(text: seq<Byte>) {
    forall c | c in text :: c == PAD
  }

  datatype Decoded = Bytes(bytes: seq<Byte>) | Invalid

  function Decoding(text: seq<Byte>, a: Alphabet, b: Behavior): Decoded {
    var e := DataEnd(text);
    match Feed(Start(a), text[..e])
    case Bad(_) => Invalid
    case Fed(s) => if b.Loose? || AllPads(text[e..]) then Bytes(s.out) else Invalid
  }

  lemma {:induction false} FeedBad(s: State, data: seq<Byte>, k: nat)
    requires Bits(s.bits) && k <= |data| && Feed(s, data[..k]).Bad?
    ensures Feed(s, data) == Feed(s, data[..k])
    decreases |data|
  {
    if k < |data| {
      assert data[..|data| - 1][..k] == data[..k];
      FeedBad(s, data[..|data| - 1], k);
    } else {
      assert data[..k] == data;
    }
  }

  /** A character that is refused settles the whole decoding. */
  lemma {:induction false} BadAt(text: seq<Byte>, a: Alphabet, i: nat)
    requires i <= DataEnd(text) && Feed(Start(a), text[..i]).Bad?
    ensures Feed(Start(a), text[..DataEnd(text)]) == Feed(Start(a), text[..i])
  {
    var e := DataEnd(text);
    assert text[..e][..i] == text[..i];
    FeedBad(Start(a), text[..e], i);
  }

  lemma {:induction false} DataAhead(text: seq<Byte>, i: nat)
    requires i < |text| && i <= DataEnd(text)
    ensures text[i] == PAD <==> i == DataEnd(text)
  {
    var e := DataEnd(text);
    if i < e { assert text[..e][i] == text[i]; }
  }

  /** One more character of the data. */
  lemma {:induction false} FeedNext(s: State, text: seq<Byte>, i: nat)
    requires Bits(s.bits) && i < |text| && Feed(s, text[..i]).Fed?
    ensures Feed(s, text[..i + 1]) == Step(Feed(s, text[..i]).s, text[i])
  {
    assert text[..i + 1][..i] == text[..i];
  }

  /** Where reading stops: past the first padding character, or at the end. */
  function AfterData(text: seq<Byte>): (i: nat)
    ensures DataEnd(text) <= i <= |text|
  {
    if DataEnd(text) < |text| then DataEnd(text) + 1 else DataEnd(text)
  }

  lemma {:induction false} InConcat(x: seq<Byte>, y: seq<Byte>)
    ensures forall c :: c in x + y <==> c in x || c in y
  {
  }

  lemma {:induction false} PadsAfterData(text: seq<Byte>)
    ensures AllPads(text[DataEnd(text)..]) <==> AllPads(text[AfterData(text)..])
  {
    var e := DataEnd(text);
    if e < |text| {
      InConcat([PAD], text[e + 1..]);
      assert text[e..] == [PAD] + text[e + 1..];
    }
  }

  /** The first loop of `decode`, writing to a separate buffer. */
  method FeedText(text: seq<Byte>, alphabet: Alphabet) returns (valid: bool, i: nat, out: seq<Byte>)
    ensures i <= |text|
    ensures match Feed(Start(alphabet), text[..DataEnd(text)])
            case Bad(_) => !valid
            case Fed(s) => valid && out == s.out && i == AfterData(text)
  {
    var a, last: Byte, bits: nat := alphabet, 0, 0;
    out, i := [], 0;
    ghost var e := DataEnd(text);
    while i != |text|
      invariant i <= e && Bits(bits)
      invariant Feed(Start(alphabet), text[..i]) == Fed(State(out, last, bits, a))
      decreases |text| - i
    {
      var c := text[i];
      DataAhead(text, i);
      FeedNext(Start(alphabet), text, i);
      i := i + 1;
      if c == PAD {
        return true, i, out;
      }
      match Lookup(a, c)
      case Unknown =>
        BadAt(text, alphabet, i);
        return false, i, out;
      case Value(part, next) =>
        a := next;
        if bits + 6 >= 8 {
          out := out + [Joined(bits, last, part)];
          bits := bits - 2;
        } else {
          bits := bits + 6;
        }
        last := part;
    }
    valid := true;
  }

  /** The second loop: everything after the first padding character is padding. */
  method PaddingOnly(text: seq<Byte>, start: nat) returns (ok: bool)
    requires start <= |text|
    ensures ok == AllPads(text[start..])
  {
    hide AllPads;
    var i := start;
    NoPads(text[start..start]);
    while i != |text|
      invariant start <= i <= |text|
      invariant AllPads(text[start..i])
      decreases |text| - i
    {
      var c := text[i];
      if c != PAD {
        OtherCharacter(text, start, i);
        return false;
      }
      OnePadMore(text, start, i);
      i := i + 1;
    }
    assert text[start..i] == text[start..];
    ok := true;
  }

  lemma {:induction false} NoPads(s: seq<Byte>)
    ensures s == [] ==> AllPads(s)
  {
  }

  lemma {:induction false} OnePadMore(text: seq<Byte>, start: nat, i: nat)
    requires start <= i < |text| && text[i] == PAD && AllPads(text[start..i])
    ensures AllPads(text[start..i + 1])
  {
    assert text[start..i + 1] == text[start..i] + [text[i]];
    InConcat(text[start..i], [text[i]]);
  }

  lemma {:induction false} OtherCharacter(text: seq<Byte>, start: nat, i: nat)
    requires start <= i < |text| && text[i] != PAD
    ensures !AllPads(text[start..])
  {
    assert text[start..][i - start] == text[i];
    assert text[i] in text[start..];
  }

  /** Decoding into a separate buffer. */
  method Decode(text: seq<Byte>, alphabet: Alphabet, behavior: Behavior) returns (r: Decoded)
    ensures r == Decoding(text, alphabet, behavior)
  {
    var valid, i, out := FeedText(text, alphabet);
    if !valid {
      return Invalid;
    }
    PadsAfterData(text);
    if behavior != Loose {
      var ok := PaddingOnly(text, i);
      if !ok {
        return Invalid;
      }
    }
    r := Bytes(out);
  }

  // ----- decoding in place

  /** What in-place decoding leaves: the decoded bytes over the front of the text, the rest as it was; also
      when an invalid character stops it. */
  function Overwritten(text: seq<Byte>, written: seq<Byte>): seq<Byte>
    requires |written| <= |text|
  {
    written + text[|written|..]
  }

  /** The bytes written by the time decoding ends or throws. */
  function Written(text: seq<Byte>, a: Alphabet): seq<Byte> {
    match Feed(Start(a), text[..DataEnd(text)])
    case Bad(written) => written
    case Fed(s) => s.out
  }

  lemma {:induction false} StepCounts(s: State, c: Byte)
    requires Bits(s.bits)
    ensures var f := Step(s, c);
            match f
            case Fed(t) => t.bits == (s.bits + 6) % 8 && |t.out| == |s.out| + (if s.bits == 0 then 0 else 1)
            case Bad(written) => written == s.out
  {
    hide Lookup, Joined;
  }

  /** Four characters are three bytes. */
  lemma {:induction false} Quarters(n: nat, bits: nat)
    requires bits == (8 - 2 * (n % 4)) % 8
    ensures (bits + 6) % 8 == (8 - 2 * ((n + 1) % 4)) % 8
    ensures 3 * (n + 1) / 4 == 3 * n / 4 + if bits == 0 then 0 else 1
  {
    QuartersOf(n / 4, n % 4);
    assert n == 4 * (n / 4) + n % 4;
  }

  lemma {:induction false} QuartersOf(q: nat, r: nat)
    requires r < 4
    ensures (4 * q + r) % 4 == r && (4 * q + r + 1) % 4 == (if r == 3 then 0 else r + 1)
    ensures 3 * (4 * q + r) / 4 == 3 * q + (if r == 0 then 0 else r - 1)
    ensures 3 * (4 * q + r + 1) / 4 == 3 * q + r
  {
    assert r == 0 || r == 1 || r == 2 || r == 3;
    if r == 0 {
    } else if r == 1 {
    } else if r == 2 {
    } else {
      assert 4 * q + 3 + 1 == 4 * (q + 1);
    }
  }

  /** `bits` and the number of bytes written depend only on the number of characters read. */
  lemma {:induction false} FeedCounts(s: State, data: seq<Byte>)
    requires s.bits == 0
    ensures var f := Feed(s, data);
            match f
            case Fed(t) => t.bits == (8 - 2 * (|data| % 4)) % 8 && |t.out| == |s.out| + 3 * |data| / 4
            case Bad(written) => |written| <= |s.out| + 3 * |data| / 4
    decreases |data|
  {
    if data != [] {
      var n := |data| - 1;
      FeedCounts(s, data[..n]);
      hide Step;
      var before := Feed(s, data[..n]);
      if before.Fed? {
        StepCounts(before.s, data[n]);
        Quarters(n, before.s.bits);
      } else {
        Quarters(n, (8 - 2 * (n % 4)) % 8);
      }
    }
  }

  /** After `k` data characters exactly `floor(3k / 4)` bytes are written, so never more than were read, and
      never more than the advertised maximum. */
  lemma {:induction false} WrittenFits(text: seq<Byte>, a: Alphabet, b: Behavior)
    ensures |Written(text, a)| <= 3 * DataEnd(text) / 4 <= MaxDecodeSize(|text|) && |Written(text, a)| <= |text|
    ensures Decoding(text, a, b).Bytes? ==>
              Decoding(text, a, b).bytes == Written(text, a) && |Written(text, a)| == 3 * DataEnd(text) / 4
  {
    FeedCounts(Start(a), text[..DataEnd(text)]);
    MaxFits(DataEnd(text), |text|);
  }

  lemma {:induction false} MaxFits(k: nat, size: nat)
    requires k <= size
    ensures 3 * k / 4 <= MaxDecodeSize(size) && 3 * k / 4 <= size
  {
  }

  lemma {:induction false} OverwriteNext(text: seq<Byte>, written: seq<Byte>, x: Byte)
    requires |written| < |text|
    ensures Overwritten(text, written)[|written| := x] == Overwritten(text, written + [x])
  {
  }

  lemma {:induction false} OverwrittenReads(text: seq<Byte>, written: seq<Byte>, i: nat)
    requires |written| <= i < |text|
    ensures Overwritten(text, written)[i] == text[i]
  {
  }

  /** The first loop over the text itself: reading at `i`, writing at `w`, never past it. On an invalid
      character it stops with what is written so far. */
  method FeedInplace(text: array<Byte>, alphabet: Alphabet) returns (valid: bool, i: nat, w: nat)
    modifies text
    ensures i <= text.Length && (valid ==> i == AfterData(old(text[..])))
    ensures var was := old(text[..]);
            var f := Feed(Start(alphabet), was[..DataEnd(was)]);
            && valid == f.Fed? && w == |Written(was, alphabet)| <= DataEnd(was)
            && text[..] == Overwritten(was, Written(was, alphabet))
  {
    ghost var was := text[..];
    ghost var e := DataEnd(was);
    FeedCounts(Start(alphabet), was[..e]);
    var a, last: Byte, bits: nat := alphabet, 0, 0;
    i, w := 0, 0;
    ghost var out: seq<Byte> := [];
    while i != text.Length
      invariant i <= e && Bits(bits) && w == |out| <= i
      invariant Feed(Start(alphabet), was[..i]) == Fed(State(out, last, bits, a))
      invariant text[..] == Overwritten(was, out)
      decreases text.Length - i
    {
      OverwrittenReads(was, out, i);
      var c := text[i];
      assert c == was[i];
      DataAhead(was, i);
      FeedNext(Start(alphabet), was, i);
      FeedCounts(Start(alphabet), was[..i]);
      i := i + 1;
      if c == PAD {
        return true, i, w;
      }
      match Lookup(a, c)
      case Unknown =>
        BadAt(was, alphabet, i);
        return false, i, w;
      case Value(part, next) =>
        a := next;
        if bits + 6 >= 8 {
          var x := Joined(bits, last, part);
          OverwriteNext(was, out, x);
          ghost var before := text[..];
          text[w] := x;
          assert text[..] == before[w := x];
          out := out + [x];
          w := w + 1;
          bits := bits - 2;
        } else {
          bits := bits + 6;
        }
        last := part;
    }
    valid := true;
  }

  /** Decoding in place: the same outcome as decoding to a separate buffer, the decoded bytes at the front and
      everything behind them untouched. */
  method DecodeInplace(text: array<Byte>, alphabet: Alphabet, behavior: Behavior) returns (end: Option<nat>)
    modifies text
    ensures |Written(old(text[..]), alphabet)| <= text.Length
    ensures text[..] == Overwritten(old(text[..]), Written(old(text[..]), alphabet))
    ensures match Decoding(old(text[..]), alphabet, behavior)
            case Bytes(bytes) => end == Some(|bytes|) && |bytes| <= text.Length && text[..|bytes|] == bytes
            case Invalid => end == None
  {
    ghost var was := text[..];
    WrittenFits(was, alphabet, behavior);
    var valid, i, w := FeedInplace(text, alphabet);
    if !valid {
      return None;
    }
    PadsAfterData(was);
    assert text[i..] == was[i..];
    if behavior != Loose {
      var ok := PaddingOnly(text[..], i);
      if !ok {
        return None;
      }
    }
    end := Some(w);
  }

  // ----- the round trip

  lemma {:induction false} FeedConcat(s: State, x: seq<Byte>, y: seq<Byte>)
    requires Bits(s.bits) && Feed(s, x).Fed?
    ensures Feed(s, x + y) == Feed(Feed(s, x).s, y)
    decreases |y|
  {
    if y == [] {
      assert x + y == x;
    } else {
      FeedConcat(s, x, y[..|y| - 1]);
      assert (x + y)[..|x + y| - 1] == x + y[..|y| - 1];
    }
  }

  /** The table `a` is read back by alphabet `b`: the same one, or none chosen yet. */
  predicate Reads(b: Alphabet, a: Alphabet) {
    b == Auto || (if a.UrlFilenameSafe? then b.UrlFilenameSafe? else b.Standard?)
  }

  lemma {:induction false} LookupAlpha(a: Alphabet, b: Alphabet, v: Byte)
    requires Reads(b, a) && v < 64
    ensures var l := Lookup(b, Alpha(a, v)); l.Value? && l.v == v && Reads(l.alphabet, a)
    ensures Alpha(a, v) != PAD
  {
  }

  lemma {:induction false} StepAlpha(s: State, a: Alphabet, v: Byte)
    requires Bits(s.bits) && Reads(s.alphabet, a) && v < 64
    ensures var f := Step(s, Alpha(a, v));
            && f.Fed? && Bits(f.s.bits) && Reads(f.s.alphabet, a) && f.s.last == v
            && f.s.bits == (if s.bits >= 2 then s.bits - 2 else s.bits + 6)
            && f.s.out == (if s.bits >= 2 then s.out + [Joined(s.bits, s.last, v)] else s.out)
  {
    LookupAlpha(a, s.alphabet, v);
  }

  lemma {:induction false} SixBounds(x: Byte, y: Byte)
    ensures Six0(x) < 64 && Six1(x, y) < 64 && Six2(x, y) < 64 && Six3(x) < 64
  {
  }

  lemma {:induction false} GroupBits(x: Byte, y: Byte, z: Byte)
    ensures Joined(6, Six0(x), Six1(x, y)) == x && Joined(4, Six1(x, y), Six2(y, z)) == y && Joined(2, Six2(y, z), Six3(z)) == z
  {
  }

  lemma {:induction false} FeedOne(s: State, c: Byte)
    requires Bits(s.bits)
    ensures Feed(s, [c]) == Step(s, c)
  {
    assert [c][..0] == [];
  }

  /** A list of values fed one by one. */
  lemma {:induction false} FeedLast(s: State, data: seq<Byte>, c: Byte)
    requires Bits(s.bits) && Feed(s, data).Fed?
    ensures Feed(s, data + [c]) == Step(Feed(s, data).s, c)
  {
    assert (data + [c])[..|data|] == data;
  }

  /** Feeding a group's data characters writes the group. */
  lemma {:induction false} FeedTwo(s: State, a: Alphabet, x: Byte, y: Byte)
    requires s.bits == 0 && Reads(s.alphabet, a)
    ensures var f := Feed(s, [Alpha(a, Six0(x)), Alpha(a, Six1(x, y))]);
            f.Fed? && f.s.bits == 4 && Reads(f.s.alphabet, a) && f.s.last == Six1(x, y) && f.s.out == s.out + [x]
  {
    var c0, c1 := Alpha(a, Six0(x)), Alpha(a, Six1(x, y));
    SixBounds(x, y);
    FeedOne(s, c0);
    StepAlpha(s, a, Six0(x));
    FeedLast(s, [c0], c1);
    StepAlpha(Feed(s, [c0]).s, a, Six1(x, y));
    GroupBits(x, y, 0);
    assert [c0, c1] == [c0] + [c1];
  }

  lemma {:induction false} FeedThree(s: State, a: Alphabet, x: Byte, y: Byte, z: Byte)
    requires s.bits == 0 && Reads(s.alphabet, a)
    ensures var f := Feed(s, [Alpha(a, Six0(x)), Alpha(a, Six1(x, y)), Alpha(a, Six2(y, z))]);
            f.Fed? && f.s.bits == 2 && Reads(f.s.alphabet, a) && f.s.last == Six2(y, z) && f.s.out == s.out + [x, y]
  {
    var data, c := [Alpha(a, Six0(x)), Alpha(a, Six1(x, y))], Alpha(a, Six2(y, z));
    FeedTwo(s, a, x, y);
    FeedLast(s, data, c);
    SixBounds(y, z);
    StepAlpha(Feed(s, data).s, a, Six2(y, z));
    GroupBits(x, y, z);
    assert data + [c] == [data[0], data[1], c];
    assert s.out + [x] + [y] == s.out + [x, y];
  }

  lemma {:induction false} FeedFour(s: State, a: Alphabet, x: Byte, y: Byte, z: Byte)
    requires s.bits == 0 && Reads(s.alphabet, a)
    ensures var f := Feed(s, [Alpha(a, Six0(x)), Alpha(a, Six1(x, y)), Alpha(a, Six2(y, z)), Alpha(a, Six3(z))]);
            f.Fed? && f.s.bits == 0 && Reads(f.s.alphabet, a) && f.s.out == s.out + [x, y, z]
  {
    var data, c := [Alpha(a, Six0(x)), Alpha(a, Six1(x, y)), Alpha(a, Six2(y, z))], Alpha(a, Six3(z));
    FeedThree(s, a, x, y, z);
    FeedLast(s, data, c);
    SixBounds(z, z);
    StepAlpha(Feed(s, data).s, a, Six3(z));
    GroupBits(x, y, z);
    assert data + [c] == [data[0], data[1], data[2], c];
    assert s.out + [x, y] + [z] == s.out + [x, y, z];
  }

  /** The data characters of an encoding and its padding. */
  function DataOf(a: Alphabet, bytes: seq<Byte>): seq<Byte>
    decreases |bytes|
  {
    if bytes == [] then []
    else if |bytes| < 3 then Data(a, bytes)
    else Data(a, bytes[..3]) + DataOf(a, bytes[3..])
  }

  function PadsOf(n: nat): seq<Byte> {
    if n % 3 == 0 then [] else Padding(3 - n % 3)
  }

  lemma {:induction false} EncodedParts(a: Alphabet, bytes: seq<Byte>)
    ensures Encoded(a, bytes) == DataOf(a, bytes) + PadsOf(|bytes|)
    decreases |bytes|
  {
    if |bytes| >= 3 {
      EncodedParts(a, bytes[3..]);
      assert |bytes| % 3 == |bytes[3..]| % 3;
      Associate(Data(a, bytes[..3]), DataOf(a, bytes[3..]), PadsOf(|bytes|));
    }
  }

  lemma {:induction false} DataNotPad(a: Alphabet, group: seq<Byte>)
    requires 1 <= |group| <= 3
    ensures PAD !in Data(a, group)
  {
    forall x: Byte, y: Byte ensures Alpha(a, Six0(x)) != PAD && Alpha(a, Six1(x, y)) != PAD && Alpha(a, Six2(x, y)) != PAD && Alpha(a, Six3(x)) != PAD {
      SixBounds(x, y);
      LookupAlpha(a, Auto, Six0(x));
      LookupAlpha(a, Auto, Six1(x, y));
      LookupAlpha(a, Auto, Six2(x, y));
      LookupAlpha(a, Auto, Six3(x));
    }
  }

  lemma {:induction false} DataOfNotPad(a: Alphabet, bytes: seq<Byte>)
    ensures PAD !in DataOf(a, bytes)
    decreases |bytes|
  {
    if bytes != [] {
      if |bytes| < 3 {
        DataNotPad(a, bytes);
      } else {
        DataNotPad(a, bytes[..3]);
        DataOfNotPad(a, bytes[3..]);
      }
    }
  }

  lemma {:induction false} DataEndAt(data: seq<Byte>, pads: seq<Byte>)
    requires PAD !in data && AllPads(pads)
    ensures DataEnd(data + pads) == |data|
  {
    if data == [] {
      assert data + pads == pads;
      if pads != [] { assert pads[0] in pads; }
    } else {
      assert data[0] in data;
      assert (data + pads)[1..] == data[1..] + pads;
      DataEndAt(data[1..], pads);
    }
  }

  lemma {:induction false} FeedGroup(s: State, a: Alphabet, group: seq<Byte>)
    requires 1 <= |group| <= 3 && s.bits == 0 && Reads(s.alphabet, a)
    ensures var f := Feed(s, Data(a, group));
            f.Fed? && f.s.out == s.out + group && Reads(f.s.alphabet, a) && (|group| == 3 ==> f.s.bits == 0)
  {
    if |group| == 1 {
      FeedTwo(s, a, group[0], 0);
      assert group == [group[0]];
    } else if |group| == 2 {
      FeedThree(s, a, group[0], group[1], 0);
      assert group == [group[0], group[1]];
    } else {
      FeedFour(s, a, group[0], group[1], group[2]);
      assert group == [group[0], group[1], group[2]];
    }
  }

  lemma {:induction false} FeedEncoded(s: State, a: Alphabet, bytes: seq<Byte>)
    requires s.bits == 0 && Reads(s.alphabet, a)
    ensures var f := Feed(s, DataOf(a, bytes)); f.Fed? && f.s.out == s.out + bytes && Reads(f.s.alphabet, a)
    decreases |bytes|
  {
    if bytes == [] {
    } else if |bytes| < 3 {
      FeedGroup(s, a, bytes);
    } else {
      FeedGroup(s, a, bytes[..3]);
      FeedConcat(s, Data(a, bytes[..3]), DataOf(a, bytes[3..]));
      FeedEncoded(Feed(s, Data(a, bytes[..3])).s, a, bytes[3..]);
      Associate(s.out, bytes[..3], bytes[3..]);
      assert bytes[..3] + bytes[3..] == bytes;
    }
  }

  /** Decoding an encoding gives the bytes back, with the alphabet it was encoded with or with none given, and
      whether or not the padding is checked. */
  lemma {:induction false} RoundTrip(bytes: seq<Byte>, a: Alphabet, b: Alphabet, behavior: Behavior)
    requires Reads(b, a)
    ensures Decoding(Encoded(a, bytes), b, behavior) == Bytes(bytes)
    ensures |Encoded(a, bytes)| == RequiredEncodeSize(|bytes|)
  {
    var data, pads := DataOf(a, bytes), PadsOf(|bytes|);
    EncodedParts(a, bytes);
    EncodedLength(a, bytes);
    DataOfNotPad(a, bytes);
    DataEndAt(data, pads);
    assert (data + pads)[..|data|] == data && (data + pads)[|data|..] == pads;
    FeedEncoded(Start(b), a, bytes);
    assert [] + bytes == bytes;
  }

  // ----- detecting the alphabet

  ghost predicate Agree(auto: Fed, standard: Fed, url: Fed) {
    match auto
    case Bad(_) => standard.Bad? && url.Bad?
    case Fed(s) =>
      match s.alphabet
      case Auto => standard == Fed(s.(alphabet := Standard)) && url == Fed(s.(alphabet := UrlFilenameSafe))
      case Standard => standard == auto && url.Bad?
      case UrlFilenameSafe => url == auto && standard.Bad?
  }

  lemma {:induction false} StepAgrees(auto: Fed, standard: Fed, url: Fed, c: Byte)
    requires Agree(auto, standard, url) && auto.Fed? && Bits(auto.s.bits)
    ensures Agree(Step(auto.s, c),
                  if standard.Fed? then Step(standard.s, c) else standard,
                  if url.Fed? then Step(url.s, c) else url)
  {
  }

  /** The run with detection follows the run of the alphabet it settles on, and the other one has failed. */
  lemma {:induction false} FeedAgrees(data: seq<Byte>)
    ensures Agree(Feed(Start(Auto), data), Feed(Start(Standard), data), Feed(Start(UrlFilenameSafe), data))
    decreases |data|
  {
    if data != [] {
      var before, c := data[..|data| - 1], data[|data| - 1];
      FeedAgrees(before);
      if Feed(Start(Auto), before).Fed? {
        StepAgrees(Feed(Start(Auto), before), Feed(Start(Standard), before), Feed(Start(UrlFilenameSafe), before), c);
      }
    }
  }

  /** Decoding with detection succeeds exactly when one of the two alphabets does, and gives its result; when
      both succeed they agree. */
  lemma {:induction false} AutoRefinesBoth(text: seq<Byte>, b: Behavior)
    ensures var auto, standard, url := Decoding(text, Auto, b), Decoding(text, Standard, b), Decoding(text, UrlFilenameSafe, b);
            && (auto.Bytes? <==> standard.Bytes? || url.Bytes?)
            && (standard.Bytes? ==> auto == standard) && (url.Bytes? ==> auto == url)
  {
    FeedAgrees(text[..DataEnd(text)]);
  }

  // ----- what is accepted

  predicate InAlphabet(a: Alphabet, c: Byte) { Lookup(a, c).Value? }

  predicate AllIn(a: Alphabet, data: seq<Byte>) {
    forall c | c in data :: InAlphabet(a, c)
  }

  lemma {:induction false} AllInLast(a: Alphabet, data: seq<Byte>, c: Byte)
    ensures AllIn(a, data + [c]) <==> AllIn(a, data) && InAlphabet(a, c)
  {
    InConcat(data, [c]);
    if AllIn(a, data + [c]) {
      assert c in [c];
    }
  }

  lemma {:induction false} FeedAccepts(s: State, data: seq<Byte>)
    requires Bits(s.bits) && s.alphabet != Auto
    ensures Feed(s, data).Fed? <==> AllIn(s.alphabet, data)
    ensures Feed(s, data).Fed? ==> Feed(s, data).s.alphabet == s.alphabet
    decreases |data|
  {
    if data != [] {
      var before, c := data[..|data| - 1], data[|data| - 1];
      FeedAccepts(s, before);
      AllInLast(s.alphabet, before, c);
      assert data == before + [c];
    }
  }

  /** With a fixed alphabet a text is accepted exactly when every character before the first `=` is in it and,
      unless decoding is loose, only `=` follows; no length is required of either part. */
  lemma {:induction false} AcceptedExactly(text: seq<Byte>, a: Alphabet, b: Behavior)
    requires a != Auto
    ensures Decoding(text, a, b).Bytes? <==>
            AllIn(a, text[..DataEnd(text)]) && (b.Loose? || AllPads(text[DataEnd(text)..]))
  {
    FeedAccepts(Start(a), text[..DataEnd(text)]);
  }

  // ----- the code of RFC 4648

  lemma {:induction false} AddsUp(v: Byte, k: Byte)
    requires v < 64 && k < 128
    ensures (v + k) as int == v as int + k as int
  {
  }

  /** The character of a value, by tables 1 and 2 of RFC 4648. */
  lemma {:induction false} AlphabetTable(a: Alphabet, v: Byte)
    ensures v < 26 ==> Alpha(a, v) as int == 'A' as int + v as int
    ensures 26 <= v < 52 ==> Alpha(a, v) as int == 'a' as int + (v - 26) as int
    ensures 52 <= v < 62 ==> Alpha(a, v) as int == '0' as int + (v - 52) as int
    ensures Alpha(a, 62) as int == (if a == UrlFilenameSafe then '-' else '+') as int
    ensures Alpha(a, 63) as int == (if a == UrlFilenameSafe then '_' else '/') as int
    ensures PAD as int == '=' as int
  {
    if v < 26 {
      AddsUp(v, 65);
    } else if v < 52 {
      AddsUp(v - 26, 97);
    } else if v < 62 {
      AddsUp(v - 52, 48);
    }
  }

  /** The four values of a group are its 24 bits, six at a time. */
  lemma {:induction false} SixBits(x: Byte, y: Byte, z: Byte)
    ensures ((Six0(x) as bv24) << 18) | ((Six1(x, y) as bv24) << 12) | ((Six2(y, z) as bv24) << 6) | (Six3(z) as bv24)
            == ((x as bv24) << 16) | ((y as bv24) << 8) | (z as bv24)
    ensures Six0(x) < 64 && Six1(x, y) < 64 && Six2(y, z) < 64 && Six3(z) < 64
  {
  }

  /** Four characters for every three bytes begun, three bytes for every four characters begun. */
  lemma {:induction false} Sizes(n: nat)
    ensures RequiredEncodeSize(n) == 4 * ((n + 2) / 3) && MaxDecodeSize(n) == 3 * ((n + 3) / 4)
  {
  }

  predicate Spells(s: seq<Byte>, text: string) {
    |s| == |text| && forall i :: 0 <= i < |s| ==> s[i] as int == text[i] as int
  }

  /** The test vectors of section 10 of RFC 4648. */
  lemma {:induction false} TestVectors()
    ensures Spells(Encoded(Standard, [102]), "Zg==")
    ensures Spells(Encoded(Standard, [102, 111]), "Zm8=")
    ensures Spells(Encoded(Standard, [102, 111, 111]), "Zm9v")
    ensures Spells(Encoded(Standard, [102, 111, 111, 98, 97, 114]), "Zm9vYmFy")
  {
    assert [102, 111, 111][3..] == [];
    assert [102, 111, 111, 98, 97, 114][3..] == [98, 97, 114] && [98, 97, 114][3..] == [];
  }
}
