/** Whatever `json::parse` returns can be dumped and read back. */
module ReadableTexts {
  import opened JsonText
  import opened JsonValue
  import opened JsonRead
  import opened DumpRead
  import opened GrammarStrings
  import GrammarTheorems
  import GrammarTokens
  import G = JsonGrammar
  import M = JsonMeaning
  import ReadMeaning

  // ----- strings are valid UTF-8

  lemma {:induction false} Utf8Concat(x: StrState, a: string, b: string)
    requires Utf8From(x, a) && Utf8From(Plain, b)
    ensures Utf8From(x, a + b)
    decreases |a|
  {
    if a == "" {
      assert a + b == b;
    } else {
      assert (a + b)[0] == a[0] && (a + b)[1..] == a[1..] + b;
      if x == Plain && EscapeChar(a[0]) != [a[0]] {
        Utf8Concat(Plain, a[1..], b);
      } else {
        Utf8Concat(StrStep(x, a[0]).s, a[1..], b);
      }
    }
  }

  /** Bytes of at least 0x80 that the scanner accepts are well formed. */
  lemma {:induction false} Utf8Scanned(x: StrState, t: string)
    requires StrRun(x, t) == StrMore(Plain) && (x == Plain || x.Utf8?)
    requires forall i :: 0 <= i < |t| ==> 0x80 as char <= t[i]
    ensures Utf8From(x, t)
    decreases |t|
  {
    if t != "" { Utf8Scanned(StrStep(x, t[0]).s, t[1..]); }
  }

  lemma {:induction false} OneByte(c: char)
    requires c < 0x80 as char
    ensures Utf8From(Plain, [c])
  {
    assert [c][1..] == "";
    assert EscapeChar(c) == [c] ==> StrStep(Plain, c) == StrMore(Plain);
  }

  lemma {:induction false} CharBytes(s: string, t: string)
    requires M.CharMeans(s, t)
    ensures (|t| == 1 && t[0] < 0x80 as char) || G.Utf8Sequence(t)
  {
  }

  lemma {:induction false} CharUtf8(s: string, t: string)
    requires M.CharMeans(s, t)
    ensures Utf8From(Plain, t)
  {
    CharBytes(s, t);
    hide M.CharMeans;
    if G.Utf8Sequence(t) {
      CharacterReads(t);
      Utf8Scanned(Plain, t);
    } else {
      assert t == [t[0]];
      OneByte(t[0]);
    }
  }

  lemma {:induction false} CharsUtf8(s: string, t: string)
    requires M.CharsMean(s, t)
    ensures Utf8From(Plain, t)
    decreases |s|
  {
    hide M.CharMeans;
    if !(s == "" && t == "") {
      var k, m :| 0 < k <= |s| && 0 <= m <= |t| && M.CharMeans(s[..k], t[..m]) && M.CharsMean(s[k..], t[m..]);
      CharUtf8(s[..k], t[..m]);
      CharsUtf8(s[k..], t[m..]);
      Utf8Concat(Plain, t[..m], t[m..]);
      assert t[..m] + t[m..] == t;
    }
  }

  lemma {:induction false} StringUtf8(s: string, t: string)
    requires M.StringMeans(s, t)
    ensures Utf8From(Plain, t)
  {
    CharsUtf8(s[1..|s| - 1], t);
  }

  // ----- values

  lemma {:induction false} RestOfNumber(n: NumState, t: string)
    requires GrammarTokens.NumRest(n, t)
    ensures NumberFrom(n, t)
    decreases |t|
  {
    if t != "" { RestOfNumber(NumStep(n, t[0]).n, t[1..]); }
  }

  lemma {:induction false} NumberDumps(s: string)
    requires G.Number(s)
    ensures Readable(Num(s))
  {
    GrammarTokens.NumberExactly(s);
    RestOfNumber(TokenFrom(s[0]).n, s[1..]);
  }

  /** All the members can be dumped and read back, and no key comes twice. */
  predicate GoodMembers(members: seq<Member>) { Readable(Object(members)) }

  lemma {:induction false} AddedGood(before: seq<Member>, x: Member, after: seq<Member>)
    requires GoodMembers(before) && Utf8From(Plain, x.key) && Readable(x.value) && M.Added(before, x, after)
    ensures GoodMembers(after)
  {
  }

  lemma {:induction false} ValueReadable(s: string, j: Json)
    requires M.ValueMeans(s, j)
    ensures Readable(j)
    decreases |s|, 0
  {
    match j {
      case Num(_) => NumberDumps(s);
      case Str(t) => StringUtf8(s, t);
      case Array(items) => if items != [] { ElementsReadable(s[1..|s| - 1], items); }
      case Object(members) => if members != [] { MembersReadable(s[1..|s| - 1], [], members); }
      case _ =>
    }
  }

  lemma {:induction false} PaddedReadable(s: string, j: Json)
    requires M.PaddedMeans(s, j)
    ensures Readable(j)
    decreases |s|, 1
  {
    hide M.ValueMeans, Readable;
    var a, b :| 0 <= a <= b <= |s| && G.Ws(s[..a]) && G.Ws(s[b..]) && M.ValueMeans(s[a..b], j);
    ValueReadable(s[a..b], j);
  }

  lemma {:induction false} ElementsReadable(s: string, items: seq<Json>)
    requires M.ElementsMean(s, items)
    ensures Readable(Array(items))
    decreases |s|, 2
  {
    hide M.PaddedMeans, M.ElementsMean;
    var i := ReadMeaning.FirstElement(s, items);
    if |items| == 1 {
      PaddedReadable(s, items[0]);
    } else {
      PaddedReadable(s[..i], items[0]);
      ElementsReadable(s[i + 1..], items[1..]);
      MoreItems(items);
    }
  }

  lemma {:induction false} MoreItems(items: seq<Json>)
    requires |items| > 1 && Readable(items[0]) && Readable(Array(items[1..]))
    ensures Readable(Array(items))
  {
    assert items == [items[0]] + items[1..];
  }

  lemma {:induction false} NameValueReadable(s: string, x: Member)
    requires M.NameValueMeans(s, x)
    ensures Utf8From(Plain, x.key) && Readable(x.value)
    decreases |s|, 2
  {
    hide M.PaddedMeans, M.StringMeans, Readable;
    var a, b, c :| 0 <= a <= b <= c < |s| && s[c] == ':' && G.Ws(s[..a]) && M.StringMeans(s[a..b], x.key) && G.Ws(s[b..c]) && M.PaddedMeans(s[c + 1..], x.value);
    StringUtf8(s[a..b], x.key);
    PaddedReadable(s[c + 1..], x.value);
  }

  lemma {:induction false} MembersReadable(s: string, before: seq<Member>, after: seq<Member>)
    requires GoodMembers(before) && M.MembersMean(s, before, after)
    ensures GoodMembers(after)
    decreases |s|, 3
  {
    hide M.NameValueMeans, M.Added, Readable, GoodMembers;
    if x :| M.NameValueMeans(s, x) && M.Added(before, x, after) {
      NameValueReadable(s, x);
      AddedGood(before, x, after);
    } else {
      var i, x, mid :| 0 <= i < |s| && s[i] == ',' && M.NameValueMeans(s[..i], x) && M.Added(before, x, mid) && M.MembersMean(s[i + 1..], mid, after);
      NameValueReadable(s[..i], x);
      AddedGood(before, x, mid);
      MembersReadable(s[i + 1..], mid, after);
    }
  }

  /** The value of any text that parses can be dumped, and reading the dump gives it again. */
  lemma {:induction false} ReadDumpedBack(s: string)
    requires CanParse(s)
    ensures var j := ReadText(s); Readable(j) && CanParse(Dump(j)) && ReadText(Dump(j)) == j
  {
    hide CanParse, ReadText, Dumpable, DistinctKeys, M.PaddedMeans;
    var j := ReadText(s);
    ReadMeaning.ReadsExactly(s, j);
    PaddedReadable(s, j);
    DumpReadBack(j);
  }
}
