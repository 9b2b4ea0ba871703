/** Streaming never retracts reasoning, exactly when the tags do not overlap badly. */
module StreamingTheorems {
  import opened Text
  import opened PartialJson
  import opened ChatParser

  /** The reasoning text a fresh parser extracts. */
  function ReasoningText(input: string, isPartial: bool, syntax: Syntax, startThink: string, endThink: string): string {
    ReasoningAt(input, isPartial, syntax, 0, startThink, endThink).text
  }

  // ----- stripping a longer text

  /** `a` and `b` are the first and one-past-last non-blank positions of a text, equal if there is none. */
  predicate IsRange(s: string, a: nat, b: nat) {
    && a <= b <= |s| && SpaceIn(s, 0, a) && SpaceIn(s, b, |s|)
    && if a < b then !IsSpaceC(s[a]) && !IsSpaceC(s[b - 1]) else AllSpace(s)
  }

  lemma {:induction false} SpaceShift(s: string, a: nat, f: string, n: nat)
    requires a <= |s| && f == s[a..] && n <= |f| && SpaceIn(f, n, |f|)
    ensures SpaceIn(s, a + n, |s|)
  {
    forall i | a + n <= i < |s| ensures IsSpaceC(s[i]) { assert s[i] == f[i - a]; }
  }

  lemma {:induction false} StripFrontRange(s: string) returns (a: nat, f: string)
    ensures a <= |s| && f == s[a..] && Strip(s) == StripBack(f) && SpaceIn(s, 0, a) && (f != "" ==> !IsSpaceC(f[0]))
  {
    f := StripFront(s);
    a := |s| - |f|;
  }

  lemma {:induction false} StripBackRange(f: string) returns (n: nat)
    requires f != "" ==> !IsSpaceC(f[0])
    ensures n <= |f| && StripBack(f) == f[..n] && SpaceIn(f, n, |f|) && (n > 0 ==> !IsSpaceC(f[n - 1])) && (n == 0 ==> f == "")
  {
    var t := StripBack(f);
    n := |t|;
  }

  lemma {:induction false} StripRange(s: string) returns (a: nat, b: nat)
    ensures IsRange(s, a, b) && Strip(s) == s[a..b]
  {
    hide StripFront, StripBack;
    var f;
    a, f := StripFrontRange(s);
    var n := StripBackRange(f);
    b := a + n;
    SpaceShift(s, a, f, n);
    assert f[..n] == s[a..b];
    if a < b { assert f[n - 1] == s[b - 1] && f[0] == s[a]; }
  }

  lemma {:induction false} RangePrefix(s: string, n: nat, a: nat, b: nat, c: nat, d: nat)
    requires n <= |s| && IsRange(s, a, b) && IsRange(s[..n], c, d) && c < d
    ensures a == c && d <= b
  {
    assert s[..n][c] == s[c] && s[..n][d - 1] == s[d - 1];
    assert a < n ==> s[..n][a] == s[a];
  }

  lemma {:induction false} RangesGrow(s: string, t: string, a: nat, b: nat, c: nat, d: nat)
    requires |t| <= |s| && t == s[..|t|] && IsRange(s, a, b) && IsRange(t, c, d)
    ensures t[c..d] <= s[a..b]
  {
    if c < d {
      RangePrefix(s, |t|, a, b, c, d);
      assert t[c..d] == s[c..d];
      assert s[a..b][..d - c] == s[c..d];
    }
  }

  /** Stripping a prefix gives a prefix of stripping the whole. */
  lemma {:induction false} StripMonotone(s: string, t: string)
    requires |t| <= |s| && t == s[..|t|]
    ensures Strip(t) <= Strip(s)
  {
    var a, b := StripRange(s);
    var c, d := StripRange(t);
    RangesGrow(s, t, a, b, c, d);
  }

  lemma {:induction false} RangeLoses(s: string, n: nat, k: nat, a: nat, b: nat, c: nat, d: nat)
    requires n <= k < |s| && !IsSpaceC(s[k]) && IsRange(s, a, b) && IsRange(s[..n], c, d)
    ensures d - c < b - a
  {
    assert a <= k < b;
    if c < d { RangePrefix(s, n, a, b, c, d); }
  }

  /** Stripping a prefix loses something when a non-blank follows. */
  lemma {:induction false} StripLoses(s: string, n: nat, k: nat)
    requires n <= k < |s| && !IsSpaceC(s[k])
    ensures !(Strip(s) <= Strip(s[..n]))
  {
    var a, b := StripRange(s);
    var c, d := StripRange(s[..n]);
    RangeLoses(s, n, k, a, b, c, d);
  }

  // ----- what extending the input does to the search

  /** In an extension the closing tag cannot start before the place held back as its possible start. */
  lemma {:induction false} EarliestEnd(x: string, y: string, literal: string, pos: nat, k: nat)
    requires pos <= k <= |x| && OccursAt(x + y, literal, k)
    ensures OccursAt(x, literal, k) || k == |x| || x[k..] <= literal
  {
    if k + |literal| <= |x| {
      OccursInside(x, literal, y, k);
    } else if k < |x| {
      assert (x + y)[k..k + |literal|][..|x| - k] == x[k..];
    }
  }

  lemma {:induction false} FoundStays(x: string, y: string, literal: string, pos: nat)
    requires pos <= |x| && Find(x, literal, pos) >= 0
    ensures Find(x + y, literal, pos) == Find(x, literal, pos)
  {
    var k := Find(x, literal, pos);
    OccursInside(x, literal, y, k);
    forall i | pos <= i < k ensures !OccursAt(x + y, literal, i) {
      if i + |literal| <= |x| { OccursInside(x, literal, y, i); }
    }
    FindIs(x + y, literal, pos, k);
  }

  /** A suffix of the extension that could still become the literal, and starts inside `x`, was one in `x`. */
  lemma {:induction false} PartialStays(x: string, y: string, literal: string, p: nat)
    requires p < |x| && (x + y)[p..] <= literal
    ensures x[p..] <= literal
  {
    assert (x + y)[p..][..|x| - p] == x[p..];
  }

  // ----- tags that overlap badly

  /** A suffix of length `a` of the opening tag, continued to length `n`, is a prefix of the closing tag; and
      that prefix has a shorter, not blank, prefix of the closing tag of length `c` as its own end. */
  predicate Overlap(startThink: string, endThink: string, n: nat, a: nat, c: nat) {
    && 1 <= a < n <= |endThink| && a <= |startThink| && 1 <= c <= n - a
    && startThink[|startThink| - a..] == endThink[..a]
    && endThink[n - c..n] == endThink[..c]
    && !AllSpace(endThink[..c])
  }

  predicate BadTags(startThink: string, endThink: string) {
    exists n, a, c :: 0 <= n <= |endThink| && 0 <= a <= |endThink| && 0 <= c <= |endThink| && Overlap(startThink, endThink, n, a, c)
  }

  /** Up to where the reasoning goes, before stripping. */
  function Upto(x: string, isPartial: bool, pos: nat, endThink: string): (n: nat)
    requires pos <= |x|
    ensures pos <= n <= |x|
  {
    match FindLiteral(x, isPartial, pos, endThink)
    case FoundAt(_, begin, _) => begin
    case NotFound => |x|
  }

  lemma {:induction false} FromUpto(x: string, isPartial: bool, pos: nat, endThink: string)
    requires pos <= |x|
    ensures ReasoningFrom(x, isPartial, pos, endThink).text == Strip(x[pos..Upto(x, isPartial, pos, endThink)])
  {
    assert x[pos..] == x[pos..|x|];
  }

  /** The text held back in `x` is a possible start of the closing tag in every extension, or nothing held
      back overlaps; either way the extension's reasoning goes at least as far, up to blanks. */
  lemma {:induction false} UptoGrows(x: string, y: string, p: bool, pos: nat, endThink: string)
    requires pos <= |x|
    requires PartialStop(x, endThink, 0) == -1 || PartialStop(x, endThink, 0) >= pos
    ensures Upto(x, true, pos, endThink) <= Upto(x + y, p, pos, endThink)
  {
    var held := PartialStop(x, endThink, 0);
    if Find(x, endThink, pos) >= 0 {
      FoundStays(x, y, endThink, pos);
    } else {
      var k := Find(x + y, endThink, pos);
      if k >= 0 {
        if k < |x| { EarliestEnd(x, y, endThink, pos, k); }
      } else if p {
        var h := PartialStop(x + y, endThink, 0);
        if 0 <= h < |x| { PartialStays(x, y, endThink, h); }
      }
    }
  }

  /** What is held back from `pos` on, when nothing reaches back before `pos`. */
  lemma {:induction false} NothingHeldBack(x: string, literal: string, pos: nat, k: nat)
    requires pos <= k < |x| && x[k..] <= literal
    ensures 0 <= PartialStop(x, literal, 0) <= k
  {
  }

  /** With a block open at `pos`, the reasoning of any extension starts with the reasoning of `x`. */
  lemma {:induction false} ReasoningGrows(x: string, y: string, p: bool, pos: nat, endThink: string)
    requires pos <= |x|
    requires PartialStop(x, endThink, 0) == -1 || PartialStop(x, endThink, 0) >= pos
    ensures ReasoningFrom(x, true, pos, endThink).text <= ReasoningFrom(x + y, p, pos, endThink).text
  {
    UptoGrows(x, y, p, pos, endThink);
    FromUpto(x, true, pos, endThink);
    FromUpto(x + y, p, pos, endThink);
    var _, _ := LongerText(x, y, pos, Upto(x, true, pos, endThink), Upto(x + y, p, pos, endThink));
  }

  lemma {:induction false} PartOfLonger(x: string, y: string, pos: nat, n: nat, k: nat) returns (short: string, long: string)
    requires pos <= n <= |x| && n <= k <= |x + y|
    ensures short == x[pos..n] && long == (x + y)[pos..k] && |short| <= |long| && short == long[..|short|]
  {
    short, long := x[pos..n], (x + y)[pos..k];
  }

  lemma {:induction false} LongerText(x: string, y: string, pos: nat, n: nat, k: nat) returns (short: string, long: string)
    requires pos <= n <= |x| && n <= k <= |x + y|
    ensures short == x[pos..n] && long == (x + y)[pos..k] && Strip(short) <= Strip(long)
  {
    short, long := PartOfLonger(x, y, pos, n, k);
    StripMonotone(long, short);
  }

  lemma {:induction false} RangesSame(s: string, t: string, a: nat, b: nat, c: nat, d: nat)
    requires |t| <= |s| && t == s[..|t|] && SpaceIn(s, |t|, |s|) && IsRange(s, a, b) && IsRange(t, c, d)
    ensures s[a..b] <= t[c..d]
  {
    if a < b {
      assert b <= |t|;
      assert t[a] == s[a] && t[b - 1] == s[b - 1];
      assert c < d;
      RangePrefix(s, |t|, a, b, c, d);
      assert d > b - 1;
      assert t[c..d] == s[c..d];
    }
  }

  lemma {:induction false} BlankTail(s: string, t: string)
    requires |t| <= |s| && t == s[..|t|] && SpaceIn(s, |t|, |s|)
    ensures Strip(s) <= Strip(t)
  {
    var a, b := StripRange(s);
    var c, d := StripRange(t);
    RangesSame(s, t, a, b, c, d);
  }

  /** When the place held back lies before `pos`, the whole rest is taken as reasoning; without bad tags
      an extension then takes at least as much, blanks aside. */
  lemma {:induction false} UptoGrowsOverlapping(x: string, y: string, p: bool, startThink: string, endThink: string)
    requires startThink <= x && 0 <= PartialStop(x, endThink, 0) < |startThink| && !BadTags(startThink, endThink)
    ensures var pos := |startThink|; var u := Upto(x + y, p, pos, endThink);
            u >= |x| || SpaceIn(x, u, |x|) || Find(x, endThink, pos) >= 0
  {
    var pos := |startThink|;
    var u := Upto(x + y, p, pos, endThink);
    if u < |x| && Find(x, endThink, pos) < 0 {
      var k := Find(x + y, endThink, pos);
      if k >= 0 {
        EarliestEnd(x, y, endThink, pos, k);
      } else {
        PartialStays(x, y, endThink, u);
      }
      assert x[u..] <= endThink;
      var q := PartialStop(x, endThink, 0);
      OverlapAt(x, startThink, endThink, q, u);
    }
  }

  lemma {:induction false} OverlapAt(x: string, startThink: string, endThink: string, q: nat, u: nat)
    requires startThink <= x && q < |startThink| <= u < |x| && x[q..] <= endThink && x[u..] <= endThink
    ensures SpaceIn(x, u, |x|) || BadTags(startThink, endThink)
  {
    var n := |x| - q;
    var a := |startThink| - q;
    var c := |x| - u;
    assert endThink[..n] == x[q..] && endThink[..c] == x[u..];
    assert startThink[|startThink| - a..] == x[q..][..a] == endThink[..a];
    assert endThink[n - c..n] == x[q..][n - c..] == x[u..];
    if exists i :: u <= i < |x| && !IsSpaceC(x[i]) {
      var i :| u <= i < |x| && !IsSpaceC(x[i]);
      assert endThink[..c][i - u] == x[i];
      assert Overlap(startThink, endThink, n, a, c);
    }
  }

  lemma {:induction false} ReasoningGrowsOverlapping(x: string, y: string, p: bool, startThink: string, endThink: string)
    requires startThink <= x && 0 <= PartialStop(x, endThink, 0) < |startThink| && !BadTags(startThink, endThink)
    ensures ReasoningFrom(x, true, |startThink|, endThink).text <= ReasoningFrom(x + y, p, |startThink|, endThink).text
  {
    var pos := |startThink|;
    var n := Upto(x, true, pos, endThink);
    var u := Upto(x + y, p, pos, endThink);
    FromUpto(x, true, pos, endThink);
    FromUpto(x + y, p, pos, endThink);
    UptoGrowsOverlapping(x, y, p, startThink, endThink);
    if Find(x, endThink, pos) >= 0 { FoundStays(x, y, endThink, pos); }
    if u >= n {
      var _, _ := LongerText(x, y, pos, n, u);
    } else {
      var _, _ := ShorterText(x, y, pos, n, u);
    }
  }

  lemma {:induction false} PartOfShorter(x: string, y: string, pos: nat, n: nat, u: nat) returns (long: string, short: string)
    requires pos <= u <= n <= |x| && SpaceIn(x, u, n)
    ensures long == x[pos..n] && short == (x + y)[pos..u]
    ensures |short| <= |long| && short == long[..|short|] && SpaceIn(long, |short|, |long|)
  {
    long, short := x[pos..n], (x + y)[pos..u];
    forall i | u - pos <= i < |long| ensures IsSpaceC(long[i]) { assert long[i] == x[pos + i]; }
  }

  lemma {:induction false} ShorterText(x: string, y: string, pos: nat, n: nat, u: nat) returns (long: string, short: string)
    requires pos <= u <= n <= |x| && SpaceIn(x, u, n)
    ensures long == x[pos..n] && short == (x + y)[pos..u] && Strip(long) <= Strip(short)
  {
    long, short := PartOfShorter(x, y, pos, n, u);
    BlankTail(long, short);
  }

  /** Streaming never retracts reasoning: what a partial prefix shows is a prefix of what every extension
      shows, partial or complete, when the block is forced open or the tags do not overlap badly. */
  lemma {:induction false} ReasoningNeverRetracts(x: string, y: string, p: bool, syntax: Syntax, startThink: string, endThink: string)
    requires syntax.thinkingForcedOpen || !BadTags(startThink, endThink)
    ensures ReasoningText(x, true, syntax, startThink, endThink) <= ReasoningText(x + y, p, syntax, startThink, endThink)
  {
    if syntax.format != FormatNone {
      if syntax.thinkingForcedOpen {
        ReasoningGrows(x, y, p, 0, endThink);
      } else if startThink <= x {
        assert x[0..] == x && (x + y)[0..] == x + y;
        assert startThink <= x + y;
        if 0 <= PartialStop(x, endThink, 0) < |startThink| {
          ReasoningGrowsOverlapping(x, y, p, startThink, endThink);
        } else {
          ReasoningGrows(x, y, p, |startThink|, endThink);
        }
      }
    }
  }

  lemma {:induction false} OverlapRetracts(startThink: string, endThink: string, n: nat, a: nat, c: nat)
    requires Overlap(startThink, endThink, n, a, c)
    ensures var x := startThink + endThink[a..n]; var pos := |startThink|;
            !(ReasoningFrom(x, true, pos, endThink).text <= ReasoningFrom(x + endThink[c..], true, pos, endThink).text)
  {
    var pos := |startThink|;
    var v := endThink[a..n];
    var x := startThink + v;
    var y := endThink[c..];
    HeldBackTooEarly(startThink, endThink, n, a, c);
    EndReappears(startThink, endThink, n, a, c);
    var u := Upto(x + y, true, pos, endThink);
    FromUpto(x + y, true, pos, endThink);
    var k := NonBlankNearEnd(endThink, n, a, c);
    CutShort(startThink, v, y, u, k);
  }

  lemma {:induction false} NonBlankNearEnd(endThink: string, n: nat, a: nat, c: nat) returns (k: nat)
    requires a + c <= n <= |endThink| && endThink[n - c..n] == endThink[..c] && !AllSpace(endThink[..c])
    ensures n - a - c <= k < n - a && !IsSpaceC(endThink[a..n][k])
  {
    var i :| 0 <= i < c && !IsSpaceC(endThink[..c][i]);
    assert endThink[n - c..n][i] == endThink[n - c + i];
    k := n - a - c + i;
  }

  lemma {:induction false} CutShort(startThink: string, v: string, y: string, u: nat, k: nat)
    requires |startThink| <= u <= |startThink| + k && k < |v| && !IsSpaceC(v[k])
    ensures var x := startThink + v;
            x[|startThink|..] == v && !(Strip(v) <= Strip((x + y)[|startThink|..u]))
  {
    var x := startThink + v;
    assert (x + y)[|startThink|..u] == v[..u - |startThink|];
    StripLoses(v, u - |startThink|, k);
  }

  /** The condition is needed: with bad tags there is a text whose reasoning an extension takes back. */
  lemma {:induction false} BadTagsRetract(syntax: Syntax, startThink: string, endThink: string) returns (x: string, y: string)
    requires syntax.format != FormatNone && !syntax.thinkingForcedOpen && BadTags(startThink, endThink)
    ensures !(ReasoningText(x, true, syntax, startThink, endThink) <= ReasoningText(x + y, true, syntax, startThink, endThink))
  {
    var n, a, c :| 0 <= n <= |endThink| && 0 <= a <= |endThink| && 0 <= c <= |endThink| && Overlap(startThink, endThink, n, a, c);
    x := startThink + endThink[a..n];
    y := endThink[c..];
    OverlapRetracts(startThink, endThink, n, a, c);
    assert x[0..] == x && (x + y)[0..] == x + y && startThink <= x && startThink <= x + y;
  }

  lemma {:induction false} HeldBackTooEarly(startThink: string, endThink: string, n: nat, a: nat, c: nat)
    requires Overlap(startThink, endThink, n, a, c)
    ensures FindLiteral(startThink + endThink[a..n], true, |startThink|, endThink) == NotFound
  {
    var x := startThink + endThink[a..n];
    var q := |startThink| - a;
    assert x[q..] == startThink[q..] + endThink[a..n] == endThink[..n];
    NothingHeldBack(x, endThink, 0, q);
    var k := Find(x, endThink, |startThink|);
  }

  lemma {:induction false} EndReappears(startThink: string, endThink: string, n: nat, a: nat, c: nat)
    requires Overlap(startThink, endThink, n, a, c)
    ensures var x := startThink + endThink[a..n];
            Upto(x + endThink[c..], true, |startThink|, endThink) <= |x| - c
  {
    var x := startThink + endThink[a..n];
    var longer := x + endThink[c..];
    var at := |x| - c;
    assert x[at..] == endThink[n - c..n];
    assert longer[at..at + |endThink|] == x[at..] + endThink[c..] == endThink;
    assert OccursAt(longer, endThink, at);
  }

  /** Tags where no end of the opening tag starts the closing tag never overlap badly. */
  lemma {:induction false} DisjointTagsAreGood(startThink: string, endThink: string)
    requires forall a :: 1 <= a <= |startThink| && a <= |endThink| ==> startThink[|startThink| - a..] != endThink[..a]
    ensures !BadTags(startThink, endThink)
  {
  }

  /** Tags that do overlap: after `a<<` the reasoning is `<`, after `a<<<b` it is empty. */
  lemma {:induction false} OverlappingTags()
    ensures BadTags("a<", "<<b")
  {
    assert "<<b"[..1][0] == '<';
    assert Overlap("a<", "<<b", 2, 1, 1);
  }
}
