/** Searching in byte strings, as `std::string::find` does. */
module Text {

  predicate OccursAt(s: string, t: string, i: int) {
    0 <= i && i + |t| <= |s| && s[i..i + |t|] == t
  }

  predicate Occurs(s: string, t: string) {
    exists i :: 0 <= i <= |s| && OccursAt(s, t, i)
  }

  /** `s.find(t, from)`, -1 for npos. */
  function Find(s: string, t: string, from: nat): (p: int)
    ensures p >= 0 ==> p >= from && OccursAt(s, t, p)
    ensures p >= 0 ==> forall i :: from <= i < p ==> !OccursAt(s, t, i)
    ensures p < 0 ==> p == -1 && forall i :: from <= i ==> !OccursAt(s, t, i)
    decreases |s| - from
  {
    if from + |t| > |s| then -1
    else if OccursAt(s, t, from) then from
    else Find(s, t, from + 1)
  }

  lemma {:induction false} FindIs(s: string, t: string, from: nat, p: nat)
    requires from <= p && OccursAt(s, t, p) && forall i :: from <= i < p ==> !OccursAt(s, t, i)
    ensures Find(s, t, from) == p
  {
    var q := Find(s, t, from);
    assert OccursAt(s, t, p);
  }

  /** `a` ends with the first `p` characters of `d`, and the rest of `d` starts `d` again. */
  predicate Straddles(a: string, d: string, p: nat) {
    0 < p < |d| && p <= |a| && a[|a| - p..] == d[..p] && d[p..] == d[..|d| - p]
  }

  lemma {:induction false} OccursBeforeJoin(a: string, d: string, tail: string, i: nat)
    requires i < |a| && i + |d| > |a|
    ensures OccursAt(a + d + tail, d, i) <==> Straddles(a, d, |a| - i)
  {
    var p := |a| - i;
    var s := a + d + tail;
    assert s[i..i + |d|] == a[i..] + d[..|d| - p];
    assert d == d[..p] + d[p..];
    if Straddles(a, d, p) {
      assert s[i..i + |d|] == d;
    }
    if OccursAt(s, d, i) {
      assert s[i..i + |d|][..p] == a[i..] && s[i..i + |d|][p..] == d[..|d| - p];
    }
  }

  lemma {:induction false} OccursInside(a: string, d: string, rest: string, i: nat)
    requires i + |d| <= |a|
    ensures OccursAt(a + rest, d, i) <==> OccursAt(a, d, i)
  {
    assert (a + rest)[i..i + |d|] == a[i..i + |d|];
  }

  /** The first occurrence of `d` in `a + d + tail` is the join exactly when `d` is not in `a` and does
      not start in `a` and run over the join. */
  lemma {:induction false} FirstAtJoin(a: string, d: string, tail: string)
    requires d != ""
    ensures Find(a + d + tail, d, 0) == |a| <==> !Occurs(a, d) && forall p :: 0 < p < |d| ==> !Straddles(a, d, p)
  {
    var s := a + d + tail;
    assert s[|a|..|a| + |d|] == d;
    assert s == a + (d + tail);
    var found := Find(s, d, 0);
    if found == |a| {
      forall i | 0 <= i <= |a| ensures !OccursAt(a, d, i) {
        if i + |d| <= |a| { OccursInside(a, d, d + tail, i); }
      }
      forall p | 0 < p < |d| ensures !Straddles(a, d, p) {
        if p <= |a| { OccursBeforeJoin(a, d, tail, |a| - p); }
      }
    } else {
      assert OccursAt(s, d, |a|);
      if found + |d| <= |a| {
        OccursInside(a, d, d + tail, found);
        assert OccursAt(a, d, found);
      } else {
        OccursBeforeJoin(a, d, tail, found);
        assert Straddles(a, d, |a| - found);
      }
    }
  }

  // ----- the first occurrence

  /** `t` occurs in `s` at `p` and nowhere before. */
  predicate FirstAt(s: string, t: string, p: int) {
    OccursAt(s, t, p) && forall i :: 0 <= i < p ==> !OccursAt(s, t, i)
  }

  lemma {:induction false} OccursShift(a: string, b: string, t: string, i: nat)
    ensures OccursAt(a + b, t, |a| + i) <==> OccursAt(b, t, i)
  {
    if i + |t| <= |b| {
      assert (a + b)[|a| + i..|a| + i + |t|] == b[i..i + |t|];
    }
  }

  /** A first occurrence that lies in the second part is the first there, and the first part has none. */
  lemma {:induction false} FirstAtSuffix(a: string, b: string, t: string, p: nat)
    requires FirstAt(a + b, t, |a| + p) && t != ""
    ensures FirstAt(b, t, p) && !Occurs(a, t)
  {
    OccursShift(a, b, t, p);
    forall i | 0 <= i < p ensures !OccursAt(b, t, i) { OccursShift(a, b, t, i); }
    forall i | 0 <= i <= |a| ensures !OccursAt(a, t, i) {
      if i + |t| <= |a| { OccursInside(a, t, b, i); }
    }
  }

  lemma {:induction false} FirstAtPrefix(a: string, b: string, t: string, p: nat)
    requires FirstAt(a + b, t, p) && p + |t| <= |a|
    ensures FirstAt(a, t, p)
  {
    OccursInside(a, t, b, p);
    forall i | 0 <= i < p ensures !OccursAt(a, t, i) { OccursInside(a, t, b, i); }
  }

  /** No part of a text without `t` has it. */
  lemma {:induction false} NotOccursParts(a: string, b: string, t: string)
    requires !Occurs(a + b, t)
    ensures !Occurs(a, t) && !Occurs(b, t)
  {
    forall i | 0 <= i <= |a| ensures !OccursAt(a, t, i) {
      if i + |t| <= |a| { OccursInside(a, t, b, i); }
    }
    forall i | 0 <= i <= |b| ensures !OccursAt(b, t, i) { OccursShift(a, b, t, i); }
  }

  lemma {:induction false} OccursLonger(x: string, s: string, y: string, m: string)
    requires Occurs(s, m)
    ensures Occurs(x + s + y, m)
  {
    var i :| 0 <= i <= |s| && OccursAt(s, m, i);
    assert (x + s + y)[|x| + i..|x| + i + |m|] == s[i..i + |m|];
    assert OccursAt(x + s + y, m, |x| + i);
  }

  lemma {:induction false} OccursPart(s: string, lead: string, m: string)
    requires Occurs(s, lead + m)
    ensures Occurs(s, m)
  {
    var i :| 0 <= i <= |s| && OccursAt(s, lead + m, i);
    assert s[i + |lead|..i + |lead| + |m|] == s[i..i + |lead + m|][|lead|..] == m;
    assert OccursAt(s, m, i + |lead|);
  }

  lemma {:induction false} PartNotIn(str: string, kept: string, lead: string, m: string)
    requires kept <= str && !Occurs(str, m)
    ensures !Occurs(kept, lead + m)
  {
    if Occurs(kept, lead + m) {
      OccursPart(kept, lead, m);
      var i :| 0 <= i <= |kept| && OccursAt(kept, m, i);
      assert str == kept + str[|kept|..];
      OccursInside(kept, m, str[|kept|..], i);
    }
  }
}
