/** Byte-pair encoding as the converter runs it to recover a tokenizer's merges: `QwenModel.bpe` and the loop
    of `_set_vocab_qwen`. */
module Bpe {
  import opened Wrappers

  type Token = seq<bv8>

  // ----- the specification of the merge loop

  /** The rank of the pair at `i`, none when the joined bytes are not in the vocabulary. */
  function RankAt(ranks: map<Token, int>, parts: seq<Token>, i: nat): Option<int>
    requires i + 1 < |parts|
  {
    var joined := parts[i] + parts[i + 1];
    if joined in ranks then Some(ranks[joined]) else None
  }

  /** Pair `i` is the leftmost one of smallest rank. */
  ghost predicate Leftmost(ranks: map<Token, int>, parts: seq<Token>, i: nat) {
    && i + 1 < |parts|
    && RankAt(ranks, parts, i).Some?
    && (forall j: nat | j + 1 < |parts| && RankAt(ranks, parts, j).Some? ::
          RankAt(ranks, parts, i).value <= RankAt(ranks, parts, j).value)
    && (forall j: nat | j < i && RankAt(ranks, parts, j).Some? ::
          RankAt(ranks, parts, i).value < RankAt(ranks, parts, j).value)
  }

  ghost predicate NoPair(ranks: map<Token, int>, parts: seq<Token>) {
    forall j: nat | j + 1 < |parts| :: RankAt(ranks, parts, j).None?
  }

  /** The pair found among the first `n`, scanning left to right and replacing only on a smaller rank. */
  function Best(ranks: map<Token, int>, parts: seq<Token>, n: nat): (best: Option<nat>)
    requires n == 0 || n < |parts|
    ensures best.Some? ==> best.value < n && RankAt(ranks, parts, best.value).Some?
    ensures best.None? ==> forall j: nat | j < n :: RankAt(ranks, parts, j).None?
    ensures best.Some? ==> forall j: nat | j < n && RankAt(ranks, parts, j).Some? ::
              RankAt(ranks, parts, best.value).value <= RankAt(ranks, parts, j).value
    ensures best.Some? ==> forall j: nat | j < best.value && RankAt(ranks, parts, j).Some? ::
              RankAt(ranks, parts, best.value).value < RankAt(ranks, parts, j).value
  {
    if n == 0 then None
    else
      var before := Best(ranks, parts, n - 1);
      var rank := RankAt(ranks, parts, n - 1);
      if rank.Some? && (before.None? || rank.value < RankAt(ranks, parts, before.value).value) then Some(n - 1) else before
  }

  function Pairs(parts: seq<Token>): (n: nat) {
    if parts == [] then 0 else |parts| - 1
  }

  /** The loop ends: no pair is known, or the smallest rank is not below the limit. */
  predicate Stops(ranks: map<Token, int>, parts: seq<Token>, limit: Option<int>) {
    var best := Best(ranks, parts, Pairs(parts));
    best.None? || (limit.Some? && RankAt(ranks, parts, best.value).value >= limit.value)
  }

  function Merged(parts: seq<Token>, i: nat): seq<Token>
    requires i + 1 < |parts|
  {
    parts[..i] + [parts[i] + parts[i + 1]] + parts[i + 2..]
  }

  function Run(ranks: map<Token, int>, parts: seq<Token>, limit: Option<int>): seq<Token>
    decreases |parts|
  {
    if Stops(ranks, parts, limit) then parts
    else Run(ranks, Merged(parts, Best(ranks, parts, Pairs(parts)).value), limit)
  }

  function Singles(token: Token): seq<Token> {
    seq(|token|, i requires 0 <= i < |token| => [token[i]])
  }

  function Encode(ranks: map<Token, int>, token: Token, limit: Option<int>): seq<Token> {
    Run(ranks, Singles(token), limit)
  }

  // ----- the loop itself

  /** The inner loop. */
  method LowestPair(ranks: map<Token, int>, parts: seq<Token>) returns (minIdx: Option<nat>, minRank: Option<int>)
    ensures minIdx == Best(ranks, parts, Pairs(parts)) && (minIdx.Some? ==> minIdx.value < Pairs(parts))
    ensures minRank == if minIdx.Some? then RankAt(ranks, parts, minIdx.value) else None
  {
    minIdx, minRank := None, None;
    for i := 0 to Pairs(parts)
      invariant minIdx == Best(ranks, parts, i)
      invariant minRank == if minIdx.Some? then RankAt(ranks, parts, minIdx.value) else None
    {
      var rank := RankAt(ranks, parts, i);
      if rank.Some? && (minRank.None? || rank.value < minRank.value) {
        minIdx, minRank := Some(i), rank;
      }
    }
  }

  method Bpe(ranks: map<Token, int>, token: Token, limit: Option<int>) returns (parts: seq<Token>)
    ensures parts == Encode(ranks, token, limit)
  {
    parts := Singles(token);
    while true
      invariant Run(ranks, parts, limit) == Encode(ranks, token, limit)
      decreases |parts|
    {
      var minIdx, minRank := LowestPair(ranks, parts);
      if minRank.None? || (limit.Some? && minRank.value >= limit.value) {
        break;
      }
      parts := Merged(parts, minIdx.value);
    }
  }

  // ----- what one merge keeps

  function Concat(parts: seq<Token>): Token {
    if parts == [] then [] else parts[0] + Concat(parts[1..])
  }

  lemma {:induction false} ConcatSplit(a: seq<Token>, b: seq<Token>)
    ensures Concat(a + b) == Concat(a) + Concat(b)
  {
    if a == [] {
      assert a + b == b;
    } else {
      ConcatSplit(a[1..], b);
      assert (a + b)[1..] == a[1..] + b;
    }
  }

  lemma {:induction false} MergedParts(parts: seq<Token>, i: nat)
    requires i + 1 < |parts|
    ensures parts == parts[..i] + ([parts[i], parts[i + 1]] + parts[i + 2..])
    ensures Merged(parts, i) == parts[..i] + ([parts[i] + parts[i + 1]] + parts[i + 2..])
  {
  }

  lemma {:induction false} MergedConcat(parts: seq<Token>, i: nat)
    requires i + 1 < |parts|
    ensures Concat(Merged(parts, i)) == Concat(parts)
  {
    MergedParts(parts, i);
    var pair, one, after := [parts[i], parts[i + 1]], [parts[i] + parts[i + 1]], parts[i + 2..];
    ConcatSplit(parts[..i], pair + after);
    ConcatSplit(parts[..i], one + after);
    ConcatSplit(pair, after);
    ConcatSplit(one, after);
    PairConcat(parts[i], parts[i + 1]);
  }

  lemma {:induction false} PairConcat(p: Token, q: Token)
    ensures Concat([p, q]) == p + q && Concat([p + q]) == p + q
  {
    assert [p, q][1..] == [q] && [q][1..] == [] && [p + q][1..] == [];
    assert Concat([q]) == q + Concat([]);
  }

  /** The parts always spell the same bytes. */
  lemma {:induction false} RunKeepsBytes(ranks: map<Token, int>, parts: seq<Token>, limit: Option<int>)
    ensures Concat(Run(ranks, parts, limit)) == Concat(parts)
    decreases |parts|
  {
    if !Stops(ranks, parts, limit) {
      var i := Best(ranks, parts, Pairs(parts)).value;
      MergedConcat(parts, i);
      RunKeepsBytes(ranks, Merged(parts, i), limit);
    }
  }

  lemma {:induction false} SinglesConcat(token: Token)
    ensures Concat(Singles(token)) == token
  {
    if token != [] {
      SinglesConcat(token[1..]);
      assert Singles(token)[1..] == Singles(token[1..]);
      assert token == [token[0]] + token[1..];
    }
  }

  /** A single byte, or a vocabulary entry of rank below the limit. */
  predicate Known(ranks: map<Token, int>, limit: Option<int>, part: Token) {
    |part| == 1 || (part in ranks && (limit.Some? ==> ranks[part] < limit.value))
  }

  lemma {:induction false} RunKnown(ranks: map<Token, int>, parts: seq<Token>, limit: Option<int>)
    requires forall p | p in parts :: Known(ranks, limit, p)
    ensures forall p | p in Run(ranks, parts, limit) :: Known(ranks, limit, p)
    decreases |parts|
  {
    if !Stops(ranks, parts, limit) {
      var i := Best(ranks, parts, Pairs(parts)).value;
      RunKnown(ranks, Merged(parts, i), limit);
    }
  }

  lemma {:induction false} RunStops(ranks: map<Token, int>, parts: seq<Token>, limit: Option<int>)
    ensures Stops(ranks, Run(ranks, parts, limit), limit)
    decreases |parts|
  {
    if !Stops(ranks, parts, limit) {
      RunStops(ranks, Merged(parts, Best(ranks, parts, Pairs(parts)).value), limit);
    }
  }

  /** What the encoding is: the token's bytes cut into known parts, no two neighbours of which could still be
      joined under the limit. */
  lemma {:induction false} EncodeMeans(ranks: map<Token, int>, token: Token, limit: Option<int>)
    ensures var parts := Encode(ranks, token, limit);
            && Concat(parts) == token
            && (forall p | p in parts :: p != [] && Known(ranks, limit, p))
            && (forall i: nat | i + 1 < |parts| && RankAt(ranks, parts, i).Some? ::
                  limit.Some? && RankAt(ranks, parts, i).value >= limit.value)
  {
    RunKeepsBytes(ranks, Singles(token), limit);
    SinglesConcat(token);
    RunKnown(ranks, Singles(token), limit);
    RunNonEmpty(ranks, Singles(token), limit);
    RunStops(ranks, Singles(token), limit);
  }

  ghost predicate NonEmpty(parts: seq<Token>) {
    forall p | p in parts :: p != []
  }

  lemma {:induction false} MergedNonEmpty(parts: seq<Token>, i: nat)
    requires NonEmpty(parts) && i + 1 < |parts|
    ensures NonEmpty(Merged(parts, i))
  {
    forall p | p in Merged(parts, i) ensures p != [] {
      if p !in parts {
        assert p == parts[i] + parts[i + 1] && parts[i] in parts;
      }
    }
  }

  lemma {:induction false} RunNonEmpty(ranks: map<Token, int>, parts: seq<Token>, limit: Option<int>)
    requires NonEmpty(parts)
    ensures NonEmpty(Run(ranks, parts, limit))
    decreases |parts|
  {
    if !Stops(ranks, parts, limit) {
      MergedNonEmpty(parts, Best(ranks, parts, Pairs(parts)).value);
      RunNonEmpty(ranks, Merged(parts, Best(ranks, parts, Pairs(parts)).value), limit);
    }
  }

  // ----- a larger limit continues the run

  predicate AtMost(a: Option<int>, b: Option<int>) {
    b.None? || (a.Some? && a.value <= b.value)
  }

  /** The run with a larger limit starts with the run of the smaller one. */
  lemma {:induction false} LimitsContinue(ranks: map<Token, int>, parts: seq<Token>, low: Option<int>, high: Option<int>)
    requires AtMost(low, high)
    ensures Run(ranks, parts, high) == Run(ranks, Run(ranks, parts, low), high)
    decreases |parts|
  {
    if !Stops(ranks, parts, low) {
      LimitsContinue(ranks, Merged(parts, Best(ranks, parts, Pairs(parts)).value), low, high);
    }
  }

  // ----- locality

  /** Byte position `at` is where a part ends or begins. */
  ghost predicate Boundary(parts: seq<Token>, at: nat) {
    exists k: nat :: BoundaryAt(parts, at, k)
  }

  ghost predicate BoundaryAt(parts: seq<Token>, at: nat, k: nat) {
    k <= |parts| && |Concat(parts[..k])| == at
  }

  lemma {:induction false} LeftmostIsBest(ranks: map<Token, int>, parts: seq<Token>, i: nat)
    requires Leftmost(ranks, parts, i)
    ensures Best(ranks, parts, Pairs(parts)) == Some(i)
  {
    var best := Best(ranks, parts, Pairs(parts));
    assert RankAt(ranks, parts, i).Some?;
    assert best.Some?;
    var b := best.value;
    assert RankAt(ranks, parts, b).Some?;
  }

  lemma {:induction false} BestIsLeftmost(ranks: map<Token, int>, parts: seq<Token>)
    ensures var best := Best(ranks, parts, Pairs(parts));
            if best.Some? then Leftmost(ranks, parts, best.value) else NoPair(ranks, parts)
  {
  }

  lemma {:induction false} RankInLeft(ranks: map<Token, int>, l: seq<Token>, r: seq<Token>, j: nat)
    requires j + 1 < |l|
    ensures RankAt(ranks, l + r, j) == RankAt(ranks, l, j)
  {
    assert (l + r)[j] == l[j] && (l + r)[j + 1] == l[j + 1];
  }

  lemma {:induction false} RankInRight(ranks: map<Token, int>, l: seq<Token>, r: seq<Token>, j: nat)
    requires j + 1 < |r|
    ensures RankAt(ranks, l + r, |l| + j) == RankAt(ranks, r, j)
  {
    assert (l + r)[|l| + j] == r[j] && (l + r)[|l| + j + 1] == r[j + 1];
  }

  /** When the joined list stops, so do both halves. */
  lemma {:induction false} StopsInParts(ranks: map<Token, int>, l: seq<Token>, r: seq<Token>, limit: Option<int>)
    requires Stops(ranks, l + r, limit)
    ensures Stops(ranks, l, limit) && Stops(ranks, r, limit)
  {
    BestIsLeftmost(ranks, l + r);
    var bl, br := Best(ranks, l, Pairs(l)), Best(ranks, r, Pairs(r));
    if bl.Some? { RankInLeft(ranks, l, r, bl.value); assert RankAt(ranks, l + r, bl.value).Some?; }
    if br.Some? { RankInRight(ranks, l, r, br.value); assert RankAt(ranks, l + r, |l| + br.value).Some?; }
  }

  lemma {:induction false} BestInLeft(ranks: map<Token, int>, l: seq<Token>, r: seq<Token>, i: nat)
    requires Leftmost(ranks, l + r, i) && i + 1 < |l|
    ensures Best(ranks, l, Pairs(l)) == Some(i) && RankAt(ranks, l, i) == RankAt(ranks, l + r, i)
    ensures Merged(l + r, i) == Merged(l, i) + r
  {
    RankInLeft(ranks, l, r, i);
    forall j: nat | j + 1 < |l| ensures RankAt(ranks, l + r, j) == RankAt(ranks, l, j) { RankInLeft(ranks, l, r, j); }
    assert Leftmost(ranks, l, i);
    LeftmostIsBest(ranks, l, i);
  }

  lemma {:induction false} BestInRight(ranks: map<Token, int>, l: seq<Token>, r: seq<Token>, i: nat)
    requires Leftmost(ranks, l + r, i) && i >= |l|
    ensures Best(ranks, r, Pairs(r)) == Some(i - |l|) && RankAt(ranks, r, i - |l|) == RankAt(ranks, l + r, i)
    ensures Merged(l + r, i) == l + Merged(r, i - |l|)
  {
    RankInRight(ranks, l, r, i - |l|);
    forall j: nat | j + 1 < |r| ensures RankAt(ranks, l + r, |l| + j) == RankAt(ranks, r, j) { RankInRight(ranks, l, r, j); }
    assert Leftmost(ranks, r, i - |l|);
    LeftmostIsBest(ranks, r, i - |l|);
  }

  lemma {:induction false} ConcatGrows(parts: seq<Token>, k: nat, m: nat)
    requires NonEmpty(parts) && k < m <= |parts|
    ensures |Concat(parts[..k])| < |Concat(parts[..m])|
  {
    assert parts[..m] == parts[..k] + parts[k..m];
    ConcatSplit(parts[..k], parts[k..m]);
    assert parts[k] in parts;
    assert Concat(parts[k..m]) == parts[k] + Concat(parts[k..m][1..]);
  }

  /** A boundary after a merge was one before it. */
  lemma {:induction false} BoundaryBefore(parts: seq<Token>, i: nat, at: nat)
    requires i + 1 < |parts| && Boundary(Merged(parts, i), at)
    ensures exists k: nat :: k != i + 1 && BoundaryAt(parts, at, k)
  {
    var k: nat :| BoundaryAt(Merged(parts, i), at, k);
    if k <= i {
      assert Merged(parts, i)[..k] == parts[..k];
      assert BoundaryAt(parts, at, k);
    } else {
      assert Merged(parts, i)[..k] == Merged(parts[..k + 1], i);
      MergedConcat(parts[..k + 1], i);
      assert BoundaryAt(parts, at, k + 1);
    }
  }

  /** Boundaries only disappear. */
  lemma {:induction false} BoundaryFromStart(ranks: map<Token, int>, parts: seq<Token>, limit: Option<int>, at: nat)
    requires Boundary(Run(ranks, parts, limit), at)
    ensures Boundary(parts, at)
    decreases |parts|
  {
    if !Stops(ranks, parts, limit) {
      var i := Best(ranks, parts, Pairs(parts)).value;
      BoundaryFromStart(ranks, Merged(parts, i), limit, at);
      BoundaryBefore(parts, i, at);
    }
  }

  /** A merge across the join removes it for good. */
  lemma {:induction false} JoinLost(ranks: map<Token, int>, l: seq<Token>, r: seq<Token>, limit: Option<int>)
    requires NonEmpty(l + r) && l != [] && r != []
    ensures !Boundary(Run(ranks, Merged(l + r, |l| - 1), limit), |Concat(l)|)
  {
    var at := |Concat(l)|;
    if Boundary(Run(ranks, Merged(l + r, |l| - 1), limit), at) {
      BoundaryFromStart(ranks, Merged(l + r, |l| - 1), limit, at);
      BoundaryBefore(l + r, |l| - 1, at);
      var k: nat :| k != |l| && BoundaryAt(l + r, at, k);
      assert (l + r)[..|l|] == l;
      if k < |l| { ConcatGrows(l + r, k, |l|); } else { ConcatGrows(l + r, |l|, k); }
      assert false;
    }
  }

  lemma {:induction false} RunNext(ranks: map<Token, int>, parts: seq<Token>, i: nat, limit: Option<int>)
    requires Best(ranks, parts, Pairs(parts)) == Some(i) && !Stops(ranks, parts, limit)
    ensures Run(ranks, parts, limit) == Run(ranks, Merged(parts, i), limit)
  {
  }

  lemma {:induction false} StopsByRank(ranks: map<Token, int>, parts: seq<Token>, i: nat, limit: Option<int>)
    requires Best(ranks, parts, Pairs(parts)) == Some(i)
    ensures Stops(ranks, parts, limit) <==> limit.Some? && RankAt(ranks, parts, i).value >= limit.value
  {
  }

  /** A merge inside the left half of a list is the left half's own next merge. */
  lemma {:induction false} StepInLeft(ranks: map<Token, int>, l: seq<Token>, r: seq<Token>, i: nat, limit: Option<int>)
    requires !Stops(ranks, l + r, limit) && Leftmost(ranks, l + r, i) && i + 1 < |l|
    ensures Run(ranks, l + r, limit) == Run(ranks, Merged(l, i) + r, limit) && Merged(l + r, i) == Merged(l, i) + r
    ensures Run(ranks, l, limit) == Run(ranks, Merged(l, i), limit)
  {
    LeftmostIsBest(ranks, l + r, i);
    BestInLeft(ranks, l, r, i);
    StopsByRank(ranks, l + r, i, limit);
    StopsByRank(ranks, l, i, limit);
    RunNext(ranks, l + r, i, limit);
    RunNext(ranks, l, i, limit);
  }

  lemma {:induction false} StepInRight(ranks: map<Token, int>, l: seq<Token>, r: seq<Token>, i: nat, limit: Option<int>)
    requires !Stops(ranks, l + r, limit) && Leftmost(ranks, l + r, i) && i >= |l|
    ensures i - |l| + 1 < |r|
    ensures Run(ranks, l + r, limit) == Run(ranks, l + Merged(r, i - |l|), limit) && Merged(l + r, i) == l + Merged(r, i - |l|)
    ensures Run(ranks, r, limit) == Run(ranks, Merged(r, i - |l|), limit)
  {
    LeftmostIsBest(ranks, l + r, i);
    BestInRight(ranks, l, r, i);
    StopsByRank(ranks, l + r, i, limit);
    StopsByRank(ranks, r, i - |l|, limit);
    RunNext(ranks, l + r, i, limit);
    RunNext(ranks, r, i - |l|, limit);
  }

  lemma {:induction false} NextMerge(ranks: map<Token, int>, parts: seq<Token>, limit: Option<int>) returns (i: nat)
    requires !Stops(ranks, parts, limit)
    ensures Leftmost(ranks, parts, i) && Run(ranks, parts, limit) == Run(ranks, Merged(parts, i), limit)
  {
    i := Best(ranks, parts, Pairs(parts)).value;
    BestIsLeftmost(ranks, parts);
  }

  /** The run splits where a boundary survives. */
  lemma {:induction false} RunSplits(ranks: map<Token, int>, l: seq<Token>, r: seq<Token>, limit: Option<int>)
    requires NonEmpty(l + r) && Boundary(Run(ranks, l + r, limit), |Concat(l)|)
    ensures Run(ranks, l + r, limit) == Run(ranks, l, limit) + Run(ranks, r, limit)
    decreases |l| + |r|
  {
    if Stops(ranks, l + r, limit) {
      StopsInParts(ranks, l, r, limit);
    } else {
      var i := NextMerge(ranks, l + r, limit);
      MergedNonEmpty(l + r, i);
      if i + 1 < |l| {
        StepInLeft(ranks, l, r, i, limit);
        MergedConcat(l, i);
        RunSplits(ranks, Merged(l, i), r, limit);
      } else if i >= |l| {
        StepInRight(ranks, l, r, i, limit);
        RunSplits(ranks, l, Merged(r, i - |l|), limit);
      } else {
        JoinLost(ranks, l, r, limit);
        assert false;
      }
    }
  }

  /** Encoding is local exactly at the boundaries that survive. */
  lemma {:induction false} EncodeSplitsExactly(ranks: map<Token, int>, token: Token, limit: Option<int>, at: nat)
    requires at <= |token|
    ensures Boundary(Encode(ranks, token, limit), at) <==>
            Encode(ranks, token, limit) == Encode(ranks, token[..at], limit) + Encode(ranks, token[at..], limit)
  {
    var l, r := Singles(token[..at]), Singles(token[at..]);
    assert Singles(token) == l + r;
    SinglesConcat(token[..at]);
    if Boundary(Encode(ranks, token, limit), at) {
      RunSplits(ranks, l, r, limit);
    }
    if Encode(ranks, token, limit) == Encode(ranks, token[..at], limit) + Encode(ranks, token[at..], limit) {
      var left := Encode(ranks, token[..at], limit);
      EncodeMeans(ranks, token[..at], limit);
      assert Encode(ranks, token, limit)[..|left|] == left;
      assert BoundaryAt(Encode(ranks, token, limit), at, |left|);
    }
  }

  // ----- recovering the merges

  datatype Recovered = Merges(pairs: seq<(Token, Token)>) | AssertionFailed

  function Recover(ranks: map<Token, int>, order: seq<Token>): Recovered
    requires forall t | t in order :: t in ranks
  {
    if order == [] then Merges([])
    else
      var before, token := Recover(ranks, order[..|order| - 1]), order[|order| - 1];
      if before.AssertionFailed? || |token| == 1 then before
      else
        var merged := Encode(ranks, token, Some(ranks[token]));
        if |merged| == 2 then Merges(before.pairs + [(merged[0], merged[1])]) else AssertionFailed
  }

  /** The loop over the vocabulary: every entry of more than one byte must split into exactly two parts. */
  method RecoverMerges(ranks: map<Token, int>, order: seq<Token>) returns (r: Recovered)
    requires forall t | t in order :: t in ranks
    ensures r == Recover(ranks, order)
  {
    var merges: seq<(Token, Token)> := [];
    for i := 0 to |order|
      invariant Recover(ranks, order[..i]) == Merges(merges)
    {
      var token := order[i];
      assert order[..i + 1][..i] == order[..i];
      if |token| != 1 {
        var merged := Bpe(ranks, token, Some(ranks[token]));
        if |merged| != 2 {
          RecoverFails(ranks, order, i + 1);
          return AssertionFailed;
        }
        merges := merges + [(merged[0], merged[1])];
      }
    }
    assert order[..|order|] == order;
    r := Merges(merges);
  }

  /** A failed assertion ends the loop for every longer vocabulary. */
  lemma {:induction false} RecoverFails(ranks: map<Token, int>, order: seq<Token>, n: nat)
    requires forall t | t in order :: t in ranks
    requires n <= |order| && Recover(ranks, order[..n]) == AssertionFailed
    ensures Recover(ranks, order) == AssertionFailed
    decreases |order|
  {
    if n < |order| {
      assert order[..|order| - 1][..n] == order[..n];
      RecoverFails(ranks, order[..|order| - 1], n);
    } else {
      assert order[..n] == order;
    }
  }

  lemma {:induction false} RunOfOne(ranks: map<Token, int>, token: Token, limit: Option<int>)
    ensures Run(ranks, [token], limit) == [token]
  {
  }

  lemma {:induction false} RunOfTwo(ranks: map<Token, int>, p: Token, q: Token, limit: Option<int>)
    requires p + q in ranks && (limit.Some? ==> ranks[p + q] < limit.value)
    ensures Run(ranks, [p, q], limit) == [p + q]
  {
    assert RankAt(ranks, [p, q], 0) == Some(ranks[p + q]);
    assert Merged([p, q], 0) == [p + q];
    RunOfOne(ranks, p + q, limit);
  }

  /** The two parts recovered for a token are smaller entries or single bytes, they spell it, and joining
      them is the last step of its encoding. */
  lemma {:induction false} MergeSound(ranks: map<Token, int>, token: Token)
    requires token in ranks && |Encode(ranks, token, Some(ranks[token]))| == 2
    ensures var m := Encode(ranks, token, Some(ranks[token]));
            && m[0] + m[1] == token && m[0] != [] && m[1] != []
            && Known(ranks, Some(ranks[token]), m[0]) && Known(ranks, Some(ranks[token]), m[1])
            && Encode(ranks, token, None) == [token]
            && Encode(ranks, token, Some(ranks[token] + 1)) == [token]
  {
    var limit := Some(ranks[token]);
    var m := Encode(ranks, token, limit);
    EncodeMeans(ranks, token, limit);
    assert m[0] in m && m[1] in m;
    assert m == [m[0], m[1]];
    PairConcat(m[0], m[1]);
    LimitsContinue(ranks, Singles(token), limit, None);
    LimitsContinue(ranks, Singles(token), limit, Some(ranks[token] + 1));
    RunOfTwo(ranks, m[0], m[1], None);
    RunOfTwo(ranks, m[0], m[1], Some(ranks[token] + 1));
  }

  lemma {:induction false} OnePart(parts: seq<Token>)
    requires |parts| == 1
    ensures Concat(parts) == parts[0] && parts[0] in parts
  {
    assert parts[1..] == [];
  }

  /** Under its own rank a token never comes out whole. */
  lemma {:induction false} NeverWhole(ranks: map<Token, int>, token: Token)
    requires token in ranks && |token| > 1
    ensures |Encode(ranks, token, Some(ranks[token]))| >= 2
  {
    var m := Encode(ranks, token, Some(ranks[token]));
    EncodeMeans(ranks, token, Some(ranks[token]));
    if |m| == 1 {
      OnePart(m);
      assert false;
    }
  }

  ghost predicate OwnRank(ranks: map<Token, int>, token: Token) {
    token in ranks && forall t | t in ranks && ranks[t] == ranks[token] :: t == token
  }

  /** With distinct ranks, the assertion that a token splits in two holds exactly when merges of rank up to
      its own build it. */
  lemma {:induction false} SplitsInTwoExactly(ranks: map<Token, int>, token: Token)
    requires |token| > 1 && OwnRank(ranks, token)
    ensures |Encode(ranks, token, Some(ranks[token]))| == 2 <==> Encode(ranks, token, Some(ranks[token] + 1)) == [token]
  {
    var low, high := Some(ranks[token]), Some(ranks[token] + 1);
    var m := Encode(ranks, token, low);
    if |m| == 2 {
      MergeSound(ranks, token);
    }
    if Encode(ranks, token, high) == [token] {
      NeverWhole(ranks, token);
      EncodeMeans(ranks, token, low);
      LimitsContinue(ranks, Singles(token), low, high);
      assert !Stops(ranks, m, high);
      var i := Best(ranks, m, Pairs(m)).value;
      assert ranks[m[i] + m[i + 1]] == ranks[token];
      WholePair(m, i);
    }
  }

  /** A pair that spells everything is all there is. */
  lemma {:induction false} WholePair(parts: seq<Token>, i: nat)
    requires NonEmpty(parts) && i + 1 < |parts| && parts[i] + parts[i + 1] == Concat(parts)
    ensures |parts| == 2
  {
    MergedConcat(parts, i);
    MergedNonEmpty(parts, i);
    var m := Merged(parts, i);
    assert m == m[..i] + [m[i]] + m[i + 1..];
    assert m[..|m|] == m && m[..0] == [];
    assert m[..i + 1] == m[..i] + [m[i]];
    ConcatSplit(m[..i], [m[i]]);
    assert Concat([m[i]]) == m[i] + Concat([m[i]][1..]);
    if i > 0 { ConcatGrows(m, 0, i); }
    if i + 1 < |m| { ConcatGrows(m, i + 1, |m|); }
  }

  /** A successful recovery lists, in vocabulary order, a sound pair for every entry of more than one byte. */
  lemma {:induction false} RecoverSound(ranks: map<Token, int>, order: seq<Token>)
    requires (forall t | t in order :: t in ranks) && Recover(ranks, order).Merges?
    ensures Joined(Recover(ranks, order).pairs) == LongTokens(order)
    ensures forall m | m in Recover(ranks, order).pairs :: SoundPair(ranks, m)
    decreases |order|
  {
    if order != [] {
      var token := order[|order| - 1];
      RecoverSound(ranks, order[..|order| - 1]);
      if |token| != 1 {
        MergeSound(ranks, token);
        var before := Recover(ranks, order[..|order| - 1]).pairs;
        var m := Encode(ranks, token, Some(ranks[token]));
        assert SoundPair(ranks, (m[0], m[1]));
        JoinedLast(before, (m[0], m[1]));
      }
    }
  }

  ghost predicate SoundPair(ranks: map<Token, int>, m: (Token, Token)) {
    var token := m.0 + m.1;
    && token in ranks
    && Known(ranks, Some(ranks[token]), m.0) && Known(ranks, Some(ranks[token]), m.1)
    && Encode(ranks, token, None) == [token]
  }

  function Joined(pairs: seq<(Token, Token)>): seq<Token> {
    seq(|pairs|, i requires 0 <= i < |pairs| => pairs[i].0 + pairs[i].1)
  }

  lemma {:induction false} JoinedLast(pairs: seq<(Token, Token)>, m: (Token, Token))
    ensures Joined(pairs + [m]) == Joined(pairs) + [m.0 + m.1]
  {
  }

  function LongTokens(order: seq<Token>): seq<Token> {
    if order == [] then []
    else
      var before, token := LongTokens(order[..|order| - 1]), order[|order| - 1];
      if |token| == 1 then before else before + [token]
  }
}
