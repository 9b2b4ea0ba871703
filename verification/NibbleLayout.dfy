/** The nibble shuffle of MXFP4 blocks: `GptOssModel.transform_nibble_layout` on a tensor of any number of
    16-byte blocks, given as its flat bytes. */
module NibbleLayout {

  type Byte = bv8

  // ----- the operation, expression by expression

  function Each(t: seq<Byte>, f: Byte -> Byte): seq<Byte> {
    seq(|t|, k requires 0 <= k < |t| => f(t[k]))
  }

  function Or(x: seq<Byte>, y: seq<Byte>): seq<Byte>
    requires |x| == |y|
  {
    seq(|x|, k requires 0 <= k < |x| => x[k] | y[k])
  }

  /** Half `h` of every block: `chunk(2, dim=-1)[h]`, flattened. */
  function Chunk(t: seq<Byte>, h: nat): (r: seq<Byte>)
    requires |t| % 16 == 0 && h < 2
    ensures |r| == |t| / 2
  {
    seq(|t| / 2, k requires 0 <= k < |t| / 2 => t[k / 8 * 16 + h * 8 + k % 8])
  }

  /** `stack((x.view(-1, 1), y.view(-1, 1)), dim=2)` flattened. */
  function Interleave(x: seq<Byte>, y: seq<Byte>): seq<Byte>
    requires |x| == |y|
  {
    seq(2 * |x|, k requires 0 <= k < 2 * |x| => if k % 2 == 0 then x[k / 2] else y[k / 2])
  }

  function Low(b: Byte): Byte { b & 0x0F }

  function High(b: Byte): Byte { b >> 4 }

  function KeepHigh(b: Byte): Byte { b & 0xF0 }

  function Raise(b: Byte): Byte { b << 4 }

  function SwapNibbles(b: Byte): Byte { ((b & 0x0F) << 4) | ((b & 0xF0) >> 4) }

  function SwapBack(b: Byte): Byte { ((b & 0xF0) >> 4) | ((b & 0x0F) << 4) }

  function TransformNibbleLayout(t: seq<Byte>): seq<Byte>
    requires |t| % 16 == 0
  {
    var swapped := Each(t, SwapNibbles);
    var a, b := Chunk(swapped, 0), Chunk(swapped, 1);
    var blkA := Interleave(Each(a, KeepHigh), Each(a, Raise));
    var blkB := Interleave(Each(b, High), Each(b, Low));
    Each(Or(blkA, blkB), SwapBack)
  }

  // ----- the two readings

  /** Element `e` of block `n`, elements stored low nibble first in consecutive bytes. */
  function Consecutive(t: seq<Byte>, n: nat, e: nat): Byte
    requires 16 * n + 16 <= |t| && e < 32
  {
    if e % 2 == 0 then Low(t[16 * n + e / 2]) else High(t[16 * n + e / 2])
  }

  /** Element `e` of block `n`, the first sixteen in the low nibbles and the others in the high ones. */
  function Halves(t: seq<Byte>, n: nat, e: nat): Byte
    requires 16 * n + 16 <= |t| && e < 32
  {
    if e < 16 then Low(t[16 * n + e]) else High(t[16 * n + e - 16])
  }

  // ----- bit facts

  lemma {:induction false} Bits(p: Byte, q: Byte)
    ensures var out := SwapBack((SwapNibbles(p) & 0xF0) | (SwapNibbles(q) >> 4)); Low(out) == Low(p) && High(out) == Low(q)
    ensures var out := SwapBack((SwapNibbles(p) << 4) | (SwapNibbles(q) & 0x0F)); Low(out) == High(p) && High(out) == High(q)
  {
  }

  function Join(low: Byte, high: Byte): Byte { (high << 4) | low }

  lemma {:induction false} JoinBits(b: Byte)
    ensures Join(Low(b), High(b)) == b
  {
  }

  lemma {:induction false} JoinedBits(low: Byte, high: Byte)
    requires low < 16 && high < 16
    ensures Low(Join(low, high)) == low && High(Join(low, high)) == high
  {
  }

  lemma {:induction false} NibbleBounds(b: Byte)
    ensures Low(b) < 16 && High(b) < 16
  {
  }

  // ----- what the transform does

  lemma {:induction false} ChunkAt(t: seq<Byte>, h: nat, n: nat, i: nat)
    requires |t| % 16 == 0 && h < 2 && i < 8 && 16 * n + 16 <= |t|
    ensures 8 * n + i < |t| / 2 && Chunk(t, h)[8 * n + i] == t[16 * n + h * 8 + i]
  {
    assert (8 * n + i) / 8 == n && (8 * n + i) % 8 == i;
  }

  lemma {:induction false} InterleaveAt(x: seq<Byte>, y: seq<Byte>, m: nat, s: nat)
    requires |x| == |y| && m < |x| && s < 2
    ensures 2 * m + s < |Interleave(x, y)| && Interleave(x, y)[2 * m + s] == if s == 0 then x[m] else y[m]
  {
    assert (2 * m + s) / 2 == m && (2 * m + s) % 2 == s;
  }

  /** The two bytes a byte of the result is made of. */
  function Mixed(p: Byte, q: Byte, s: nat): Byte {
    var p', q' := SwapNibbles(p), SwapNibbles(q);
    SwapBack(if s == 0 then KeepHigh(p') | High(q') else Raise(p') | Low(q'))
  }

  lemma {:induction false} MixedBits(p: Byte, q: Byte)
    ensures Low(Mixed(p, q, 0)) == Low(p) && High(Mixed(p, q, 0)) == Low(q)
    ensures Low(Mixed(p, q, 1)) == High(p) && High(Mixed(p, q, 1)) == High(q)
  {
    Bits(p, q);
  }

  lemma {:induction false} TransformLength(t: seq<Byte>)
    requires |t| % 16 == 0
    ensures |TransformNibbleLayout(t)| == |t|
  {
  }

  /** Byte `2i + s` of block `n` of the result comes from bytes `i` and `8 + i` of that block. */
  lemma {:induction false} TransformAt(t: seq<Byte>, n: nat, i: nat, s: nat)
    requires |t| % 16 == 0 && 16 * n + 16 <= |t| && i < 8 && s < 2
    ensures |TransformNibbleLayout(t)| == |t|
    ensures TransformNibbleLayout(t)[16 * n + (2 * i + s)] == Mixed(t[16 * n + i], t[16 * n + 8 + i], s)
  {
    var swapped := Each(t, SwapNibbles);
    var m, k := 8 * n + i, 16 * n + (2 * i + s);
    TransformLength(t);
    var a, b := Chunk(swapped, 0), Chunk(swapped, 1);
    ChunkAt(swapped, 0, n, i);
    ChunkAt(swapped, 1, n, i);
    InterleaveAt(Each(a, KeepHigh), Each(a, Raise), m, s);
    InterleaveAt(Each(b, High), Each(b, Low), m, s);
    assert k == 2 * m + s;
    MixedAt(Interleave(Each(a, KeepHigh), Each(a, Raise)), Interleave(Each(b, High), Each(b, Low)), k);
  }

  lemma {:induction false} MixedAt(x: seq<Byte>, y: seq<Byte>, k: nat)
    requires |x| == |y| && k < |x|
    ensures Each(Or(x, y), SwapBack)[k] == SwapBack(x[k] | y[k])
  {
  }

  /** Element by element, reading the result by halves gives what reading the input consecutively gives. */
  lemma {:induction false} LayoutKeepsElements(t: seq<Byte>, n: nat, e: nat)
    requires |t| % 16 == 0 && 16 * n + 16 <= |t| && e < 32
    ensures |TransformNibbleLayout(t)| == |t|
    ensures Halves(TransformNibbleLayout(t), n, e) == Consecutive(t, n, e)
  {
    var j := if e < 16 then e else e - 16;
    var i, s := j / 2, j % 2;
    TransformAt(t, n, i, s);
    MixedBits(t[16 * n + i], t[16 * n + 8 + i]);
    assert e % 2 == s && e / 2 == if e < 16 then i else 8 + i;
  }

  // ----- it loses nothing

  /** The layout change read backwards: byte `i` of a block from its elements `2i` and `2i + 1`. */
  function Restore(u: seq<Byte>): seq<Byte>
    requires |u| % 16 == 0
  {
    seq(|u|, k requires 0 <= k < |u| => Join(Halves(u, k / 16, 2 * (k % 16)), Halves(u, k / 16, 2 * (k % 16) + 1)))
  }

  lemma {:induction false} RestoreAt(u: seq<Byte>, n: nat, i: nat)
    requires |u| % 16 == 0 && 16 * n + 16 <= |u| && i < 16
    ensures Restore(u)[16 * n + i] == Join(Halves(u, n, 2 * i), Halves(u, n, 2 * i + 1))
  {
    assert (16 * n + i) / 16 == n && (16 * n + i) % 16 == i;
  }

  lemma {:induction false} HalvesBounds(u: seq<Byte>, n: nat, e: nat)
    requires 16 * n + 16 <= |u| && e < 32
    ensures Halves(u, n, e) < 16
  {
    if e < 16 { NibbleBounds(u[16 * n + e]); } else { NibbleBounds(u[16 * n + e - 16]); }
  }

  lemma {:induction false} RestoreElements(u: seq<Byte>, n: nat, e: nat)
    requires |u| % 16 == 0 && 16 * n + 16 <= |u| && e < 32
    ensures Consecutive(Restore(u), n, e) == Halves(u, n, e)
  {
    var i := e / 2;
    RestoreAt(u, n, i);
    HalvesBounds(u, n, 2 * i);
    HalvesBounds(u, n, 2 * i + 1);
    JoinedBits(Halves(u, n, 2 * i), Halves(u, n, 2 * i + 1));
  }

  lemma {:induction false} ConsecutivePair(t: seq<Byte>, n: nat, i: nat)
    requires 16 * n + 16 <= |t| && i < 16
    ensures Join(Consecutive(t, n, 2 * i), Consecutive(t, n, 2 * i + 1)) == t[16 * n + i]
  {
    assert (2 * i) / 2 == i && (2 * i) % 2 == 0 && (2 * i + 1) / 2 == i && (2 * i + 1) % 2 == 1;
    JoinBits(t[16 * n + i]);
  }

  lemma {:induction false} RestoreTransform(t: seq<Byte>, n: nat, i: nat)
    requires |t| % 16 == 0 && 16 * n + 16 <= |t| && i < 16
    ensures |TransformNibbleLayout(t)| == |t| && Restore(TransformNibbleLayout(t))[16 * n + i] == t[16 * n + i]
  {
    LayoutKeepsElements(t, n, 2 * i);
    LayoutKeepsElements(t, n, 2 * i + 1);
    RestoreAt(TransformNibbleLayout(t), n, i);
    ConsecutivePair(t, n, i);
  }

  lemma {:induction false} TransformRestore(t: seq<Byte>, n: nat, i: nat)
    requires |t| % 16 == 0 && 16 * n + 16 <= |t| && i < 16
    ensures |TransformNibbleLayout(Restore(t))| == |t| && TransformNibbleLayout(Restore(t))[16 * n + i] == t[16 * n + i]
  {
    LayoutKeepsElements(Restore(t), n, i);
    LayoutKeepsElements(Restore(t), n, i + 16);
    RestoreElements(t, n, i);
    RestoreElements(t, n, i + 16);
    JoinBits(TransformNibbleLayout(Restore(t))[16 * n + i]);
    JoinBits(t[16 * n + i]);
  }

  /** Two byte lists that agree block by block are equal. */
  lemma {:induction false} SameBlocks(x: seq<Byte>, y: seq<Byte>)
    requires |x| == |y| && |x| % 16 == 0
    requires forall n: nat, i: nat | 16 * n + 16 <= |x| && i < 16 :: SameByte(x, y, n, i)
    ensures x == y
  {
    forall k | 0 <= k < |x| ensures x[k] == y[k] {
      assert SameByte(x, y, k / 16, k % 16);
    }
  }

  predicate SameByte(x: seq<Byte>, y: seq<Byte>, n: nat, i: nat)
    requires |x| == |y| && 16 * n + 16 <= |x| && i < 16
  {
    x[16 * n + i] == y[16 * n + i]
  }

  lemma {:induction false} RestoreLength(u: seq<Byte>)
    requires |u| % 16 == 0
    ensures |Restore(u)| == |u|
  {
  }

  /** The transform is a bijection: `Restore` undoes it, and it undoes `Restore`. */
  lemma {:induction false} LayoutBijection(t: seq<Byte>)
    requires |t| % 16 == 0
    ensures |TransformNibbleLayout(t)| == |t| && Restore(TransformNibbleLayout(t)) == t
    ensures TransformNibbleLayout(Restore(t)) == t
  {
    TransformLength(t);
    RestoreLength(t);
    TransformLength(Restore(t));
    var x, y := Restore(TransformNibbleLayout(t)), TransformNibbleLayout(Restore(t));
    RestoreLength(TransformNibbleLayout(t));
    forall n: nat, i: nat | 16 * n + 16 <= |t| && i < 16 ensures SameByte(x, t, n, i) && SameByte(y, t, n, i) {
      RestoreTransform(t, n, i);
      TransformRestore(t, n, i);
    }
    SameBlocks(x, t);
    SameBlocks(y, t);
  }
}
