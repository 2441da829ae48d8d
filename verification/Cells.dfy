/** The operand stack as bytes: cells of 8, lowest byte first. */
module Cells {
  import opened Words

  function AllBytes(stack: seq<u64>): (s: seq<byte>)
    ensures |s| == 8 * |stack|
  {
    if stack == [] then [] else AllBytes(stack[..|stack| - 1]) + LE(8, stack[|stack| - 1])
  }

  /** The byte at offset `o` of the operand stack. */
  function StackByte(stack: seq<u64>, o: nat): byte
    requires o < 8 * |stack|
  {
    AllBytes(stack)[o]
  }

  function StackBytes(stack: seq<u64>, o: nat, w: nat): (s: seq<byte>)
    requires o + w <= 8 * |stack|
    ensures |s| == w
  {
    AllBytes(stack)[o..o + w]
  }

  function CellOf(s: seq<byte>): u64
    requires |s| == 8
  {
    FromLEBound(s);
    Pow256Values();
    FromLE(s)
  }

  /** The `n` cells with these bytes. */
  function FromBytes(s: seq<byte>, n: nat): (r: seq<u64>)
    requires |s| == 8 * n
    ensures |r| == n
    decreases n, s
  {
    if n == 0 then [] else FromBytes(s[..8 * (n - 1)], n - 1) + [CellOf(s[8 * (n - 1)..])]
  }

  /** `s` with the bytes `bs` from offset `o` on. */
  function Splice(s: seq<byte>, o: nat, bs: seq<byte>): (r: seq<byte>)
    requires o + |bs| <= |s|
    ensures |r| == |s|
    decreases |bs|, o
  {
    if bs == [] then s else Splice(s[o := bs[0]], o + 1, bs[1..])
  }

  lemma {:induction false} SpliceParts(s: seq<byte>, o: nat, bs: seq<byte>)
    requires o + |bs| <= |s|
    ensures Splice(s, o, bs) == s[..o] + bs + s[o + |bs|..]
    decreases |bs|
  {
    if bs != [] {
      SpliceParts(s[o := bs[0]], o + 1, bs[1..]);
    }
  }

  /** The operand stack with `bs` from offset `o` on. */
  function SetStackBytes(stack: seq<u64>, o: nat, bs: seq<byte>): (r: seq<u64>)
    requires o + |bs| <= 8 * |stack|
    ensures |r| == |stack|
  {
    FromBytes(Splice(AllBytes(stack), o, bs), |stack|)
  }

  // ----- bytes and cells are two views of the same -----

  lemma {:induction false} BytesOfCells(s: seq<byte>, n: nat)
    requires |s| == 8 * n
    ensures AllBytes(FromBytes(s, n)) == s
    decreases n
  {
    if n > 0 {
      var low, cell := s[..8 * (n - 1)], s[8 * (n - 1)..];
      BytesOfCells(low, n - 1);
      LEofFromLE(cell);
      assert FromBytes(s, n)[..n - 1] == FromBytes(low, n - 1);
      assert s == low + cell;
    }
  }

  lemma {:induction false} CellsOfBytes(stack: seq<u64>)
    ensures FromBytes(AllBytes(stack), |stack|) == stack
    decreases |stack|
  {
    if stack != [] {
      var n := |stack|;
      CellsOfBytes(stack[..n - 1]);
      CellOfLE(stack[n - 1]);
      assert AllBytes(stack)[..8 * (n - 1)] == AllBytes(stack[..n - 1]);
      assert AllBytes(stack)[8 * (n - 1)..] == LE(8, stack[n - 1]);
      assert stack == stack[..n - 1] + [stack[n - 1]];
    }
  }

  lemma {:induction false} CellOfLE(v: u64)
    ensures CellOf(LE(8, v)) == v
  {
    FromLEofLE(8, v);
    Pow256Values();
    ModUnique(v, TWO64, 0, v);
  }

  // ----- reading after writing -----

  lemma BytesAfterSet(stack: seq<u64>, o: nat, bs: seq<byte>)
    requires o + |bs| <= 8 * |stack|
    ensures AllBytes(SetStackBytes(stack, o, bs)) == Splice(AllBytes(stack), o, bs)
  {
    BytesOfCells(Splice(AllBytes(stack), o, bs), |stack|);
  }

  /** Writing bytes changes those bytes and no other. */
  lemma BytesOfSet(stack: seq<u64>, o: nat, bs: seq<byte>, k: nat)
    requires o + |bs| <= 8 * |stack| && k < 8 * |stack|
    ensures StackByte(SetStackBytes(stack, o, bs), k)
            == if o <= k < o + |bs| then bs[k - o] else StackByte(stack, k)
  {
    BytesAfterSet(stack, o, bs);
    SpliceParts(AllBytes(stack), o, bs);
  }

  /** Writing in two parts. */
  lemma SetInParts(stack: seq<u64>, o: nat, a: seq<byte>, b: seq<byte>)
    requires o + |a| + |b| <= 8 * |stack|
    ensures SetStackBytes(stack, o, a + b) == SetStackBytes(SetStackBytes(stack, o, a), o + |a|, b)
  {
    BytesAfterSet(stack, o, a);
    SpliceInParts(AllBytes(stack), o, a, b);
  }

  lemma SpliceInParts(s: seq<byte>, o: nat, a: seq<byte>, b: seq<byte>)
    requires o + |a| + |b| <= |s|
    ensures Splice(Splice(s, o, a), o + |a|, b) == Splice(s, o, a + b)
  {
    var r := Splice(s, o, a);
    SpliceParts(s, o, a);
    SpliceParts(r, o + |a|, b);
    SpliceParts(s, o, a + b);
    assert r[..o + |a|] == s[..o] + a;
    assert r[o + |a| + |b|..] == s[o + |a| + |b|..];
  }

  lemma SetNothing(stack: seq<u64>, o: nat)
    requires o <= 8 * |stack|
    ensures SetStackBytes(stack, o, []) == stack
  {
    CellsOfBytes(stack);
  }

  /** A range of bytes that a write does not touch. */
  lemma BytesElsewhere(stack: seq<u64>, o: nat, bs: seq<byte>, p: nat, w: nat)
    requires o + |bs| <= 8 * |stack| && p + w <= 8 * |stack|
    requires p + w <= o || o + |bs| <= p
    ensures StackBytes(SetStackBytes(stack, o, bs), p, w) == StackBytes(stack, p, w)
  {
    var r, q := StackBytes(SetStackBytes(stack, o, bs), p, w), StackBytes(stack, p, w);
    forall k | 0 <= k < w ensures r[k] == q[k] {
      BytesOfSet(stack, o, bs, p + k);
    }
    assert r == q;
  }

  /** A range of bytes inside a write. */
  lemma BytesWritten(stack: seq<u64>, o: nat, bs: seq<byte>, i: nat, w: nat)
    requires o + |bs| <= 8 * |stack| && i + w <= |bs|
    ensures StackBytes(SetStackBytes(stack, o, bs), o + i, w) == bs[i..i + w]
  {
    var r := StackBytes(SetStackBytes(stack, o, bs), o + i, w);
    forall k | 0 <= k < w ensures r[k] == bs[i + k] {
      BytesOfSet(stack, o, bs, o + i + k);
    }
    assert r == bs[i..i + w];
  }

  /** Writing the bytes that are there. */
  lemma SetSame(stack: seq<u64>, o: nat, bs: seq<byte>)
    requires o + |bs| <= 8 * |stack| && StackBytes(stack, o, |bs|) == bs
    ensures SetStackBytes(stack, o, bs) == stack
  {
    SpliceParts(AllBytes(stack), o, bs);
    assert Splice(AllBytes(stack), o, bs) == AllBytes(stack);
    CellsOfBytes(stack);
  }
}
