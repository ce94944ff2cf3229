/**
  The transpose kernels as loops: the scalar loops of both entry points
  (K = 4 for fp32, K = 8 for int8), the LSX 4x4 fast paths of the fp32
  entry point, and the outer loop over independent planes. Each is proved
  to compute the pure `Pack` / `Unpack` of module Interleave.

  The scalar loops store element by element into an output buffer at the
  offset the advancing output pointer has reached. The LSX loops append
  the sixteen values of each block's four stores to the output sequence.
 */
module Kernels {
  import opened Interleave
  import opened Lsx

  // ---------------------------------------------------------------------
  // One LSX block against four scalar iterations
  // ---------------------------------------------------------------------

  /** The four registers loaded from rows r0..r3 at column j. */
  function PackLoads<T>(rows: seq<seq<T>>, j: nat): Block<T>
    requires |rows| == 4 && Covers(rows, j + 4)
  {
    Block(Vld(rows[0], j), Vld(rows[1], j), Vld(rows[2], j), Vld(rows[3], j))
  }

  /** The four registers loaded from a 4-packed plane at slot j. */
  function UnpackLoads<T>(plane: seq<T>, j: nat): Block<T>
    requires (j + 4) * 4 <= |plane|
  {
    Block(Vld(plane, j * 4), Vld(plane, j * 4 + 4), Vld(plane, j * 4 + 8), Vld(plane, j * 4 + 12))
  }

  /**
    Packing direction: the sixteen values one LSX block stores are the
    values four iterations of the scalar loop write, and so extend the
    packed plane by four slots.
   */
  lemma LsxPackBlock<T>(rows: seq<seq<T>>, j: nat)
    requires |rows| == 4 && Covers(rows, j + 4)
    ensures Stored(Transpose4x4(PackLoads(rows, j)))
         == Column(rows, j) + Column(rows, j + 1) + Column(rows, j + 2) + Column(rows, j + 3)
    ensures Pack(rows, j + 4) == Pack(rows, j) + Stored(Transpose4x4(PackLoads(rows, j)))
  {
    var b := PackLoads(rows, j);
    var t := Transpose4x4(b);
    forall i | 0 <= i < 4
      ensures Lanes(Reg(t, i)) == Column(rows, j + i)
    {
      forall k | 0 <= k < 4
        ensures Lanes(Reg(t, i))[k] == rows[k][j + i]
      {
        assert Lane(Reg(t, i), k) == Lane(Reg(b, k), i);
        assert Lanes(Reg(b, k)) == rows[k][j .. j + 4];
        assert Lanes(Reg(t, i))[k] == Lane(Reg(t, i), k);
        assert Lanes(Reg(b, k))[i] == Lane(Reg(b, k), i);
      }
    }
    assert Lanes(t.v0) == Column(rows, j) by { assert t.v0 == Reg(t, 0); }
    assert Lanes(t.v1) == Column(rows, j + 1) by { assert t.v1 == Reg(t, 1); }
    assert Lanes(t.v2) == Column(rows, j + 2) by { assert t.v2 == Reg(t, 2); }
    assert Lanes(t.v3) == Column(rows, j + 3) by { assert t.v3 == Reg(t, 3); }
    PackStep(rows, j);
    PackStep(rows, j + 1);
    PackStep(rows, j + 2);
    PackStep(rows, j + 3);
  }

  /**
    Unpacking direction: register k of one LSX block holds the four values
    four iterations of the scalar loop append to output row k.
   */
  lemma LsxUnpackBlock<T>(plane: seq<T>, j: nat, k: nat)
    requires (j + 4) * 4 <= |plane| && k < 4
    ensures j * 4 + k + 12 < |plane|
    ensures Lanes(Reg(Transpose4x4(UnpackLoads(plane, j)), k))
         == [plane[j * 4 + k], plane[j * 4 + 4 + k], plane[j * 4 + 8 + k], plane[j * 4 + 12 + k]]
    ensures Unpack(plane, 4, j + 4)[k]
         == Unpack(plane, 4, j)[k] + Lanes(Reg(Transpose4x4(UnpackLoads(plane, j)), k))
  {
    var b := UnpackLoads(plane, j);
    var t := Transpose4x4(b);
    forall i | 0 <= i < 4
      ensures Lanes(Reg(t, k))[i] == plane[j * 4 + 4 * i + k]
    {
      assert Lane(Reg(t, k), i) == Lane(Reg(b, i), k);
      assert Lanes(Reg(b, i)) == plane[j * 4 + 4 * i .. j * 4 + 4 * i + 4];
      assert Lanes(Reg(t, k))[i] == Lane(Reg(t, k), i);
      assert Lanes(Reg(b, i))[k] == Lane(Reg(b, i), k);
    }
    UnpackStep(plane, 4, j, k);
    UnpackStep(plane, 4, j + 1, k);
    UnpackStep(plane, 4, j + 2, k);
    UnpackStep(plane, 4, j + 3, k);
  }

  // ---------------------------------------------------------------------
  // 1 -> K: interleave K rows into one packed plane
  // ---------------------------------------------------------------------

  /**
    The scalar packing loop with its stores made explicit: the output row
    is a buffer of n*K elements and iteration j writes outptr[j*K+k] for
    every k < K, in order.
   */
  method PackRows<T>(rows: seq<seq<T>>, n: nat) returns (out: seq<T>)
    requires |rows| > 0 && Covers(rows, n)
    ensures out == Pack(rows, n)
  {
    var K := |rows|;
    if n == 0 {
      return [];
    }
    var v := rows[0][0];
    var buf := new T[n * K](_ => v);
    var j, base := 0, 0;
    while j < n
      invariant j <= n && base == j * K
      invariant base <= buf.Length
      invariant buf[..base] == Pack(rows, j)
    {
      MulLeq(j + 1, n, K);
      assert base + K == (j + 1) * K <= buf.Length;
      var col := Column(rows, j);
      var k := 0;
      while k < K
        invariant k <= K
        invariant buf[..base + k] == Pack(rows, j) + col[..k]
      {
        buf[base + k] := rows[k][j];
        assert buf[..base + k + 1] == buf[..base + k] + [col[k]];
        assert col[..k + 1] == col[..k] + [col[k]];
        k := k + 1;
      }
      PackStep(rows, j);
      assert col[..K] == col;
      j, base := j + 1, base + K;
    }
    out := buf[..];
    assert buf[..] == buf[..n * K];
  }

  /**
    The fp32 packing loop with the LSX fast path: whole 4x4 blocks while
    four columns remain, then the scalar loop for the last n % 4 columns.
   */
  method PackRowsLsx<T>(rows: seq<seq<T>>, n: nat) returns (out: seq<T>)
    requires |rows| == 4 && Covers(rows, n)
    ensures out == Pack(rows, n)
  {
    out := [];
    var j := 0;
    while j + 3 < n
      invariant j <= n
      invariant out == Pack(rows, j)
    {
      LsxPackBlock(rows, j);
      out := out + Stored(Transpose4x4(PackLoads(rows, j)));
      j := j + 4;
    }
    while j < n
      invariant j <= n
      invariant out == Pack(rows, j)
    {
      PackStep(rows, j);
      out := out + Column(rows, j);
      j := j + 1;
    }
  }

  // ---------------------------------------------------------------------
  // K -> 1: de-interleave one packed plane into K rows
  // ---------------------------------------------------------------------

  /** Slot j of a plane packed K-wide: the K values r0[0..K-1] after j advances. */
  function Slot<T>(plane: seq<T>, K: nat, j: nat): (s: seq<T>)
    requires K > 0 && (j + 1) * K <= |plane|
    ensures |s| == K
  {
    plane[j * K .. j * K + K]
  }

  /** K empty output rows. */
  function EmptyRows<T>(K: nat): seq<seq<T>>
  {
    seq(K, _ => [])
  }

  /**
    The scalar unpacking loop with its stores made explicit: the K output
    rows are a K-by-n buffer and iteration j writes outptr_k[j] = r0[k]
    for every k < K, in order.
   */
  method UnpackRow<T>(plane: seq<T>, K: nat, n: nat) returns (outs: seq<seq<T>>)
    requires K > 0 && n * K <= |plane|
    ensures outs == Unpack(plane, K, n)
  {
    if n == 0 {
      outs := EmptyRows(K);
      return;
    }
    ghost var u := Unpack(plane, K, n);
    var v := plane[0];
    var buf := new T[K, n]((_, _) => v);
    var j, base := 0, 0;
    while j < n
      invariant j <= n && base == j * K
      invariant forall r, i :: 0 <= r < K && 0 <= i < j ==> buf[r, i] == u[r][i]
    {
      MulLeq(j + 1, n, K);
      var k := 0;
      while k < K
        invariant k <= K
        invariant forall r, i :: 0 <= r < K && 0 <= i < j ==> buf[r, i] == u[r][i]
        invariant forall r :: 0 <= r < k ==> buf[r, j] == u[r][j]
      {
        UnpackAt(plane, K, n, k, j);
        buf[k, j] := plane[base + k];
        k := k + 1;
      }
      j, base := j + 1, base + K;
    }
    outs := seq(K, r requires 0 <= r < K reads buf => seq(n, i requires 0 <= i < n reads buf => buf[r, i]));
    forall r | 0 <= r < K
      ensures outs[r] == u[r]
    {
    }
  }

  /**
    The fp32 unpacking loop with the LSX fast path: whole 4x4 blocks while
    four slots remain, then the scalar loop for the last n % 4 slots.
   */
  method UnpackRowLsx<T>(plane: seq<T>, n: nat) returns (outs: seq<seq<T>>)
    requires n * 4 <= |plane|
    ensures outs == Unpack(plane, 4, n)
  {
    outs := EmptyRows(4);
    var j := 0;
    while j + 3 < n
      invariant j <= n
      invariant outs == Unpack(plane, 4, j)
    {
      var t := Transpose4x4(UnpackLoads(plane, j));
      var next := [outs[0] + Lanes(t.v0), outs[1] + Lanes(t.v1), outs[2] + Lanes(t.v2), outs[3] + Lanes(t.v3)];
      forall k | 0 <= k < 4
        ensures next[k] == Unpack(plane, 4, j + 4)[k]
      {
        LsxUnpackBlock(plane, j, k);
        assert Reg(t, 0) == t.v0 && Reg(t, 1) == t.v1 && Reg(t, 2) == t.v2 && Reg(t, 3) == t.v3;
      }
      outs := next;
      j := j + 4;
    }
    while j < n
      invariant j <= n
      invariant outs == Unpack(plane, 4, j)
    {
      var s := Slot(plane, 4, j);
      var next := seq(4, k requires 0 <= k < 4 => outs[k] + [s[k]]);
      forall k | 0 <= k < 4
        ensures next[k] == Unpack(plane, 4, j + 1)[k]
      {
        UnpackStep(plane, 4, j, k);
      }
      outs := next;
      j := j + 1;
    }
  }

  // ---------------------------------------------------------------------
  // The outer loop over independent planes
  // ---------------------------------------------------------------------

  /**
    The outer packing loop over output planes i < m (rows for dims 2,
    channels for dims 3/4). The source runs it as a parallel for; the
    iterations read disjoint groups and write disjoint planes, so running
    them in order is equivalent. `lsx` selects the fast path, which exists
    only for K = 4.
   */
  method PackAllPlanes<T>(src: seq<seq<T>>, K: nat, m: nat, n: nat, lsx: bool) returns (dst: seq<seq<T>>)
    requires K > 0 && |src| == m * K && Uniform(src, n)
    ensures dst == PackPlanes(src, K, m, n)
  {
    dst := [];
    var i := 0;
    while i < m
      invariant i <= m
      invariant dst == PackPlanes(src, K, m, n)[..i]
    {
      GroupInRange(src, K, m, n, i);
      var plane;
      if lsx && K == 4 {
        plane := PackRowsLsx(Group(src, K, i), n);
      } else {
        plane := PackRows(Group(src, K, i), n);
      }
      dst := dst + [plane];
      i := i + 1;
    }
  }

  /** The outer unpacking loop over input planes; see PackAllPlanes. */
  method UnpackAllPlanes<T>(src: seq<seq<T>>, K: nat, n: nat, lsx: bool) returns (dst: seq<seq<T>>)
    requires K > 0 && Uniform(src, n * K)
    ensures dst == UnpackPlanes(src, K, n)
  {
    dst := [];
    var i := 0;
    while i < |src|
      invariant i <= |src|
      invariant dst == UnpackPlanes(src, K, n)[..i * K]
    {
      UnpackPlanesGroup(src, K, n, i);
      var rows;
      if lsx && K == 4 {
        rows := UnpackRowLsx(src[i], n);
      } else {
        rows := UnpackRow(src[i], K, n);
      }
      var u := UnpackPlanes(src, K, n);
      assert u[..i * K + K] == u[..i * K] + u[i * K .. i * K + K];
      dst := dst + rows;
      assert (i + 1) * K == i * K + K;
      i := i + 1;
    }
  }
}
