/**
  The pure specification of element packing.

  A plane packed K-wide stores, in slot j, the j-th element of K logical
  rows (or channels) side by side: lane k of slot j, i.e. position j*K+k,
  holds element j of row k. `Pack` builds such a plane from K rows,
  `Unpack` takes it apart again, and `PackPlanes` / `UnpackPlanes` apply
  the two to every group of planes of a tensor.
 */
module Interleave {

  // ---------------------------------------------------------------------
  // Slot arithmetic: position j*K+k is slot j, lane k.
  // ---------------------------------------------------------------------

  lemma SlotBound(j: nat, k: nat, K: nat, n: nat)
    requires j < n && k < K
    ensures j * K + k < n * K
  {
    assert (j + 1) * K <= n * K by { MulLeq(j + 1, n, K); }
  }

  lemma MulLeq(a: nat, b: nat, K: nat)
    requires a <= b
    ensures a * K <= b * K
  {
  }

  lemma SlotDecompose(j: nat, k: nat, K: nat)
    requires k < K
    ensures (j * K + k) / K == j
    ensures (j * K + k) % K == k
  {
    var p := j * K + k;
    var q, r := p / K, p % K;
    assert p == q * K + r;
    if q < j {
      MulLeq(q + 1, j, K);
      assert false;
    } else if q > j {
      MulLeq(j + 1, q, K);
      assert false;
    }
  }

  lemma DivBound(p: nat, K: nat, n: nat)
    requires K > 0 && p < n * K
    ensures p / K < n
    ensures p / K * K + p % K == p
  {
    if p / K >= n {
      MulLeq(n, p / K, K);
    }
  }

  // ---------------------------------------------------------------------
  // One group of K rows <-> one packed plane
  // ---------------------------------------------------------------------

  /** Column j of a group of rows: element j of every row, in row order. */
  function Column<T>(rows: seq<seq<T>>, j: nat): seq<T>
    requires forall k :: 0 <= k < |rows| ==> j < |rows[k]|
  {
    seq(|rows|, k requires 0 <= k < |rows| => rows[k][j])
  }

  /** True when every row holds at least n elements. */
  predicate Covers<T>(rows: seq<seq<T>>, n: nat)
  {
    forall k :: 0 <= k < |rows| ==> n <= |rows[k]|
  }

  /** True when every row holds exactly n elements. */
  predicate Uniform<T>(rows: seq<seq<T>>, n: nat)
  {
    forall k :: 0 <= k < |rows| ==> |rows[k]| == n
  }

  /**
    The packed plane made of the first n columns of K = |rows| rows:
    slot p is read from row p % K, column p / K.
   */
  function Pack<T>(rows: seq<seq<T>>, n: nat): (r: seq<T>)
    requires |rows| > 0 && Covers(rows, n)
    ensures |r| == n * |rows|
  {
    var K := |rows|;
    seq(n * K, p requires 0 <= p < n * K => DivBound(p, K, n); rows[p % K][p / K])
  }

  /** The packing formula from the writer's side: lane k of slot j holds rows[k][j]. */
  lemma PackAt<T>(rows: seq<seq<T>>, n: nat, j: nat, k: nat)
    requires |rows| > 0 && Covers(rows, n) && j < n && k < |rows|
    ensures j * |rows| + k < n * |rows|
    ensures Pack(rows, n)[j * |rows| + k] == rows[k][j]
  {
    var K := |rows|;
    SlotBound(j, k, K, n);
    SlotDecompose(j, k, K);
    var p := j * K + k;
    assert p / K == j && p % K == k;
  }

  /** The K rows held in the first n slots of a plane packed K-wide. */
  function Unpack<T>(plane: seq<T>, K: nat, n: nat): (rows: seq<seq<T>>)
    requires K > 0 && n * K <= |plane|
    ensures |rows| == K && Uniform(rows, n)
  {
    seq(K, k requires 0 <= k < K =>
      seq(n, j requires 0 <= j < n => SlotBound(j, k, K, n); plane[j * K + k]))
  }

  /** Reading lane k of slot j back out of an unpacked plane. */
  lemma UnpackAt<T>(plane: seq<T>, K: nat, n: nat, k: nat, j: nat)
    requires K > 0 && n * K <= |plane| && k < K && j < n
    ensures j * K + k < |plane|
    ensures Unpack(plane, K, n)[k][j] == plane[j * K + k]
  {
    SlotBound(j, k, K, n);
  }

  /**
    Nothing in the packed plane is lost: scalar p of the first n slots
    lands in row p % K at position p / K.
   */
  lemma UnpackCovers<T>(plane: seq<T>, K: nat, n: nat, p: nat)
    requires K > 0 && n * K <= |plane| && p < n * K
    ensures p % K < K && p / K < n
    ensures Unpack(plane, K, n)[p % K][p / K] == plane[p]
  {
    DivBound(p, K, n);
    UnpackAt(plane, K, n, p % K, p / K);
  }

  /** Packing K rows and unpacking the result gives the rows back. */
  lemma PackUnpack<T>(rows: seq<seq<T>>, n: nat)
    requires |rows| > 0 && Uniform(rows, n)
    ensures Unpack(Pack(rows, n), |rows|, n) == rows
  {
    var K := |rows|;
    var u := Unpack(Pack(rows, n), K, n);
    forall k | 0 <= k < K
      ensures u[k] == rows[k]
    {
      forall j | 0 <= j < n
        ensures u[k][j] == rows[k][j]
      {
        UnpackAt(Pack(rows, n), K, n, k, j);
        PackAt(rows, n, j, k);
      }
    }
  }

  /** Unpacking a plane and packing the rows again gives the plane back. */
  lemma UnpackPack<T>(plane: seq<T>, K: nat, n: nat)
    requires K > 0 && |plane| == n * K
    ensures Pack(Unpack(plane, K, n), n) == plane
  {
    var rows := Unpack(plane, K, n);
    var p := Pack(rows, n);
    forall i | 0 <= i < |plane|
      ensures p[i] == plane[i]
    {
      DivBound(i, K, n);
      var j, k := i / K, i % K;
      assert i == j * K + k;
      UnpackAt(plane, K, n, k, j);
    }
  }

  /** Extending a packed plane by one slot appends exactly column j. */
  lemma PackStep<T>(rows: seq<seq<T>>, j: nat)
    requires |rows| > 0 && Covers(rows, j + 1)
    ensures Pack(rows, j + 1) == Pack(rows, j) + Column(rows, j)
  {
    var K := |rows|;
    var a, b := Pack(rows, j + 1), Pack(rows, j) + Column(rows, j);
    assert (j + 1) * K == j * K + K;
    forall p | 0 <= p < (j + 1) * K
      ensures a[p] == b[p]
    {
      DivBound(p, K, j + 1);
      var q, k := p / K, p % K;
      assert p == q * K + k;
      if q < j {
        SlotBound(q, k, K, j);
      } else {
        assert q == j;
      }
    }
  }

  /** Extending an unpacked plane by one slot appends lane k to row k. */
  lemma UnpackStep<T>(plane: seq<T>, K: nat, j: nat, k: nat)
    requires K > 0 && (j + 1) * K <= |plane| && k < K
    ensures j * K <= (j + 1) * K
    ensures j * K + k < |plane|
    ensures Unpack(plane, K, j + 1)[k] == Unpack(plane, K, j)[k] + [plane[j * K + k]]
  {
    SlotBound(j, k, K, j + 1);
    MulLeq(j, j + 1, K);
    var a, b := Unpack(plane, K, j + 1)[k], Unpack(plane, K, j)[k] + [plane[j * K + k]];
    forall i | 0 <= i < j + 1
      ensures a[i] == b[i]
    {
      UnpackAt(plane, K, j + 1, k, i);
      if i < j {
        UnpackAt(plane, K, j, k, i);
      }
    }
  }

  // ---------------------------------------------------------------------
  // Every group of planes of a tensor
  // ---------------------------------------------------------------------

  /** Planes i*K .. i*K+K-1: the K unpacked planes that form packed plane i. */
  function Group<T>(src: seq<seq<T>>, K: nat, i: nat): (g: seq<seq<T>>)
    requires i * K + K <= |src|
    ensures |g| == K
    ensures forall k :: 0 <= k < K ==> g[k] == src[i * K + k]
  {
    src[i * K .. i * K + K]
  }

  /** Group i of m*K planes exists and is as uniform as the planes are. */
  lemma GroupInRange<T>(src: seq<seq<T>>, K: nat, m: nat, n: nat, i: nat)
    requires K > 0 && |src| == m * K && Uniform(src, n) && i < m
    ensures i * K + K <= |src|
    ensures Uniform(Group(src, K, i), n) && Covers(Group(src, K, i), n)
  {
    SlotBound(i, K - 1, K, m);
  }

  /**
    Packs m*K unpacked planes of n elements into m planes of n slots, K
    lanes each: packed plane i interleaves unpacked planes i*K .. i*K+K-1.
   */
  function PackPlanes<T>(src: seq<seq<T>>, K: nat, m: nat, n: nat): (dst: seq<seq<T>>)
    requires K > 0 && |src| == m * K && Uniform(src, n)
    ensures |dst| == m && Uniform(dst, n * K)
  {
    seq(m, i requires 0 <= i < m =>
      GroupInRange(src, K, m, n, i); Pack(Group(src, K, i), n))
  }

  /**
    Unpacks planes of n slots, K lanes each, into K times as many planes of
    n elements: lane k of packed plane i becomes unpacked plane i*K+k.
   */
  function UnpackPlanes<T>(src: seq<seq<T>>, K: nat, n: nat): (dst: seq<seq<T>>)
    requires K > 0 && Uniform(src, n * K)
    ensures |dst| == |src| * K && Uniform(dst, n)
  {
    seq(|src| * K, q requires 0 <= q < |src| * K =>
      DivBound(q, K, |src|); Unpack(src[q / K], K, n)[q % K])
  }

  /** The packing formula at plane level: lane k of slot j of packed plane i. */
  lemma PackPlanesAt<T>(src: seq<seq<T>>, K: nat, m: nat, n: nat, i: nat, j: nat, k: nat)
    requires K > 0 && |src| == m * K && Uniform(src, n)
    requires i < m && j < n && k < K
    ensures i * K + k < |src| && j * K + k < n * K
    ensures PackPlanes(src, K, m, n)[i][j * K + k] == src[i * K + k][j]
  {
    GroupInRange(src, K, m, n, i);
    var g := Group(src, K, i);
    PackAt(g, n, j, k);
    assert PackPlanes(src, K, m, n)[i] == Pack(g, n);
  }

  /** The unpacking formula at plane level: unpacked plane i*K+k, element j. */
  lemma UnpackPlanesAt<T>(src: seq<seq<T>>, K: nat, n: nat, i: nat, j: nat, k: nat)
    requires K > 0 && Uniform(src, n * K)
    requires i < |src| && j < n && k < K
    ensures i * K + k < |src| * K && j * K + k < n * K
    ensures UnpackPlanes(src, K, n)[i * K + k][j] == src[i][j * K + k]
  {
    SlotBound(i, k, K, |src|);
    SlotBound(j, k, K, n);
    SlotDecompose(i, k, K);
    UnpackAt(src[i], K, n, k, j);
  }

  /** The K planes unpacked from packed plane i sit together at i*K .. i*K+K-1. */
  lemma UnpackPlanesGroup<T>(src: seq<seq<T>>, K: nat, n: nat, i: nat)
    requires K > 0 && Uniform(src, n * K) && i < |src|
    ensures i * K + K <= |src| * K
    ensures UnpackPlanes(src, K, n)[i * K .. i * K + K] == Unpack(src[i], K, n)
  {
    SlotBound(i, K - 1, K, |src|);
    var u := UnpackPlanes(src, K, n);
    forall k | 0 <= k < K
      ensures u[i * K + k] == Unpack(src[i], K, n)[k]
    {
      SlotBound(i, k, K, |src|);
      SlotDecompose(i, k, K);
    }
  }

  /** Packing then unpacking every group restores the original planes. */
  lemma PackPlanesRoundTrip<T>(src: seq<seq<T>>, K: nat, m: nat, n: nat)
    requires K > 0 && |src| == m * K && Uniform(src, n)
    ensures UnpackPlanes(PackPlanes(src, K, m, n), K, n) == src
  {
    var packed := PackPlanes(src, K, m, n);
    var u := UnpackPlanes(packed, K, n);
    forall q | 0 <= q < |src|
      ensures u[q] == src[q]
    {
      DivBound(q, K, m);
      var i, k := q / K, q % K;
      assert q == i * K + k;
      forall j | 0 <= j < n
        ensures u[q][j] == src[q][j]
      {
        UnpackPlanesAt(packed, K, n, i, j, k);
        PackPlanesAt(src, K, m, n, i, j, k);
      }
    }
  }

  /** Unpacking then packing every plane restores the original planes. */
  lemma UnpackPlanesRoundTrip<T>(src: seq<seq<T>>, K: nat, n: nat)
    requires K > 0 && Uniform(src, n * K)
    ensures PackPlanes(UnpackPlanes(src, K, n), K, |src|, n) == src
  {
    var u := UnpackPlanes(src, K, n);
    var p := PackPlanes(u, K, |src|, n);
    forall i | 0 <= i < |src|
      ensures p[i] == src[i]
    {
      forall s | 0 <= s < n * K
        ensures p[i][s] == src[i][s]
      {
        DivBound(s, K, n);
        var j, k := s / K, s % K;
        assert s == j * K + k;
        PackPlanesAt(u, K, |src|, n, i, j, k);
        UnpackPlanesAt(src, K, n, i, j, k);
      }
    }
  }

  /** With one lane per slot, unpacking changes nothing. */
  lemma UnpackPlanesUnit<T>(src: seq<seq<T>>, n: nat)
    requires Uniform(src, n)
    ensures UnpackPlanes(src, 1, n) == src
  {
    var u := UnpackPlanes(src, 1, n);
    forall q | 0 <= q < |src|
      ensures u[q] == src[q]
    {
      forall j | 0 <= j < n
        ensures u[q][j] == src[q][j]
      {
        UnpackPlanesAt(src, 1, n, q, j, 0);
      }
    }
  }
}
