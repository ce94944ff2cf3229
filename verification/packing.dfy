/**
  `Packing_loongarch::forward` and `forward_int8`: the guard chain that
  decides what to do with a repacking request, and the result of doing it.

  The fp32 entry point converts between pack factors 1 and 4, the int8
  entry point between 1 and 8; everything else goes to the generic
  `Packing::forward`, which is not part of this model and appears only as
  the outcome `Delegated`.
 */
module Packing {
  import opened Interleave
  import opened Tensor
  import opened Kernels

  // ---------------------------------------------------------------------
  // The guard chain
  // ---------------------------------------------------------------------

  /** What the guard chain decides. */
  datatype Route =
    | Delegate                          // return Packing::forward(...)
    | Alias                             // top_blob = bottom_blob
    | Reinterpret                       // dims 1: metadata only
    | Transpose(k: nat, packing: bool)  // dims 2/3/4: 1 -> k when packing, else k -> 1
    | FallThrough                       // dims outside 1..4: final `return 0`

  /** The pair of pack factors is 1 -> K or K -> 1. */
  predicate Swaps(elempack: int, outElempack: int, K: int)
  {
    (elempack == 1 && outElempack == K) || (elempack == K && outElempack == 1)
  }

  /** The pack factor each element width converts to locally; 0 for none. */
  function NativePack(elembits: int): nat
  {
    if elembits == 8 then 8 else if elembits == 32 then 4 else 0
  }

  /** The logical length of the relevant axis is a multiple of the target pack factor. */
  predicate ExtentDivisible(s: Shape, outElempack: int)
    requires outElempack > 0
  {
    (Extent(s) * s.elempack) % outElempack == 0
  }

  /**
    The part both entry points share once the pair of pack factors is known
    to be 1 <-> K: the divisibility guards (taken only without padding),
    then dispatch on rank.
   */
  function Local(s: Shape, outElempack: int, usePadding: bool, K: nat): Route
    requires K > 1 && Swaps(s.elempack, outElempack, K)
  {
    if !usePadding
       && ((s.dims == 1 && s.w * s.elempack % outElempack != 0)
           || (s.dims == 2 && s.h * s.elempack % outElempack != 0)
           || ((s.dims == 3 || s.dims == 4) && s.c * s.elempack % outElempack != 0))
    then Alias
    else if s.dims == 1 then Reinterpret
    else if s.dims == 2 || s.dims == 3 || s.dims == 4 then Transpose(K, s.elempack == 1)
    else FallThrough
  }

  /**
    The guards of `forward_int8`, in source order. Without padding, equal
    pack factors alias, 1 <-> 8 stays local and every other pair is
    delegated; with padding everything is delegated.
   */
  function DecideInt8(s: Shape, outElempack: int, usePadding: bool): (r: Route)
    ensures r == Delegate <==> usePadding || (s.elempack != outElempack && !Swaps(s.elempack, outElempack, 8))
    ensures r == Alias <==>
      !usePadding && (s.elempack == outElempack || (Swaps(s.elempack, outElempack, 8) && !ExtentDivisible(s, outElempack)))
    ensures r == Reinterpret <==>
      !usePadding && Swaps(s.elempack, outElempack, 8) && ExtentDivisible(s, outElempack) && s.dims == 1
    ensures r.Transpose? <==>
      !usePadding && Swaps(s.elempack, outElempack, 8) && ExtentDivisible(s, outElempack) && 2 <= s.dims <= 4
    ensures r == FallThrough <==>
      !usePadding && Swaps(s.elempack, outElempack, 8) && !(1 <= s.dims <= 4)
    ensures r.Transpose? ==> r == Transpose(8, s.elempack == 1)
  {
    if usePadding then Delegate
    else if s.elempack == outElempack then Alias
    else if !Swaps(s.elempack, outElempack, 8) then Delegate
    else Local(s, outElempack, usePadding, 8)
  }

  /**
    The guards of `forward`, in source order: 8-bit data goes to the int8
    entry point, padding and non-fp32 data go to the generic operator, an
    unchanged pack factor aliases, any pair other than 1 <-> 4 goes to the
    generic operator.

    The contract states the outcome without the order: only fp32 1 <-> 4
    and int8 1 <-> 8 without padding stay local; equal pack factors alias,
    and so does a pack whose axis the target factor does not divide.
   */
  function Decide(s: Shape, elembits: int, outElempack: int, usePadding: bool): (r: Route)
    ensures r == Delegate <==>
      (usePadding || NativePack(elembits) == 0
       || (s.elempack != outElempack && !Swaps(s.elempack, outElempack, NativePack(elembits))))
    ensures r == Alias <==>
      (!usePadding && NativePack(elembits) > 0
       && (s.elempack == outElempack
           || (Swaps(s.elempack, outElempack, NativePack(elembits)) && !ExtentDivisible(s, outElempack))))
    ensures r == Reinterpret <==>
      (!usePadding && NativePack(elembits) > 0 && Swaps(s.elempack, outElempack, NativePack(elembits))
       && ExtentDivisible(s, outElempack) && s.dims == 1)
    ensures r.Transpose? <==>
      (!usePadding && NativePack(elembits) > 0 && Swaps(s.elempack, outElempack, NativePack(elembits))
       && ExtentDivisible(s, outElempack) && 2 <= s.dims <= 4)
    ensures r == FallThrough <==>
      (!usePadding && NativePack(elembits) > 0 && Swaps(s.elempack, outElempack, NativePack(elembits))
       && !(1 <= s.dims <= 4))
    ensures r.Transpose? ==> r.k == NativePack(elembits) && r.packing == (s.elempack == 1)
  {
    if elembits == 8 then DecideInt8(s, outElempack, usePadding)
    else if usePadding then Delegate
    else if elembits != 32 then Delegate
    else if s.elempack == outElempack then Alias
    else if !Swaps(s.elempack, outElempack, 4) then Delegate
    else Local(s, outElempack, usePadding, 4)
  }

  /**
    The `!use_padding` test in front of the divisibility guards is always
    true where it is evaluated: with padding the chain has already
    delegated, in either entry point.
   */
  lemma PaddingTestAlwaysTrue(s: Shape, elembits: int, outElempack: int, usePadding: bool)
    ensures Decide(s, elembits, outElempack, usePadding) != Delegate && s.elempack != outElempack
            ==> !usePadding
    ensures Decide(s, elembits, outElempack, true) == Delegate
  {
  }

  // ---------------------------------------------------------------------
  // The outcome
  // ---------------------------------------------------------------------

  /** What the destination allocation returned: a tensor with this channel stride, or an empty one. */
  datatype Allocation = Granted(cstep: nat) | Refused

  /** What a call does to `top_blob` and what it returns. */
  datatype Outcome<T> =
    | Delegated                   // the generic operator's result
    | Aliased(top: Mat<T>)        // top_blob = bottom_blob; return 0
    | Reinterpreted(top: Mat<T>)  // same data, new metadata; return 0
    | Transposed(top: Mat<T>)     // freshly filled tensor; return 0
    | OutOfMemory                 // create() gave an empty tensor; return -100
    | LeftUnset                   // top_blob not assigned; return 0

  /** The returned status code, given what the generic operator would return. */
  function Status<T>(o: Outcome<T>, delegatedStatus: int): int
  {
    match o
    case Delegated => delegatedStatus
    case OutOfMemory => -100
    case _ => 0
  }

  /** Slot size after repacking: the scalar size times the new pack factor. */
  function OutElemsize(s: Shape, outElempack: nat): nat
    requires s.elempack > 0
  {
    s.elemsize / s.elempack * outElempack
  }

  /** The dims-1 reinterpretation of the metadata. */
  function ReinterpretShape(s: Shape, outElempack: nat): Shape
    requires s.elempack > 0 && outElempack > 0
  {
    s.(w := s.w * s.elempack / outElempack,
       cstep := s.cstep * s.elempack / outElempack,
       elemsize := OutElemsize(s, outElempack),
       elempack := outElempack)
  }

  /** The shape `create` is asked for: rows or channels rescaled, the rest kept. */
  function TransposeShape(s: Shape, outElempack: nat, cstep: nat): Shape
    requires s.elempack > 0 && outElempack > 0
  {
    s.(h := if s.dims == 2 then s.h * s.elempack / outElempack else s.h,
       c := if s.dims == 3 || s.dims == 4 then s.c * s.elempack / outElempack else s.c,
       elemsize := OutElemsize(s, outElempack),
       elempack := outElempack,
       cstep := cstep)
  }

  lemma ScalarSizeKept(s: Shape, outElempack: nat)
    requires s.elempack > 0 && outElempack > 0
    ensures OutElemsize(s, outElempack) % outElempack == 0
    ensures OutElemsize(s, outElempack) / outElempack == s.elemsize / s.elempack
  {
    SlotDecompose(s.elemsize / s.elempack, 0, outElempack);
  }

  lemma DivExact(x: nat, K: nat)
    requires K > 0 && x % K == 0
    ensures x / K * K == x
  {
  }

  lemma MulDivExact(x: nat, K: nat)
    requires K > 0
    ensures x * K / K == x
  {
    SlotDecompose(x, 0, K);
  }

  /**
    `Packing_loongarch::forward` (8-bit data through `forward_int8`).

    An alias is the input itself. A reinterpretation keeps the data and
    the logical length w * elempack. A transpose produces a valid tensor of
    the requested pack factor with the same rank, width, spatial size,
    scalar size, logical length along the packed axis and logical planes
    as the input; it happens only when the allocation succeeds, and a
    refused allocation reports -100 before anything is written.
   */
  function Forward<T>(bottom: Mat<T>, elembits: int, outElempack: int, usePadding: bool, alloc: Allocation): (o: Outcome<T>)
    requires Valid(bottom)
    ensures o.Delegated? <==> Decide(bottom.shape, elembits, outElempack, usePadding) == Delegate
    ensures o.Aliased? <==> Decide(bottom.shape, elembits, outElempack, usePadding) == Alias
    ensures o.Reinterpreted? <==> Decide(bottom.shape, elembits, outElempack, usePadding) == Reinterpret
    ensures o.Transposed? <==> Decide(bottom.shape, elembits, outElempack, usePadding).Transpose? && alloc.Granted?
    ensures o.Aliased? ==> o.top == bottom
    ensures o.Reinterpreted? ==>
      && Valid(o.top)
      && o.top.planes == bottom.planes
      && o.top.shape.dims == 1
      && o.top.shape.elempack == outElempack
      && o.top.shape.w * o.top.shape.elempack == bottom.shape.w * bottom.shape.elempack
      && o.top.shape.cstep == bottom.shape.cstep * bottom.shape.elempack / outElempack
      && o.top.shape.elemsize / o.top.shape.elempack == bottom.shape.elemsize / bottom.shape.elempack
    ensures o.Transposed? ==>
      && Valid(o.top)
      && Logical(o.top) == Logical(bottom)
      && o.top.shape.dims == bottom.shape.dims
      && o.top.shape.elempack == outElempack
      && o.top.shape.w == bottom.shape.w
      && (bottom.shape.dims != 2 ==> o.top.shape.h == bottom.shape.h)
      && o.top.shape.d == bottom.shape.d
      && Slots(o.top.shape) == Slots(bottom.shape)
      && Extent(o.top.shape) * o.top.shape.elempack == Extent(bottom.shape) * bottom.shape.elempack
      && o.top.shape.elemsize / o.top.shape.elempack == bottom.shape.elemsize / bottom.shape.elempack
    ensures o.OutOfMemory? <==> Decide(bottom.shape, elembits, outElempack, usePadding).Transpose? && alloc.Refused?
    ensures o.LeftUnset? <==> Decide(bottom.shape, elembits, outElempack, usePadding) == FallThrough
  {
    var s := bottom.shape;
    match Decide(s, elembits, outElempack, usePadding)
    case Delegate => Delegated
    case Alias => Aliased(bottom)
    case FallThrough => LeftUnset
    case Reinterpret =>
      ReinterpretKeepsLength(s, outElempack);
      ScalarSizeKept(s, outElempack);
      Reinterpreted(Mat(ReinterpretShape(s, outElempack), bottom.planes))
    case Transpose(K, packing) =>
      if alloc.Refused? then OutOfMemory
      else
        var top := TransposeResult(bottom, K, packing, alloc.cstep);
        Transposed(top)
  }

  /** The dims-1 reinterpretation keeps the number of scalars. */
  lemma ReinterpretKeepsLength(s: Shape, outElempack: int)
    requires WellShaped(s) && s.dims == 1 && outElempack > 0 && ExtentDivisible(s, outElempack)
    ensures ReinterpretShape(s, outElempack).w * outElempack == s.w * s.elempack
    ensures Slots(ReinterpretShape(s, outElempack)) * outElempack == Slots(s) * s.elempack
  {
    DivExact(s.w * s.elempack, outElempack);
  }

  /**
    The tensor a physical transpose fills: 1 -> K packs every group of K
    planes into one, K -> 1 unpacks every plane into K.
   */
  function TransposeResult<T>(bottom: Mat<T>, K: nat, packing: bool, cstep: nat): (top: Mat<T>)
    requires Valid(bottom) && K > 1 && 2 <= bottom.shape.dims <= 4
    requires bottom.shape.elempack == (if packing then 1 else K)
    requires packing ==> Extent(bottom.shape) % K == 0
    ensures Valid(top)
    ensures Logical(top) == Logical(bottom)
    ensures top.shape.dims == bottom.shape.dims && top.shape.w == bottom.shape.w
    ensures bottom.shape.dims != 2 ==> top.shape.h == bottom.shape.h
    ensures top.shape.d == bottom.shape.d
    ensures top.shape.elempack == (if packing then K else 1)
    ensures Slots(top.shape) == Slots(bottom.shape)
    ensures Extent(top.shape) * top.shape.elempack == Extent(bottom.shape) * bottom.shape.elempack
    ensures top.shape.elemsize / top.shape.elempack == bottom.shape.elemsize / bottom.shape.elempack
  {
    var s := bottom.shape;
    var n := Slots(s);
    var outElempack: nat := if packing then K else 1;
    var ts := TransposeShape(s, outElempack, cstep);
    ScalarSizeKept(s, outElempack);
    if packing then
      DivExact(Extent(s), K);
      var m := Extent(s) / K;
      var planes := PackPlanes(bottom.planes, K, m, n);
      PackPlanesRoundTrip(bottom.planes, K, m, n);
      UnpackPlanesUnit(bottom.planes, n);
      Mat(ts, planes)
    else
      MulDivExact(Extent(s), K);
      var planes := UnpackPlanes(bottom.planes, K, n);
      UnpackPlanesUnit(planes, n);
      Mat(ts, planes)
  }

  // ---------------------------------------------------------------------
  // The routine as written: guards, then the loops
  // ---------------------------------------------------------------------

  /**
    The entry points with their loops: the same guards, then the outer
    loop over planes with the scalar kernels, or with the LSX kernels when
    `lsx` (built with `__loongarch_sx`) and the data is fp32. The int8
    entry point has no vector path. Whichever path runs, the result is
    the one `Forward` describes.
   */
  method Run<T>(bottom: Mat<T>, elembits: int, outElempack: int, usePadding: bool, alloc: Allocation, lsx: bool)
    returns (o: Outcome<T>)
    requires Valid(bottom)
    ensures o == Forward(bottom, elembits, outElempack, usePadding, alloc)
  {
    var s := bottom.shape;
    var route := Decide(s, elembits, outElempack, usePadding);
    match route {
      case Delegate =>
        o := Delegated;
      case Alias =>
        o := Aliased(bottom);
      case FallThrough =>
        o := LeftUnset;
      case Reinterpret =>
        o := Reinterpreted(Mat(ReinterpretShape(s, outElempack), bottom.planes));
      case Transpose(K, packing) =>
        if alloc.Refused? {
          return OutOfMemory;
        }
        var vector := lsx && elembits == 32;
        var planes;
        if packing {
          DivExact(Extent(s), K);
          planes := PackAllPlanes(bottom.planes, K, Extent(s) / K, Slots(s), vector);
        } else {
          planes := UnpackAllPlanes(bottom.planes, K, Slots(s), vector);
        }
        o := Transposed(Mat(TransposeShape(s, if packing then K else 1, alloc.cstep), planes));
    }
  }

  // ---------------------------------------------------------------------
  // Round trips through the entry points
  // ---------------------------------------------------------------------

  /**
    Packing 1 -> K and then unpacking K -> 1 gives back the original
    tensor; only the channel stride is whatever the second allocation
    chose.
   */
  lemma PackThenUnpack<T>(m: Mat<T>, elembits: int, first: Allocation, second: Allocation)
    requires Valid(m) && NativePack(elembits) > 0 && m.shape.elempack == 1
    requires 2 <= m.shape.dims <= 4 && Extent(m.shape) % NativePack(elembits) == 0
    requires first.Granted? && second.Granted?
    ensures Forward(m, elembits, NativePack(elembits), false, first).Transposed?
    ensures Forward(Forward(m, elembits, NativePack(elembits), false, first).top, elembits, 1, false, second)
            == Transposed(Mat(m.shape.(cstep := second.cstep), m.planes))
  {
    var K := NativePack(elembits);
    var s := m.shape;
    var n := Slots(s);
    var t := Forward(m, elembits, K, false, first).top;
    DivExact(Extent(s), K);
    var mm := Extent(s) / K;
    ScalarSizeKept(s, K);
    assert t.planes == PackPlanes(m.planes, K, mm, n);
    assert Extent(t.shape) == mm;
    var back := Forward(t, elembits, 1, false, second).top;
    assert back.planes == UnpackPlanes(t.planes, K, n);
    PackPlanesRoundTrip(m.planes, K, mm, n);
    assert back.shape == s.(cstep := second.cstep);
  }

  /**
    For a 1-D tensor, packing 1 -> K and unpacking again is pure metadata
    and gives back the tensor, except that the channel stride is rounded
    down to a multiple of K.
   */
  lemma ReinterpretRoundTrip<T>(m: Mat<T>, elembits: int)
    requires Valid(m) && NativePack(elembits) > 0 && m.shape.dims == 1 && m.shape.elempack == 1
    requires m.shape.w % NativePack(elembits) == 0
    ensures Forward(m, elembits, NativePack(elembits), false, Refused).Reinterpreted?
    ensures Forward(Forward(m, elembits, NativePack(elembits), false, Refused).top, elembits, 1, false, Refused)
            == Reinterpreted(Mat(m.shape.(cstep := m.shape.cstep / NativePack(elembits) * NativePack(elembits)), m.planes))
  {
    var K := NativePack(elembits);
    var s := m.shape;
    var t := Forward(m, elembits, K, false, Refused).top;
    DivExact(s.w, K);
    ScalarSizeKept(s, K);
    MulDivExact(s.w / K, K);
    MulDivExact(s.elemsize, K);
    assert t.shape.w == s.w / K;
    var back := Forward(t, elembits, 1, false, Refused).top;
    assert back.shape.w == s.w;
  }

  /** For a 1-D tensor, unpacking K -> 1 and packing again gives back exactly the tensor. */
  lemma ReinterpretRoundTripUnpacked<T>(m: Mat<T>, elembits: int)
    requires Valid(m) && NativePack(elembits) > 0 && m.shape.dims == 1 && m.shape.elempack == NativePack(elembits)
    ensures Forward(m, elembits, 1, false, Refused).Reinterpreted?
    ensures Forward(Forward(m, elembits, 1, false, Refused).top, elembits, NativePack(elembits), false, Refused)
            == Reinterpreted(m)
  {
    var K := NativePack(elembits);
    var s := m.shape;
    var t := Forward(m, elembits, 1, false, Refused).top;
    MulDivExact(s.w, K);
    MulDivExact(s.cstep, K);
    ScalarSizeKept(s, 1);
    DivExact(s.elemsize, K);
    SlotDecompose(s.w, 0, K);
    var back := Forward(t, elembits, K, false, Refused).top;
    assert back.shape == s;
  }

  /**
    Unpacking K -> 1 and then packing 1 -> K gives back the original
    tensor, up to the channel stride.
   */
  lemma UnpackThenPack<T>(m: Mat<T>, elembits: int, first: Allocation, second: Allocation)
    requires Valid(m) && NativePack(elembits) > 0 && m.shape.elempack == NativePack(elembits)
    requires 2 <= m.shape.dims <= 4
    requires first.Granted? && second.Granted?
    ensures Forward(m, elembits, 1, false, first).Transposed?
    ensures Forward(Forward(m, elembits, 1, false, first).top, elembits, NativePack(elembits), false, second)
            == Transposed(Mat(m.shape.(cstep := second.cstep), m.planes))
  {
    var K := NativePack(elembits);
    var s := m.shape;
    var n := Slots(s);
    var t := Forward(m, elembits, 1, false, first).top;
    MulDivExact(Extent(s), K);
    assert t.shape == TransposeShape(s, 1, first.cstep);
    assert t.planes == UnpackPlanes(m.planes, K, n);
    assert Extent(t.shape) == Extent(s) * K;
    SlotDecompose(Extent(s), 0, K);
    var back := Forward(t, elembits, K, false, second).top;
    assert back.shape == TransposeShape(t.shape, K, second.cstep);
    assert back.planes == PackPlanes(t.planes, K, Extent(s), n);
    UnpackPlanesRoundTrip(m.planes, K, n);
    UnpackShapeThenPack(s, K, first.cstep, second.cstep);
  }

  /** The shape arithmetic of unpacking K -> 1 and packing back 1 -> K cancels out. */
  lemma UnpackShapeThenPack(s: Shape, K: nat, c1: nat, c2: nat)
    requires WellShaped(s) && K > 0 && s.elempack == K && 2 <= s.dims <= 4
    ensures TransposeShape(s, 1, c1).elempack == 1
    ensures TransposeShape(TransposeShape(s, 1, c1), K, c2) == s.(cstep := c2)
  {
    var t := TransposeShape(s, 1, c1);
    MulDivExact(s.h, K);
    MulDivExact(s.c, K);
    ScalarSizeKept(s, 1);
    DivExact(s.elemsize, K);
    assert t.elemsize == s.elemsize / K;
    assert OutElemsize(t, K) == s.elemsize;
  }
}
