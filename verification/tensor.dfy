/**
  The tensor (`Mat`) as the packing layer sees it: its shape metadata and
  its data, given plane by plane.

  A plane is the unit the transpose loops work on: the single contiguous
  run of a 1-D tensor, a row of a 2-D tensor, a channel of a 3-D or 4-D
  tensor. A plane of a tensor packed K-wide holds `Slots` slots of K
  scalars, so `Slots * elempack` scalars in all. The channel stride
  `cstep` is kept as metadata only: channel padding is not modelled.
 */
module Tensor {
  import opened Interleave

  /** Rank, extents, bytes per slot, scalars per slot and channel stride. */
  datatype Shape = Shape(dims: int, w: nat, h: nat, d: nat, c: nat, elemsize: nat, elempack: nat, cstep: nat)

  /** A tensor: its shape and its planes, each a sequence of scalars. */
  datatype Mat<T> = Mat(shape: Shape, planes: seq<seq<T>>)

  /** Number of planes: 1 for dims 1, h rows for dims 2, c channels for dims 3/4. */
  function PlaneCount(s: Shape): nat
  {
    if s.dims == 1 then 1
    else if s.dims == 2 then s.h
    else if s.dims == 3 || s.dims == 4 then s.c
    else 0
  }

  /** Slots per plane: w for dims 1/2, the spatial size w*h*d for dims 3/4. */
  function Slots(s: Shape): nat
  {
    if s.dims == 1 || s.dims == 2 then s.w else s.w * s.h * s.d
  }

  /**
    The axis whose logical length is extent * elempack and whose length the
    pack factor divides: w for dims 1, h for dims 2, c for dims 3/4.
   */
  function Extent(s: Shape): nat
  {
    if s.dims == 1 then s.w
    else if s.dims == 2 then s.h
    else if s.dims == 3 || s.dims == 4 then s.c
    else 0
  }

  /**
    Shape invariants a tensor's constructors establish: a positive pack
    factor, a slot size that is a whole number of scalars, and unused axes
    of extent 1.
   */
  predicate WellShaped(s: Shape)
  {
    && s.elempack >= 1
    && s.elemsize % s.elempack == 0
    && (s.dims == 1 ==> s.h == 1 && s.d == 1 && s.c == 1)
    && (s.dims == 2 ==> s.d == 1 && s.c == 1)
    && (s.dims == 3 ==> s.d == 1)
  }

  /** The data agrees with the shape: PlaneCount planes of Slots * elempack scalars. */
  predicate Valid<T>(m: Mat<T>)
  {
    && WellShaped(m.shape)
    && |m.planes| == PlaneCount(m.shape)
    && Uniform(m.planes, Slots(m.shape) * m.shape.elempack)
  }

  /**
    The tensor's logical planes, one scalar per slot. A 1-D tensor is
    stored in scalar order whatever its pack factor; otherwise every plane
    packed K-wide holds K logical planes interleaved.
   */
  function Logical<T>(m: Mat<T>): seq<seq<T>>
    requires Valid(m)
  {
    if m.shape.dims == 1 then m.planes
    else UnpackPlanes(m.planes, m.shape.elempack, Slots(m.shape))
  }
}
