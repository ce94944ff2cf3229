# ncnn `Packing_loongarch`: element-pack repacking, modelled in Dafny

ncnn stores tensors (`Mat`) with a lane-pack factor `elempack`: K logically
adjacent rows (2-D) or channels (3-D/4-D) are interleaved so that each
memory slot holds K scalars. The `Packing` layer converts a tensor from one
pack factor to another. Its LoongArch implementation handles fp32 between
pack factors 1 and 4 (`forward`) and int8 between 1 and 8 (`forward_int8`).
Requests with padding, with any other element width, or with any other
pair of differing pack factors go to the generic `Packing::forward`. Equal
pack factors and packs whose axis the target factor does not divide keep
the input as it is, and ranks outside 1..4 return without setting the
output. For fp32 the layer also has an LSX fast path that transposes 4x4
blocks in registers.

The model has five modules:

- `Tensor` (tensor.dfy) describes the tensor as shape metadata plus a sequence
  of planes. A plane is a row for dims 2, a channel for dims 3/4, and the
  single contiguous run for dims 1. `Valid` ties the planes to the shape.
  `Logical` gives the tensor's unpacked content.
- `Interleave` (interleave.dfy) is the pure specification of packing.
  `Pack` interleaves K rows into one packed plane, with
  `out[j*K+k] = r_k[j]`. `Unpack` is its inverse. `PackPlanes` and
  `UnpackPlanes` apply them to every group of planes. The module also
  proves the round trips in both directions.
- `Lsx` (lsx.dfy) gives the lane semantics of `vld`, `vilvl.w`, `vilvh.w`,
  `vilvl.d` and `vilvh.d` as permutations of four lanes. It also defines the
  eight-shuffle 4x4 transpose network that the source uses.
- `Kernels` (kernels.dfy) holds the loops. There are scalar loops for any K,
  which store element by element into a buffer, and fp32 loops that run LSX blocks first and then the scalar tail. Each
  loop is proved to compute `Pack` or `Unpack`. The outer loop over planes
  is proved to compute `PackPlanes` or `UnpackPlanes`.
- `Packing` (packing.dfy) models both entry points. `Decide` and
  `DecideInt8` are the guard chains in source order. Each has a contract
  that says, without reference to the order, which requests are delegated,
  aliased, reinterpreted, transposed or left to fall through. `Forward` is the whole call as a
  pure function. `Run` is the same call built from the loops, and it is
  proved equal to `Forward`.

`Scenarios` (scenarios.dfy) works through concrete requests. One is four
rows `[[1,2],[3,4],[5,6],[7,8]]` packed 1 -> 4 into `[1,3,5,7,2,4,6,8]` and
unpacked back. The others show the guard order.

Element values are an opaque type `T`, because the layer only copies them.
The element width `elembits` is an input. The two entry points differ in
the element width they accept, the pack factor they convert to (4 or 8),
and the LSX fast path, which only the fp32 entry point has.

Return values are modelled by the `Outcome` datatype and `Status`:

| outcome | meaning | status |
|---|---|---|
| `Delegated` | the call went to `Packing::forward` | that function's result |
| `Aliased` | `top_blob = bottom_blob` | 0 |
| `Reinterpreted` | dims 1: same data, new metadata | 0 |
| `Transposed` | a newly filled tensor | 0 |
| `OutOfMemory` | the tensor `create` returned is empty | -100 |
| `LeftUnset` | rank outside 1..4: `top_blob` is never assigned | 0 |

The destination allocation is a parameter: `Granted(cstep)` or `Refused`.

The `!use_padding` test at src/layer/loongarch/packing_loongarch.cpp:69 and
:378 is kept in `Local` as written. `Packing.PaddingTestAlwaysTrue` shows it
is always true wherever it is evaluated.

## Model

| member | source | states |
|---|---|---|
| `Packing.Decide` | src/layer/loongarch/packing_loongarch.cpp:28-87 | Requests are delegated exactly when padding is on, the width is neither 8 nor 32 bits, or the pack factors differ and are not 1<->4 (fp32) or 1<->8 (int8). Equal factors alias. A 1->K pack whose relevant axis (w, h or c) is not divisible by K also aliases. The rest reinterpret (dims 1), transpose (dims 2-4, with K and direction fixed) or fall through (other ranks). |
| `Packing.DecideInt8` | src/layer/loongarch/packing_loongarch.cpp:348-396 | The int8 chain: delegate exactly when padding is on or the pair is neither equal nor 1<->8. Alias exactly for equal factors or an indivisible pack. Of the remaining 1<->8 requests, dims 1 reinterprets, dims 2-4 transpose 8-wide with the direction set by the input factor, and other ranks fall through. |
| `Packing.PaddingTestAlwaysTrue` | src/layer/loongarch/packing_loongarch.cpp:35-38 | With padding every request is delegated, so the `!use_padding` guard is true whenever it is reached. |
| `Packing.Forward` | src/layer/loongarch/packing_loongarch.cpp:28-346 | The call aliases, reinterprets or transposes exactly when the guard chain chooses that route, and a transpose also needs a granted allocation. An alias returns the input unchanged. A reinterpretation keeps the data, dims 1, the logical length `w*elempack` and the scalar size, rescales `cstep` by `elempack/out_elempack`, and sets the requested pack factor. A transpose yields a valid tensor with the same rank, width, depth, height (dims 3/4), spatial size, logical extent, scalar size and logical planes. -100 is returned exactly when a transpose's allocation is refused. |
| `Packing.TransposeResult` | src/layer/loongarch/packing_loongarch.cpp:99-218 | The tensor built by the dims-2/3/4 transpose is valid. It has the target pack factor, and `outh`/`outc` times the new pack factor equals the old logical extent. Width, depth, height for dims 3/4, spatial size and bytes per scalar do not change. Its logical content is the input's. |
| `Packing.ReinterpretKeepsLength` | src/layer/loongarch/packing_loongarch.cpp:89-97 | When the divisibility guard passed, the dims-1 metadata rewrite keeps `w*elempack`, the number of scalars. |
| `Packing.ScalarSizeKept` | src/layer/loongarch/packing_loongarch.cpp:102 | `elemsize/elempack*out_elempack` is a whole multiple of the new pack factor and keeps the bytes per scalar. |
| `Packing.Run` | src/layer/loongarch/packing_loongarch.cpp:28-346 | The guards followed by the outer loop and the scalar or LSX kernels produce exactly the `Forward` outcome, on either path. |
| `Packing.PackThenUnpack` | src/layer/loongarch/packing_loongarch.cpp:99-343 | For dims 2-4, packing 1->K and then unpacking K->1 returns the original tensor. Only `cstep` may differ: it is what the second allocation chose. |
| `Packing.UnpackThenPack` | src/layer/loongarch/packing_loongarch.cpp:408-564 | For dims 2-4, unpacking K->1 and then packing 1->K returns the original tensor, up to `cstep`. |
| `Packing.ReinterpretRoundTrip` | src/layer/loongarch/packing_loongarch.cpp:89-97 | For dims 1, 1->K and back restores data, width, slot size and pack factor. `cstep` is rounded down to a multiple of K. |
| `Packing.ReinterpretRoundTripUnpacked` | src/layer/loongarch/packing_loongarch.cpp:398-406 | For dims 1, K->1 and back returns exactly the input tensor. |
| `Interleave.PackAt` | src/layer/loongarch/packing_loongarch.cpp:151-159 | Lane k of slot j of a packed plane holds element j of row k: `out[j*K+k] = r_k[j]`. |
| `Interleave.UnpackCovers` | src/layer/loongarch/packing_loongarch.cpp:205-213 | No scalar of the packed plane is dropped: scalar p of the first n slots is element `p / K` of unpacked row `p % K`. |
| `Interleave.PackUnpack` | src/layer/loongarch/packing_loongarch.cpp:108-215 | Unpacking a packed plane gives back the K rows. |
| `Interleave.UnpackPack` | src/layer/loongarch/packing_loongarch.cpp:417-480 | Packing the unpacked rows gives back the packed plane. |
| `Interleave.PackStep` | src/layer/loongarch/packing_loongarch.cpp:434-446 | One scalar packing iteration extends the packed plane by one column: `r_0[j] .. r_{K-1}[j]`. |
| `Interleave.UnpackStep` | src/layer/loongarch/packing_loongarch.cpp:466-478 | One scalar unpacking iteration appends lane k of slot j to row k. |
| `Interleave.PackPlanesAt` | src/layer/loongarch/packing_loongarch.cpp:233-285 | Output plane i at `j*K+k` equals input plane `i*K+k` at j. |
| `Interleave.UnpackPlanesAt` | src/layer/loongarch/packing_loongarch.cpp:287-340 | Output plane `i*K+k` at j equals input plane i at `j*K+k`. |
| `Interleave.UnpackPlanesGroup` | src/layer/loongarch/packing_loongarch.cpp:292-297 | The K output planes written from input plane i are planes `i*K .. i*K+K-1`. |
| `Interleave.PackPlanesRoundTrip` | src/layer/loongarch/packing_loongarch.cpp:498-561 | Packing every group of planes and unpacking again restores all planes. |
| `Interleave.UnpackPlanesRoundTrip` | src/layer/loongarch/packing_loongarch.cpp:417-480 | Unpacking every plane and packing again restores all planes. |
| `Lsx.Transpose4x4` | src/layer/loongarch/packing_loongarch.cpp:124-137 | The eight `vilvl`/`vilvh` shuffles are a 4x4 transpose: lane k of result register i is lane i of operand register k. |
| `Lsx.TransposeInvolution` | src/layer/loongarch/packing_loongarch.cpp:178-191 | Transposing twice is the identity. This is why the same network serves the 4->1 direction. |
| `Kernels.LsxPackBlock` | src/layer/loongarch/packing_loongarch.cpp:121-149 | One LSX block stores the same 16 values as four scalar packing iterations, and so extends the packed plane by four slots. |
| `Kernels.LsxUnpackBlock` | src/layer/loongarch/packing_loongarch.cpp:175-203 | Register k of one LSX unpacking block holds the four values that four scalar iterations append to output row k. |
| `Kernels.PackRows` | src/layer/loongarch/packing_loongarch.cpp:417-447 | The scalar packing loop for any K (4 for fp32, 8 for int8), storing `outptr[j*K+k]` into a buffer of `n*K` elements, computes `Pack`. |
| `Kernels.PackRowsLsx` | src/layer/loongarch/packing_loongarch.cpp:108-160 | LSX blocks followed by the scalar tail compute `Pack` for every width, including `w % 4 != 0`. So they equal the pure scalar loop. |
| `Kernels.UnpackRow` | src/layer/loongarch/packing_loongarch.cpp:449-480 | The scalar unpacking loop for any K, storing `outptr_k[j]` into a K-by-n buffer, computes `Unpack`. |
| `Kernels.UnpackRowLsx` | src/layer/loongarch/packing_loongarch.cpp:162-215 | LSX blocks followed by the scalar tail compute `Unpack` for every width. |
| `Kernels.PackAllPlanes` | src/layer/loongarch/packing_loongarch.cpp:233-286 | The outer loop over output planes, run in order, with or without LSX, computes `PackPlanes`. |
| `Kernels.UnpackAllPlanes` | src/layer/loongarch/packing_loongarch.cpp:287-340 | The outer loop over input planes, run in order, with or without LSX, computes `UnpackPlanes`. |
| `Scenarios.FourRowsExample` | src/layer/loongarch/packing_loongarch.cpp:99-160 | Rows `[[1,2],[3,4],[5,6],[7,8]]` pack 1->4 into one row `[1,3,5,7,2,4,6,8]` of `elemsize` 16 and unpack back. |
| `Scenarios.GuardOrderExamples` | src/layer/loongarch/packing_loongarch.cpp:30-87 | fp16 with equal factors is delegated, not aliased. fp32 and int8 with equal factors alias. fp32 1->8, int8 1->4 and int8 with padding are delegated. Eight int8 rows without padding are transposed locally. Six rows do not pack 4-wide and alias. |

## Left out

- OpenMP `parallel for` and `num_threads`: the outer loop is a sequential loop over planes. Its iterations read disjoint planes and write disjoint planes.
- `Mat::create`, the allocator, reference counting, `row()`/`channel()` pointer arithmetic and `cstep` alignment padding: planes are plain sequences. The allocation is a parameter that grants a `cstep` or is refused. `Run` and `Forward` assign the result only when the allocation succeeds, so there is no partially written tensor to model.
- `Packing::forward`, the generic fallback, is not part of this model and appears only as the outcome `Delegated`.
- `Mat::elembits()` is an input, not computed.
- Floating-point and int8 value semantics: values are only copied, so the element type is generic.
- The real implementation of the LSX intrinsics: only their lane permutations are modelled. A register is a four-lane datatype rather than a length-4 sequence.
- 32-bit `int` overflow in `w * elempack`, `h * elempack`, `channels * elempack` and `w * h * d`: extents are unbounded naturals. The model assumes, as the source does, that these products fit.
- The `Packing_loongarch` constructor, which only sets `support_packing`.
- `Packing.Forward`: the destination's `cstep` after `create` is whatever the allocation grants. The model does not compute the alignment rule.
- `Mat::empty()` is not part of this model. The source returns -100 whenever the tensor `create` returns is empty. That covers a failed allocation and also a destination with zero elements, such as dims 2 with `h == 0`. Both cases are the allocation `Refused`. The model does not derive the second case from the shape.
