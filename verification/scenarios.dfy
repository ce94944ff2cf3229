/**
  Concrete requests run through the model: the 2-D example of packing four
  rows of two floats, and the guard order on requests a naive reading of
  the chain would get wrong.
 */
module Scenarios {
  import Interleave
  import opened Tensor
  import opened Packing

  /** An unpacked 2-D shape of h rows of width w, with `bytes` bytes per scalar. */
  function RowShape(w: nat, h: nat, bytes: nat): Shape
  {
    Shape(dims := 2, w := w, h := h, d := 1, c := 1, elemsize := bytes, elempack := 1, cstep := w)
  }

  /** Four fp32 rows [[1,2],[3,4],[5,6],[7,8]] of width 2, unpacked. */
  function Rows(): Mat<int>
  {
    Mat(RowShape(2, 4, 4), [[1, 2], [3, 4], [5, 6], [7, 8]])
  }

  /** The same four rows as int8 data: one byte per scalar. */
  function ByteRows(): Mat<int>
  {
    Mat(RowShape(2, 4, 1), [[1, 2], [3, 4], [5, 6], [7, 8]])
  }

  /** Eight int8 rows of width 1, unpacked. */
  function EightByteRows(): Mat<int>
  {
    Mat(RowShape(1, 8, 1), [[0], [1], [2], [3], [4], [5], [6], [7]])
  }

  /** The four rows packed 1 -> 4: one row of two 16-byte slots. */
  function PackedShape(): Shape
  {
    Shape(dims := 2, w := 2, h := 1, d := 1, c := 1, elemsize := 16, elempack := 4, cstep := 2)
  }

  /**
    Packing the four rows 1 -> 4 gives one row of two slots, (1,3,5,7)
    and (2,4,6,8); unpacking it restores the four rows.
   */
  lemma FourRowsExample()
    ensures Forward(Rows(), 32, 4, false, Granted(2)) == Transposed(Mat(PackedShape(), [[1, 3, 5, 7, 2, 4, 6, 8]]))
    ensures Forward(Forward(Rows(), 32, 4, false, Granted(2)).top, 32, 1, false, Granted(2)) == Transposed(Rows())
  {
    var m := Rows();
    var t := Forward(m, 32, 4, false, Granted(2)).top;
    assert t.shape == PackedShape();
    var packed := Interleave.Pack(m.planes, 2);
    assert Interleave.Group(m.planes, 4, 0) == m.planes;
    assert t.planes == [packed];
    assert packed == [1, 3, 5, 7, 2, 4, 6, 8] by {
      assert packed[0] == 1 && packed[1] == 3 && packed[2] == 5 && packed[3] == 7;
      assert packed[4] == 2 && packed[5] == 4 && packed[6] == 6 && packed[7] == 8;
    }
    PackThenUnpack(m, 32, Granted(2), Granted(2));
    assert m.shape.(cstep := 2) == m.shape;
  }

  /**
    Guard order: the element width is examined before the pack factors, so
    an fp16 request with equal pack factors is delegated rather than
    aliased; equal fp32 and int8 pack factors alias; 1 -> 8 is delegated for fp32 and 1 -> 4 for int8; int8 with
    padding is delegated although 1 -> 8 is its local pair, and without
    padding eight int8 rows are packed locally; six rows cannot be packed
    four-wide and alias instead.
   */
  lemma GuardOrderExamples()
    ensures Forward(Mat(PackedShape().(elemsize := 8), [[1, 3, 5, 7, 2, 4, 6, 8]]), 16, 4, false, Granted(0)) == Delegated
    ensures Forward(Rows(), 32, 8, false, Granted(0)) == Delegated
    ensures Forward(Rows(), 32, 1, false, Granted(0)) == Aliased(Rows())
    ensures Forward(EightByteRows(), 8, 1, false, Granted(0)) == Aliased(EightByteRows())
    ensures Forward(ByteRows(), 8, 4, false, Granted(0)) == Delegated
    ensures Forward(EightByteRows(), 8, 8, true, Granted(0)) == Delegated
    ensures Forward(EightByteRows(), 8, 8, false, Granted(1)).Transposed?
    ensures Forward(Mat(RowShape(1, 6, 4), [[0], [1], [2], [3], [4], [5]]), 32, 4, false, Granted(0))
            == Aliased(Mat(RowShape(1, 6, 4), [[0], [1], [2], [3], [4], [5]]))
  {
  }
}
