/**
  The LoongArch LSX operations used by the fp32 fast path, as lane
  permutations on a 128-bit register viewed as four 32-bit lanes.

  The interleave intrinsics are foreign; the definitions below are their
  documented lane semantics (lane 0 is the lowest):
    vilvl.w a, b = [b0, a0, b1, a1]      vilvh.w a, b = [b2, a2, b3, a3]
    vilvl.d a, b = [b0, b1, a0, a1]      vilvh.d a, b = [b2, b3, a2, a3]
  where the .d forms move 64-bit halves, i.e. pairs of 32-bit lanes.
 */
module Lsx {

  /** A 128-bit register holding four 32-bit lanes. */
  datatype V128<T> = V128(l0: T, l1: T, l2: T, l3: T)

  /** Four registers: the operands or the results of one 4x4 block. */
  datatype Block<T> = Block(v0: V128<T>, v1: V128<T>, v2: V128<T>, v3: V128<T>)

  /** Lane k of a register. */
  function Lane<T>(v: V128<T>, k: nat): T
    requires k < 4
  {
    match k
    case 0 => v.l0
    case 1 => v.l1
    case 2 => v.l2
    case _ => v.l3
  }

  /** Register i of a block. */
  function Reg<T>(b: Block<T>, i: nat): V128<T>
    requires i < 4
  {
    match i
    case 0 => b.v0
    case 1 => b.v1
    case 2 => b.v2
    case _ => b.v3
  }

  /** The lanes of a register in memory order. */
  function Lanes<T>(v: V128<T>): seq<T>
  {
    [v.l0, v.l1, v.l2, v.l3]
  }

  /** `__lsx_vld(p + off, 0)`: four consecutive elements starting at off. */
  function Vld<T>(s: seq<T>, off: nat): (v: V128<T>)
    requires off + 4 <= |s|
    ensures Lanes(v) == s[off .. off + 4]
  {
    V128(s[off], s[off + 1], s[off + 2], s[off + 3])
  }

  /** `__lsx_vilvl_w(a, b)`: interleave the low words, b first. */
  function VilvlW<T>(a: V128<T>, b: V128<T>): V128<T>
  {
    V128(b.l0, a.l0, b.l1, a.l1)
  }

  /** `__lsx_vilvh_w(a, b)`: interleave the high words, b first. */
  function VilvhW<T>(a: V128<T>, b: V128<T>): V128<T>
  {
    V128(b.l2, a.l2, b.l3, a.l3)
  }

  /** `__lsx_vilvl_d(a, b)`: low doubleword of b, then low doubleword of a. */
  function VilvlD<T>(a: V128<T>, b: V128<T>): V128<T>
  {
    V128(b.l0, b.l1, a.l0, a.l1)
  }

  /** `__lsx_vilvh_d(a, b)`: high doubleword of b, then high doubleword of a. */
  function VilvhD<T>(a: V128<T>, b: V128<T>): V128<T>
  {
    V128(b.l2, b.l3, a.l2, a.l3)
  }

  /**
    The eight-shuffle network of the "transpose 4x4" blocks: word
    interleaves pair up registers 0/1 and 2/3, doubleword interleaves
    then join the pairs. Register i of the result gathers lane i of every
    operand register, so the network is a matrix transpose.
   */
  function Transpose4x4<T>(r: Block<T>): (t: Block<T>)
    ensures forall i, k :: 0 <= i < 4 && 0 <= k < 4 ==> Lane(Reg(t, i), k) == Lane(Reg(r, k), i)
  {
    var r01r := VilvlW(r.v1, r.v0);
    var r01l := VilvhW(r.v1, r.v0);
    var r23r := VilvlW(r.v3, r.v2);
    var r23l := VilvhW(r.v3, r.v2);
    Block(VilvlD(r23r, r01r), VilvhD(r23r, r01r), VilvlD(r23l, r01l), VilvhD(r23l, r01l))
  }

  /**
    Transposing twice gives the block back, which is why the same network
    serves both the packing and the unpacking direction.
   */
  lemma TransposeInvolution<T>(r: Block<T>)
    ensures Transpose4x4(Transpose4x4(r)) == r
  {
    var t := Transpose4x4(r);
    var u := Transpose4x4(t);
    forall i, k | 0 <= i < 4 && 0 <= k < 4
      ensures Lane(Reg(u, i), k) == Lane(Reg(r, i), k)
    {
      assert Lane(Reg(u, i), k) == Lane(Reg(t, k), i);
    }
    assert u.v0 == Reg(u, 0) && r.v0 == Reg(r, 0);
    assert u.v1 == Reg(u, 1) && r.v1 == Reg(r, 1);
    assert u.v2 == Reg(u, 2) && r.v2 == Reg(r, 2);
    assert u.v3 == Reg(u, 3) && r.v3 == Reg(r, 3);
  }

  /** The sixteen values that four `__lsx_vst` of a block write, in memory order. */
  function Stored<T>(b: Block<T>): seq<T>
  {
    Lanes(b.v0) + Lanes(b.v1) + Lanes(b.v2) + Lanes(b.v3)
  }
}
