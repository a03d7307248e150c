// The SSE intrinsics the burst code uses, on 128-bit registers seen as eight
// 16-bit lanes with lane 0 the least significant.
module Sse {
  import opened Words

  type Vec = v: seq<uint16> | |v| == 8 witness [0, 0, 0, 0, 0, 0, 0, 0]

  // _mm_loadu_si128
  function LoadU(a: seq<uint16>, at: nat): Vec
    requires at + 8 <= |a|
  {
    a[at..at + 8]
  }

  // _mm_cmpeq_epi16
  function CmpEq16(a: Vec, b: Vec): Vec {
    seq(8, i requires 0 <= i < 8 => if a[i] == b[i] then 0xFFFF else 0)
  }

  // _mm_unpacklo_epi16
  function UnpackLo16(a: Vec, b: Vec): Vec {
    [a[0], b[0], a[1], b[1], a[2], b[2], a[3], b[3]]
  }

  function SignBit(x: uint16): nat {
    x / 0x8000
  }

  // _mm_movemask_ps: the sign bits of the four 32-bit lanes.
  function MoveMaskPs(a: Vec): nat {
    SignBit(a[1]) + 2 * SignBit(a[3]) + 4 * SignBit(a[5]) + 8 * SignBit(a[7])
  }

  // _mm_movemask_epi8: the sign bits of the sixteen bytes.
  function MoveMaskEpi8(a: Vec, lanes: nat := 8): nat
    requires lanes <= 8
  {
    if lanes == 0 then 0
    else
      var x := a[8 - lanes];
      (x % 0x100) / 0x80 + 2 * SignBit(x) + 4 * MoveMaskEpi8(a, lanes - 1)
  }

  // _mm_srli_si128 by 2 * n bytes: lanes move down, zeroes come in.
  function ShiftRightLanes(a: Vec, n: nat): Vec
    requires n <= 8
  {
    a[n..] + seq(n, _ => 0)
  }

  // _mm_shufflelo_epi16: two bits of imm choose each of the low four lanes.
  function ShuffleLo16(a: Vec, imm: uint8): Vec {
    [a[imm % 4], a[imm / 4 % 4], a[imm / 16 % 4], a[imm / 64]] + a[4..]
  }
}
