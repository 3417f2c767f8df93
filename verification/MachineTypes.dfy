/** Fixed-width integers, byte buffers and C strings, as the driver's C++ sees them. */
module MachineTypes {

  datatype Option<+T> = None | Some(value: T)

  const TWO_32: int := 0x1_0000_0000
  const TWO_64: int := 0x1_0000_0000_0000_0000

  type u8 = x: int | 0 <= x < 0x100
  type u16 = x: int | 0 <= x < 0x1_0000
  type u32 = x: int | 0 <= x < TWO_32
  type u64 = x: int | 0 <= x < TWO_64
  type i16 = x: int | -0x8000 <= x < 0x8000

  /** A conversion to int16_t keeps the low sixteen bits and reads them as two's complement. */
  function ToI16(x: int): i16 {
    var low := x % 0x1_0000;
    if low < 0x8000 then low else low - 0x1_0000
  }

  function Zeros(n: nat): (z: seq<u8>)
    ensures |z| == n
  {
    seq(n, _ => 0)
  }

  /** `bzero` of an n-byte buffer followed by a copy of s to its front. */
  function Padded(s: seq<u8>, n: nat): (b: seq<u8>)
    requires |s| <= n
    ensures |b| == n && b[..|s|] == s
    ensures forall i :: |s| <= i < n ==> b[i] == 0
  {
    s + Zeros(n - |s|)
  }

  /** The string a C function sees in a buffer: everything before the first zero byte. */
  function CString(s: seq<u8>): (c: seq<u8>)
    ensures |c| <= |s| && c == s[..|c|]
    ensures forall i :: 0 <= i < |c| ==> c[i] != 0
    ensures |c| < |s| ==> s[|c|] == 0
  {
    if s == [] || s[0] == 0 then [] else [s[0]] + CString(s[1..])
  }

  /** CString is the only prefix with these properties. */
  lemma {:induction false} CStringIs(s: seq<u8>, n: nat)
    requires n <= |s|
    requires forall i :: 0 <= i < n ==> s[i] != 0
    requires n < |s| ==> s[n] == 0
    ensures CString(s) == s[..n]
  {
    if n > 0 {
      CStringIs(s[1..], n - 1);
    }
  }
}
