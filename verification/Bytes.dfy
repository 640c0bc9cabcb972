/** Octets, fixed-width reduction and the few sequence facts that several modules share. */
module Bytes {

  type byte = x: int | 0 <= x < 256

  function Min(a: int, b: int): int {
    if a < b then a else b
  }

  /** The cast to UINT16. */
  function Low16(n: int): nat {
    n % 0x1_0000
  }

  lemma {:induction false} Low16Add(a: int, b: int)
    ensures Low16(Low16(a) + b) == Low16(a + b)
  {
    assert a == 0x1_0000 * (a / 0x1_0000) + a % 0x1_0000;
    assert (a % 0x1_0000 + b + 0x1_0000 * (a / 0x1_0000)) % 0x1_0000 == (a % 0x1_0000 + b) % 0x1_0000;
  }

  lemma {:induction false} Low16Small(n: nat)
    ensures Low16(n) == n <==> n < 0x1_0000
  {
  }

  /** A block of `n` zero octets, as ZeroMem leaves it. */
  function Zeros(n: nat): (z: seq<byte>)
    ensures |z| == n && forall i :: 0 <= i < n ==> z[i] == 0
  {
    seq(n, _ => 0)
  }

  datatype Option<+T> = None | Some(value: T)
}
