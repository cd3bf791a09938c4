/** Bytes, as 8-bit numbers. */
module Bytes {
  type byte = b: int | 0 <= b < 256

  function Zeros(n: nat): seq<byte> {
    seq(n, _ => 0)
  }

  /** Copies bytes to the given place in an array. */
  method Put(buf: array<byte>, at: nat, bytes: seq<byte>)
    requires at + |bytes| <= buf.Length
    modifies buf
    ensures buf[at..at + |bytes|] == bytes
    ensures forall i :: 0 <= i < buf.Length && !(at <= i < at + |bytes|) ==> buf[i] == old(buf[i])
  {
    for k := 0 to |bytes|
      invariant buf[at..at + k] == bytes[..k]
      invariant forall i :: 0 <= i < buf.Length && !(at <= i < at + k) ==> buf[i] == old(buf[i])
    {
      buf[at + k] := bytes[k];
      assert buf[at..at + k + 1] == buf[at..at + k] + [bytes[k]];
    }
  }
}
