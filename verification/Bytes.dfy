/** Byte strings, digests and the big-endian integers they stand for. */
module Bytes {
  type Byte = x: int | 0 <= x < 256

  const DIGEST_LENGTH := 32

  type Digest = d: seq<Byte> | |d| == DIGEST_LENGTH witness seq(DIGEST_LENGTH, _ => 0)

  const ZERO_DIGEST: Digest :=
    [0, 0, 0, 0, 0, 0, 0, 0, 0, 0, 0, 0, 0, 0, 0, 0, 0, 0, 0, 0, 0, 0, 0, 0, 0, 0, 0, 0, 0, 0, 0, 0]

  /** The integer a byte string stands for, most significant byte first. */
  function Int(bs: seq<Byte>): (n: nat) {
    if bs == [] then 0 else Int(bs[..|bs| - 1]) * 256 + bs[|bs| - 1]
  }

  /** The shortest byte string for n; zero is the empty string. */
  function NatBytes(n: nat): (bs: seq<Byte>)
    ensures Int(bs) == n
  {
    if n == 0 then [] else
      var front := NatBytes(n / 256);
      assert (front + [n % 256])[..|front|] == front;
      front + [n % 256]
  }
}
