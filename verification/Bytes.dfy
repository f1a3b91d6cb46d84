/** Bytes, integers stored in them lowest byte first, and the bounds of machine integers, names and paths. */
module Bytes {

  const TWO_15: nat := 0x8000
  const TWO_31: nat := 0x8000_0000
  const TWO_32: nat := 0x1_0000_0000
  const TWO_63: nat := 0x8000_0000_0000_0000
  const TWO_64: nat := 0x1_0000_0000_0000_0000

  const NAME_MAX: nat := 255
  const PATH_MAX: nat := 4096

  newtype byte = x: int | 0 <= x < 256

  /** The value of `x` kept in a 32-bit int */
  function Signed32(x: int): (r: int)
    ensures 0 <= x < TWO_31 ==> r == x
    ensures 0 <= x ==> r <= x
  {
    var m := x % TWO_32;
    if m < TWO_31 then m else m - TWO_32
  }

  function One(b: bool): nat {
    if b then 1 else 0
  }

  datatype Option<+T> = None | Some(value: T)

  function Pow256(k: nat): (r: nat)
    ensures r >= 1
  {
    if k == 0 then 1 else 256 * Pow256(k - 1)
  }

  /** The `k` lowest bytes of `n`, as cpu_to_le16, 32 and 64 store them. */
  function Encode(n: nat, k: nat): (s: seq<byte>)
    ensures |s| == k
  {
    if k == 0 then [] else [(n % 256) as byte] + Encode(n / 256, k - 1)
  }

  function Decode(s: seq<byte>): nat {
    if s == [] then 0 else s[0] as nat + 256 * Decode(s[1..])
  }

  lemma {:induction false} DecodeEncode(n: nat, k: nat)
    requires n < Pow256(k)
    ensures Decode(Encode(n, k)) == n
  {
    if k > 0 {
      DecodeEncode(n / 256, k - 1);
      assert Encode(n, k)[1..] == Encode(n / 256, k - 1);
    }
  }

  lemma Pow256Values()
    ensures Pow256(4) == 0x1_0000_0000 && Pow256(8) == 0x1_0000_0000_0000_0000
  {
    assert Pow256(2) == 0x1_0000;
    assert Pow256(4) == 0x1_0000 * Pow256(2);
    assert Pow256(6) == 0x1_0000 * Pow256(4);
    assert Pow256(8) == 0x1_0000 * Pow256(6);
  }
}
