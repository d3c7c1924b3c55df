// Bytes, and numbers stored in them most significant byte first.

module Bytes {
  type Byte = b: int | 0 <= b < 256

  /** 256 to the power of `n` */
  function Pow256(n: nat): (p: nat)
    ensures p >= 1
  {
    if n == 0 then 1 else 256 * Pow256(n - 1)
  }

  function Load(bytes: seq<Byte>): (n: nat)
    ensures n < Pow256(|bytes|)
  {
    if bytes == [] then 0 else 256 * Load(bytes[..|bytes| - 1]) + bytes[|bytes| - 1]
  }

  function Low(n: nat): Byte
  {
    n % 256
  }

  function Store(n: nat, size: nat): (bytes: seq<Byte>)
    ensures |bytes| == size
  {
    if size == 0 then [] else Store(n / 256, size - 1) + [Low(n)]
  }

  lemma {:induction false} LoadStore(n: nat, size: nat)
    requires n < Pow256(size)
    ensures Load(Store(n, size)) == n
  {
    if size > 0 {
      LoadStore(n / 256, size - 1);
      assert Store(n, size)[..size - 1] == Store(n / 256, size - 1);
    }
  }

  lemma {:induction false} StoreLoad(bytes: seq<Byte>)
    ensures Store(Load(bytes), |bytes|) == bytes
  {
    if bytes != [] {
      var n := |bytes| - 1;
      StoreLoad(bytes[..n]);
      assert Load(bytes) / 256 == Load(bytes[..n]) && Low(Load(bytes)) == bytes[n];
    }
  }
}
