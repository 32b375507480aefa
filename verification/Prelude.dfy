/** Types and byte-string notation shared by every module of the model. */
module Prelude {

  type Byte = b: int | 0 <= b < 256

  type Bytes = seq<Byte>

  datatype Option<+T> = None | Some(value: T)

  function Min(a: int, b: int): int {
    if a < b then a else b
  }

  function Max(a: int, b: int): int {
    if a < b then b else a
  }

  function Zeros(n: nat): Bytes {
    seq(n, _ => 0)
  }
}

/** Big-endian packing: `struct.pack(">Q", n)` and `int.to_bytes(8, "big")`. */
module BigEndian {
  import opened Prelude

  /** First value that eight bytes cannot hold; the source raises from here on. */
  const LIMIT: nat := 0x1_0000_0000_0000_0000

  function Pow256(k: nat): (p: nat)
    ensures p > 0
  {
    if k == 0 then 1 else 256 * Pow256(k - 1)
  }

  function Pack(n: nat, width: nat): (r: Bytes)
    requires n < Pow256(width)
    ensures |r| == width
  {
    if width == 0 then [] else Pack(n / 256, width - 1) + [n % 256]
  }

  function Unpack(s: Bytes): (n: nat)
    ensures n < Pow256(|s|)
  {
    if s == [] then 0 else 256 * Unpack(s[..|s| - 1]) + s[|s| - 1]
  }

  lemma {:induction false} UnpackOfPack(n: nat, width: nat)
    requires n < Pow256(width)
    ensures Unpack(Pack(n, width)) == n
  {
    if width > 0 {
      UnpackOfPack(n / 256, width - 1);
      assert Pack(n, width)[..width - 1] == Pack(n / 256, width - 1);
    }
  }

  lemma {:induction false} PackOfUnpack(s: Bytes)
    ensures Pack(Unpack(s), |s|) == s
  {
    if s != [] {
      PackOfUnpack(s[..|s| - 1]);
      assert s == s[..|s| - 1] + [s[|s| - 1]];
    }
  }

  lemma EightBytes()
    ensures Pow256(8) == LIMIT
  {
    assert Pow256(4) == 0x1_0000_0000;
  }

  /** The eight big-endian bytes of a number that fits. */
  function Pack64(n: nat): (r: Bytes)
    requires n < LIMIT
    ensures |r| == 8 && Unpack(r) == n
  {
    EightBytes();
    UnpackOfPack(n, 8);
    Pack(n, 8)
  }

  /** Any eight bytes are the packing of the number they unpack to. */
  lemma Pack64OfUnpack(s: Bytes)
    requires |s| == 8
    ensures Unpack(s) < LIMIT && Pack64(Unpack(s)) == s
  {
    EightBytes();
    PackOfUnpack(s);
  }

  /** The byte order: the first byte is the most significant one. */
  lemma {:induction false} MostSignificantFirst(b: Byte, s: Bytes)
    ensures Unpack([b] + s) == b * Pow256(|s|) + Unpack(s)
  {
    if s == [] {
      assert ([b] + s)[..0] == [];
      assert b * Pow256(0) == b;
    } else {
      var front := s[..|s| - 1];
      assert ([b] + s)[..|s|] == [b] + front;
      MostSignificantFirst(b, front);
      assert 256 * (b * Pow256(|front|)) == b * (256 * Pow256(|front|));
    }
  }
}
