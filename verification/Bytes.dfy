/** Byte strings, fixed-width words and the big-endian codecs every hash pre-image is built from. */
module Bytes {
  type Byte = x: int | 0 <= x < 256

  const TWO63: int := 0x8000_0000_0000_0000
  const TWO64: int := 0x1_0000_0000_0000_0000
  const TWO128: int := 0x1_0000_0000_0000_0000_0000_0000_0000_0000
  const TWO256: int := 0x1_0000_0000_0000_0000_0000_0000_0000_0000_0000_0000_0000_0000_0000_0000_0000_0000

  type Uint64 = x: int | 0 <= x < TWO64
  type Address = b: seq<Byte> | |b| == 20 witness seq(20, _ => 0)
  type Hash = b: seq<Byte> | |b| == 32 witness seq(32, _ => 0)


  function Pow256(k: nat): (p: nat)
    ensures p > 0
  {
    if k == 0 then 1 else 256 * Pow256(k - 1)
  }

  function Zeros(k: nat): (z: seq<Byte>) {
    seq(k, _ => 0)
  }

  /** The k low-order bytes of n, most significant first. */
  function ToBE(n: nat, k: nat): (b: seq<Byte>)
    ensures |b| == k
  {
    if k == 0 then [] else ToBE(n / 256, k - 1) + [n % 256]
  }

  function FromBE(b: seq<Byte>): nat {
    if b == [] then 0 else FromBE(b[..|b| - 1]) * 256 + b[|b| - 1]
  }

  /** big.Int's Bytes(): no leading zero, and nothing at all for zero. */
  function MinimalBytes(n: nat): seq<Byte> {
    if n == 0 then [] else MinimalBytes(n / 256) + [n % 256]
  }

  /** common.LeftPadBytes: a slice already at least that long is returned as it is. */
  function LeftPad(b: seq<Byte>, k: nat): seq<Byte> {
    if k <= |b| then b else Zeros(k - |b|) + b
  }

  function Word(n: nat): Hash {
    ToBE(n, 32)
  }

  lemma Pow256Values()
    ensures Pow256(8) == TWO64
    ensures Pow256(32) == TWO256
  {
    assert Pow256(4) == 0x1_0000_0000;
    assert Pow256(8) == TWO64;
    assert Pow256(12) == TWO64 * 0x1_0000_0000;
    assert Pow256(16) == TWO128;
    assert Pow256(20) == TWO128 * 0x1_0000_0000;
    assert Pow256(24) == TWO128 * TWO64;
    assert Pow256(28) == TWO128 * TWO64 * 0x1_0000_0000;
  }

  lemma {:induction false} FromToBE(n: nat, k: nat)
    requires n < Pow256(k)
    ensures FromBE(ToBE(n, k)) == n
  {
    if k > 0 {
      FromToBE(n / 256, k - 1);
      assert ToBE(n, k)[..k - 1] == ToBE(n / 256, k - 1);
    }
  }

  lemma {:induction false} ToFromBE(b: seq<Byte>)
    ensures FromBE(b) < Pow256(|b|)
    ensures ToBE(FromBE(b), |b|) == b
  {
    if b != [] {
      ToFromBE(b[..|b| - 1]);
    }
  }

  lemma WordRoundTrip(n: nat)
    requires n < TWO256
    ensures FromBE(Word(n)) == n
  {
    Pow256Values();
    FromToBE(n, 32);
  }

  /** Padding the minimal bytes of a number that fits gives the fixed-width word. */
  lemma {:induction false} PaddedMinimalBytes(n: nat, k: nat)
    ensures n < Pow256(k) ==> LeftPad(MinimalBytes(n), k) == ToBE(n, k)
    ensures n < Pow256(k) <==> |MinimalBytes(n)| <= k
  {
    if n == 0 {
      ZeroWord(k);
    } else if k > 0 {
      PaddedMinimalBytes(n / 256, k - 1);
    }
  }

  lemma {:induction false} ZeroWord(k: nat)
    ensures ToBE(0, k) == Zeros(k)
  {
    if k > 0 {
      ZeroWord(k - 1);
    }
  }

  lemma {:induction false} MinimalBytesRoundTrip(n: nat)
    ensures FromBE(MinimalBytes(n)) == n
  {
    if n > 0 {
      MinimalBytesRoundTrip(n / 256);
      assert MinimalBytes(n)[..|MinimalBytes(n)| - 1] == MinimalBytes(n / 256);
    }
  }
}
