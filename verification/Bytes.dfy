/** Bytes, public keys, 64-bit words and the little-endian codec that the program,
    the SDK and the rewards indexer share. */
module Bytes {

  type byte = x: int | 0 <= x < 256

  type Bytes32 = b: seq<byte> | |b| == 32 witness seq(32, _ => 0)

  /** A Solana address. Base58 text is another spelling of the same 32 bytes. */
  datatype Pubkey = Pubkey(bytes: Bytes32)

  const U64_MAX: nat := 0xFFFF_FFFF_FFFF_FFFF

  type u64 = x: int | 0 <= x <= U64_MAX

  function Pow256(k: nat): (p: nat)
    ensures p > 0
  {
    if k == 0 then 1 else 256 * Pow256(k - 1)
  }

  lemma Pow256Of8()
    ensures Pow256(8) == U64_MAX + 1
    ensures Pow256(4) == 0x1_0000_0000
  {
    assert Pow256(4) == 256 * Pow256(3);
    assert Pow256(2) == 256 * Pow256(1);
    assert Pow256(6) == 256 * Pow256(5);
    assert Pow256(8) == 256 * Pow256(7);
  }

  /** Reads a little-endian word of any width. */
  function FromLE(b: seq<byte>): (n: nat)
    ensures n < Pow256(|b|)
  {
    if b == [] then 0 else b[0] + 256 * FromLE(b[1..])
  }

  /** Writes `n` little-endian on exactly `k` bytes; reading it back gives `n`. */
  function ToLE(n: nat, k: nat): (b: seq<byte>)
    requires n < Pow256(k)
    ensures |b| == k && FromLE(b) == n
    decreases k
  {
    if k == 0 then [] else
      var b := [n % 256] + ToLE(n / 256, k - 1);
      assert b[1..] == ToLE(n / 256, k - 1);
      b
  }

  /** The codec is onto: any `k` bytes are the writing of the word they spell. */
  lemma {:induction false} ToLEFromLE(b: seq<byte>)
    ensures ToLE(FromLE(b), |b|) == b
  {
    if b != [] {
      ToLEFromLE(b[1..]);
      var n := FromLE(b);
      assert n % 256 == b[0] && n / 256 == FromLE(b[1..]);
      assert ToLE(n, |b|) == [b[0]] + ToLE(FromLE(b[1..]), |b| - 1);
    }
  }

  /** Little-endian: the first byte counts ones, and what follows k bytes counts 256^k. */
  lemma {:induction false} FromLEConcat(a: seq<byte>, b: seq<byte>)
    ensures FromLE(a + b) == FromLE(a) + Pow256(|a|) * FromLE(b)
    ensures |a| == 1 ==> FromLE(a) == a[0]
  {
    if a == [] {
      assert a + b == b;
    } else {
      assert (a + b)[1..] == a[1..] + b;
      FromLEConcat(a[1..], b);
      Shift(a[0], FromLE(a[1..]), Pow256(|a| - 1), FromLE(b));
      assert Pow256(|a|) == 256 * Pow256(|a| - 1);
    }
  }

  lemma Shift(x: int, m: int, p: int, n: int)
    ensures x + 256 * (m + p * n) == (x + 256 * m) + (256 * p) * n
  {
  }

  function U64LE(n: u64): (b: seq<byte>)
    ensures |b| == 8 && FromLE(b) == n
  {
    Pow256Of8();
    ToLE(n, 8)
  }

  lemma U64LEFromLE(b: seq<byte>)
    requires |b| == 8
    ensures FromLE(b) <= U64_MAX && U64LE(FromLE(b)) == b
  {
    Pow256Of8();
    ToLEFromLE(b);
  }

  lemma ToLEStep(n: nat, k: nat)
    requires 0 < k && n < Pow256(k)
    ensures n / 256 < Pow256(k - 1)
    ensures ToLE(n, k)[0] == n % 256 && ToLE(n, k)[1..] == ToLE(n / 256, k - 1)
  {
  }

  /** Node's `writeBigUInt64LE` and `writeUInt32LE` on a buffer, for a value in range. */
  method WriteLE(buf: array<byte>, v: nat, k: nat, off: nat)
    requires v < Pow256(k) && off + k <= buf.Length
    modifies buf
    ensures buf[..off + k] == old(buf[..off]) + ToLE(v, k)
    ensures buf[off + k..] == old(buf[off + k..])
  {
    hide ToLE, FromLE, Pow256;
    ghost var word := ToLE(v, k);
    var rest, i := v, 0;
    while i < k
      invariant 0 <= i <= k && 0 <= rest < Pow256(k - i)
      invariant ToLE(rest, k - i) == word[i..]
      invariant forall j :: 0 <= j < i ==> buf[off + j] == word[j]
      invariant forall j :: 0 <= j < off || off + i <= j < buf.Length ==> buf[j] == old(buf[j])
    {
      ToLEStep(rest, k - i);
      assert word[i] == word[i..][0] && word[i + 1..] == word[i..][1..];
      buf[off + i] := rest % 256;
      rest, i := rest / 256, i + 1;
    }
    assert buf[off..off + k] == word;
  }

  /** Node's `Buffer.copy` of a whole source into a target that has room for it. */
  method CopyInto(src: seq<byte>, buf: array<byte>, off: nat)
    requires off + |src| <= buf.Length
    modifies buf
    ensures buf[..off + |src|] == old(buf[..off]) + src
    ensures buf[off + |src|..] == old(buf[off + |src|..])
  {
    forall i | 0 <= i < |src| {
      buf[off + i] := src[i];
    }
  }

  /** Rust's `saturating_add` and `saturating_sub` on `u64`. */
  function SaturatingAdd(a: int, b: int): int {
    if a + b > U64_MAX then U64_MAX else a + b
  }

  function SaturatingSub(a: int, b: int): int {
    if a - b < 0 then 0 else a - b
  }
}
