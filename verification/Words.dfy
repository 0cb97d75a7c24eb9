/** Machine words as bounded integers, and the big-endian byte coding that every wire format here uses. */
module Words {

  type byte = x: int | 0 <= x < 0x100
  type u16 = x: int | 0 <= x < 0x1_0000
  type u32 = x: int | 0 <= x < 0x1_0000_0000
  type u64 = x: int | 0 <= x < 0x1_0000_0000_0000_0000
  type Bytes = seq<byte>

  const USIZE_MAX: nat := 0xFFFF_FFFF_FFFF_FFFF

  /** Rust's `usize::saturating_add` on a 64-bit target. */
  function SatAdd(a: nat, b: nat): nat { if a + b > USIZE_MAX then USIZE_MAX else a + b }

  /** Rust's `saturating_sub` on unsigned words (and `Instant::duration_since`). */
  function SatSub(a: nat, b: nat): nat { if a < b then 0 else a - b }

  function Pow256(n: nat): (p: nat)
    ensures p > 0
  {
    if n == 0 then 1 else 256 * Pow256(n - 1)
  }

  lemma Pow256Values()
    ensures Pow256(2) == 0x1_0000
    ensures Pow256(4) == 0x1_0000_0000
    ensures Pow256(8) == 0x1_0000_0000_0000_0000
  {
    assert Pow256(3) == 0x100_0000;
    assert Pow256(5) == 0x100_0000_0000;
    assert Pow256(6) == 0x1_0000_0000_0000;
  }

  /** The `n` low-order bytes of `v`, most significant first (`to_be_bytes`; larger values are truncated). */
  function Be(v: nat, n: nat): (s: Bytes)
    ensures |s| == n
  {
    if n == 0 then [] else Be(v / 256, n - 1) + [v % 256]
  }

  function FromBe(s: Bytes): (v: nat)
  {
    if s == [] then 0 else FromBe(s[..|s| - 1]) * 256 + s[|s| - 1]
  }

  lemma {:induction false} FromBeBound(s: Bytes)
    ensures FromBe(s) < Pow256(|s|)
  {
    if s != [] {
      FromBeBound(s[..|s| - 1]);
    }
  }

  /** A value that fits `n` bytes survives encoding. */
  lemma {:induction false} FromBeOfBe(v: nat, n: nat)
    requires v < Pow256(n)
    ensures FromBe(Be(v, n)) == v
  {
    if n > 0 {
      FromBeOfBe(v / 256, n - 1);
      assert Be(v, n)[..n - 1] == Be(v / 256, n - 1);
    }
  }

  lemma {:induction false} BeOfFromBe(s: Bytes)
    ensures Be(FromBe(s), |s|) == s
  {
    if s != [] {
      BeOfFromBe(s[..|s| - 1]);
      assert s == s[..|s| - 1] + [s[|s| - 1]];
    }
  }

  function Value2(a: int, b: int): int { 0x100 * a + b }

  function Value4(a: int, b: int, c: int, d: int): int { 0x100_0000 * a + 0x1_0000 * b + 0x100 * c + d }

  lemma TwoBytes(s: Bytes)
    requires |s| == 2
    ensures FromBe(s) == Value2(s[0], s[1])
  {
    assert s[..1][..0] == [];
    assert FromBe(s[..1]) == FromBe([]) * 256 + s[0];
  }

  lemma FourBytes(s: Bytes)
    requires |s| == 4
    ensures FromBe(s) == Value4(s[0], s[1], s[2], s[3])
  {
    assert s[..3][..2] == s[..2];
    TwoBytes(s[..2]);
    assert FromBe(s[..3]) == FromBe(s[..2]) * 256 + s[2];
  }

  function Be16(v: u16): Bytes { Be(v, 2) }
  function Be32(v: u32): Bytes { Be(v, 4) }
  function Be64(v: u64): Bytes { Be(v, 8) }

  function Get16(s: Bytes): u16
    requires |s| == 2
  {
    FromBeBound(s); Pow256Values(); FromBe(s)
  }

  function Get32(s: Bytes): u32
    requires |s| == 4
  {
    FromBeBound(s); Pow256Values(); FromBe(s)
  }

  function Get64(s: Bytes): u64
    requires |s| == 8
  {
    FromBeBound(s); Pow256Values(); FromBe(s)
  }

  lemma Words16(v: u16, s: Bytes)
    requires |s| == 2
    ensures Get16(Be16(v)) == v
    ensures Be16(Get16(s)) == s
  {
    Pow256Values();
    FromBeOfBe(v, 2);
    BeOfFromBe(s);
  }

  lemma Words32(v: u32, s: Bytes)
    requires |s| == 4
    ensures Get32(Be32(v)) == v
    ensures Be32(Get32(s)) == s
  {
    Pow256Values();
    FromBeOfBe(v, 4);
    BeOfFromBe(s);
  }

  lemma Words64(v: u64, s: Bytes)
    requires |s| == 8
    ensures Get64(Be64(v)) == v
    ensures Be64(Get64(s)) == s
  {
    Pow256Values();
    FromBeOfBe(v, 8);
    BeOfFromBe(s);
  }
}

module Options {
  datatype Option<+T> = None | Some(value: T)
}
