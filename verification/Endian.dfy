/** Little-endian fields of fixed width. */
module Endian {
  import opened Lex

  type u16 = x: int | 0 <= x < 0x1_0000
  type u32 = x: int | 0 <= x < 0x1_0000_0000
  type u64 = x: int | 0 <= x < 0x1_0000_0000_0000_0000

  function Le(n: nat, x: nat): (r: bytes)
    ensures |r| == n
  {
    if n == 0 then [] else [x % 256] + Le(n - 1, x / 256)
  }

  function FromLe(s: bytes): nat {
    if s == [] then 0 else s[0] + 256 * FromLe(s[1..])
  }

  function Pow256(n: nat): nat {
    if n == 0 then 1 else 256 * Pow256(n - 1)
  }

  lemma {:induction false} LeFromLe(n: nat, x: nat)
    requires x < Pow256(n)
    ensures FromLe(Le(n, x)) == x
  {
    if n > 0 {
      LeFromLe(n - 1, x / 256);
      assert Le(n, x)[1..] == Le(n - 1, x / 256);
    }
  }

  lemma {:induction false} FromLeLe(s: bytes)
    ensures FromLe(s) < Pow256(|s|)
    ensures Le(|s|, FromLe(s)) == s
  {
    if s != [] {
      FromLeLe(s[1..]);
      assert s == [s[0]] + s[1..];
      LowByte(s[0], FromLe(s[1..]));
      assert Le(|s|, FromLe(s)) == [s[0]] + Le(|s| - 1, FromLe(s[1..]));
    }
  }

  lemma LowByte(b: byte, x: nat)
    ensures (b + 256 * x) % 256 == b && (b + 256 * x) / 256 == x
  {
  }

  lemma Powers()
    ensures Pow256(2) == 0x1_0000 && Pow256(4) == 0x1_0000_0000 && Pow256(8) == 0x1_0000_0000_0000_0000
  {
    assert Pow256(2) == 256 * Pow256(1);
    assert Pow256(4) == 256 * Pow256(3) == 65536 * Pow256(2);
    assert Pow256(6) == 256 * Pow256(5) == 65536 * Pow256(4);
    assert Pow256(8) == 256 * Pow256(7) == 65536 * Pow256(6);
  }

  /** Writing a field and reading it are inverse to each other. */
  function U16(x: u16): (r: bytes)
    ensures |r| == 2 && FromLe(r) == x
  {
    Powers(); LeFromLe(2, x);
    Le(2, x)
  }

  function U32(x: u32): (r: bytes)
    ensures |r| == 4 && FromLe(r) == x
  {
    Powers(); LeFromLe(4, x);
    Le(4, x)
  }

  function U64(x: u64): (r: bytes)
    ensures |r| == 8 && FromLe(r) == x
  {
    Powers(); LeFromLe(8, x);
    Le(8, x)
  }

  function ReadU16(s: bytes): (r: u16)
    requires |s| == 2
    ensures U16(r) == s
  {
    Powers(); FromLeLe(s);
    FromLe(s)
  }

  function ReadU32(s: bytes): (r: u32)
    requires |s| == 4
    ensures U32(r) == s
  {
    Powers(); FromLeLe(s);
    FromLe(s)
  }

  function ReadU64(s: bytes): (r: u64)
    requires |s| == 8
    ensures U64(r) == s
  {
    Powers(); FromLeLe(s);
    FromLe(s)
  }
}
