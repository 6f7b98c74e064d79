/** Fixed-width unsigned integers in either byte order. */
module Endian {
  import opened Base

  function Pow256(n: nat): (p: nat)
    ensures p >= 1
  {
    if n == 0 then 1 else 256 * Pow256(n - 1)
  }

  /** The low `n` bytes of `v`, least significant first. */
  function Little(v: nat, n: nat): (s: bytes)
    ensures |s| == n
  {
    if n == 0 then [] else [v % 256] + Little(v / 256, n - 1)
  }

  function FromLittle(s: bytes): nat {
    if s == [] then 0 else s[0] + 256 * FromLittle(s[1..])
  }

  /** The low `n` bytes of `v`, most significant first. */
  function Big(v: nat, n: nat): (s: bytes)
    ensures |s| == n
  {
    if n == 0 then [] else Big(v / 256, n - 1) + [v % 256]
  }

  function FromBig(s: bytes): nat {
    if s == [] then 0 else 256 * FromBig(s[..|s| - 1]) + s[|s| - 1]
  }

  /** Reading what was written gives the value back exactly when it fits the width. */
  lemma {:induction false} LittleReads(v: nat, n: nat)
    ensures FromLittle(Little(v, n)) == v <==> v < Pow256(n)
  {
    if n > 0 {
      LittleReads(v / 256, n - 1);
      assert Little(v, n)[1..] == Little(v / 256, n - 1);
    }
  }

  lemma {:induction false} BigReads(v: nat, n: nat)
    ensures FromBig(Big(v, n)) == v <==> v < Pow256(n)
  {
    if n > 0 {
      BigReads(v / 256, n - 1);
      assert Big(v, n)[..n - 1] == Big(v / 256, n - 1);
    }
  }

  /** Every byte string is the encoding of its value at its own width. */
  lemma {:induction false} LittleWrites(s: bytes)
    ensures FromLittle(s) < Pow256(|s|) && Little(FromLittle(s), |s|) == s
  {
    if s != [] {
      LittleWrites(s[1..]);
      assert FromLittle(s) / 256 == FromLittle(s[1..]) && FromLittle(s) % 256 == s[0];
      assert s == [s[0]] + s[1..];
    }
  }

  lemma {:induction false} BigWrites(s: bytes)
    ensures FromBig(s) < Pow256(|s|) && Big(FromBig(s), |s|) == s
  {
    if s != [] {
      BigWrites(s[..|s| - 1]);
      assert FromBig(s) / 256 == FromBig(s[..|s| - 1]) && FromBig(s) % 256 == s[|s| - 1];
      assert s == s[..|s| - 1] + [s[|s| - 1]];
    }
  }

  /** The two orders are mirror images. */
  lemma {:induction false} BigIsReversed(v: nat, n: nat, i: nat)
    requires i < n
    ensures Big(v, n)[i] == Little(v, n)[n - 1 - i]
  {
    if i < n - 1 {
      BigIsReversed(v / 256, n - 1, i);
    }
  }

  lemma Widths()
    ensures Pow256(1) == 0x100 && Pow256(2) == 0x1_0000 && Pow256(3) == 0x100_0000
    ensures Pow256(4) == 0x1_0000_0000 && Pow256(8) == 0x1_0000_0000_0000_0000
  {
    assert Pow256(4) == 256 * (256 * (256 * (256 * Pow256(0))));
    assert Pow256(8) == 256 * (256 * (256 * (256 * Pow256(4))));
  }
}
