/** Big-endian integers and copies into byte buffers. */
module Buffers {
  import opened GoStrings

  function Be16(n: nat): Str
    requires n < 0x1_0000
  {
    [n / 0x100, n % 0x100]
  }

  function Be32(n: nat): Str
    requires n < 0x1_0000_0000
  {
    Be16(n / 0x1_0000) + Be16(n % 0x1_0000)
  }

  function FromBe16(s: Str): nat
    requires |s| == 2
  {
    var hi: nat := s[0];
    hi * 0x100 + s[1]
  }

  function FromBe32(s: Str): nat
    requires |s| == 4
  {
    FromBe16(s[..2]) * 0x1_0000 + FromBe16(s[2..])
  }

  lemma Be16RoundTrip(n: nat, s: Str)
    ensures n < 0x1_0000 ==> FromBe16(Be16(n)) == n
    ensures |s| == 2 ==> FromBe16(s) < 0x1_0000 && Be16(FromBe16(s)) == s
  {
  }

  lemma Be32RoundTrip(n: nat, s: Str)
    ensures n < 0x1_0000_0000 ==> FromBe32(Be32(n)) == n
    ensures |s| == 4 ==> FromBe32(s) < 0x1_0000_0000 && Be32(FromBe32(s)) == s
  {
    if n < 0x1_0000_0000 {
      assert Be32(n)[..2] == Be16(n / 0x1_0000) && Be32(n)[2..] == Be16(n % 0x1_0000);
      Be16RoundTrip(n / 0x1_0000, []);
      Be16RoundTrip(n % 0x1_0000, []);
    }
    if |s| == 4 {
      Be16RoundTrip(0, s[..2]);
      Be16RoundTrip(0, s[2..]);
      assert s == s[..2] + s[2..];
    }
  }

  /** One `copy` into a buffer. */
  method CopyAt(out: array<byte>, offset: nat, s: Str)
    requires offset + |s| <= out.Length
    modifies out
    ensures out[..] == old(out[..offset]) + s + old(out[offset + |s|..])
  {
    for i := 0 to |s|
      invariant out[..] == old(out[..offset]) + s[..i] + old(out[offset + i..])
    {
      out[offset + i] := s[i];
    }
    assert s[..|s|] == s;
  }
}
