/** Little-endian integers in byte strings. */
module Bytes {
  import opened Base

  type Byte = U8
  type Data = seq<Byte>

  function Pow256(w: nat): (p: nat)
    ensures p >= 1
  {
    if w == 0 then 1 else 256 * Pow256(w - 1)
  }

  function ToLe(n: nat, w: nat): (b: Data)
    ensures |b| == w
  {
    if w == 0 then [] else [n % 256] + ToLe(n / 256, w - 1)
  }

  function FromLe(b: Data): (n: nat)
    ensures n < Pow256(|b|)
  {
    if b == [] then 0 else b[0] + 256 * FromLe(b[1..])
  }

  lemma {:induction false} LeRoundTrip(n: nat, w: nat)
    requires n < Pow256(w)
    ensures FromLe(ToLe(n, w)) == n
  {
    if w > 0 {
      LeRoundTrip(n / 256, w - 1);
      assert ToLe(n, w)[1..] == ToLe(n / 256, w - 1);
    }
  }

  lemma {:induction false} LeIsFaithful(b: Data)
    ensures ToLe(FromLe(b), |b|) == b
  {
    if b != [] {
      LeIsFaithful(b[1..]);
      assert FromLe(b) % 256 == b[0] && FromLe(b) / 256 == FromLe(b[1..]);
      assert b == [b[0]] + b[1..];
    }
  }

  lemma Widths()
    ensures Pow256(1) == 0x100 && Pow256(4) == 0x1_0000_0000 && Pow256(8) == 0x1_0000_0000_0000_0000
  {
    assert Pow256(2) == 0x1_0000 && Pow256(3) == 0x100_0000;
    assert Pow256(5) == 0x100_0000_0000 && Pow256(6) == 0x1_0000_0000_0000 && Pow256(7) == 0x100_0000_0000_0000;
  }

  lemma RoundTrip32(n: U32)
    ensures FromLe(ToLe(n, 4)) == n
  {
    Widths();
    LeRoundTrip(n, 4);
  }

  lemma RoundTrip64(n: U64)
    ensures FromLe(ToLe(n, 8)) == n
  {
    Widths();
    LeRoundTrip(n, 8);
  }

  function Le32(b: Data): (n: U32)
    requires |b| == 4
  {
    Widths();
    FromLe(b)
  }

  function Le64(b: Data): (n: U64)
    requires |b| == 8
  {
    Widths();
    FromLe(b)
  }

  lemma Reads32(n: U32)
    ensures Le32(ToLe(n, 4)) == n
  {
    RoundTrip32(n);
  }

  lemma Reads64(n: U64)
    ensures Le64(ToLe(n, 8)) == n
  {
    RoundTrip64(n);
  }

  // ---- The byte order ----

  lemma FirstTwo(b: Data)
    requires |b| >= 2
    ensures FromLe(b) == b[0] as int + 0x100 * b[1] as int + 0x1_0000 * FromLe(b[2..])
  {
    assert b[1..][1..] == b[2..];
  }

  lemma FirstFour(b: Data)
    requires |b| >= 4
    ensures FromLe(b) == b[0] as int + 0x100 * b[1] as int + 0x1_0000 * b[2] as int + 0x100_0000 * b[3] as int
                         + 0x1_0000_0000 * FromLe(b[4..])
  {
    FirstTwo(b);
    FirstTwo(b[2..]);
    assert b[2..][2..] == b[4..];
  }

  lemma FourBytes(b: Data)
    requires |b| == 4
    ensures Le32(b) as int == b[0] as int + 0x100 * b[1] as int + 0x1_0000 * b[2] as int + 0x100_0000 * b[3] as int
  {
    FirstFour(b);
  }

  lemma EightBytes(b: Data)
    requires |b| == 8
    ensures Le64(b) as int == Le32(b[..4]) as int + 0x1_0000_0000 * Le32(b[4..]) as int
  {
    FirstFour(b);
    FourBytes(b[..4]);
  }
}
