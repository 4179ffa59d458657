/** Fixed-width integers byte by byte. */
module Digits {
  import opened Bytes
  import Cursor

  lemma FourLittle(a: byte, b: byte, c: byte, d: byte)
    ensures FromLittleEndian([a, b, c, d]) == a as nat + 256 * b as nat + 65536 * c as nat + 16777216 * d as nat
  {
    assert [a, b, c, d][1..] == [b, c, d] && [b, c, d][1..] == [c, d] && [c, d][1..] == [d];
    assert FromLittleEndian([d]) == d as nat;
    assert FromLittleEndian([c, d]) == c as nat + 256 * d as nat;
    assert FromLittleEndian([b, c, d]) == b as nat + 256 * c as nat + 65536 * d as nat;
  }

  lemma FourBig(a: byte, b: byte, c: byte, d: byte)
    ensures FromBigEndian([a, b, c, d]) == 16777216 * a as nat + 65536 * b as nat + 256 * c as nat + d as nat
  {
    assert [a, b, c, d][..3] == [a, b, c] && [a, b, c][..2] == [a, b] && [a, b][..1] == [a];
    assert FromBigEndian([a]) == a as nat;
    assert FromBigEndian([a, b]) == 256 * a as nat + b as nat;
    assert FromBigEndian([a, b, c]) == 65536 * a as nat + 256 * b as nat + c as nat;
  }

  lemma TwoBig(a: byte, b: byte)
    ensures FromBigEndian([a, b]) == 256 * a as nat + b as nat
  {
    assert [a, b][..1] == [a];
    assert FromBigEndian([a]) == a as nat;
  }

  /** Four bytes from p on, the first one the least significant. */
  function Little4(b: Bytes, p: nat): nat
    requires p + 4 <= |b|
  {
    b[p] as nat + 256 * b[p + 1] as nat + 65536 * b[p + 2] as nat + 16777216 * b[p + 3] as nat
  }

  /** Four bytes from p on, the first one the most significant. */
  function Big4(b: Bytes, p: nat): nat
    requires p + 4 <= |b|
  {
    16777216 * b[p] as nat + 65536 * b[p + 1] as nat + 256 * b[p + 2] as nat + b[p + 3] as nat
  }

  function Little8(b: Bytes, p: nat): nat
    requires p + 8 <= |b|
  {
    Little4(b, p) + 0x1_0000_0000 * Little4(b, p + 4)
  }

  function Big8(b: Bytes, p: nat): nat
    requires p + 8 <= |b|
  {
    0x1_0000_0000 * Big4(b, p) + Big4(b, p + 4)
  }

  lemma LittleField(x: nat)
    requires x < TWO_32
    ensures Little4(LittleEndian(x, 4), 0) == x
  {
    Cursor.FourBytes();
    LittleEndianRoundTrip(x, 4);
    hide LittleEndian, FromLittleEndian;
    var d := LittleEndian(x, 4);
    FourLittle(d[0], d[1], d[2], d[3]);
    assert d == [d[0], d[1], d[2], d[3]];
  }

  lemma BigField(x: nat)
    requires x < TWO_32
    ensures Big4(BigEndian(x, 4), 0) == x
  {
    Cursor.FourBytes();
    BigEndianRoundTrip(x, 4);
    hide BigEndian, FromBigEndian;
    var d := BigEndian(x, 4);
    FourBig(d[0], d[1], d[2], d[3]);
    assert d == [d[0], d[1], d[2], d[3]];
  }

  lemma BigShort(x: nat)
    requires x < 65536
    ensures var d := BigEndian(x, 2); 256 * d[0] as nat + d[1] as nat == x
  {
    assert Pow256(1) == 256 && Pow256(2) == 65536;
    BigEndianRoundTrip(x, 2);
    hide BigEndian, FromBigEndian, Pow256;
    var d := BigEndian(x, 2);
    TwoBig(d[0], d[1]);
    assert d == [d[0], d[1]];
  }

  /** Eight bytes are two groups of four. */
  lemma EightLittle(d: Bytes)
    requires |d| == 8
    ensures FromLittleEndian(d) == Little8(d, 0)
  {
    var e := d[4..];
    assert d[1..][1..] == d[2..] && d[2..][1..] == d[3..] && d[3..][1..] == e;
    var f3, f2, f1 := FromLittleEndian(d[3..]), FromLittleEndian(d[2..]), FromLittleEndian(d[1..]);
    assert f3 == d[3] as nat + 256 * FromLittleEndian(e);
    assert f2 == d[2] as nat + 256 * f3;
    assert f1 == d[1] as nat + 256 * f2;
    FourLittle(e[0], e[1], e[2], e[3]);
    assert e == [e[0], e[1], e[2], e[3]];
  }

  lemma EightBig(d: Bytes)
    requires |d| == 8
    ensures FromBigEndian(d) == Big8(d, 0)
  {
    var e := d[..4];
    assert d[..7][..6] == d[..6] && d[..6][..5] == d[..5] && d[..5][..4] == e;
    var f5, f6, f7 := FromBigEndian(d[..5]), FromBigEndian(d[..6]), FromBigEndian(d[..7]);
    assert f5 == 256 * FromBigEndian(e) + d[4] as nat;
    assert f6 == 256 * f5 + d[5] as nat;
    assert f7 == 256 * f6 + d[6] as nat;
    FourBig(e[0], e[1], e[2], e[3]);
    assert e == [e[0], e[1], e[2], e[3]];
  }

  lemma EightBytes()
    ensures Pow256(8) == TWO_64
  {
    Cursor.FourBytes();
    assert Pow256(5) == 256 * TWO_32;
    assert Pow256(6) == 65536 * TWO_32;
    assert Pow256(7) == 0x100_0000 * TWO_32;
  }

  lemma LittleLong(x: nat)
    requires x < TWO_64
    ensures Little8(LittleEndian(x, 8), 0) == x
  {
    EightBytes();
    LittleEndianRoundTrip(x, 8);
    hide LittleEndian, FromLittleEndian;
    EightLittle(LittleEndian(x, 8));
  }

  lemma BigLong(x: nat)
    requires x < TWO_64
    ensures Big8(BigEndian(x, 8), 0) == x
  {
    EightBytes();
    BigEndianRoundTrip(x, 8);
    hide BigEndian, FromBigEndian;
    EightBig(BigEndian(x, 8));
  }
}
