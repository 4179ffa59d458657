/** Push headers byte by byte: the encoder writes the shortest one the reader accepts. */
module PushBytes {
  import opened Bytes
  import opened Records
  import opened PushCodec

  /** The bytes that announce n bytes of data: a length up to 75, or an opcode and 1, 2 or 4 bytes of length. */
  predicate Announces(p: Bytes, n: nat) {
    || (|p| == 1 && n <= 75 && p[0] as int == n)
    || (|p| == 2 && p[0] == 0x4c && p[1] as int == n)
    || (|p| == 3 && p[0] == 0x4d && p[1] as int + 256 * p[2] as int == n)
    || (|p| == 5 && p[0] == 0x4e && p[1] as int + 256 * p[2] as int + 65536 * p[3] as int + 16777216 * p[4] as int == n && n < 0x8000_0000)
  }

  lemma HeaderBytes(p: Bytes, n: nat)
    ensures Header(p, n) <==> Announces(p, n)
  {
  }

  /** What the reader reads: the announced number of bytes, right behind the announcement. */
  lemma ReadByBytes(script: Bytes, offset: nat, end: nat, data: Bytes)
    ensures ReadPush(script, offset) == Some(Push(data, end)) <==>
            && offset + |data| <= end <= |script| && script[end - |data|..end] == data
            && Announces(script[offset..end - |data|], |data|)
  {
    ReadExactly(script, offset, end, data);
    hide ReadPush, Header, Announces;
    if offset + |data| <= end <= |script| {
      var p := script[offset..end];
      var n := |p| - |data|;
      HeaderBytes(script[offset..end - |data|], |data|);
      assert p[n..] == script[end - |data|..end] && p[..n] == script[offset..end - |data|];
    }
  }

  lemma WrittenBytes(data: Bytes)
    requires |data| <= 0xffff_ffff
    ensures PushData(data).Some?
    ensures var n, p := |data|, PushData(data).value;
            && (n <= 75 ==> p == [n as byte] + data)
            && (75 < n <= 255 ==> p == [0x4c, n as byte] + data)
            && (255 < n <= 65535 ==> |p| == n + 3 && p[0] == 0x4d && p[3..] == data && p[1] as int + 256 * p[2] as int == n)
            && (65535 < n ==> |p| == n + 5 && p[0] == 0x4e && p[5..] == data
                              && p[1] as int + 256 * p[2] as int + 65536 * p[3] as int + 16777216 * p[4] as int == n)
  {
    hide ByteAt;
    FourBytesOf(|data|);
    var p := PushData(data).value;
    if |data| > 65535 {
      assert p[5..] == data;
    } else if |data| > 255 {
      assert p[3..] == data;
    }
  }

  /** No push of the data is shorter than the one written, and no other is as short. */
  lemma ShortestPush(p: Bytes, data: Bytes)
    requires IsPush(p, data)
    ensures PushData(data).Some? && |PushData(data).value| <= |p|
    ensures |PushData(data).value| == |p| ==> PushData(data).value == p
  {
    var n, w := |p| - |data|, PushData(data).value;
    HeaderBytes(p[..n], |data|);
    WrittenBytes(data);
    hide PushData, Header;
    assert p == p[..n] + data;
    if |w| == |p| {
      if n == 5 {
        SameLength(w[1], w[2], w[3], w[4], p[1], p[2], p[3], p[4]);
        assert p[..n] == [p[0], p[1], p[2], p[3], p[4]];
        assert w == [w[0], w[1], w[2], w[3], w[4]] + w[5..];
      } else if n == 3 {
        assert p[..n] == [p[0], p[1], p[2]];
        assert w == [w[0], w[1], w[2]] + w[3..];
      } else if n == 2 {
        assert p[..n] == [p[0], p[1]];
      } else {
        assert p[..n] == [p[0]];
      }
    }
  }

  lemma SameLength(a: byte, b: byte, c: byte, d: byte, a': byte, b': byte, c': byte, d': byte)
    requires a as int + 256 * b as int + 65536 * c as int + 16777216 * d as int
             == a' as int + 256 * b' as int + 65536 * c' as int + 16777216 * d' as int
    ensures a == a' && b == b' && c == c' && d == d'
  {
    FirstDigit(a, b as int + 256 * c as int + 65536 * d as int, a', b' as int + 256 * c' as int + 65536 * d' as int);
    FirstDigit(b, c as int + 256 * d as int, b', c' as int + 256 * d' as int);
    FirstDigit(c, d as int, c', d' as int);
  }

  lemma FirstDigit(a: byte, rest: int, a': byte, rest': int)
    requires a as int + 256 * rest == a' as int + 256 * rest'
    ensures a == a' && rest == rest'
  {
    assert 256 * (rest - rest') == a' as int - a as int;
  }
}
