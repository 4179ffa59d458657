/** Push data in scripts: the wallet's encoder and the chain's reader. */
module PushCodec {
  import opened Bytes
  import opened Records

  const OP_PUSHDATA1: byte := 0x4c
  const OP_PUSHDATA2: byte := 0x4d
  const OP_PUSHDATA4: byte := 0x4e
  const MAX_DIRECT_PUSH: int := 75
  const MAX_READ: int := 0x7FFF_FFFF
  const MAX_PUSH: int := 0xFFFF_FFFF

  // ----- the format -----

  function Le2(a: byte, b: byte): nat {
    a as int + 256 * b as int
  }

  function Le4(a: byte, b: byte, c: byte, d: byte): nat {
    Le2(a, b) + 65536 * Le2(c, d)
  }

  /** p announces that n bytes of data follow. */
  predicate Header(p: Bytes, n: nat) {
    || (|p| == 1 && n <= MAX_DIRECT_PUSH && p[0] as int == n)
    || (|p| == 2 && p[0] == OP_PUSHDATA1 && p[1] as int == n)
    || (|p| == 3 && p[0] == OP_PUSHDATA2 && Le2(p[1], p[2]) == n)
    || (|p| == 5 && p[0] == OP_PUSHDATA4 && Le4(p[1], p[2], p[3], p[4]) == n && n <= MAX_READ)
  }

  /** p is a push of data: a header and then the data. */
  predicate IsPush(p: Bytes, data: Bytes) {
    |data| <= |p| && p[|p| - |data|..] == data && Header(p[..|p| - |data|], |data|)
  }

  // ----- reading -----

  /** The data of a push and the offset after it. */
  datatype Push = Push(data: Bytes, end: nat)

  function Take(script: Bytes, start: nat, n: nat): Option<Push> {
    if start + n > |script| then None else Some(Push(script[start..start + n], start + n))
  }

  /** The push at an offset of a script, if there is one. */
  function ReadPush(script: Bytes, offset: nat): Option<Push> {
    if offset >= |script| then None
    else
      var opcode, o := script[offset], offset + 1;
      if opcode as int <= MAX_DIRECT_PUSH then Take(script, o, opcode as int)
      else if opcode == OP_PUSHDATA1 then
        if o >= |script| then None else Take(script, o + 1, script[o] as int)
      else if opcode == OP_PUSHDATA2 then
        if o + 1 >= |script| then None else Take(script, o + 2, Le2(script[o], script[o + 1]))
      else if opcode == OP_PUSHDATA4 then
        if o + 3 >= |script| then None
        else
          var n := Le4(script[o], script[o + 1], script[o + 2], script[o + 3]);
          if n > MAX_READ then None else Take(script, o + 4, n)
      else None
  }

  method ReadPushData(script: Bytes, offset: nat) returns (r: Option<Push>)
    ensures r == ReadPush(script, offset)
  {
    if offset >= |script| {
      return None;
    }
    var opcode := script[offset];
    var pos := offset + 1;
    var dataLen := 0;
    if opcode == 0 {
    } else if 1 <= opcode <= 0x4b {
      dataLen := opcode as int;
    } else if opcode == OP_PUSHDATA1 {
      if pos >= |script| {
        return None;
      }
      dataLen := script[pos] as int;
      pos := pos + 1;
    } else if opcode == OP_PUSHDATA2 {
      if pos + 1 >= |script| {
        return None;
      }
      dataLen := script[pos] as int + 256 * script[pos + 1] as int;
      pos := pos + 2;
    } else if opcode == OP_PUSHDATA4 {
      if pos + 3 >= |script| {
        return None;
      }
      dataLen := script[pos] as int + 256 * script[pos + 1] as int + 65536 * script[pos + 2] as int + 16777216 * script[pos + 3] as int;
      if dataLen > 0x7FFF_FFFF {
        return None;
      }
      pos := pos + 4;
    } else {
      return None;
    }
    if pos + dataLen > |script| {
      return None;
    }
    r := Some(Push(script[pos..pos + dataLen], pos + dataLen));
  }

  /** The header that the reader reads stands between the offset and the data. */
  lemma ReadHeader(script: Bytes, offset: nat)
    requires ReadPush(script, offset).Some?
    ensures var r := ReadPush(script, offset).value;
            var start := r.end - |r.data|;
            offset < start <= r.end <= |script| && r.data == script[start..r.end] && Header(script[offset..start], |r.data|)
  {
    hide Le2, Le4;
    var opcode, r := script[offset], ReadPush(script, offset).value;
    if opcode as int <= MAX_DIRECT_PUSH {
      assert script[offset..offset + 1] == [opcode];
    } else if opcode == OP_PUSHDATA1 {
      assert script[offset..offset + 2] == [opcode, script[offset + 1]];
    } else if opcode == OP_PUSHDATA2 {
      assert script[offset..offset + 3] == [opcode, script[offset + 1], script[offset + 2]];
    } else {
      assert script[offset..offset + 5] == [opcode, script[offset + 1], script[offset + 2], script[offset + 3], script[offset + 4]];
    }
  }

  /** A push that is read is there, in bounds, and the reader moves past its opcode. */
  lemma ReadIsPush(script: Bytes, offset: nat)
    requires ReadPush(script, offset).Some?
    ensures var r := ReadPush(script, offset).value;
            offset < r.end <= |script| && IsPush(script[offset..r.end], r.data)
  {
    var r := ReadPush(script, offset).value;
    var start := r.end - |r.data|;
    ReadHeader(script, offset);
    hide ReadPush, Header;
    var p := script[offset..r.end];
    assert p[|p| - |r.data|..] == r.data;
    assert p[..|p| - |r.data|] == script[offset..start];
  }

  /** A push that is there is read. */
  lemma PushIsRead(script: Bytes, offset: nat, end: nat, data: Bytes)
    requires offset <= end <= |script| && IsPush(script[offset..end], data)
    ensures ReadPush(script, offset) == Some(Push(data, end))
  {
    var p := script[offset..end];
    var n := |p| - |data|;
    assert forall i :: 0 <= i < n ==> p[..n][i] == script[offset + i];
    assert script[offset + n..end] == p[n..];
  }

  /** The reader finds a push exactly where there is one, and a script has at most one at an offset. */
  lemma ReadExactly(script: Bytes, offset: nat, end: nat, data: Bytes)
    ensures ReadPush(script, offset) == Some(Push(data, end)) <==> offset <= end <= |script| && IsPush(script[offset..end], data)
  {
    if ReadPush(script, offset).Some? {
      ReadIsPush(script, offset);
    }
    if offset <= end <= |script| && IsPush(script[offset..end], data) {
      PushIsRead(script, offset, end, data);
    }
  }

  // ----- writing -----

  /** byte(x >> (8 * n)). */
  function ByteAt(x: nat, n: nat): byte {
    if n == 0 then (x % 256) as byte else ByteAt(x / 256, n - 1)
  }

  function PushHeader(l: nat): Bytes {
    if l <= MAX_DIRECT_PUSH then [l as byte]
    else if l <= 255 then [OP_PUSHDATA1, l as byte]
    else if l <= 65535 then [OP_PUSHDATA2, ByteAt(l, 0), ByteAt(l, 1)]
    else [OP_PUSHDATA4, ByteAt(l, 0), ByteAt(l, 1), ByteAt(l, 2), ByteAt(l, 3)]
  }

  function PushData(data: Bytes): Option<Bytes> {
    if |data| > MAX_PUSH then None else Some(PushHeader(|data|) + data)
  }

  lemma ByteValues(x: nat)
    ensures ByteAt(x, 0) as int == x % 256
    ensures ByteAt(x, 1) as int == x / 256 % 256
    ensures ByteAt(x, 2) as int == x / 256 / 256 % 256
    ensures ByteAt(x, 3) as int == x / 256 / 256 / 256 % 256
  {
    var y := x / 256;
    var z := y / 256;
    assert ByteAt(x, 3) == ByteAt(y, 2) == ByteAt(z, 1) == ByteAt(z / 256, 0);
    assert ByteAt(x, 2) == ByteAt(y, 1) == ByteAt(z, 0);
  }

  lemma Split(x: nat) returns (q: nat, r: nat)
    ensures q == x / 256 && r == x % 256 && x == 256 * q + r && r < 256
  {
    q, r := x / 256, x % 256;
  }

  lemma FourBytesOf(x: nat)
    requires x <= MAX_PUSH
    ensures Le4(ByteAt(x, 0), ByteAt(x, 1), ByteAt(x, 2), ByteAt(x, 3)) == x
    ensures x <= 65535 ==> Le2(ByteAt(x, 0), ByteAt(x, 1)) == x
  {
    ByteValues(x);
    hide ByteAt;
    var y, a := Split(x);
    var z, b := Split(y);
    var w, c := Split(z);
    var v, d := Split(w);
  }

  lemma WrittenIsPush(data: Bytes)
    requires |data| <= MAX_READ
    ensures PushData(data).Some? && IsPush(PushData(data).value, data)
  {
    var p := PushData(data).value;
    FourBytesOf(|data|);
    hide ByteAt, Le4, Le2;
    assert p[|p| - |data|..] == data;
    assert p[..|p| - |data|] == PushHeader(|data|);
  }

  /** Whatever surrounds it, a written push is read back. */
  lemma PushRoundTrip(before: Bytes, data: Bytes, after: Bytes)
    requires |data| <= MAX_READ
    ensures PushData(data).Some?
    ensures ReadPush(before + PushData(data).value + after, |before|) == Some(Push(data, |before| + |PushData(data).value|))
  {
    WrittenIsPush(data);
    var p := PushData(data).value;
    var script := before + p + after;
    assert script[|before|..|before| + |p|] == p;
    hide IsPush, ReadPush;
    PushIsRead(script, |before|, |before| + |p|, data);
  }

  /** Longer data can be written, up to four gigabytes, but is never read back. */
  lemma TooLongToRead(before: Bytes, data: Bytes, after: Bytes)
    requires MAX_READ < |data| <= MAX_PUSH
    ensures PushData(data).Some?
    ensures ReadPush(before + PushData(data).value + after, |before|).None?
  {
    var p := PushData(data).value;
    var script := before + p + after;
    FourBytesOf(|data|);
    hide ByteAt, Le2, Take;
    assert forall i :: 0 <= i < 5 ==> script[|before| + i] == PushHeader(|data|)[i];
  }

  /** Writing and then reading is the identity exactly up to the reader's limit. */
  lemma PushRoundTripIff(before: Bytes, data: Bytes, after: Bytes)
    requires |data| <= MAX_PUSH
    ensures ReadPush(before + PushData(data).value + after, |before|) == Some(Push(data, |before| + |PushData(data).value|))
            <==> |data| <= MAX_READ
  {
    hide ReadPush, PushHeader;
    if |data| <= MAX_READ {
      PushRoundTrip(before, data, after);
    } else {
      TooLongToRead(before, data, after);
    }
  }
}
