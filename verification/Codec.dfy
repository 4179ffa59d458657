/** How records and outputs are stored as bytes, and when they can be read back. */
module Codec {
  import opened Bytes
  import opened Records
  import Cursor
  import Maps

  const VERSION: byte := 3
  const MAX_STRING: int := 1024

  /** Unix seconds of Go's zero time, which a record without a timestamp gets. */
  const ZERO_TIME: int := -62135596800

  predicate IsInt64(x: int) {
    -MAX_INT64 - 1 <= x <= MAX_INT64
  }

  /** Go's uint64(x) of an int64. */
  function ToUint64(x: int): (r: nat)
    ensures r < TWO_64
  {
    x % TWO_64
  }

  /** Go's int64(x) of a uint64. */
  function ToInt64(x: nat): (r: int)
    requires x < TWO_64
    ensures IsInt64(r)
  {
    if x > MAX_INT64 then x - TWO_64 else x
  }

  lemma Widths()
    ensures Pow256(1) == 256 && Pow256(2) == 65536 && Pow256(4) == TWO_32 && Pow256(8) == TWO_64
  {
    Cursor.FourBytes();
    assert Pow256(5) == 256 * TWO_32;
    assert Pow256(6) == 65536 * TWO_32;
    assert Pow256(7) == 0x100_0000 * TWO_32;
  }

  // ----- reading a record, front to back -----

  /** A value read from the front of the data, and the data after it. */
  datatype Read<+T> = Truncated | Got(value: T, rest: Bytes)

  function ReadUint(data: Bytes, n: nat): (r: Read<nat>)
    ensures r.Got? ==> r.value < Pow256(n)
  {
    if n > |data| then Truncated
    else
      LittleBound(data[..n]);
      Got(FromLittleEndian(data[..n]), data[n..])
  }

  lemma {:induction false} LittleBound(b: Bytes)
    ensures FromLittleEndian(b) < Pow256(|b|)
  {
    if b != [] {
      LittleBound(b[1..]);
    }
  }

  function ReadUint32(data: Bytes): Read<Uint32> {
    Widths();
    match ReadUint(data, 4)
    case Truncated => Truncated
    case Got(v, rest) => Got(v, rest)
  }

  function ReadInt32(data: Bytes): Read<Int32> {
    match ReadUint32(data)
    case Truncated => Truncated
    case Got(v, rest) => Got(ToInt32(v), rest)
  }

  function ReadBytes(data: Bytes, n: nat): (r: Read<Bytes>)
    ensures r.Got? ==> |r.value| == n
  {
    if n > |data| then Truncated else Got(data[..n], data[n..])
  }

  /** A length-prefixed string; a length above the limit is an error like a truncated one. */
  function ReadString(data: Bytes): (r: Read<Bytes>)
    ensures r.Got? ==> |r.value| <= MAX_STRING
  {
    match ReadUint32(data)
    case Truncated => Truncated
    case Got(len, rest) => if len > MAX_STRING then Truncated else ReadBytes(rest, len)
  }

  /** The timestamp is optional: with fewer than eight bytes left there is none. */
  function ReadTimestamp(data: Bytes): (r: Read<int>)
    ensures r.Got? && IsInt64(r.value)
  {
    Widths();
    match ReadUint(data, 8)
    case Truncated => Got(ZERO_TIME, data)
    case Got(v, rest) => Got(ToInt64(v), rest)
  }

  /** Only version 3 has the height of the NAME_NEW. */
  function ReadNameNewHeight(data: Bytes, version: byte): Read<Int32> {
    if version < 3 then Got(0, data) else ReadInt32(data)
  }

  datatype CoreFields = CoreFields(value: Bytes, txHash: Hash, outIndex: Uint32, height: Int32, expiresAt: Int32, address: Bytes)

  function ReadCore(data: Bytes): (r: Read<CoreFields>)
    ensures r.Got? ==> |r.value.value| <= MAX_STRING && |r.value.address| <= MAX_STRING
  {
    match ReadString(data)
    case Truncated => Truncated
    case Got(value, data1) =>
      match ReadBytes(data1, HASH_SIZE)
      case Truncated => Truncated
      case Got(txHash, data2) =>
        match ReadUint32(data2)
        case Truncated => Truncated
        case Got(outIndex, data3) =>
          match ReadInt32(data3)
          case Truncated => Truncated
          case Got(height, data4) =>
            match ReadInt32(data4)
            case Truncated => Truncated
            case Got(expiresAt, data5) =>
              match ReadString(data5)
              case Truncated => Truncated
              case Got(address, data6) => Got(CoreFields(value, txHash, outIndex, height, expiresAt, address), data6)
  }

  function DecodeRecord(data: Bytes): (r: Option<Record>)
    ensures r.Some? ==> Storable(r.value)
  {
    if data == [] || (data[0] != 2 && data[0] != 3) then None
    else
      match ReadCore(data[1..])
      case Truncated => None
      case Got(c, rest) =>
        var timestamp := ReadTimestamp(rest);
        match ReadNameNewHeight(timestamp.rest, data[0])
        case Truncated => None
        case Got(nameNewHeight, _) =>
          Some(Record(c.value, c.txHash, c.outIndex, c.height, c.expiresAt, c.address, timestamp.value, nameNewHeight))
  }

  // ----- the reader -----

  class RecordReader {
    const data: Bytes
    var offset: nat

    ghost predicate Valid()
      reads this
    {
      offset <= |data|
    }

    /** What has not been read yet. */
    ghost function Rest(): Bytes
      reads this
      requires Valid()
    {
      data[offset..]
    }

    constructor (data: Bytes, offset: nat)
      requires offset <= |data|
      ensures Valid() && Rest() == data[offset..]
    {
      this.data, this.offset := data, offset;
    }

    method ReadUint32Field() returns (r: Option<Uint32>)
      requires Valid()
      modifies this
      ensures Valid()
      ensures match ReadUint32(old(Rest())) {
                case Truncated => r.None?
                case Got(v, rest) => r == Some(v) && Rest() == rest
              }
    {
      if offset + 4 > |data| {
        return None;
      }
      assert data[offset..][..4] == data[offset..offset + 4] && data[offset..][4..] == data[offset + 4..];
      Widths();
      LittleBound(data[offset..offset + 4]);
      var v := FromLittleEndian(data[offset..offset + 4]);
      offset := offset + 4;
      r := Some(v);
    }

    method ReadInt32Field() returns (r: Option<Int32>)
      requires Valid()
      modifies this
      ensures Valid()
      ensures match ReadInt32(old(Rest())) {
                case Truncated => r.None?
                case Got(v, rest) => r == Some(v) && Rest() == rest
              }
    {
      hide ReadUint32;
      var v := ReadUint32Field();
      if v.None? {
        return None;
      }
      r := Some(ToInt32(v.value));
    }

    method ReadFixedBytes(n: nat) returns (r: Option<Bytes>)
      requires Valid()
      modifies this
      ensures Valid()
      ensures match ReadBytes(old(Rest()), n) {
                case Truncated => r.None?
                case Got(v, rest) => r == Some(v) && Rest() == rest
              }
    {
      if offset + n > |data| {
        return None;
      }
      assert data[offset..][..n] == data[offset..offset + n] && data[offset..][n..] == data[offset + n..];
      r := Some(data[offset..offset + n]);
      offset := offset + n;
    }

    method ReadStringField() returns (r: Option<Bytes>)
      requires Valid()
      modifies this
      ensures Valid()
      ensures match ReadString(old(Rest())) {
                case Truncated => r.None?
                case Got(v, rest) => r == Some(v) && Rest() == rest
              }
    {
      hide ReadUint32, ReadBytes;
      var len := ReadUint32Field();
      if len.None? || len.value > MAX_STRING {
        return None;
      }
      r := ReadFixedBytes(len.value);
    }

    method ReadOptionalTimestamp() returns (ts: int)
      requires Valid()
      modifies this
      ensures Valid()
      ensures Got(ts, Rest()) == ReadTimestamp(old(Rest()))
    {
      if offset + 8 > |data| {
        return ZERO_TIME;
      }
      assert data[offset..][..8] == data[offset..offset + 8] && data[offset..][8..] == data[offset + 8..];
      Widths();
      LittleBound(data[offset..offset + 8]);
      ts := ToInt64(FromLittleEndian(data[offset..offset + 8]));
      offset := offset + 8;
    }

    method ReadCoreFields() returns (r: Option<CoreFields>)
      requires Valid()
      modifies this
      ensures Valid()
      ensures match ReadCore(old(Rest())) {
                case Truncated => r.None?
                case Got(v, rest) => r == Some(v) && Rest() == rest
              }
    {
      hide ReadUint32, ReadInt32, ReadBytes, ReadString;
      r := None;
      var value := ReadStringField();
      if value.None? { return; }
      var txHash := ReadFixedBytes(HASH_SIZE);
      if txHash.None? { return; }
      var outIndex := ReadUint32Field();
      if outIndex.None? { return; }
      var height := ReadInt32Field();
      if height.None? { return; }
      var expiresAt := ReadInt32Field();
      if expiresAt.None? { return; }
      var address := ReadStringField();
      if address.None? { return; }
      r := Some(CoreFields(value.value, txHash.value, outIndex.value, height.value, expiresAt.value, address.value));
    }
  }

  method DecodeNameRecord(data: Bytes) returns (r: Option<Record>)
    ensures r == DecodeRecord(data)
  {
    hide ReadCore, ReadTimestamp, ReadInt32;
    if |data| < 1 {
      return None;
    }
    var version := data[0];
    if version != 2 && version != 3 {
      return None;
    }
    var reader := new RecordReader(data, 1);
    var core := reader.ReadCoreFields();
    if core.None? {
      return None;
    }
    var updatedAt := reader.ReadOptionalTimestamp();
    var nameNewHeight := Some(0 as Int32);
    if version >= 3 {
      nameNewHeight := reader.ReadInt32Field();
      if nameNewHeight.None? {
        return None;
      }
    }
    var c := core.value;
    r := Some(Record(c.value, c.txHash, c.outIndex, c.height, c.expiresAt, c.address, updatedAt, nameNewHeight.value));
  }

  // ----- writing a record -----

  function StringField(s: Bytes): Bytes {
    LittleEndian(|s| % TWO_32, 4) + s
  }

  function Int32Field(x: Int32): Bytes {
    LittleEndian(ToUint32(x), 4)
  }

  function CoreBytes(r: Record, after: Bytes): Bytes {
    StringField(r.value) + (r.txHash + (LittleEndian(r.outIndex, 4) + (Int32Field(r.height) + (Int32Field(r.expiresAt)
    + (StringField(r.address) + after)))))
  }

  function EncodeRecord(r: Record): Bytes {
    [VERSION] + CoreBytes(r, LittleEndian(ToUint64(r.updatedAt), 8) + Int32Field(r.nameNewHeight))
  }

  /** Field after field into one buffer. */
  method EncodeNameRecord(r: Record) returns (buf: Bytes)
    ensures buf == EncodeRecord(r)
  {
    hide LittleEndian;
    var v, h, o, hi, e, a := StringField(r.value), r.txHash, LittleEndian(r.outIndex, 4),
      Int32Field(r.height), Int32Field(r.expiresAt), StringField(r.address);
    var t, n := LittleEndian(ToUint64(r.updatedAt), 8), Int32Field(r.nameNewHeight);
    hide StringField, Int32Field;
    buf := [VERSION];
    buf := buf + v;
    buf := buf + h;
    buf := buf + o;
    buf := buf + hi;
    buf := buf + e;
    buf := buf + a;
    buf := buf + t;
    buf := buf + n;
    InOneBuffer(v, h, o, hi, e, a, t, n);
  }

  lemma InOneBuffer(v: Bytes, h: Bytes, o: Bytes, hi: Bytes, e: Bytes, a: Bytes, t: Bytes, n: Bytes)
    ensures [VERSION] + v + h + o + hi + e + a + t + n == [VERSION] + (v + (h + (o + (hi + (e + (a + (t + n)))))))
  {
    Maps.Regroup([VERSION] + v + h + o + hi + e + a, t, n);
    Maps.Regroup([VERSION] + v + h + o + hi + e, a, t + n);
    Maps.Regroup([VERSION] + v + h + o + hi, e, a + (t + n));
    Maps.Regroup([VERSION] + v + h + o, hi, e + (a + (t + n)));
    Maps.Regroup([VERSION] + v + h, o, hi + (e + (a + (t + n))));
    Maps.Regroup([VERSION] + v, h, o + (hi + (e + (a + (t + n)))));
    Maps.Regroup([VERSION], v, h + (o + (hi + (e + (a + (t + n))))));
  }

  // ----- round trip -----

  /** What the decoder accepts back: strings of at most 1024 bytes, and seconds that fit 64 bits. */
  predicate Storable(r: Record) {
    |r.value| <= MAX_STRING && |r.address| <= MAX_STRING && IsInt64(r.updatedAt)
  }

  lemma ReadBackUint(x: nat, n: nat, after: Bytes)
    requires x < Pow256(n)
    ensures ReadUint(LittleEndian(x, n) + after, n) == Got(x, after)
  {
    LittleEndianRoundTrip(x, n);
    hide LittleEndian, FromLittleEndian;
    var data := LittleEndian(x, n) + after;
    assert data[..n] == LittleEndian(x, n) && data[n..] == after;
  }

  lemma ReadBackUint32(x: Uint32, after: Bytes)
    ensures ReadUint32(LittleEndian(x, 4) + after) == Got(x, after)
  {
    Widths();
    hide Pow256;
    ReadBackUint(x, 4, after);
  }

  lemma ReadBackInt32(x: Int32, after: Bytes)
    ensures ReadInt32(Int32Field(x) + after) == Got(x, after)
  {
    hide ReadUint32, LittleEndian;
    ReadBackUint32(ToUint32(x), after);
  }

  lemma ReadBackBytes(b: Bytes, after: Bytes)
    ensures ReadBytes(b + after, |b|) == Got(b, after)
  {
    assert (b + after)[..|b|] == b && (b + after)[|b|..] == after;
  }

  lemma ReadBackString(s: Bytes, after: Bytes)
    requires |s| <= MAX_STRING
    ensures ReadString(StringField(s) + after) == Got(s, after)
  {
    hide ReadUint32, LittleEndian, ReadBytes;
    Maps.Regroup(LittleEndian(|s|, 4), s, after);
    ReadBackUint32(|s|, s + after);
    ReadBackBytes(s, after);
  }

  lemma ReadBackTimestamp(t: int, after: Bytes)
    requires IsInt64(t)
    ensures ReadTimestamp(LittleEndian(ToUint64(t), 8) + after) == Got(t, after)
  {
    Widths();
    hide Pow256;
    ReadBackUint(ToUint64(t), 8, after);
    hide ReadUint, LittleEndian;
  }

  lemma ReadBackCore(r: Record, after: Bytes)
    requires Storable(r)
    ensures ReadCore(CoreBytes(r, after)) == Got(CoreFields(r.value, r.txHash, r.outIndex, r.height, r.expiresAt, r.address), after)
  {
    hide ReadUint32, ReadInt32, ReadBytes, ReadString, StringField, Int32Field, LittleEndian;
    var d5 := StringField(r.address) + after;
    var d4 := Int32Field(r.expiresAt) + d5;
    var d3 := Int32Field(r.height) + d4;
    var d2 := LittleEndian(r.outIndex, 4) + d3;
    var d1 := r.txHash + d2;
    ReadBackString(r.value, d1);
    ReadBackBytes(r.txHash, d2);
    ReadBackUint32(r.outIndex, d3);
    ReadBackInt32(r.height, d4);
    ReadBackInt32(r.expiresAt, d5);
    ReadBackString(r.address, after);
  }

  /** Encoding and decoding a record is the identity exactly for the records the decoder accepts. */
  lemma RecordRoundTrip(r: Record)
    ensures DecodeRecord(EncodeRecord(r)) == Some(r) <==> Storable(r)
  {
    hide DecodeRecord, EncodeRecord, Storable;
    if Storable(r) {
      StorableReadsBack(r);
    }
  }

  lemma StorableReadsBack(r: Record)
    requires Storable(r)
    ensures DecodeRecord(EncodeRecord(r)) == Some(r)
  {
    hide ReadCore, CoreBytes, ReadTimestamp, ReadInt32, LittleEndian, Int32Field, ToUint64;
    var tail := LittleEndian(ToUint64(r.updatedAt), 8) + Int32Field(r.nameNewHeight);
    var data := EncodeRecord(r);
    assert data[0] == VERSION && data[1..] == CoreBytes(r, tail);
    ReadBackCore(r, tail);
    ReadBackTimestamp(r.updatedAt, Int32Field(r.nameNewHeight));
    ReadBackInt32(r.nameNewHeight, []);
    assert Int32Field(r.nameNewHeight) + [] == Int32Field(r.nameNewHeight);
  }

  /** A version 2 record, which ends with the timestamp, reads back without a NAME_NEW height. */
  lemma OlderVersion(r: Record)
    requires Storable(r)
    ensures DecodeRecord([2] + CoreBytes(r, LittleEndian(ToUint64(r.updatedAt), 8))) == Some(r.(nameNewHeight := 0))
  {
    var tail := LittleEndian(ToUint64(r.updatedAt), 8);
    var data := [2] + CoreBytes(r, tail);
    assert data[0] == 2 && data[1..] == CoreBytes(r, tail);
    hide ReadCore, CoreBytes, ReadTimestamp, ReadInt32, LittleEndian, Int32Field;
    ReadBackCore(r, tail);
    ReadBackTimestamp(r.updatedAt, []);
    assert tail + [] == tail;
  }

  // ----- outputs -----

  function EncodeUtxo(x: Utxo): Option<Bytes> {
    if |x.address| > 255 || |x.script| > 65535 then None
    else
      Some(BigEndian(ToUint64(x.value), 8) + (BigEndian(ToUint32(x.height), 4) + ([|x.address| as byte] + (x.address
           + (BigEndian(|x.script|, 2) + x.script)))))
  }

  lemma {:induction false} BigBound(b: Bytes)
    ensures FromBigEndian(b) < Pow256(|b|)
  {
    if b != [] {
      BigBound(b[..|b| - 1]);
    }
  }

  lemma FieldBounds(data: Bytes)
    requires |data| >= 12
    ensures FromBigEndian(data[0..8]) < TWO_64 && FromBigEndian(data[8..12]) < TWO_32
  {
    Widths();
    BigBound(data[0..8]);
    BigBound(data[8..12]);
  }

  function DecodeUtxo(data: Bytes): (r: Option<Utxo>)
    ensures r.Some? ==> Encodable(r.value) && IsInt64(r.value.value)
  {
    if |data| < 13 then None
    else
      FieldBounds(data);
      var addressLen := data[12] as int;
      var offset := 13 + addressLen;
      if |data| < offset + 2 then None
      else
        Widths();
        BigBound(data[offset..offset + 2]);
        var scriptLen := FromBigEndian(data[offset..offset + 2]);
        if |data| < offset + 2 + scriptLen then None
        else
          Some(Utxo(ToInt64(FromBigEndian(data[0..8])), data[13..offset], data[offset + 2..offset + 2 + scriptLen],
                    ToInt32(FromBigEndian(data[8..12]))))
  }

  lemma UtxoLayout(a: Bytes, b: Bytes, c: Bytes, d: Bytes, e: Bytes, f: Bytes)
    requires |a| == 8 && |b| == 4 && |c| == 1 && |e| == 2
    ensures var data, o := a + (b + (c + (d + (e + f)))), 13 + |d|;
            && |data| == o + 2 + |f|
            && data[0..8] == a && data[8..12] == b && data[12] == c[0]
            && data[13..o] == d && data[o..o + 2] == e && data[o + 2..o + 2 + |f|] == f
  {
    var data, o := a + (b + (c + (d + (e + f)))), 13 + |d|;
    assert data[8..] == b + (c + (d + (e + f)));
    assert data[12..] == c + (d + (e + f));
    assert data[13..] == d + (e + f);
    assert data[o..] == e + f;
  }

  lemma UtxoReadsBack(x: Utxo)
    requires Encodable(x) && IsInt64(x.value)
    ensures EncodeUtxo(x).Some? && DecodeUtxo(EncodeUtxo(x).value) == Some(x)
  {
    hide BigEndian, FromBigEndian, Pow256;
    Widths();
    BigEndianRoundTrip(ToUint64(x.value), 8);
    BigEndianRoundTrip(ToUint32(x.height), 4);
    BigEndianRoundTrip(|x.script|, 2);
    UtxoLayout(BigEndian(ToUint64(x.value), 8), BigEndian(ToUint32(x.height), 4), [|x.address| as byte], x.address,
      BigEndian(|x.script|, 2), x.script);
  }

  /** An output that can be encoded reads back, and no other does. */
  lemma UtxoRoundTrip(x: Utxo)
    ensures EncodeUtxo(x).Some? <==> Encodable(x)
    ensures EncodeUtxo(x).Some? && DecodeUtxo(EncodeUtxo(x).value) == Some(x) <==> Encodable(x) && IsInt64(x.value)
  {
    hide DecodeUtxo;
    if Encodable(x) && IsInt64(x.value) {
      UtxoReadsBack(x);
    }
  }

  /** Copies part into the buffer at an offset. */
  method PutAt(buf: array<byte>, offset: nat, part: Bytes)
    requires offset + |part| <= buf.Length
    modifies buf
    ensures buf[..offset + |part|] == old(buf[..offset]) + part
  {
    for i := 0 to |part|
      invariant forall j :: 0 <= j < buf.Length ==> buf[j] == if offset <= j < offset + i then part[j - offset] else old(buf[j])
    {
      buf[offset + i] := part[i];
    }
  }

  /** The fields are written at their offsets into one buffer of the right size. */
  method EncodeUTXO(x: Utxo) returns (r: Option<Bytes>)
    ensures r == EncodeUtxo(x)
  {
    if |x.address| > 255 || |x.script| > 65535 {
      return None;
    }
    hide BigEndian;
    var n := |x.address|;
    var v, h, s := BigEndian(ToUint64(x.value), 8), BigEndian(ToUint32(x.height), 4), BigEndian(|x.script|, 2);
    var buf := new byte[8 + 4 + 1 + n + 2 + |x.script|];
    PutAt(buf, 0, v);
    assert buf[..8] == v;
    PutAt(buf, 8, h);
    PutAt(buf, 12, [n as byte]);
    PutAt(buf, 13, x.address);
    var offset := 13 + n;
    PutAt(buf, offset, s);
    PutAt(buf, offset + 2, x.script);
    Maps.Regroup(v + h + [n as byte] + x.address, s, x.script);
    Maps.Regroup(v + h + [n as byte], x.address, s + x.script);
    Maps.Regroup(v + h, [n as byte], x.address + (s + x.script));
    Maps.Regroup(v, h, [n as byte] + (x.address + (s + x.script)));
    assert buf[..] == buf[..buf.Length];
    r := Some(buf[..]);
  }
}
