/** Where the fields of stored records, outputs and keys stand, byte by byte. */
module Layout {
  import opened Bytes
  import opened Records
  import opened Digits
  import opened Codec
  import Cursor
  import Scans

  /** A signed 32-bit value as an unsigned one. */
  function Unsigned32(x: Int32): nat {
    if x < 0 then x + 0x1_0000_0000 else x
  }

  function Unsigned64(x: int): int {
    if x < 0 then x + 0x1_0000_0000_0000_0000 else x
  }

  lemma Conversions(x: Int32, y: int)
    requires IsInt64(y)
    ensures ToUint32(x) == Unsigned32(x) && ToUint64(y) == Unsigned64(y)
  {
  }

  /** The part of b from p on. */
  predicate At(b: Bytes, p: nat, part: Bytes) {
    p + |part| <= |b| && b[p..p + |part|] == part
  }

  lemma Field4(b: Bytes, p: nat, x: nat)
    requires x < TWO_32 && At(b, p, LittleEndian(x, 4))
    ensures p + 4 <= |b| && Little4(b, p) == x
  {
    hide LittleEndian;
    LittleField(x);
    var d := LittleEndian(x, 4);
    assert b[p..p + 4][0] == b[p] && b[p..p + 4][1] == b[p + 1] && b[p..p + 4][2] == b[p + 2] && b[p..p + 4][3] == b[p + 3];
  }

  lemma Field8(b: Bytes, p: nat, x: nat)
    requires x < TWO_64 && At(b, p, LittleEndian(x, 8))
    ensures p + 8 <= |b| && Little8(b, p) == x
  {
    hide LittleEndian;
    LittleLong(x);
    var d := LittleEndian(x, 8);
    assert forall i :: 0 <= i < 8 ==> d[i] == b[p..p + 8][i] == b[p + i];
  }

  lemma FieldBig4(b: Bytes, p: nat, x: nat)
    requires x < TWO_32 && At(b, p, BigEndian(x, 4))
    ensures p + 4 <= |b| && Big4(b, p) == x
  {
    hide BigEndian;
    BigField(x);
    var d := BigEndian(x, 4);
    assert b[p..p + 4][0] == b[p] && b[p..p + 4][1] == b[p + 1] && b[p..p + 4][2] == b[p + 2] && b[p..p + 4][3] == b[p + 3];
  }

  lemma FieldBig8(b: Bytes, p: nat, x: nat)
    requires x < TWO_64 && At(b, p, BigEndian(x, 8))
    ensures p + 8 <= |b| && Big8(b, p) == x
  {
    hide BigEndian;
    BigLong(x);
    var d := BigEndian(x, 8);
    assert forall i :: 0 <= i < 8 ==> d[i] == b[p..p + 8][i] == b[p + i];
  }

  /** The next part of a sequence of parts. */
  lemma Next(b: Bytes, p: nat, part: Bytes, rest: Bytes)
    requires p <= |b| && b[p..] == part + rest
    ensures At(b, p, part) && p + |part| <= |b| && b[p + |part|..] == rest
  {
    assert b[p..][..|part|] == part && b[p..][|part|..] == rest;
  }

  /**
   A stored name record: version 3; the value, with its length in four bytes; the hash of the
   transaction, the output's index, the heights; the address, with its length; the time in
   eight bytes, and the height of the commitment.  All numbers start with their lowest byte.
   */
  lemma RecordBytes(r: Record)
    requires Storable(r)
    ensures var b, v, a := EncodeRecord(r), |r.value|, |r.address|;
            && |b| == v + a + 65 && b[0] == 3
            && Little4(b, 1) == v && At(b, 5, r.value)
            && At(b, v + 5, r.txHash) && Little4(b, v + 37) == r.outIndex
            && Little4(b, v + 41) == Unsigned32(r.height) && Little4(b, v + 45) == Unsigned32(r.expiresAt)
            && Little4(b, v + 49) == a && At(b, v + 53, r.address)
            && Little8(b, v + a + 53) == Unsigned64(r.updatedAt) && Little4(b, v + a + 61) == Unsigned32(r.nameNewHeight)
  {
    hide EncodeRecord, CoreRest, StringField, Int32Field, LittleEndian, ToUint32, ToUint64, At, Little4, Little8, Unsigned32, Unsigned64;
    var b, v, a := EncodeRecord(r), |r.value|, |r.address|;
    Conversions(r.height, r.updatedAt);
    Conversions(r.expiresAt, 0);
    Conversions(r.nameNewHeight, 0);
    RecordStarts(r);
    StringAt(b, 1, r.value, CoreRest(r, TimeField(r)));
    FixedAt(b, v + 5, r, TimeField(r));
    StringAt(b, v + 49, r.address, TimeField(r));
    TailAt(b, v + a + 53, r);
  }

  /** The time and the height of the commitment. */
  function TimeField(r: Record): Bytes {
    LittleEndian(ToUint64(r.updatedAt), 8) + Int32Field(r.nameNewHeight)
  }

  lemma RecordStarts(r: Record)
    ensures var b := EncodeRecord(r); |b| >= 1 && b[0] == 3 && b[1..] == StringField(r.value) + CoreRest(r, TimeField(r))
  {
    hide LittleEndian, Int32Field, StringField;
  }

  /** What follows the value. */
  function CoreRest(r: Record, tail: Bytes): Bytes {
    r.txHash + (LittleEndian(r.outIndex, 4) + (Int32Field(r.height) + (Int32Field(r.expiresAt) + (StringField(r.address) + tail))))
  }

  lemma StringAt(b: Bytes, p: nat, s: Bytes, rest: Bytes)
    requires p <= |b| && b[p..] == StringField(s) + rest && |s| <= MAX_STRING
    ensures p + 4 + |s| <= |b| && Little4(b, p) == |s| && At(b, p + 4, s) && b[p + 4 + |s|..] == rest
  {
    hide LittleEndian, Little4;
    assert StringField(s) + rest == LittleEndian(|s|, 4) + (s + rest);
    Next(b, p, LittleEndian(|s|, 4), s + rest);
    Field4(b, p, |s|);
    Next(b, p + 4, s, rest);
  }

  lemma FixedAt(b: Bytes, p: nat, r: Record, tail: Bytes)
    requires p <= |b| && b[p..] == CoreRest(r, tail)
    ensures p + 44 <= |b| && At(b, p, r.txHash) && Little4(b, p + 32) == r.outIndex
    ensures Little4(b, p + 36) == ToUint32(r.height) && Little4(b, p + 40) == ToUint32(r.expiresAt)
    ensures b[p + 44..] == StringField(r.address) + tail
  {
    hide LittleEndian, Little4, At, ToUint32, StringField;
    var t4 := StringField(r.address) + tail;
    var t3 := Int32Field(r.expiresAt) + t4;
    var t2 := Int32Field(r.height) + t3;
    var t1 := LittleEndian(r.outIndex, 4) + t2;
    Next(b, p, r.txHash, t1);
    Next(b, p + 32, LittleEndian(r.outIndex, 4), t2);
    Next(b, p + 36, LittleEndian(ToUint32(r.height), 4), t3);
    Next(b, p + 40, LittleEndian(ToUint32(r.expiresAt), 4), t4);
    Field4(b, p + 32, r.outIndex);
    Field4(b, p + 36, ToUint32(r.height));
    Field4(b, p + 40, ToUint32(r.expiresAt));
  }

  lemma TailAt(b: Bytes, p: nat, r: Record)
    requires p <= |b| && b[p..] == TimeField(r)
    ensures |b| == p + 12 && Little8(b, p) == ToUint64(r.updatedAt) && Little4(b, p + 8) == ToUint32(r.nameNewHeight)
  {
    hide LittleEndian, Little4, Little8, At, ToUint32, ToUint64;
    var last := LittleEndian(ToUint32(r.nameNewHeight), 4);
    Next(b, p, LittleEndian(ToUint64(r.updatedAt), 8), last);
    assert last + [] == last;
    Next(b, p + 8, last, []);
    Field8(b, p, ToUint64(r.updatedAt));
    Field4(b, p + 8, ToUint32(r.nameNewHeight));
  }

  /**
   A stored output: the value in eight bytes and the height in four, the address with its length
   in one byte, the script with its length in two.  All numbers start with their highest byte.
   */
  lemma OutputBytes(x: Utxo)
    requires Encodable(x) && IsInt64(x.value)
    ensures EncodeUtxo(x).Some?
    ensures var b, a, s := EncodeUtxo(x).value, |x.address|, |x.script|;
            && |b| == a + s + 15
            && Big8(b, 0) == Unsigned64(x.value) && Big4(b, 8) == Unsigned32(x.height)
            && b[12] as int == a && At(b, 13, x.address)
            && 256 * b[a + 13] as int + b[a + 14] as int == s && At(b, a + 15, x.script)
  {
    var b := EncodeUtxo(x).value;
    Conversions(x.height, x.value);
    var v, h := BigEndian(ToUint64(x.value), 8), BigEndian(ToUint32(x.height), 4);
    hide BigEndian, ToUint32, ToUint64, Big4, Big8, At;
    assert b[0..] == v + (h + OutputRest(x));
    Next(b, 0, v, h + OutputRest(x));
    FieldBig8(b, 0, ToUint64(x.value));
    Next(b, 8, h, OutputRest(x));
    FieldBig4(b, 8, ToUint32(x.height));
    OutputTail(b, x);
  }

  /** What follows the value and the height. */
  function OutputRest(x: Utxo): Bytes
    requires Encodable(x)
  {
    [|x.address| as byte] + (x.address + (BigEndian(|x.script|, 2) + x.script))
  }

  lemma OutputTail(b: Bytes, x: Utxo)
    requires Encodable(x) && |b| >= 12 && b[12..] == OutputRest(x)
    ensures var a, s := |x.address|, |x.script|;
            && |b| == a + s + 15 && b[12] as int == a && At(b, 13, x.address)
            && 256 * b[a + 13] as int + b[a + 14] as int == s && At(b, a + 15, x.script)
  {
    var a, l := |x.address|, BigEndian(|x.script|, 2);
    BigShort(|x.script|);
    hide BigEndian;
    Next(b, 12, [a as byte], x.address + (l + x.script));
    Next(b, 13, x.address, l + x.script);
    Next(b, a + 13, l, x.script);
    assert b[12..13][0] == b[12] && b[a + 13..a + 15][0] == b[a + 13] && b[a + 13..a + 15][1] == b[a + 14];
    assert x.script + [] == x.script;
    Next(b, a + 15, x.script, []);
  }

  /** A key of a height-indexed bucket is the height, highest byte first, and the name. */
  lemma HeightNameBytes(k: HeightName)
    ensures var b := Cursor.HeightNameKey(k); |b| == 4 + |k.name| && Big4(b, 0) == Unsigned32(k.height) && b[4..] == k.name
  {
    Conversions(k.height, 0);
    hide BigEndian, ToUint32, Big4;
    var b := Cursor.HeightNameKey(k);
    assert b[0..] == b;
    Next(b, 0, BigEndian(ToUint32(k.height), 4), k.name);
    FieldBig4(b, 0, ToUint32(k.height));
  }

  /** A key of an output is its transaction and its index, highest byte first. */
  lemma OutPointBytes(op: OutPoint)
    ensures var b := Scans.OutPointKey(op); |b| == 36 && b[..32] == op.tx && Big4(b, 32) == op.index
  {
    hide BigEndian, Big4;
    var b := Scans.OutPointKey(op);
    assert b[0..] == b && op.tx + BigEndian(op.index, 4) == op.tx + (BigEndian(op.index, 4) + []);
    Next(b, 0, op.tx, BigEndian(op.index, 4) + []);
    Next(b, 32, BigEndian(op.index, 4), []);
    FieldBig4(b, 32, op.index);
  }

  /** A key of a spent output: the height it was spent at, its transaction, its index. */
  lemma SpentBytes(k: HeightOut)
    ensures var b := Scans.HeightOutKey(k);
            |b| == 40 && Big4(b, 0) == Unsigned32(k.height) && b[4..36] == k.op.tx && Big4(b, 36) == k.op.index
  {
    Conversions(k.height, 0);
    OutPointBytes(k.op);
    hide BigEndian, ToUint32, Scans.OutPointKey;
    var b, o := Scans.HeightOutKey(k), Scans.OutPointKey(k.op);
    assert b[0..] == b;
    Next(b, 0, BigEndian(ToUint32(k.height), 4), o);
    FieldBig4(b, 0, ToUint32(k.height));
    assert b[4..36] == b[4..][..32];
    assert forall i :: 0 <= i < 36 ==> b[4..][i] == b[i + 4];
  }

  // ----- which bytes are read as which record -----

  lemma Read4(b: Bytes, p: nat)
    requires p <= |b|
    ensures ReadUint32(b[p..]) == if p + 4 <= |b| then Got(Little4(b, p), b[p + 4..]) else Truncated
    ensures ReadInt32(b[p..]) == if p + 4 <= |b| then Got(ToInt32(Little4(b, p)), b[p + 4..]) else Truncated
  {
    if p + 4 <= |b| {
      var d := b[p..][..4];
      FourLittle(d[0], d[1], d[2], d[3]);
      assert d == [d[0], d[1], d[2], d[3]];
      assert b[p..][4..] == b[p + 4..];
    }
    hide FromLittleEndian;
  }

  lemma Read8(b: Bytes, p: nat)
    requires p <= |b|
    ensures ReadTimestamp(b[p..]) == if p + 8 <= |b| then Got(ToInt64(Little8(b, p)), b[p + 8..]) else Got(ZERO_TIME, b[p..])
  {
    if p + 8 <= |b| {
      var d := b[p..][..8];
      EightLittle(d);
      assert forall i :: 0 <= i < 8 ==> d[i] == b[p + i];
      assert b[p..][8..] == b[p + 8..];
    }
    hide FromLittleEndian;
  }

  lemma ReadText(b: Bytes, p: nat)
    requires p <= |b|
    ensures ReadString(b[p..]) ==
            if p + 4 <= |b| && Little4(b, p) <= 1024 && p + 4 + Little4(b, p) <= |b|
            then Got(b[p + 4..p + 4 + Little4(b, p)], b[p + 4 + Little4(b, p)..])
            else Truncated
  {
    Read4(b, p);
    if p + 4 <= |b| && p + 4 + Little4(b, p) <= |b| {
      var n := Little4(b, p);
      assert b[p + 4..][..n] == b[p + 4..p + 4 + n] && b[p + 4..][n..] == b[p + 4 + n..];
    }
    hide ReadUint32;
  }

  lemma ReadPart(b: Bytes, p: nat, n: nat)
    requires p <= |b|
    ensures ReadBytes(b[p..], n) == if p + n <= |b| then Got(b[p..p + n], b[p + n..]) else Truncated
  {
    if p + n <= |b| {
      assert b[p..][..n] == b[p..p + n] && b[p..][n..] == b[p + n..];
    }
  }

  /** Value and address have at most 1024 bytes, and all fields up to the address are there. */
  predicate CoreThere(b: Bytes) {
    && |b| >= 5 && Little4(b, 1) <= 1024 && |b| >= Little4(b, 1) + 53
    && Little4(b, Little4(b, 1) + 49) <= 1024 && |b| >= Little4(b, 1) + Little4(b, Little4(b, 1) + 49) + 53
  }

  lemma ReadCoreFields(b: Bytes)
    requires b != []
    ensures ReadCore(b[1..]) ==
            if CoreThere(b) then
              var v, a := Little4(b, 1), Little4(b, Little4(b, 1) + 49);
              Got(CoreFields(b[5..v + 5], b[v + 5..v + 37], Little4(b, v + 37), ToInt32(Little4(b, v + 41)), ToInt32(Little4(b, v + 45)),
                             b[v + 53..v + a + 53]), b[v + a + 53..])
            else Truncated
  {
    hide ReadString, ReadUint32, ReadInt32, ReadBytes, Little4, ToInt32;
    ReadText(b, 1);
    if |b| >= 5 && Little4(b, 1) <= 1024 && |b| >= Little4(b, 1) + 5 {
      var v := Little4(b, 1);
      ReadPart(b, v + 5, 32);
      if |b| >= v + 37 {
        Read4(b, v + 37);
        if |b| >= v + 41 {
          Read4(b, v + 41);
          if |b| >= v + 45 {
            Read4(b, v + 45);
            if |b| >= v + 49 {
              ReadText(b, v + 49);
            }
          }
        }
      }
    }
  }

  /** The bytes hold the record, in version 2 or 3, with or without a time. */
  predicate Holds(b: Bytes, r: Record) {
    && CoreThere(b) && (b[0] == 2 || b[0] == 3)
    && var v, a := Little4(b, 1), Little4(b, Little4(b, 1) + 49);
       var t := v + a + 53;
       var end := if t + 8 <= |b| then t + 8 else t;
       && r.value == b[5..v + 5] && r.txHash == b[v + 5..v + 37] && r.outIndex == Little4(b, v + 37)
       && Unsigned32(r.height) == Little4(b, v + 41) && Unsigned32(r.expiresAt) == Little4(b, v + 45)
       && r.address == b[v + 53..t]
       && IsInt64(r.updatedAt)
       && (if t + 8 <= |b| then Unsigned64(r.updatedAt) == Little8(b, t) else r.updatedAt == -62135596800)
       && (if b[0] == 2 then r.nameNewHeight == 0 else end + 4 <= |b| && Unsigned32(r.nameNewHeight) == Little4(b, end))
  }

  lemma Signed(x: Int32, n: Uint32)
    ensures ToInt32(n) == x <==> n == Unsigned32(x)
  {
  }

  lemma SignedLong(x: int, n: nat)
    requires n < TWO_64
    ensures ToInt64(n) == x <==> IsInt64(x) && n == Unsigned64(x)
  {
  }

  /** Where the time starts, and where it ends when there is one. */
  function TimeAt(b: Bytes): nat
    requires CoreThere(b)
  {
    Little4(b, 1) + Little4(b, Little4(b, 1) + 49) + 53
  }

  function TimeEnd(b: Bytes): (r: nat)
    requires CoreThere(b)
    ensures r <= |b|
  {
    if TimeAt(b) + 8 <= |b| then TimeAt(b) + 8 else TimeAt(b)
  }

  predicate Complete(b: Bytes) {
    CoreThere(b) && (b[0] == 2 || (b[0] == 3 && TimeEnd(b) + 4 <= |b|))
  }

  lemma RecordRead(b: Bytes)
    ensures DecodeRecord(b) ==
            if Complete(b) then
              var v, t := Little4(b, 1), TimeAt(b);
              Some(Record(b[5..v + 5], b[v + 5..v + 37], Little4(b, v + 37), ToInt32(Little4(b, v + 41)), ToInt32(Little4(b, v + 45)),
                          b[v + 53..t], if t + 8 <= |b| then ToInt64(Little8(b, t)) else ZERO_TIME,
                          if b[0] == 2 then 0 else ToInt32(Little4(b, TimeEnd(b)))))
            else None
  {
    hide ReadCore, ReadTimestamp, ReadInt32, ReadUint32, Little4, Little8, ToInt32, ToInt64;
    if b != [] {
      ReadCoreFields(b);
      if CoreThere(b) {
        Read8(b, TimeAt(b));
        Read4(b, TimeEnd(b));
        hide CoreThere, TimeAt;
      }
    }
  }

  /** Exactly these bytes are read as the record. */
  lemma RecordReadExactly(b: Bytes, r: Record)
    ensures DecodeRecord(b) == Some(r) <==> Holds(b, r)
  {
    RecordRead(b);
    hide DecodeRecord;
    if CoreThere(b) {
      var v, t := Little4(b, 1), TimeAt(b);
      Signed(r.height, Little4(b, v + 41));
      Signed(r.expiresAt, Little4(b, v + 45));
      if t + 8 <= |b| {
        SignedLong(r.updatedAt, Little8(b, t));
      }
      if TimeEnd(b) + 4 <= |b| {
        Signed(r.nameNewHeight, Little4(b, TimeEnd(b)));
      }
      hide Little4, Little8, ToInt32, ToInt64, Unsigned32, Unsigned64, CoreThere;
    }
  }

  /** Exactly these bytes are read as the output. */
  lemma OutputReadExactly(b: Bytes, x: Utxo)
    ensures DecodeUtxo(b) == Some(x) <==>
            && |b| >= 13 && |b| >= b[12] as nat + 15
            && var a := b[12] as nat;
               var s := 256 * b[a + 13] as nat + b[a + 14] as nat;
               && |b| >= a + s + 15
               && IsInt64(x.value) && Unsigned64(x.value) == Big8(b, 0) && Unsigned32(x.height) == Big4(b, 8)
               && x.address == b[13..a + 13] && x.script == b[a + 15..a + s + 15]
  {
    if |b| >= 13 {
      EightBig(b[0..8]);
      var h := b[8..12];
      FourBig(h[0], h[1], h[2], h[3]);
      assert h == [h[0], h[1], h[2], h[3]];
      assert forall i :: 0 <= i < 8 ==> b[0..8][i] == b[i];
      SignedLong(x.value, Big8(b, 0));
      Signed(x.height, Big4(b, 8));
      var a := b[12] as nat;
      if |b| >= a + 15 {
        TwoBig(b[a + 13], b[a + 14]);
        assert b[a + 13..a + 15] == [b[a + 13], b[a + 14]];
      }
      hide FromBigEndian, ToInt32, ToInt64, Unsigned32, Unsigned64;
    }
  }
}
