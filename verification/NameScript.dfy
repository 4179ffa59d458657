/**
 Name scripts: the chain's parser, the second walk that finds the owner's script behind the
 name prefix, and the wallet's builder.
 */
module NameScript {
  import opened Bytes
  import opened Records
  import opened PushCodec

  const OP_NAME_NEW: byte := 0xd0
  const OP_NAME_FIRSTUPDATE: byte := 0xd1
  const OP_NAME_UPDATE: byte := 0xd2
  const OP_DROP: byte := 0x75
  const OP_2DROP: byte := 0x6d
  const OP_DUP: byte := 0x76
  const OP_HASH160: byte := 0xa9
  const OP_EQUALVERIFY: byte := 0x88
  const OP_CHECKSIG: byte := 0xac
  const MIN_SUFFIX: int := 25
  const PUBKEY_HASH_SIZE: int := 20

  // ----- the format -----

  function OpByte(op: OpType): byte {
    match op
    case NameNew => OP_NAME_NEW
    case NameFirstUpdate => OP_NAME_FIRSTUPDATE
    case NameUpdate => OP_NAME_UPDATE
  }

  /** How many fields an operation pushes. */
  function FieldCount(op: OpType): nat {
    match op
    case NameNew => 1
    case NameFirstUpdate => 3
    case NameUpdate => 2
  }

  /** The opcodes that drop the pushed fields. */
  function DropOps(op: OpType): Bytes {
    match op
    case NameNew => [OP_2DROP]
    case NameFirstUpdate => [OP_2DROP, OP_2DROP]
    case NameUpdate => [OP_2DROP, OP_DROP]
  }

  function Concat(pushes: seq<Bytes>): Bytes {
    if pushes == [] then [] else pushes[0] + Concat(pushes[1..])
  }

  predicate ArePushes(pushes: seq<Bytes>, fields: seq<Bytes>) {
    |pushes| == |fields| && forall i :: 0 <= i < |pushes| ==> IsPush(pushes[i], fields[i])
  }

  /** The script of an operation: opcode, pushed fields, drop opcodes, and a suffix of at least 25 bytes. */
  predicate IsNameScript(script: Bytes, op: OpType, fields: seq<Bytes>, pushes: seq<Bytes>, suffix: Bytes) {
    && |fields| == FieldCount(op)
    && ArePushes(pushes, fields)
    && script == [OpByte(op)] + Concat(pushes) + DropOps(op) + suffix
    && |suffix| >= MIN_SUFFIX
  }

  // ----- reading several pushes -----

  datatype Pushes = Pushes(fields: seq<Bytes>, end: nat)

  function ReadPushes(script: Bytes, offset: nat, count: nat): Option<Pushes>
    decreases count
  {
    if count == 0 then Some(Pushes([], offset))
    else
      match ReadPush(script, offset)
      case None => None
      case Some(p) =>
        match ReadPushes(script, p.end, count - 1)
        case None => None
        case Some(rest) => Some(Pushes([p.data] + rest.fields, rest.end))
  }

  lemma PartAt(script: Bytes, offset: nat, a: Bytes, b: Bytes)
    requires offset + |a + b| <= |script| && script[offset..offset + |a + b|] == a + b
    ensures script[offset..offset + |a|] == a
    ensures script[offset + |a|..offset + |a| + |b|] == b
  {
    assert script[offset..offset + |a|] == (a + b)[..|a|];
    assert script[offset + |a|..offset + |a| + |b|] == (a + b)[|a|..];
  }

  lemma {:induction false} PushesAreRead(script: Bytes, offset: nat, pushes: seq<Bytes>, fields: seq<Bytes>)
    requires ArePushes(pushes, fields)
    requires offset + |Concat(pushes)| <= |script| && script[offset..offset + |Concat(pushes)|] == Concat(pushes)
    ensures ReadPushes(script, offset, |pushes|) == Some(Pushes(fields, offset + |Concat(pushes)|))
    decreases |pushes|
  {
    hide IsPush, ReadPush;
    if pushes != [] {
      var n, rest := |pushes[0]|, Concat(pushes[1..]);
      PartAt(script, offset, pushes[0], rest);
      PushIsRead(script, offset, offset + n, fields[0]);
      PushesAreRead(script, offset + n, pushes[1..], fields[1..]);
      assert fields == [fields[0]] + fields[1..];
    } else {
      assert fields == [];
    }
  }

  lemma {:induction false} ReadArePushes(script: Bytes, offset: nat, count: nat) returns (pushes: seq<Bytes>)
    requires ReadPushes(script, offset, count).Some? && offset <= |script|
    ensures var r := ReadPushes(script, offset, count).value;
            && offset + count <= r.end <= |script| && |pushes| == count
            && ArePushes(pushes, r.fields) && script[offset..r.end] == Concat(pushes)
    decreases count
  {
    hide IsPush, ReadPush;
    if count == 0 {
      pushes := [];
    } else {
      var p := ReadPush(script, offset).value;
      ReadIsPush(script, offset);
      var rest := ReadArePushes(script, p.end, count - 1);
      pushes := [script[offset..p.end]] + rest;
      var end := ReadPushes(script, p.end, count - 1).value.end;
      assert script[offset..end] == script[offset..p.end] + script[p.end..end];
    }
  }

  // ----- parsing -----

  /** A parsed operation; extra is the commitment of a NAME_NEW and the salt of a NAME_FIRSTUPDATE. */
  datatype Parsed = Parsed(op: OpType, name: Bytes, value: Bytes, extra: Bytes)

  function ParsedOf(op: OpType, fields: seq<Bytes>): Parsed
    requires |fields| == FieldCount(op)
  {
    match op
    case NameNew => Parsed(op, [], [], fields[0])
    case NameFirstUpdate => Parsed(op, fields[0], fields[2], fields[1])
    case NameUpdate => Parsed(op, fields[0], fields[1], [])
  }

  function OpOfByte(b: byte): Option<OpType> {
    if b == OP_NAME_NEW then Some(NameNew)
    else if b == OP_NAME_FIRSTUPDATE then Some(NameFirstUpdate)
    else if b == OP_NAME_UPDATE then Some(NameUpdate)
    else None
  }

  predicate HasAt(script: Bytes, offset: nat, part: Bytes) {
    offset + |part| <= |script| && script[offset..offset + |part|] == part
  }

  /** The offset after the drop opcodes, if they are there and enough bytes follow. */
  function FormatEnd(script: Bytes, op: OpType, dataEnd: nat): Option<nat> {
    var end := dataEnd + |DropOps(op)|;
    if HasAt(script, dataEnd, DropOps(op)) && |script| - end >= MIN_SUFFIX then Some(end) else None
  }

  lemma {:induction false} ReadAsMany(script: Bytes, offset: nat, count: nat)
    ensures ReadPushes(script, offset, count).Some? ==> |ReadPushes(script, offset, count).value.fields| == count
    decreases count
  {
    if count > 0 && ReadPush(script, offset).Some? {
      ReadAsMany(script, ReadPush(script, offset).value.end, count - 1);
    }
  }

  /** What a script means to the parser, and where its suffix starts. */
  function ParseScript(script: Bytes): Option<(Parsed, nat)> {
    if |script| < 2 then None
    else
      match OpOfByte(script[0])
      case None => None
      case Some(op) =>
        match ReadPushes(script, 1, FieldCount(op))
        case None => None
        case Some(r) =>
          ReadAsMany(script, 1, FieldCount(op));
          match FormatEnd(script, op, r.end)
          case None => None
          case Some(end) => Some((ParsedOf(op, r.fields), end))
  }

  method ValidateScriptFormat(script: Bytes, op: OpType, dataEnd: nat) returns (r: Option<nat>)
    ensures r == FormatEnd(script, op, dataEnd)
  {
    if dataEnd >= |script| {
      return None;
    }
    var offset := dataEnd;
    match op {
      case NameNew =>
        if offset >= |script| || script[offset] != OP_2DROP {
          return None;
        }
        offset := offset + 1;
      case NameFirstUpdate =>
        if offset >= |script| || script[offset] != OP_2DROP {
          return None;
        }
        offset := offset + 1;
        if offset >= |script| || script[offset] != OP_2DROP {
          return None;
        }
        offset := offset + 1;
      case NameUpdate =>
        if offset >= |script| || script[offset] != OP_2DROP {
          return None;
        }
        offset := offset + 1;
        if offset >= |script| || script[offset] != OP_DROP {
          return None;
        }
        offset := offset + 1;
    }
    assert script[dataEnd..offset] == DropOps(op);
    if |script| - offset < MIN_SUFFIX {
      return None;
    }
    r := Some(offset);
  }

  lemma ReadOne(script: Bytes, offset: nat)
    ensures ReadPushes(script, offset, 1) ==
            match ReadPush(script, offset) { case None => None case Some(p) => Some(Pushes([p.data], p.end)) }
  {
    if ReadPush(script, offset).Some? {
      var p := ReadPush(script, offset).value;
      assert ReadPushes(script, p.end, 0).Some? && [p.data] + [] == [p.data];
    }
  }

  lemma ReadTwo(script: Bytes, offset: nat)
    ensures ReadPushes(script, offset, 2) ==
            match ReadPush(script, offset) {
              case None => None
              case Some(p) =>
                match ReadPush(script, p.end) { case None => None case Some(q) => Some(Pushes([p.data, q.data], q.end)) }
            }
  {
    if ReadPush(script, offset).Some? {
      var p := ReadPush(script, offset).value;
      ReadOne(script, p.end);
      assert ReadPush(script, p.end).Some? ==> [p.data] + [ReadPush(script, p.end).value.data] == [p.data, ReadPush(script, p.end).value.data];
    }
  }

  lemma ReadThree(script: Bytes, offset: nat)
    ensures ReadPushes(script, offset, 3) ==
            match ReadPush(script, offset) {
              case None => None
              case Some(p) =>
                match ReadPushes(script, p.end, 2) { case None => None case Some(q) => Some(Pushes([p.data] + q.fields, q.end)) }
            }
  {
  }

  /** The name and the value, read one after the other. */
  method ParseNameValue(script: Bytes, start: nat) returns (r: Option<Pushes>)
    ensures r == ReadPushes(script, start, 2)
  {
    hide ReadPush;
    ReadTwo(script, start);
    var name := ReadPushData(script, start);
    if name.None? {
      return None;
    }
    var value := ReadPushData(script, name.value.end);
    if value.None? {
      return None;
    }
    r := Some(Pushes([name.value.data, value.value.data], value.value.end));
  }

  method ParseNameScriptFull(script: Bytes) returns (r: Option<Parsed>)
    ensures r == match ParseScript(script) { case None => None case Some(p) => Some(p.0) }
  {
    hide ReadPush, FormatEnd;
    if |script| < 2 {
      return None;
    }
    var parsed, dataEnd;
    if script[0] == OP_NAME_NEW {
      ReadOne(script, 1);
      hide ReadPushes;
      var hash := ReadPushData(script, 1);
      if hash.None? {
        return None;
      }
      parsed, dataEnd := Parsed(NameNew, [], [], hash.value.data), hash.value.end;
    } else if script[0] == OP_NAME_FIRSTUPDATE {
      ReadThree(script, 1);
      hide ReadPushes;
      var name := ReadPushData(script, 1);
      if name.None? {
        return None;
      }
      ReadTwo(script, name.value.end);
      var rand := ReadPushData(script, name.value.end);
      if rand.None? {
        return None;
      }
      var value := ReadPushData(script, rand.value.end);
      if value.None? {
        return None;
      }
      parsed, dataEnd := Parsed(NameFirstUpdate, name.value.data, value.value.data, rand.value.data), value.value.end;
    } else if script[0] == OP_NAME_UPDATE {
      var fields := ParseNameValue(script, 1);
      if fields.None? {
        return None;
      }
      ReadAsMany(script, 1, 2);
      hide ReadPushes;
      parsed, dataEnd := Parsed(NameUpdate, fields.value.fields[0], fields.value.fields[1], []), fields.value.end;
    } else {
      return None;
    }
    var end := ValidateScriptFormat(script, parsed.op, dataEnd);
    if end.None? {
      return None;
    }
    r := Some(parsed);
  }

  // ----- the parser decides the format -----

  lemma Parts(script: Bytes, a: Bytes, b: Bytes, c: Bytes, d: Bytes)
    requires script == a + b + c + d
    ensures script[|a|..|a| + |b|] == b
    ensures script[|a| + |b|..|a| + |b| + |c|] == c
  {
  }

  lemma ScriptIsParsed(script: Bytes, op: OpType, fields: seq<Bytes>, pushes: seq<Bytes>, suffix: Bytes)
    requires IsNameScript(script, op, fields, pushes, suffix)
    ensures ParseScript(script) == Some((ParsedOf(op, fields), |script| - |suffix|))
  {
    hide ReadPushes, Concat, IsPush;
    var data, drops := Concat(pushes), DropOps(op);
    Parts(script, [OpByte(op)], data, drops, suffix);
    PushesAreRead(script, 1, pushes, fields);
    assert OpOfByte(script[0]) == Some(op);
    assert HasAt(script, 1 + |data|, drops);
  }

  lemma ParsedIsScript(script: Bytes) returns (op: OpType, fields: seq<Bytes>, pushes: seq<Bytes>, suffix: Bytes)
    requires ParseScript(script).Some?
    ensures IsNameScript(script, op, fields, pushes, suffix) && |fields| == FieldCount(op)
    ensures ParseScript(script) == Some((ParsedOf(op, fields), |script| - |suffix|))
  {
    hide ReadPushes, Concat, IsPush, ReadPush;
    op := OpOfByte(script[0]).value;
    var r := ReadPushes(script, 1, FieldCount(op)).value;
    ReadAsMany(script, 1, FieldCount(op));
    pushes := ReadArePushes(script, 1, FieldCount(op));
    fields := r.fields;
    var end := FormatEnd(script, op, r.end).value;
    suffix := script[end..];
    hide ArePushes;
    assert script[..1] == [OpByte(op)];
    assert script == script[..1] + script[1..r.end] + script[r.end..end] + suffix;
  }

  /** The parser accepts exactly the scripts of the format, and returns the fields they push. */
  lemma ParserDecidesFormat(script: Bytes, op: OpType, fields: seq<Bytes>)
    requires |fields| == FieldCount(op)
    ensures (exists end :: ParseScript(script) == Some((ParsedOf(op, fields), end)))
            <==> exists pushes, suffix :: IsNameScript(script, op, fields, pushes, suffix)
  {
    hide IsNameScript, ParseScript, ParsedOf;
    if exists pushes, suffix :: IsNameScript(script, op, fields, pushes, suffix) {
      var pushes, suffix :| IsNameScript(script, op, fields, pushes, suffix);
      ScriptIsParsed(script, op, fields, pushes, suffix);
    }
    if exists end :: ParseScript(script) == Some((ParsedOf(op, fields), end)) {
      var op', fields', pushes, suffix := ParsedIsScript(script);
      SameFields(op, fields, op', fields');
    }
  }

  lemma SameFields(op: OpType, fields: seq<Bytes>, op': OpType, fields': seq<Bytes>)
    requires |fields| == FieldCount(op) && |fields'| == FieldCount(op') && ParsedOf(op, fields) == ParsedOf(op', fields')
    ensures op == op' && fields == fields'
  {
  }

  // ----- the second walk -----

  /** Steps over each of the opcodes that is there. */
  function SkipOps(script: Bytes, offset: nat, ops: Bytes): nat
    decreases |ops|
  {
    if ops == [] then offset
    else SkipOps(script, if offset < |script| && script[offset] == ops[0] then offset + 1 else offset, ops[1..])
  }

  /** Where the walk that skips the name prefix stops. */
  function SkipPrefix(script: Bytes): Option<nat>
    requires script != []
  {
    match OpOfByte(script[0])
    case None => None
    case Some(op) =>
      match ReadPushes(script, 1, FieldCount(op))
      case None => None
      case Some(r) => Some(SkipOps(script, r.end, DropOps(op)))
  }

  method SkipPushDataFields(script: Bytes, start: nat, count: nat) returns (r: Option<nat>)
    ensures r == match ReadPushes(script, start, count) { case None => None case Some(p) => Some(p.end) }
  {
    hide ReadPush;
    var offset := start;
    for i := 0 to count
      invariant ReadPushes(script, start, count).Some? <==> ReadPushes(script, offset, count - i).Some?
      invariant ReadPushes(script, start, count).Some? ==>
                  ReadPushes(script, start, count).value.end == ReadPushes(script, offset, count - i).value.end
    {
      var p := ReadPushData(script, offset);
      if p.None? {
        return None;
      }
      offset := p.value.end;
    }
    r := Some(offset);
  }

  method SkipNameNewPrefix(script: Bytes) returns (r: Option<nat>)
    ensures r == match ReadPushes(script, 1, 1) { case None => None case Some(p) => Some(SkipOps(script, p.end, DropOps(NameNew))) }
  {
    hide ReadPush;
    ReadOne(script, 1);
    var hash := ReadPushData(script, 1);
    if hash.None? {
      return None;
    }
    var offset := hash.value.end;
    SkipOne(script, offset, OP_2DROP);
    if offset < |script| && script[offset] == 0x6d {
      offset := offset + 1;
    }
    r := Some(offset);
  }

  lemma SkipOne(script: Bytes, offset: nat, op: byte)
    ensures SkipOps(script, offset, [op]) == if offset < |script| && script[offset] == op then offset + 1 else offset
  {
    assert [op][1..] == [];
  }

  lemma SkipTwo(script: Bytes, offset: nat, a: byte, b: byte)
    ensures SkipOps(script, offset, [a, b]) ==
            SkipOps(script, if offset < |script| && script[offset] == a then offset + 1 else offset, [b])
  {
    assert [a, b][1..] == [b];
  }

  method SkipNameFirstUpdatePrefix(script: Bytes) returns (r: Option<nat>)
    ensures r == match ReadPushes(script, 1, 3) { case None => None case Some(p) => Some(SkipOps(script, p.end, DropOps(NameFirstUpdate))) }
  {
    hide ReadPushes;
    var end := SkipPushDataFields(script, 1, 3);
    if end.None? {
      return None;
    }
    var offset := end.value;
    SkipTwo(script, offset, OP_2DROP, OP_2DROP);
    SkipOne(script, offset, OP_2DROP);
    SkipOne(script, offset + 1, OP_2DROP);
    var i := 0;
    while i < 2 && offset < |script| && script[offset] == 0x6d
      invariant 0 <= i <= 2 && offset == end.value + i && (i > 0 ==> end.value < |script| && script[end.value] == 0x6d)
      invariant i == 2 ==> end.value + 1 < |script| && script[end.value + 1] == 0x6d
    {
      offset := offset + 1;
      i := i + 1;
    }
    r := Some(offset);
  }

  method SkipNameUpdatePrefix(script: Bytes) returns (r: Option<nat>)
    ensures r == match ReadPushes(script, 1, 2) { case None => None case Some(p) => Some(SkipOps(script, p.end, DropOps(NameUpdate))) }
  {
    hide ReadPushes;
    var end := SkipPushDataFields(script, 1, 2);
    if end.None? {
      return None;
    }
    var offset := end.value;
    SkipTwo(script, offset, OP_2DROP, OP_DROP);
    if offset < |script| && script[offset] == 0x6d {
      offset := offset + 1;
    }
    SkipOne(script, offset, OP_DROP);
    if offset < |script| && script[offset] == 0x75 {
      offset := offset + 1;
    }
    r := Some(offset);
  }

  method SkipNameScriptPrefix(script: Bytes) returns (r: Option<nat>)
    requires script != []
    ensures r == SkipPrefix(script)
  {
    hide ReadPushes, SkipOps;
    if script[0] == OP_NAME_NEW {
      r := SkipNameNewPrefix(script);
    } else if script[0] == OP_NAME_FIRSTUPDATE {
      r := SkipNameFirstUpdatePrefix(script);
    } else if script[0] == OP_NAME_UPDATE {
      r := SkipNameUpdatePrefix(script);
    } else {
      r := None;
    }
  }

  lemma {:induction false} SkipPresent(script: Bytes, offset: nat, ops: Bytes)
    requires HasAt(script, offset, ops)
    ensures SkipOps(script, offset, ops) == offset + |ops|
    decreases |ops|
  {
    if ops != [] {
      assert script[offset] == script[offset..offset + |ops|][0];
      assert script[offset + 1..offset + |ops|] == ops[1..];
      SkipPresent(script, offset + 1, ops[1..]);
    }
  }

  /** On every accepted script the two walks agree, and at least 25 bytes are left for the owner's script. */
  lemma WalksAgree(script: Bytes)
    requires ParseScript(script).Some?
    ensures SkipPrefix(script) == Some(ParseScript(script).value.1)
    ensures 1 < ParseScript(script).value.1 <= |script| - MIN_SUFFIX
  {
    var op := OpOfByte(script[0]).value;
    var r := ReadPushes(script, 1, FieldCount(op)).value;
    var pushes := ReadArePushes(script, 1, FieldCount(op));
    hide ReadPushes;
    SkipPresent(script, r.end, DropOps(op));
  }

  // ----- building -----

  function P2PKH(pubKeyHash: Bytes): (r: Bytes)
    ensures |r| == |pubKeyHash| + 5
  {
    [OP_DUP, OP_HASH160, 0x14] + pubKeyHash + [OP_EQUALVERIFY, OP_CHECKSIG]
  }

  predicate Pushable(fields: seq<Bytes>) {
    forall i :: 0 <= i < |fields| ==> |fields[i]| <= MAX_PUSH
  }

  function PushesOf(fields: seq<Bytes>): (r: seq<Bytes>)
    requires Pushable(fields)
    ensures |r| == |fields|
  {
    seq(|fields|, i requires 0 <= i < |fields| => PushData(fields[i]).value)
  }

  function NameScriptOf(op: OpType, fields: seq<Bytes>, pubKeyHash: Bytes): Bytes
    requires Pushable(fields)
  {
    [OpByte(op)] + Concat(PushesOf(fields)) + DropOps(op) + P2PKH(pubKeyHash)
  }

  lemma {:induction false} ConcatSnoc(pushes: seq<Bytes>, p: Bytes)
    ensures Concat(pushes + [p]) == Concat(pushes) + p
  {
    if pushes == [] {
      assert [p][1..] == [];
      assert pushes + [p] == [p];
    } else {
      assert (pushes + [p])[1..] == pushes[1..] + [p];
      ConcatSnoc(pushes[1..], p);
    }
  }

  method BuildNameScript(op: OpType, fields: seq<Bytes>, pubKeyHash: Bytes) returns (r: Option<Bytes>)
    ensures r == if Pushable(fields) then Some(NameScriptOf(op, fields, pubKeyHash)) else None
  {
    hide PushHeader;
    var script := [OpByte(op)];
    for i := 0 to |fields|
      invariant Pushable(fields[..i])
      invariant script == [OpByte(op)] + Concat(PushesOf(fields[..i]))
    {
      var encoded := PushData(fields[i]);
      if encoded.None? {
        return None;
      }
      assert forall j :: 0 <= j <= i ==> fields[..i + 1][j] == fields[j];
      assert PushesOf(fields[..i + 1]) == PushesOf(fields[..i]) + [encoded.value];
      ConcatSnoc(PushesOf(fields[..i]), encoded.value);
      script := script + encoded.value;
    }
    assert fields[..|fields|] == fields;
    r := Some(script + DropOps(op) + P2PKH(pubKeyHash));
  }

  /** What the builder writes is a script of the format, with the owner's script as its suffix. */
  lemma BuiltIsScript(op: OpType, fields: seq<Bytes>, pubKeyHash: Bytes)
    requires |fields| == FieldCount(op) && |pubKeyHash| == PUBKEY_HASH_SIZE
    requires forall i :: 0 <= i < |fields| ==> |fields[i]| <= MAX_READ
    ensures Pushable(fields)
    ensures IsNameScript(NameScriptOf(op, fields, pubKeyHash), op, fields, PushesOf(fields), P2PKH(pubKeyHash))
  {
    forall i | 0 <= i < |fields| ensures IsPush(PushesOf(fields)[i], fields[i]) {
      WrittenIsPush(fields[i]);
    }
  }

  /**
   Builder and parser are inverse: the parser returns the operation and the fields pushed, and
   what it leaves is exactly the owner's pay-to-pubkey-hash script.
   */
  lemma BuildThenParse(op: OpType, fields: seq<Bytes>, pubKeyHash: Bytes)
    requires |fields| == FieldCount(op) && |pubKeyHash| == PUBKEY_HASH_SIZE
    requires forall i :: 0 <= i < |fields| ==> |fields[i]| <= MAX_READ
    ensures Pushable(fields)
    ensures var script := NameScriptOf(op, fields, pubKeyHash);
            && ParseScript(script) == Some((ParsedOf(op, fields), |script| - MIN_SUFFIX))
            && SkipPrefix(script) == Some(|script| - MIN_SUFFIX)
            && script[|script| - MIN_SUFFIX..] == P2PKH(pubKeyHash)
  {
    hide ParseScript, SkipPrefix, Concat, PushesOf, IsNameScript;
    BuiltIsScript(op, fields, pubKeyHash);
    var script := NameScriptOf(op, fields, pubKeyHash);
    ScriptIsParsed(script, op, fields, PushesOf(fields), P2PKH(pubKeyHash));
    WalksAgree(script);
  }

  // ----- the wallet's scripts -----

  predicate HexDigit(c: byte) {
    '0' as int <= c as int <= '9' as int || 'a' as int <= c as int <= 'f' as int || 'A' as int <= c as int <= 'F' as int
  }

  function HexValue(c: byte): (v: nat)
    requires HexDigit(c)
    ensures v < 16
  {
    if c as int <= '9' as int then c as int - '0' as int
    else if c as int <= 'F' as int then c as int - 'A' as int + 10
    else c as int - 'a' as int + 10
  }

  /** Two hexadecimal digits a byte, upper or lower case. */
  function DecodeHex(s: Bytes): Option<Bytes> {
    if s == [] then Some([])
    else if |s| == 1 || !HexDigit(s[0]) || !HexDigit(s[1]) then None
    else
      match DecodeHex(s[2..])
      case None => None
      case Some(rest) => Some([(16 * HexValue(s[0]) + HexValue(s[1])) as byte] + rest)
  }

  predicate ParamsOk(name: Bytes, value: Bytes, pubKeyHash: Bytes) {
    0 < |name| <= MAX_NAME_LENGTH && |value| <= MAX_VALUE_LENGTH && |pubKeyHash| == PUBKEY_HASH_SIZE
  }

  /** script parses to p, and the owner's script behind the prefix is the one of pubKeyHash. */
  predicate Carries(script: Bytes, p: Parsed, pubKeyHash: Bytes) {
    && ParseScript(script) == Some((p, |script| - MIN_SUFFIX))
    && script != [] && SkipPrefix(script) == Some(|script| - MIN_SUFFIX)
    && script[|script| - MIN_SUFFIX..] == P2PKH(pubKeyHash)
  }

  method BuildNameNewScript(hash: Bytes, pubKeyHash: Bytes) returns (r: Option<Bytes>)
    ensures r.Some? <==> |hash| == 20 && |pubKeyHash| == PUBKEY_HASH_SIZE
    ensures r.Some? ==> Carries(r.value, Parsed(NameNew, [], [], hash), pubKeyHash)
    ensures r.Some? ==> Pushable([hash]) && r.value == NameScriptOf(NameNew, [hash], pubKeyHash)
  {
    if |hash| != 20 || |pubKeyHash| != 20 {
      return None;
    }
    BuildThenParse(NameNew, [hash], pubKeyHash);
    hide ParseScript, SkipPrefix, NameScriptOf;
    r := BuildNameScript(NameNew, [hash], pubKeyHash);
  }

  /** The salt is pushed decoded; one of more than 2^31 - 1 bytes could be written but not read back. */
  method BuildNameFirstUpdateScript(name: Bytes, randHex: Bytes, value: Bytes, pubKeyHash: Bytes) returns (r: Option<Bytes>)
    ensures r.Some? <==> ParamsOk(name, value, pubKeyHash) && randHex != [] && DecodeHex(randHex).Some? && |DecodeHex(randHex).value| <= MAX_PUSH
    ensures r.Some? && |DecodeHex(randHex).value| <= MAX_READ ==>
              Carries(r.value, Parsed(NameFirstUpdate, name, value, DecodeHex(randHex).value), pubKeyHash)
    ensures r.Some? ==>
              var fields := [name, DecodeHex(randHex).value, value];
              Pushable(fields) && r.value == NameScriptOf(NameFirstUpdate, fields, pubKeyHash)
  {
    hide DecodeHex;
    if !ParamsOk(name, value, pubKeyHash) || |randHex| == 0 {
      return None;
    }
    var rand := DecodeHex(randHex);
    if rand.None? {
      return None;
    }
    var fields := [name, rand.value, value];
    assert Pushable(fields) <==> |fields[1]| <= MAX_PUSH;
    if |rand.value| <= MAX_READ {
      BuildThenParse(NameFirstUpdate, fields, pubKeyHash);
    }
    hide ParseScript, SkipPrefix, NameScriptOf;
    r := BuildNameScript(NameFirstUpdate, fields, pubKeyHash);
  }

  method BuildNameUpdateScript(name: Bytes, value: Bytes, pubKeyHash: Bytes) returns (r: Option<Bytes>)
    ensures r.Some? <==> ParamsOk(name, value, pubKeyHash)
    ensures r.Some? ==> Carries(r.value, Parsed(NameUpdate, name, value, []), pubKeyHash)
    ensures r.Some? ==> Pushable([name, value]) && r.value == NameScriptOf(NameUpdate, [name, value], pubKeyHash)
  {
    if !ParamsOk(name, value, pubKeyHash) {
      return None;
    }
    BuildThenParse(NameUpdate, [name, value], pubKeyHash);
    hide ParseScript, SkipPrefix, NameScriptOf;
    r := BuildNameScript(NameUpdate, [name, value], pubKeyHash);
  }
}
