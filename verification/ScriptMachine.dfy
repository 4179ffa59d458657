/**
 Name scripts byte by byte, and run: a stack machine for the opcodes the wallet writes shows who
 can spend a name output.
 */
module ScriptMachine {
  import opened Bytes
  import opened Records
  import opened PushCodec
  import opened PushBytes
  import opened NameScript

  // ----- the bytes of a name script -----

  /** The push a wallet writes. */
  function Pushed(data: Bytes): Bytes
    requires |data| <= 0xffff_ffff
  {
    PushData(data).value
  }

  lemma NewScriptBytes(hash: Bytes, pubKeyHash: Bytes)
    requires |hash| <= 0xffff_ffff
    ensures NameScriptOf(NameNew, [hash], pubKeyHash)
            == [0xd0] + Pushed(hash) + [0x6d] + [0x76, 0xa9, 0x14] + pubKeyHash + [0x88, 0xac]
  {
    hide PushData;
    var ps := PushesOf([hash]);
    assert ps[1..] == [] && Concat(ps) == ps[0];
  }

  lemma FirstUpdateScriptBytes(name: Bytes, rand: Bytes, value: Bytes, pubKeyHash: Bytes)
    requires |name| <= 0xffff_ffff && |rand| <= 0xffff_ffff && |value| <= 0xffff_ffff
    ensures NameScriptOf(NameFirstUpdate, [name, rand, value], pubKeyHash)
            == [0xd1] + Pushed(name) + Pushed(rand) + Pushed(value) + [0x6d, 0x6d] + [0x76, 0xa9, 0x14] + pubKeyHash + [0x88, 0xac]
  {
    hide PushData;
    ConcatThree(PushesOf([name, rand, value]));
    hide Concat;
  }

  lemma UpdateScriptBytes(name: Bytes, value: Bytes, pubKeyHash: Bytes)
    requires |name| <= 0xffff_ffff && |value| <= 0xffff_ffff
    ensures NameScriptOf(NameUpdate, [name, value], pubKeyHash)
            == [0xd2] + Pushed(name) + Pushed(value) + [0x6d, 0x75] + [0x76, 0xa9, 0x14] + pubKeyHash + [0x88, 0xac]
  {
    hide PushData;
    ConcatTwo(PushesOf([name, value]));
    hide Concat;
  }

  lemma ConcatTwo(ps: seq<Bytes>)
    requires |ps| == 2
    ensures Concat(ps) == ps[0] + ps[1]
  {
    assert ps[1..][1..] == [] && Concat(ps[1..]) == ps[1];
  }

  lemma ConcatThree(ps: seq<Bytes>)
    requires |ps| == 3
    ensures Concat(ps) == ps[0] + ps[1] + ps[2]
  {
    ConcatTwo(ps[1..]);
    assert ps[1..][0] == ps[1] && ps[1..][1] == ps[2];
  }

  /** The parser accepts the script and returns p. */
  predicate Parses(script: Bytes, p: Parsed) {
    ParseScript(script).Some? && ParseScript(script).value.0 == p
  }

  lemma ParsesFormat(script: Bytes, op: OpType, fields: seq<Bytes>)
    requires |fields| == FieldCount(op)
    ensures Parses(script, ParsedOf(op, fields)) <==> exists pushes, suffix :: IsNameScript(script, op, fields, pushes, suffix)
  {
    hide ParseScript, ParsedOf, IsNameScript;
    ParserDecidesFormat(script, op, fields);
    if Parses(script, ParsedOf(op, fields)) {
      var end := ParseScript(script).value.1;
      assert ParseScript(script) == Some((ParsedOf(op, fields), end));
    }
  }

  /** d0, the pushed commitment, 6d. */
  ghost predicate NewBytes(script: Bytes, p: Bytes, hash: Bytes, suffix: Bytes) {
    IsPush(p, hash) && |suffix| >= 25 && script == [0xd0] + p + [0x6d] + suffix
  }

  /** d2, the pushed name, the pushed value, 6d 75. */
  ghost predicate UpdateBytes(script: Bytes, p: Bytes, name: Bytes, q: Bytes, value: Bytes, suffix: Bytes) {
    IsPush(p, name) && IsPush(q, value) && |suffix| >= 25 && script == [0xd2] + p + q + [0x6d, 0x75] + suffix
  }

  /** d1, the pushed name, the pushed salt, the pushed value, 6d 6d. */
  ghost predicate FirstUpdateBytes(script: Bytes, p: Bytes, name: Bytes, q: Bytes, rand: Bytes, r: Bytes, value: Bytes, suffix: Bytes) {
    && IsPush(p, name) && IsPush(q, rand) && IsPush(r, value) && |suffix| >= 25
    && script == [0xd1] + p + q + r + [0x6d, 0x6d] + suffix
  }

  lemma NewIsScript(script: Bytes, hash: Bytes, p: Bytes, suffix: Bytes)
    ensures IsNameScript(script, NameNew, [hash], [p], suffix) <==> NewBytes(script, p, hash, suffix)
  {
    hide IsPush;
    assert [p][1..] == [] && Concat([p]) == p;
    assert ArePushes([p], [hash]) <==> IsPush([p][0], hash);
  }

  lemma UpdateIsScript(script: Bytes, name: Bytes, value: Bytes, p: Bytes, q: Bytes, suffix: Bytes)
    ensures IsNameScript(script, NameUpdate, [name, value], [p, q], suffix) <==> UpdateBytes(script, p, name, q, value, suffix)
  {
    ConcatTwo([p, q]);
    hide IsPush, Concat;
    assert ArePushes([p, q], [name, value]) <==> IsPush([p, q][0], name) && IsPush([p, q][1], value);
    assert [OpByte(NameUpdate)] + (p + q) == [OpByte(NameUpdate)] + p + q;
  }

  lemma FirstUpdateIsScript(script: Bytes, name: Bytes, rand: Bytes, value: Bytes, p: Bytes, q: Bytes, r: Bytes, suffix: Bytes)
    ensures IsNameScript(script, NameFirstUpdate, [name, rand, value], [p, q, r], suffix)
            <==> FirstUpdateBytes(script, p, name, q, rand, r, value, suffix)
  {
    ConcatThree([p, q, r]);
    hide IsPush, Concat;
    assert ArePushes([p, q, r], [name, rand, value])
           <==> IsPush([p, q, r][0], name) && IsPush([p, q, r][1], rand) && IsPush([p, q, r][2], value);
    assert [OpByte(NameFirstUpdate)] + (p + q + r) == [OpByte(NameFirstUpdate)] + p + q + r;
  }

  /** Which scripts are parsed as a NAME_NEW with a commitment. */
  lemma NewByBytes(script: Bytes, hash: Bytes)
    ensures Parses(script, Parsed(NameNew, [], [], hash)) <==> exists p, suffix :: NewBytes(script, p, hash, suffix)
  {
    hide Parses, IsNameScript, NewBytes;
    ParsesFormat(script, NameNew, [hash]);
    if pushes, suffix :| IsNameScript(script, NameNew, [hash], pushes, suffix) {
      AsMany(script, NameNew, [hash], pushes, suffix);
      assert pushes == [pushes[0]];
      NewIsScript(script, hash, pushes[0], suffix);
    }
    if p, suffix :| NewBytes(script, p, hash, suffix) {
      NewIsScript(script, hash, p, suffix);
    }
  }

  lemma AsMany(script: Bytes, op: OpType, fields: seq<Bytes>, pushes: seq<Bytes>, suffix: Bytes)
    requires IsNameScript(script, op, fields, pushes, suffix)
    ensures |pushes| == |fields|
  {
  }

  /** Which scripts are parsed as a NAME_UPDATE of a name to a value. */
  lemma UpdateByBytes(script: Bytes, name: Bytes, value: Bytes)
    ensures Parses(script, Parsed(NameUpdate, name, value, []))
            <==> exists p, q, suffix :: UpdateBytes(script, p, name, q, value, suffix)
  {
    hide Parses, IsNameScript, UpdateBytes;
    ParsesFormat(script, NameUpdate, [name, value]);
    if pushes, suffix :| IsNameScript(script, NameUpdate, [name, value], pushes, suffix) {
      AsMany(script, NameUpdate, [name, value], pushes, suffix);
      assert pushes == [pushes[0], pushes[1]];
      UpdateIsScript(script, name, value, pushes[0], pushes[1], suffix);
    }
    if p, q, suffix :| UpdateBytes(script, p, name, q, value, suffix) {
      UpdateIsScript(script, name, value, p, q, suffix);
    }
  }

  /** Which scripts are parsed as the registration of a name with a salt and a value. */
  lemma FirstUpdateByBytes(script: Bytes, name: Bytes, rand: Bytes, value: Bytes)
    ensures Parses(script, Parsed(NameFirstUpdate, name, value, rand))
            <==> exists p, q, r, suffix :: FirstUpdateBytes(script, p, name, q, rand, r, value, suffix)
  {
    hide Parses, IsNameScript, FirstUpdateBytes;
    ParsesFormat(script, NameFirstUpdate, [name, rand, value]);
    if pushes, suffix :| IsNameScript(script, NameFirstUpdate, [name, rand, value], pushes, suffix) {
      AsMany(script, NameFirstUpdate, [name, rand, value], pushes, suffix);
      assert pushes == [pushes[0], pushes[1], pushes[2]];
      FirstUpdateIsScript(script, name, rand, value, pushes[0], pushes[1], pushes[2], suffix);
    }
    if p, q, r, suffix :| FirstUpdateBytes(script, p, name, q, rand, r, value, suffix) {
      FirstUpdateIsScript(script, name, rand, value, p, q, r, suffix);
    }
  }

  // ----- running a script -----

  /** The two primitives of the machine: the hash of a key, and whether a signature is one of the key. */
  datatype Crypto = Crypto(h160: Bytes -> Bytes, signed: (Bytes, Bytes) -> bool)

  /** One opcode other than a push, on a stack whose last item is the top. */
  function Step(c: Crypto, op: byte, stack: seq<Bytes>): Option<seq<Bytes>> {
    var n := |stack|;
    if op == 0xd0 || op == 0xd1 || op == 0xd2 then Some(stack + [[op]])
    else if op == 0x75 then if n < 1 then None else Some(stack[..n - 1])
    else if op == 0x6d then if n < 2 then None else Some(stack[..n - 2])
    else if op == 0x76 then if n < 1 then None else Some(stack + [stack[n - 1]])
    else if op == 0xa9 then if n < 1 then None else Some(stack[..n - 1] + [c.h160(stack[n - 1])])
    else if op == 0x88 then if n < 2 || stack[n - 1] != stack[n - 2] then None else Some(stack[..n - 2])
    else if op == 0xac then
      if n < 2 then None else Some(stack[..n - 2] + [if c.signed(stack[n - 2], stack[n - 1]) then [1] else []])
    else None
  }

  /** The push at the front of a script: the size of its header and of its data. */
  function PushSize(script: Bytes): Option<(nat, nat)>
    requires script != []
  {
    var op := script[0] as nat;
    if op <= 75 then Some((1, op))
    else if op == 0x4c && |script| >= 2 then Some((2, script[1] as nat))
    else if op == 0x4d && |script| >= 3 then Some((3, script[1] as nat + 256 * script[2] as nat))
    else if op == 0x4e && |script| >= 5 then
      Some((5, script[1] as nat + 256 * script[2] as nat + 65536 * script[3] as nat + 16777216 * script[4] as nat))
    else None
  }

  /** Runs a script; a failing opcode fails the script. */
  function Run(c: Crypto, script: Bytes, stack: seq<Bytes>): Option<seq<Bytes>>
    decreases |script|
  {
    if script == [] then Some(stack)
    else
      match PushSize(script)
      case Some((header, n)) =>
        if header + n > |script| then None
        else Run(c, script[header + n..], stack + [script[header..header + n]])
      case None =>
        match Step(c, script[0], stack)
        case None => None
        case Some(stack') => Run(c, script[1..], stack')
  }

  predicate IsPushByte(op: byte) {
    op as int <= 78
  }

  lemma RunStep(c: Crypto, op: byte, rest: Bytes, stack: seq<Bytes>)
    requires !IsPushByte(op)
    ensures Run(c, [op] + rest, stack) == match Step(c, op, stack) { case None => None case Some(stack') => Run(c, rest, stack') }
  {
    hide Step;
    assert ([op] + rest)[1..] == rest;
  }

  lemma RunPush(c: Crypto, data: Bytes, rest: Bytes, stack: seq<Bytes>)
    requires |data| <= 0xffff_ffff
    ensures Run(c, Pushed(data) + rest, stack) == Run(c, rest, stack + [data])
  {
    hide Step, PushData;
    WrittenBytes(data);
    var p := Pushed(data);
    var script, n := p + rest, |p| - |data|;
    assert p[n..] == data;
    assert script[0] == p[0] && (n >= 2 ==> script[1] == p[1]) && (n >= 3 ==> script[2] == p[2]);
    assert n >= 5 ==> script[3] == p[3] && script[4] == p[4];
    assert PushSize(script) == Some((n, |data|));
    assert script[n + |data|..] == rest && script[n..n + |data|] == data;
  }

  /** The pushed fields end up on the stack, in their order. */
  lemma {:induction false} RunFields(c: Crypto, fields: seq<Bytes>, rest: Bytes, stack: seq<Bytes>)
    requires forall i :: 0 <= i < |fields| ==> |fields[i]| <= 0xffff_ffff
    ensures Pushable(fields) && Run(c, Concat(PushesOf(fields)) + rest, stack) == Run(c, rest, stack + fields)
  {
    hide PushData, Run;
    if fields == [] {
      assert [] + rest == rest && stack + fields == stack;
    } else {
      var tail := fields[1..];
      assert PushesOf(fields)[1..] == PushesOf(tail);
      assert Concat(PushesOf(fields)) + rest == Pushed(fields[0]) + (Concat(PushesOf(tail)) + rest);
      RunPush(c, fields[0], Concat(PushesOf(tail)) + rest, stack);
      RunFields(c, tail, rest, stack + [fields[0]]);
      assert stack + [fields[0]] + tail == stack + fields;
    }
  }

  /** The drop opcodes take away what the name opcode and the fields put on the stack, all of it and nothing else. */
  lemma RunDrops(c: Crypto, op: OpType, fields: seq<Bytes>, rest: Bytes, stack: seq<Bytes>)
    requires |fields| == FieldCount(op)
    ensures Run(c, DropOps(op) + rest, stack + [[OpByte(op)]] + fields) == Run(c, rest, stack)
  {
    hide Run;
    var s := stack + [[OpByte(op)]] + fields;
    if op == NameNew {
      RunStep(c, 0x6d, rest, s);
      assert s[..|s| - 2] == stack;
    } else {
      var last: byte := if op == NameFirstUpdate then 0x6d else 0x75;
      assert DropOps(op) + rest == [0x6d] + ([last] + rest);
      RunStep(c, 0x6d, [last] + rest, s);
      RunStep(c, last, rest, s[..|s| - 2]);
      assert s[..|s| - 2][..|stack|] == stack;
    }
  }

  /**
   The owner's script.  On a signature and a key, the 25 bytes succeed exactly when the key hashes
   to the key hash, and then they leave whether the signature is one of that key.
   */
  lemma RunOwner(c: Crypto, pubKeyHash: Bytes, sig: Bytes, key: Bytes)
    requires |pubKeyHash| == 20
    ensures Run(c, P2PKH(pubKeyHash), [sig, key]) ==
            if c.h160(key) == pubKeyHash then Some([if c.signed(sig, key) then [1] else []]) else None
  {
    hide Run;
    var check: Bytes := [0x88, 0xac];
    WrittenBytes(pubKeyHash);
    assert P2PKH(pubKeyHash) == [0x76] + ([0xa9] + (Pushed(pubKeyHash) + check));
    hide PushData;
    RunStep(c, 0x76, [0xa9] + (Pushed(pubKeyHash) + check), [sig, key]);
    RunStep(c, 0xa9, Pushed(pubKeyHash) + check, [sig, key] + [key]);
    assert ([sig, key] + [key])[..2] == [sig, key];
    RunPush(c, pubKeyHash, check, [sig, key] + [c.h160(key)]);
    var s := [sig, key] + [c.h160(key)] + [pubKeyHash];
    assert check == [0x88] + [0xac];
    RunStep(c, 0x88, [0xac], s);
    assert s[..2] == [sig, key];
    assert [0xac] + [] == [0xac];
    RunStep(c, 0xac, [], [sig, key]);
    NothingToRun(c, [if c.signed(sig, key) then [1] else []]);
    assert [sig, key][..0] + [if c.signed(sig, key) then [1] else []] == [if c.signed(sig, key) then [1] else []];
  }

  lemma NothingToRun(c: Crypto, stack: seq<Bytes>)
    ensures Run(c, [], stack) == Some(stack)
  {
  }

  /**
   Who can spend a name output.  A whole name script with its opcode, fields and drop opcodes does on
   a signature and a key what the owner's script does: the name prefix changes nothing.
   */
  lemma OwnerCanSpend(c: Crypto, op: OpType, fields: seq<Bytes>, pubKeyHash: Bytes, sig: Bytes, key: Bytes)
    requires |fields| == FieldCount(op) && |pubKeyHash| == 20
    requires forall i :: 0 <= i < |fields| ==> |fields[i]| <= 0xffff_ffff
    ensures Pushable(fields)
    ensures Run(c, NameScriptOf(op, fields, pubKeyHash), [sig, key]) ==
            if c.h160(key) == pubKeyHash then Some([if c.signed(sig, key) then [1] else []]) else None
  {
    hide Run, P2PKH, Concat, PushesOf;
    var stack, owner := [sig, key], P2PKH(pubKeyHash);
    var fieldBytes := Concat(PushesOf(fields));
    assert NameScriptOf(op, fields, pubKeyHash) == [OpByte(op)] + (fieldBytes + (DropOps(op) + owner));
    RunStep(c, OpByte(op), fieldBytes + (DropOps(op) + owner), stack);
    RunFields(c, fields, DropOps(op) + owner, stack + [[OpByte(op)]]);
    RunDrops(c, op, fields, owner, stack);
    RunOwner(c, pubKeyHash, sig, key);
  }

  /** What stands behind the prefix of a script that carries an operation for a key hash. */
  lemma CarriedOwner(c: Crypto, script: Bytes, p: Parsed, pubKeyHash: Bytes, sig: Bytes, key: Bytes)
    requires |pubKeyHash| == 20 && Carries(script, p, pubKeyHash)
    ensures var owner := script[SkipPrefix(script).value..];
            && |owner| == 25
            && Run(c, owner, [sig, key]) == if c.h160(key) == pubKeyHash then Some([if c.signed(sig, key) then [1] else []]) else None
  {
    hide Run, P2PKH, ParseScript, SkipPrefix;
    RunOwner(c, pubKeyHash, sig, key);
  }
}
