/** The MMIO instruction decoder: crates/bedrock-vmx/src/decoder.rs, against the instruction formats of the
    Intel SDM, volume 2A, sections 2.1.3 (ModR/M and SIB), 2.1.5 (addressing-mode encodings) and 2.2.1
    (REX prefixes). */
module Decoder {
  import opened Options

  type Byte = x: int | 0 <= x < 256

  datatype Operation = Load | Store

  datatype Error = BufferTooShort | UnsupportedOpcode | UnsupportedAddressing

  /** `length` is kept in 8 bits. */
  datatype Decoded = Decoded(length: nat, operation: Operation, register: nat, size: nat)

  datatype Result = Ok(value: Decoded) | Err(error: Error)

  // Bytes

  predicate IsPrefix(b: Byte) { b in {0x66, 0x67, 0x26, 0x2E, 0x36, 0x3E, 0x64, 0x65, 0xF0, 0xF2, 0xF3} }

  predicate IsRex(b: Byte) { b / 16 == 4 }

  function RexW(b: Byte): bool { b / 8 % 2 == 1 }

  function RexR(b: Byte): bool { b / 4 % 2 == 1 }

  function Mod(m: Byte): nat { m / 64 }

  function Reg(m: Byte): nat { m / 8 % 8 }

  function Rm(m: Byte): nat { m % 8 }

  // The decoder as a function, stage by stage

  function PrefixLen(b: seq<Byte>): (n: nat)
    ensures n <= |b|
  {
    if b == [] || !IsPrefix(b[0]) then 0 else 1 + PrefixLen(b[1..])
  }

  predicate Has66(b: seq<Byte>) { b != [] && IsPrefix(b[0]) && (b[0] == 0x66 || Has66(b[1..])) }

  /** SIB and displacement bytes after a ModR/M byte, or none if some are missing. */
  function TailLength(mod: nat, rm: nat, v: seq<Byte>): Option<nat> {
    if rm == 4 && mod != 3 then
      if v == [] then None
      else if mod == 0 then if v[0] % 8 == 5 then Needs(v, 5) else Some(1)
      else if mod == 1 then Needs(v, 2)
      else Needs(v, 5)
    else if mod == 0 && rm == 5 then Needs(v, 4)
    else if mod == 1 then Needs(v, 1)
    else if mod == 2 then Needs(v, 4)
    else Some(0)
  }

  function Needs(v: seq<Byte>, n: nat): Option<nat> { if |v| < n then None else Some(n) }

  /** From the ModR/M byte on; `at` bytes came before. */
  function AfterOpcode(v: seq<Byte>, at: nat, op: Operation, size: nat, rexR: bool): Result {
    if v == [] then Err(BufferTooShort)
    else
      match TailLength(Mod(v[0]), Rm(v[0]), v[1..])
      case None => Err(BufferTooShort)
      case Some(n) =>
        if Mod(v[0]) == 3 then Err(UnsupportedAddressing)
        else Ok(Decoded((at + 1 + n) % 256, op, Reg(v[0]) + (if rexR then 8 else 0), size))
  }

  /** Operand size by opcode: byte forms move one byte. */
  function Size(rex: Byte, op16: bool): nat { if RexW(rex) then 8 else if op16 then 2 else 4 }

  function AfterRex(u: seq<Byte>, at: nat, rex: Byte, op16: bool): Result {
    if u == [] then Err(BufferTooShort)
    else if u[0] == 0x8B then AfterOpcode(u[1..], at + 1, Load, Size(rex, op16), RexR(rex))
    else if u[0] == 0x89 then AfterOpcode(u[1..], at + 1, Store, Size(rex, op16), RexR(rex))
    else if u[0] == 0x8A then AfterOpcode(u[1..], at + 1, Load, 1, RexR(rex))
    else if u[0] == 0x88 then AfterOpcode(u[1..], at + 1, Store, 1, RexR(rex))
    else if u[0] == 0x0F then
      if |u| < 2 then Err(BufferTooShort)
      else if u[1] == 0xB6 then AfterOpcode(u[2..], at + 2, Load, 1, RexR(rex))
      else if u[1] == 0xB7 then AfterOpcode(u[2..], at + 2, Load, 2, RexR(rex))
      else Err(UnsupportedOpcode)
    else Err(UnsupportedOpcode)
  }

  function AfterPrefixes(t: seq<Byte>, at: nat, op16: bool): Result {
    if t == [] then Err(BufferTooShort)
    else if IsRex(t[0]) then AfterRex(t[1..], at + 1, t[0], op16)
    else AfterRex(t, at, 0, op16)
  }

  function Decode(b: seq<Byte>): Result { AfterPrefixes(b[PrefixLen(b)..], PrefixLen(b), Has66(b)) }

  // The decoder as it is written

  method ModrmDisplacementLength(mod: nat, rm: nat, remaining: seq<Byte>) returns (r: Option<nat>)
    requires mod <= 3 && rm < 8
    ensures r == TailLength(mod, rm, remaining)
  {
    var len := 0;
    var hasSib := rm == 4 && mod != 3;
    if hasSib {
      if remaining == [] { return None; }
      len := len + 1;
      if mod == 0 && remaining[0] % 8 == 5 {
        if |remaining| < len + 4 { return None; }
        len := len + 4;
      }
    }
    if mod == 0 && rm == 5 && !hasSib {
      if |remaining| < len + 4 { return None; }
      len := len + 4;
    } else if mod == 1 {
      if |remaining| < len + 1 { return None; }
      len := len + 1;
    } else if mod == 2 {
      if |remaining| < len + 4 { return None; }
      len := len + 4;
    }
    return Some(len);
  }

  method Finish(bytes: seq<Byte>, pos: nat, op: Operation, size: nat, rexR: bool) returns (r: Result)
    requires pos <= |bytes|
    ensures r == AfterOpcode(bytes[pos..], pos, op, size, rexR)
  {
    if pos >= |bytes| { return Err(BufferTooShort); }
    var modrm := bytes[pos];
    var reg := Reg(modrm) + (if rexR then 8 else 0);
    var n := ModrmDisplacementLength(Mod(modrm), Rm(modrm), bytes[pos + 1..]);
    assert bytes[pos..][1..] == bytes[pos + 1..];
    if n.None? { return Err(BufferTooShort); }
    if Mod(modrm) == 3 { return Err(UnsupportedAddressing); }
    return Ok(Decoded((pos + 1 + n.value) % 256, op, reg, size));
  }

  method DecodeInstruction(bytes: seq<Byte>) returns (r: Result)
    ensures r == Decode(bytes)
  {
    if bytes == [] { return Err(BufferTooShort); }
    var pos, op16 := SkipPrefixes(bytes);
    if pos >= |bytes| { return Err(BufferTooShort); }
    var rex := 0;
    ghost var t := bytes[pos..];
    if IsRex(bytes[pos]) {
      rex := bytes[pos];
      pos := pos + 1;
    }
    if pos >= |bytes| { return Err(BufferTooShort); }
    ghost var u := bytes[pos..];
    assert IsRex(t[0]) ==> u == t[1..];
    var opcode := bytes[pos];
    pos := pos + 1;
    assert u[1..] == bytes[pos..];
    if opcode == 0x8B { r := Finish(bytes, pos, Load, Size(rex, op16), RexR(rex)); }
    else if opcode == 0x89 { r := Finish(bytes, pos, Store, Size(rex, op16), RexR(rex)); }
    else if opcode == 0x8A { r := Finish(bytes, pos, Load, 1, RexR(rex)); }
    else if opcode == 0x88 { r := Finish(bytes, pos, Store, 1, RexR(rex)); }
    else if opcode == 0x0F {
      if pos >= |bytes| { return Err(BufferTooShort); }
      var opcode2 := bytes[pos];
      assert u[2..] == bytes[pos + 1..];
      pos := pos + 1;
      if opcode2 == 0xB6 { r := Finish(bytes, pos, Load, 1, RexR(rex)); }
      else if opcode2 == 0xB7 { r := Finish(bytes, pos, Load, 2, RexR(rex)); }
      else { r := Err(UnsupportedOpcode); }
    } else {
      r := Err(UnsupportedOpcode);
    }
  }

  method SkipPrefixes(bytes: seq<Byte>) returns (pos: nat, op16: bool)
    ensures pos == PrefixLen(bytes) && op16 == Has66(bytes)
  {
    pos, op16 := 0, false;
    while pos < |bytes| && IsPrefix(bytes[pos])
      invariant 0 <= pos <= |bytes|
      invariant PrefixLen(bytes) == pos + PrefixLen(bytes[pos..])
      invariant Has66(bytes) == (op16 || Has66(bytes[pos..]))
    {
      assert bytes[pos..][1..] == bytes[pos + 1..];
      if bytes[pos] == 0x66 { op16 := true; }
      pos := pos + 1;
    }
  }

  // The instruction formats

  datatype Opcode = MovLoad | MovStore | MovLoad8 | MovStore8 | Movzx8 | Movzx16

  function OpcodeBytes(o: Opcode): seq<Byte> {
    match o
    case MovLoad => [0x8B]
    case MovStore => [0x89]
    case MovLoad8 => [0x8A]
    case MovStore8 => [0x88]
    case Movzx8 => [0x0F, 0xB6]
    case Movzx16 => [0x0F, 0xB7]
  }

  /** Legacy prefixes, an optional REX prefix, the opcode, ModR/M, then SIB and displacement. */
  datatype Instruction = Instruction(prefixes: seq<Byte>, rex: Option<Byte>, opcode: Opcode, modrm: Byte,
    sib: Option<Byte>, disp: seq<Byte>)

  /** Bytes of displacement by addressing form (tables 2-2 and 2-3). */
  function DispBytes(mod: nat, rm: nat, sibBase: nat): nat {
    if mod == 1 then 1
    else if mod == 2 then 4
    else if mod == 0 && (rm == 5 || (rm == 4 && sibBase == 5)) then 4
    else 0
  }

  predicate WellFormed(i: Instruction) {
    && (forall k :: 0 <= k < |i.prefixes| ==> IsPrefix(i.prefixes[k]))
    && (i.rex.Some? ==> IsRex(i.rex.value))
    && Mod(i.modrm) != 3
    && (i.sib.Some? <==> Rm(i.modrm) == 4)
    && |i.disp| == DispBytes(Mod(i.modrm), Rm(i.modrm), if i.sib.Some? then i.sib.value % 8 else 0)
  }

  function OptByte(b: Option<Byte>): seq<Byte> { if b.Some? then [b.value] else [] }

  function TailBytes(i: Instruction): seq<Byte> { OptByte(i.sib) + i.disp }

  function FromModrm(i: Instruction): seq<Byte> { [i.modrm] + TailBytes(i) }

  function FromOpcode(i: Instruction): seq<Byte> { OpcodeBytes(i.opcode) + FromModrm(i) }

  function FromRex(i: Instruction): seq<Byte> { OptByte(i.rex) + FromOpcode(i) }

  function Encode(i: Instruction): seq<Byte> { i.prefixes + FromRex(i) }

  // What an instruction does

  function OperationOf(i: Instruction): Operation {
    if i.opcode == MovStore || i.opcode == MovStore8 then Store else Load
  }

  predicate Is16(i: Instruction) { 0x66 in i.prefixes }

  /** Bytes that go over the memory interface. */
  function MemorySize(i: Instruction): nat {
    match i.opcode
    case MovLoad8 => 1
    case MovStore8 => 1
    case Movzx8 => 1
    case Movzx16 => 2
    case _ => Size(if i.rex.Some? then i.rex.value else 0, Is16(i))
  }

  function RegisterField(i: Instruction): nat { Reg(i.modrm) + if i.rex.Some? && RexR(i.rex.value) then 8 else 0 }

  /** A whole register, or the second byte of one of the first four. */
  datatype Register = Gpr(n: nat) | HighByte(n: nat)

  /** The register operand: in the byte moves without a REX prefix, fields 4 to 7 name AH, CH, DH and BH. */
  function RegisterOf(i: Instruction): Register {
    if (i.opcode == MovLoad8 || i.opcode == MovStore8) && i.rex.None? &&
      RegisterField(i) >= 4 then HighByte(RegisterField(i) - 4)
    else Gpr(RegisterField(i))
  }

  function Meaning(i: Instruction): Decoded {
    Decoded(|Encode(i)| % 256, OperationOf(i), RegisterField(i), MemorySize(i))
  }

  // Decoding what was encoded, stage by stage; `v` is the stage's input

  lemma TailWhole(i: Instruction, v: seq<Byte>)
    requires WellFormed(i) && TailBytes(i) <= v
    ensures TailLength(Mod(i.modrm), Rm(i.modrm), v) == Some(|TailBytes(i)|)
  {
    if i.sib.Some? { assert TailBytes(i)[0] == i.sib.value; }
  }

  lemma TailCut(i: Instruction, v: seq<Byte>)
    requires WellFormed(i) && v < TailBytes(i)
    ensures TailLength(Mod(i.modrm), Rm(i.modrm), v) == None
  {
    if i.sib.Some? && v != [] { assert v[0] == TailBytes(i)[0] == i.sib.value; }
  }

  lemma ModrmWhole(i: Instruction, v: seq<Byte>, at: nat, op: Operation, size: nat, r: bool)
    requires WellFormed(i) && FromModrm(i) <= v
    ensures AfterOpcode(v, at, op, size, r) ==
      Ok(Decoded((at + |FromModrm(i)|) % 256, op, Reg(i.modrm) + (if r then 8 else 0), size))
  {
    assert v[0] == FromModrm(i)[0] == i.modrm;
    assert FromModrm(i)[1..] == TailBytes(i);
    TailWhole(i, v[1..]);
  }

  lemma ModrmCut(i: Instruction, v: seq<Byte>, at: nat, op: Operation, size: nat, r: bool)
    requires WellFormed(i) && v < FromModrm(i)
    ensures AfterOpcode(v, at, op, size, r) == Err(BufferTooShort)
  {
    if v != [] {
      assert v[0] == FromModrm(i)[0] == i.modrm;
      assert FromModrm(i)[1..] == TailBytes(i);
      TailCut(i, v[1..]);
    }
  }

  function RexByte(i: Instruction): Byte { if i.rex.Some? then i.rex.value else 0 }

  lemma OpcodeWhole(i: Instruction, u: seq<Byte>, at: nat)
    requires WellFormed(i) && FromOpcode(i) <= u
    ensures AfterRex(u, at, RexByte(i), Is16(i)) ==
      Ok(Decoded((at + |FromOpcode(i)|) % 256, OperationOf(i), RegisterField(i), MemorySize(i)))
  {
    var o := OpcodeBytes(i.opcode);
    assert o == FromOpcode(i)[..|o|] == u[..|o|];
    assert forall k :: 0 <= k < |o| ==> u[k] == u[..|o|][k];
    assert FromOpcode(i)[|o|..] == FromModrm(i);
    ModrmWhole(i, u[|o|..], at + |o|, OperationOf(i), MemorySize(i), RexR(RexByte(i)));
  }

  lemma OpcodeCut(i: Instruction, u: seq<Byte>, at: nat)
    requires WellFormed(i) && u < FromOpcode(i)
    ensures AfterRex(u, at, RexByte(i), Is16(i)) == Err(BufferTooShort)
  {
    var o := OpcodeBytes(i.opcode);
    if |u| >= |o| {
      assert o == FromOpcode(i)[..|o|] == u[..|o|];
      assert forall k :: 0 <= k < |o| ==> u[k] == u[..|o|][k];
      assert FromOpcode(i)[|o|..] == FromModrm(i);
      ModrmCut(i, u[|o|..], at + |o|, OperationOf(i), MemorySize(i), RexR(RexByte(i)));
    } else if u != [] {
      assert u[0] == FromOpcode(i)[0] == o[0];
    }
  }

  lemma RexWhole(i: Instruction, t: seq<Byte>, at: nat)
    requires WellFormed(i) && FromRex(i) <= t
    ensures AfterPrefixes(t, at, Is16(i)) ==
      Ok(Decoded((at + |FromRex(i)|) % 256, OperationOf(i), RegisterField(i), MemorySize(i)))
  {
    StartsPlain(i, t);
    if i.rex.Some? {
      assert FromRex(i)[1..] == FromOpcode(i);
      OpcodeWhole(i, t[1..], at + 1);
    } else {
      assert FromRex(i) == FromOpcode(i);
      OpcodeWhole(i, t, at);
    }
  }

  /** The first byte after the prefixes is a REX prefix exactly when there is one, and never a prefix. */
  lemma StartsPlain(i: Instruction, t: seq<Byte>)
    requires WellFormed(i) && t != [] && (FromRex(i) <= t || t <= FromRex(i))
    ensures !IsPrefix(t[0]) && (IsRex(t[0]) <==> i.rex.Some?) && (i.rex.Some? ==> t[0] == i.rex.value)
  {
    assert t[0] == FromRex(i)[0];
    if i.rex.None? { assert FromRex(i)[0] == OpcodeBytes(i.opcode)[0]; }
  }

  lemma RexCut(i: Instruction, t: seq<Byte>, at: nat)
    requires WellFormed(i) && t < FromRex(i)
    ensures AfterPrefixes(t, at, Is16(i)) == Err(BufferTooShort)
  {
    if t != [] {
      StartsPlain(i, t);
      if i.rex.Some? {
        assert FromRex(i)[1..] == FromOpcode(i);
        OpcodeCut(i, t[1..], at + 1);
      } else {
        assert FromRex(i) == FromOpcode(i);
        OpcodeCut(i, t, at);
      }
    }
  }

  ghost predicate AllPrefixes(p: seq<Byte>) { forall k :: 0 <= k < |p| ==> IsPrefix(p[k]) }

  lemma {:induction false} PrefixesSkipped(p: seq<Byte>, t: seq<Byte>)
    requires AllPrefixes(p) && (t == [] || !IsPrefix(t[0]))
    ensures PrefixLen(p + t) == |p| && (Has66(p + t) <==> 0x66 in p)
    decreases |p|
  {
    if p == [] {
      assert p + t == t;
    } else {
      assert (p + t)[1..] == p[1..] + t;
      PrefixesSkipped(p[1..], t);
    }
  }

  /** Whatever follows it, an instruction in one of the formats decodes to its own length, operation,
      register field and memory size. */
  lemma DecodesEncoded(i: Instruction, rest: seq<Byte>)
    requires WellFormed(i)
    ensures Decode(Encode(i) + rest) == Ok(Meaning(i))
  {
    var t := FromRex(i) + rest;
    assert FromRex(i) <= t && t != [];
    StartsPlain(i, t);
    PrefixesSkipped(i.prefixes, t);
    assert Encode(i) + rest == i.prefixes + t;
    assert (i.prefixes + t)[|i.prefixes|..] == t;
    RexWhole(i, t, |i.prefixes|);
  }

  /** Every strictly shorter prefix of an instruction is reported as too short. */
  lemma CutIsTooShort(i: Instruction, k: nat)
    requires WellFormed(i) && k < |Encode(i)|
    ensures Decode(Encode(i)[..k]) == Err(BufferTooShort)
  {
    var n := |i.prefixes|;
    if k <= n {
      assert Encode(i)[..k] == i.prefixes[..k] + [];
      PrefixesSkipped(i.prefixes[..k], []);
    } else {
      var t := FromRex(i)[..k - n];
      assert Encode(i)[..k] == i.prefixes + t;
      StartsPlain(i, t);
      PrefixesSkipped(i.prefixes, t);
      assert (i.prefixes + t)[n..] == t;
      RexCut(i, t, n);
    }
  }

  // Every decoded instruction is in one of the formats

  lemma {:induction false} PrefixesAreSkipped(b: seq<Byte>)
    ensures AllPrefixes(b[..PrefixLen(b)]) && (PrefixLen(b) < |b| ==> !IsPrefix(b[PrefixLen(b)]))
    ensures Has66(b) <==> 0x66 in b[..PrefixLen(b)]
    decreases |b|
  {
    if b != [] && IsPrefix(b[0]) {
      PrefixesAreSkipped(b[1..]);
      assert b[..PrefixLen(b)] == [b[0]] + b[1..][..PrefixLen(b[1..])];
    }
  }

  /** The SIB byte and displacement that a ModR/M byte calls for. */
  lemma TailFound(m: Byte, v: seq<Byte>) returns (sib: Option<Byte>, disp: seq<Byte>)
    requires Mod(m) != 3 && TailLength(Mod(m), Rm(m), v).Some?
    ensures (sib.Some? <==> Rm(m) == 4) && |disp| == DispBytes(Mod(m), Rm(m), if sib.Some? then sib.value % 8 else 0)
    ensures OptByte(sib) + disp <= v && |OptByte(sib) + disp| == TailLength(Mod(m), Rm(m), v).value
  {
    var n := TailLength(Mod(m), Rm(m), v).value;
    if Rm(m) == 4 {
      sib, disp := Some(v[0]), v[1..n];
      assert [v[0]] + v[1..n] == v[..n];
    } else {
      sib, disp := None, v[..n];
      assert [] + v[..n] == v[..n];
    }
  }

  lemma OpcodeFound(u: seq<Byte>, at: nat, rex: Byte, op16: bool) returns (o: Opcode)
    requires AfterRex(u, at, rex, op16).Ok?
    ensures OpcodeBytes(o) <= u && |OpcodeBytes(o)| < |u| && Mod(u[|OpcodeBytes(o)|]) != 3
    ensures TailLength(Mod(u[|OpcodeBytes(o)|]), Rm(u[|OpcodeBytes(o)|]), u[|OpcodeBytes(o)| + 1..]).Some?
  {
    o := if u[0] == 0x8B then MovLoad else if u[0] == 0x89 then MovStore else if u[0] == 0x8A then MovLoad8
         else if u[0] == 0x88 then MovStore8 else if u[1] == 0xB6 then Movzx8 else Movzx16;
    var n := |OpcodeBytes(o)|;
    assert u[n..][1..] == u[n + 1..];
  }

  /** The instruction after the prefixes and the optional REX prefix. */
  lemma InstructionFound(prefixes: seq<Byte>, rex: Option<Byte>, u: seq<Byte>, at: nat, op16: bool)
    returns (i: Instruction)
    requires AfterRex(u, at, if rex.Some? then rex.value else 0, op16).Ok?
    requires AllPrefixes(prefixes) && (rex.Some? ==> IsRex(rex.value))
    ensures WellFormed(i) && i.prefixes == prefixes && i.rex == rex && FromOpcode(i) <= u
  {
    var o := OpcodeFound(u, at, if rex.Some? then rex.value else 0, op16);
    var n := |OpcodeBytes(o)|;
    var sib, disp := TailFound(u[n], u[n + 1..]);
    i := Instruction(prefixes, rex, o, u[n], sib, disp);
    OpcodeFits(i, u);
  }

  lemma OpcodeFits(i: Instruction, u: seq<Byte>)
    requires var n := |OpcodeBytes(i.opcode)|;
      n < |u| && OpcodeBytes(i.opcode) <= u && u[n] == i.modrm && TailBytes(i) <= u[n + 1..]
    ensures FromOpcode(i) <= u
  {
    var n := |OpcodeBytes(i.opcode)|;
    assert u == u[..n] + ([u[n]] + u[n + 1..]);
    assert FromModrm(i) <= [u[n]] + u[n + 1..];
  }

  lemma EncodedFits(i: Instruction, b: seq<Byte>, u: seq<Byte>)
    requires b == i.prefixes + (OptByte(i.rex) + u) && FromOpcode(i) <= u
    ensures Encode(i) <= b
  {
    assert FromRex(i) <= OptByte(i.rex) + u;
  }

  /** What is left after the prefixes and the optional REX prefix. */
  lemma RexFound(b: seq<Byte>) returns (rex: Option<Byte>, u: seq<Byte>, at: nat)
    requires Decode(b).Ok?
    ensures b == b[..PrefixLen(b)] + (OptByte(rex) + u) && (rex.Some? ==> IsRex(rex.value))
    ensures AfterRex(u, at, if rex.Some? then rex.value else 0, Has66(b)).Ok?
  {
    var p := PrefixLen(b);
    var t := b[p..];
    assert b == b[..p] + t;
    if IsRex(t[0]) {
      rex, u, at := Some(t[0]), t[1..], p + 1;
      assert t == [t[0]] + t[1..];
    } else {
      rex, u, at := None, t, p;
      assert t == [] + t;
    }
  }

  /** What the decoder accepts starts with an instruction in one of the formats, and it reports exactly
      that instruction. */
  lemma DecodedIsEncoded(b: seq<Byte>) returns (i: Instruction)
    requires Decode(b).Ok?
    ensures WellFormed(i) && Encode(i) <= b && Decode(b) == Ok(Meaning(i))
  {
    PrefixesAreSkipped(b);
    var rex, u, at := RexFound(b);
    i := InstructionFound(b[..PrefixLen(b)], rex, u, at, Has66(b));
    EncodedFits(i, b, u);
    StartDecodes(i, b);
  }

  lemma StartDecodes(i: Instruction, b: seq<Byte>)
    requires WellFormed(i) && Encode(i) <= b
    ensures Decode(b) == Ok(Meaning(i))
  {
    DecodesEncoded(i, b[|Encode(i)|..]);
    assert b == Encode(i) + b[|Encode(i)|..];
  }

  // What callers rely on

  lemma EncodedStart(i: Instruction, b: seq<Byte>, c: seq<Byte>, n: nat)
    requires Encode(i) <= b && n == |Encode(i)| <= |c| && c[..n] == b[..n]
    ensures Encode(i) <= c
  {
    assert b[..n] == Encode(i);
  }

  lemma StartOf(i: Instruction, b: seq<Byte>, k: nat)
    requires Encode(i) <= b && k < |Encode(i)|
    ensures b[..k] == Encode(i)[..k]
  {}

  lemma FrontIsTooShort(i: Instruction, b: seq<Byte>, k: nat)
    requires WellFormed(i) && Encode(i) <= b && k < |Encode(i)|
    ensures Decode(b[..k]) == Err(BufferTooShort)
  {
    StartOf(i, b, k);
    CutIsTooShort(i, k);
  }

  lemma ReportedLength(i: Instruction)
    ensures Meaning(i).length <= |Encode(i)| && (Meaning(i).length == |Encode(i)| <==> |Encode(i)| < 256)
  {}

  /** The reported length lies within the bytes, and the result depends only on that many of them. */
  ghost predicate Reliable(b: seq<Byte>, d: Decoded) {
    d.length <= |b| && forall c: seq<Byte> :: d.length <= |c| && c[..d.length] == b[..d.length] ==> Decode(c) == Ok(d)
  }

  lemma ReliableWhenShort(i: Instruction, b: seq<Byte>, d: Decoded)
    requires WellFormed(i) && Encode(i) <= b && d == Meaning(i) && |Encode(i)| < 256
    ensures Reliable(b, d)
  {
    forall c: seq<Byte> | d.length <= |c| && c[..d.length] == b[..d.length] ensures Decode(c) == Ok(d) {
      EncodedStart(i, b, c, d.length);
      StartDecodes(i, c);
    }
  }

  lemma UnreliableWhenLong(i: Instruction, b: seq<Byte>, d: Decoded)
    requires WellFormed(i) && Encode(i) <= b && d == Meaning(i) && |Encode(i)| >= 256
    ensures !Reliable(b, d)
  {
    var c := b[..d.length];
    ReportedLength(i);
    FrontIsTooShort(i, b, d.length);
    assert d.length <= |c| && c[..d.length] == b[..d.length];
  }

  /** The first 255 bytes hold an instruction exactly when it is shorter than 256 bytes. */
  lemma FitsInFront(i: Instruction, b: seq<Byte>)
    requires WellFormed(i) && Encode(i) <= b && |b| >= 256
    ensures Decode(b[..255]).Ok? <==> |Encode(i)| < 256
  {
    if |Encode(i)| < 256 {
      StartDecodes(i, b[..255]);
    } else {
      FrontIsTooShort(i, b, 255);
    }
  }

  /** Main result: the length is kept in 8 bits, so it can be relied on exactly when the first 255 bytes, or
      all there are, already decode. */
  lemma ReliableExactly(b: seq<Byte>, d: Decoded)
    requires Decode(b) == Ok(d)
    ensures Reliable(b, d) <==> |b| < 256 || Decode(b[..255]).Ok?
  {
    var i := DecodedIsEncoded(b);
    if |b| >= 256 { FitsInFront(i, b); }
    if |Encode(i)| < 256 { ReliableWhenShort(i, b, d); } else { UnreliableWhenLong(i, b, d); }
  }

  /** Every strictly shorter prefix is reported as too short, however long the input. */
  lemma ShorterIsTooShort(b: seq<Byte>, d: Decoded, k: nat)
    requires Decode(b) == Ok(d) && k < d.length
    ensures k <= |b| && Decode(b[..k]) == Err(BufferTooShort)
  {
    var i := DecodedIsEncoded(b);
    ReportedLength(i);
    FrontIsTooShort(i, b, k);
  }

  /** `mov [rax], ah` behind any legacy prefixes. */
  function StoreAh(prefixes: seq<Byte>): Instruction { Instruction(prefixes, None, MovStore8, 0x20, None, []) }

  lemma StoreAhMeans(prefixes: seq<Byte>, i: Instruction)
    requires AllPrefixes(prefixes) && i == StoreAh(prefixes)
    ensures WellFormed(i) && Encode(i) == prefixes + [0x88, 0x20] && RegisterOf(i) == HighByte(0)
    ensures Meaning(i) == Decoded((|prefixes| + 2) % 256, Store, 4, 1)
  {
    assert Mod(0x20) == 0 && Rm(0x20) == 0 && Reg(0x20) == 4;
    assert FromRex(i) == [0x88, 0x20];
  }

  lemma StoreAhDecodes(prefixes: seq<Byte>)
    requires AllPrefixes(prefixes)
    ensures Decode(prefixes + [0x88, 0x20]) == Ok(Decoded((|prefixes| + 2) % 256, Store, 4, 1))
  {
    var i := StoreAh(prefixes);
    StoreAhMeans(prefixes, i);
    StartDecodes(i, Encode(i));
  }

  /** Behind 254 or more prefixes the reported length is the instruction's modulo 256, and not to be relied
      on. */
  lemma LengthWraps(prefixes: seq<Byte>)
    requires AllPrefixes(prefixes) && |prefixes| >= 254
    ensures var b := prefixes + [0x88, 0x20];
      Decode(b) == Ok(Decoded((|prefixes| + 2) % 256, Store, 4, 1)) && !Reliable(b, Decode(b).value)
  {
    var i := StoreAh(prefixes);
    StoreAhDecodes(prefixes);
    StoreAhMeans(prefixes, i);
    UnreliableWhenLong(i, Encode(i), Meaning(i));
  }

  predicate IsHighByteMove(i: Instruction) {
    (i.opcode == MovLoad8 || i.opcode == MovStore8) && i.rex.None? && Reg(i.modrm) >= 4
  }

  /** Whatever is decoded, the reported register is the one the instruction names exactly when the instruction
      is not a byte move without REX prefix whose register field is 4 to 7. */
  lemma RegisterIsExact(b: seq<Byte>, d: Decoded) returns (i: Instruction)
    requires Decode(b) == Ok(d)
    ensures WellFormed(i) && Encode(i) <= b && (RegisterOf(i) == Gpr(d.register) <==> !IsHighByteMove(i))
  {
    i := DecodedIsEncoded(b);
  }

  /** `mov [rax], ah` is reported as a move of register 4, which is RSP. */
  lemma HighByteIsMisread() returns (i: Instruction)
    ensures WellFormed(i) && Encode(i) == [0x88, 0x20] && RegisterOf(i) == HighByte(0)
    ensures Decode([0x88, 0x20]) == Ok(Decoded(2, Store, 4, 1))
  {
    i := StoreAh([]);
    StoreAhMeans([], i);
    StoreAhDecodes([]);
    assert [] + [0x88, 0x20] == [0x88, 0x20];
  }
}
