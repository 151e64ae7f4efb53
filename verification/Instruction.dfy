/** neo/VM/Instruction.py and neo/VM/OpCode.py: the instruction format and its decoder. */
module Instructions {
  import opened Arithmetic
  import opened Bytes
  import opened Wrappers

  const PUSH0: byte := 0x00
  const PUSHBYTES75: byte := 0x4B
  const PUSHDATA1: byte := 0x4C
  const PUSHDATA2: byte := 0x4D
  const PUSHDATA4: byte := 0x4E
  const PUSHM1: byte := 0x4F
  const PUSH1: byte := 0x51
  const PUSH16: byte := 0x60
  const NOP: byte := 0x61
  const JMP: byte := 0x62
  const JMPIF: byte := 0x63
  const JMPIFNOT: byte := 0x64
  const CALL: byte := 0x65
  const RET: byte := 0x66
  const APPCALL: byte := 0x67
  const SYSCALL: byte := 0x68
  const TAILCALL: byte := 0x69
  const PACK: byte := 0xC1
  const CHECKMULTISIG: byte := 0xAE
  const CALL_I: byte := 0xE0
  const CALL_E: byte := 0xE1
  const CALL_ED: byte := 0xE2
  const CALL_ET: byte := 0xE3
  const CALL_EDT: byte := 0xE4

  datatype Instruction = Instruction(opcode: byte, operand: seq<byte>)

  datatype Decoded = Found(ins: Instruction) | ValueError

  /** Bytes in the length prefix of an operand of variable size, or 0. */
  function PrefixSize(op: byte): nat {
    if op == PUSHDATA1 || op == SYSCALL then 1
    else if op == PUSHDATA2 then 2
    else if op == PUSHDATA4 then 4
    else 0
  }

  /** Size of an operand of fixed size. */
  function OperandSize(op: byte): nat {
    if 1 <= op <= PUSHBYTES75 then op
    else if JMP <= op <= CALL || op == CALL_ED || op == CALL_EDT then 2
    else if op == APPCALL || op == TAILCALL then 20
    else if op == CALL_I then 4
    else if op == CALL_E || op == CALL_ET then 22
    else 0
  }

  function Size(ins: Instruction): (n: nat)
    ensures n >= 1
  {
    if PrefixSize(ins.opcode) > 0 then 1 + PrefixSize(ins.opcode) + |ins.operand|
    else 1 + OperandSize(ins.opcode)
  }

  /** The operand length found in a prefix; four bytes are read as a signed integer. */
  function PrefixValue(prefix: seq<byte>): int {
    if |prefix| == 4 then FromLESigned(prefix) else FromLE(prefix)
  }

  /** `FromScriptAndIP`. */
  function Decode(script: seq<byte>, ip: nat): Decoded
    requires ip < |script|
  {
    var op := script[ip];
    var start := ip + 1 + PrefixSize(op);
    if start > |script| then ValueError
    else
      var count := if PrefixSize(op) > 0 then PrefixValue(script[ip + 1..start]) else OperandSize(op);
      if count <= 0 then Found(Instruction(op, []))
      else if start + count > |script| then ValueError
      else Found(Instruction(op, script[start..start + count]))
  }

  /** `GetInstruction`: past the end of the script there is an implicit RET. */
  function Fetch(script: seq<byte>, ip: nat): Decoded {
    if ip >= |script| then Found(Instruction(RET, [])) else Decode(script, ip)
  }

  /** The decoder never steps over the end of the script. */
  lemma DecodeStaysInside(script: seq<byte>, ip: nat)
    requires ip < |script| && Decode(script, ip).Found?
    ensures Decode(script, ip).ins.opcode == script[ip]
    ensures ip + Size(Decode(script, ip).ins) <= |script|
  {
  }

  // ---- the format in figures -----------------------------------------------------------------

  /** How long instructions are, group by group. */
  lemma LengthInFigures(ins: Instruction)
    ensures var op, n := ins.opcode, |ins.operand|;
      Size(ins) == if 0x01 <= op <= 0x4B then op + 1
      else if op == 0x4C || op == 0x68 then n + 2
      else if op == 0x4D then n + 3
      else if op == 0x4E then n + 5
      else if op in {0x62, 0x63, 0x64, 0x65, 0xE2, 0xE4} then 3
      else if op in {0x67, 0x69} then 21
      else if op == 0xE0 then 5
      else if op in {0xE1, 0xE3} then 23
      else 1
  {
  }

  /** A byte whose top bit is a sign. */
  function Signed(b: int): int {
    if b >= 128 then b - 256 else b
  }

  /** The operand that the bytes after an opcode announce: where it starts and how long it is. */
  function Announced(script: seq<byte>, ip: nat): Option<(nat, int)>
    requires ip < |script|
  {
    var op, left := script[ip], |script| - ip - 1;
    if op == 0x4C || op == 0x68 then
      if left < 1 then None else Some((ip + 2, script[ip + 1]))
    else if op == 0x4D then
      if left < 2 then None else Some((ip + 3, Two(script[ip + 1], script[ip + 2])))
    else if op == 0x4E then
      if left < 4 then None
      else
        Some((ip + 5, Four(script[ip + 1], script[ip + 2], script[ip + 3], Signed(script[ip + 4]))))
    else if 0x01 <= op <= 0x4B then Some((ip + 1, op))
    else if op in {0x62, 0x63, 0x64, 0x65, 0xE2, 0xE4} then Some((ip + 1, 2))
    else if op in {0x67, 0x69} then Some((ip + 1, 20))
    else if op == 0xE0 then Some((ip + 1, 4))
    else if op in {0xE1, 0xE3} then Some((ip + 1, 22))
    else Some((ip + 1, 0))
  }

  /** What the decoder finds in the bytes of a script: an announced length of 0 or less is no operand. */
  lemma DecodedInFigures(script: seq<byte>, ip: nat)
    requires ip < |script|
    ensures Decode(script, ip) == match Announced(script, ip)
      case None => ValueError
      case Some((start, n)) =>
        if n <= 0 then Found(Instruction(script[ip], []))
        else if start + n > |script| then ValueError
        else Found(Instruction(script[ip], script[start..start + n]))
  {
    hide PrefixValue, PrefixSize, OperandSize;
    var op := script[ip];
    if op in {0x4C, 0x68, 0x4D, 0x4E} {
      PrefixSizes(op);
      if ip + 1 + PrefixSize(op) <= |script| {
        PrefixInFigures(script[ip + 1..ip + 1 + PrefixSize(op)]);
      }
    } else {
      OperandSizes(op);
    }
  }

  lemma PrefixSizes(op: byte)
    ensures op in {0x4C, 0x68} ==> PrefixSize(op) == 1
    ensures op == 0x4D ==> PrefixSize(op) == 2
    ensures op == 0x4E ==> PrefixSize(op) == 4
  {
  }

  lemma OperandSizes(op: byte)
    requires op !in {0x4C, 0x68, 0x4D, 0x4E}
    ensures PrefixSize(op) == 0
    ensures OperandSize(op) == if 0x01 <= op <= 0x4B then op
      else if op in {0x62, 0x63, 0x64, 0x65, 0xE2, 0xE4} then 2
      else if op in {0x67, 0x69} then 20
      else if op == 0xE0 then 4
      else if op in {0xE1, 0xE3} then 22
      else 0
  {
  }

  lemma PrefixInFigures(b: seq<byte>)
    ensures |b| == 1 ==> PrefixValue(b) == b[0]
    ensures |b| == 2 ==> PrefixValue(b) == Two(b[0], b[1])
    ensures |b| == 4 ==> PrefixValue(b) == Four(b[0], b[1], b[2], Signed(b[3]))
  {
    Pow256Is4();
    if |b| in {1, 2, 4} {
      FromLEHead(b);
      if |b| >= 2 { FromLEHead(b[1..]); }
      if |b| == 4 {
        FromLEHead(b[2..]);
        FromLEHead(b[3..]);
        assert b[1..][1..] == b[2..] && b[2..][1..] == b[3..];
      }
    }
  }

  lemma FromLEHead(b: seq<byte>)
    requires b != []
    ensures FromLE(b) == b[0] + 256 * FromLE(b[1..]) && (|b| == 1 ==> FromLE(b) == b[0])
  {
  }

  // ---- the assembler's side ------------------------------------------------------------------

  /** One past the longest operand the decoder can read back. */
  function OperandLimit(op: byte): nat {
    if op == PUSHDATA4 then 0x8000_0000 else Pow256(PrefixSize(op))
  }

  predicate WellFormed(ins: Instruction) {
    if PrefixSize(ins.opcode) > 0 then |ins.operand| < OperandLimit(ins.opcode)
    else |ins.operand| == OperandSize(ins.opcode)
  }

  function Assemble(ins: Instruction): (s: seq<byte>)
    requires WellFormed(ins)
    ensures |s| == Size(ins)
  {
    [ins.opcode] + ToLE(|ins.operand|, PrefixSize(ins.opcode)) + ins.operand
  }

  lemma PrefixRoundTrip(op: byte, n: nat)
    requires PrefixSize(op) > 0 && n < OperandLimit(op)
    ensures PrefixValue(ToLE(n, PrefixSize(op))) == n
  {
    var k := PrefixSize(op);
    Pow256Mono(0, 4);
    assert Pow256(4) == 0x1_0000_0000 by { Pow256Is4(); }
    FromLEToLE(n, k);
    DivModUnique(n, Pow256(k), 0, n);
    if k == 4 {
      ByteAt(n, 4, 3);
      DivRange(n, Pow256(3), 0, 128);
    }
  }

  lemma Pow256Is4()
    ensures Pow256(2) == 0x1_0000 && Pow256(3) == 0x100_0000 && Pow256(4) == 0x1_0000_0000
  {
    assert Pow256(1) == 256 * Pow256(0);
    assert Pow256(2) == 256 * Pow256(1);
    assert Pow256(3) == 256 * Pow256(2);
    assert Pow256(4) == 256 * Pow256(3);
  }

  lemma SliceOfSlice<T>(s: seq<T>, a: nat, b: nat, c: nat, d: nat)
    requires a <= b <= |s| && c <= d <= b - a
    ensures s[a..b][c..d] == s[a + c..a + d]
  {
    forall i | 0 <= i < d - c ensures s[a..b][c..d][i] == s[a + c..a + d][i] {
    }
  }

  /** Decoding undoes assembling, wherever the instruction stands in a script. */
  lemma DecodeAssembled(script: seq<byte>, ip: nat, ins: Instruction)
    requires WellFormed(ins)
    requires ip + Size(ins) <= |script| && script[ip..ip + Size(ins)] == Assemble(ins)
    ensures Decode(script, ip) == Found(ins)
  {
    hide ToLE, PrefixValue, PrefixSize, OperandSize, OperandLimit;
    var op, k := ins.opcode, PrefixSize(ins.opcode);
    AssembledParts(script, ip, ins);
    assert |ins.operand| == 0 ==> ins.operand == [];
    if k > 0 {
      PrefixRoundTrip(op, |ins.operand|);
    } else {
      assert |ins.operand| == OperandSize(op);
    }
  }

  lemma AssembledParts(script: seq<byte>, ip: nat, ins: Instruction)
    requires WellFormed(ins)
    requires ip + Size(ins) <= |script| && script[ip..ip + Size(ins)] == Assemble(ins)
    ensures var start := ip + 1 + PrefixSize(ins.opcode);
      && script[ip] == ins.opcode
      && start + |ins.operand| == ip + Size(ins)
      && script[ip + 1..start] == ToLE(|ins.operand|, PrefixSize(ins.opcode))
      && script[start..start + |ins.operand|] == ins.operand
  {
    hide ToLE, PrefixSize, OperandSize, OperandLimit;
    var op, k := ins.opcode, PrefixSize(ins.opcode);
    var code, prefix, n := Assemble(ins), ToLE(|ins.operand|, k), Size(ins);
    assert code[1..1 + k] == prefix && code[1 + k..n] == ins.operand;
    assert script[ip] == script[ip..ip + n][0] == op;
    SliceOfSlice(script, ip, ip + n, 1, 1 + k);
    SliceOfSlice(script, ip, ip + n, 1 + k, n);
  }

  function AssembleAll(list: seq<Instruction>): seq<byte>
    requires forall i :: 0 <= i < |list| ==> WellFormed(list[i])
  {
    if list == [] then [] else Assemble(list[0]) + AssembleAll(list[1..])
  }

  lemma {:induction false} AssembleAllConcat(a: seq<Instruction>, b: seq<Instruction>)
    requires forall i :: 0 <= i < |a| ==> WellFormed(a[i])
    requires forall i :: 0 <= i < |b| ==> WellFormed(b[i])
    ensures forall i :: 0 <= i < |a + b| ==> WellFormed((a + b)[i])
    ensures AssembleAll(a + b) == AssembleAll(a) + AssembleAll(b)
  {
    if a == [] {
      assert a + b == b;
    } else {
      hide Assemble, WellFormed;
      AssembleAllConcat(a[1..], b);
      assert (a + b)[1..] == a[1..] + b;
      Associate(Assemble(a[0]), AssembleAll(a[1..]), AssembleAll(b));
    }
  }

  lemma AssembleOne(ins: Instruction)
    requires WellFormed(ins)
    ensures AssembleAll([ins]) == Assemble(ins)
  {
    assert AssembleAll([ins]) == Assemble(ins) + AssembleAll([]);
  }

  datatype Walked = Listing(list: seq<Instruction>) | Malformed

  /** Decoding instruction after instruction from `ip` to the end of the script. */
  function Walk(script: seq<byte>, ip: nat): Walked
    requires ip <= |script|
    decreases |script| - ip
  {
    if ip == |script| then Listing([])
    else
      match Decode(script, ip)
      case ValueError => Malformed
      case Found(ins) =>
        DecodeStaysInside(script, ip);
        match Walk(script, ip + Size(ins))
        case Malformed => Malformed
        case Listing(rest) => Listing([ins] + rest)
  }

  /** The first instruction of an assembled tail of a script, and the tail after it. */
  lemma AssembledHead(script: seq<byte>, ip: nat, list: seq<Instruction>)
    requires forall i :: 0 <= i < |list| ==> WellFormed(list[i])
    requires list != [] && ip <= |script| && AssembleAll(list) <= script[ip..]
    ensures ip + Size(list[0]) <= |script| && Decode(script, ip) == Found(list[0])
    ensures AssembleAll(list[1..]) <= script[ip + Size(list[0])..]
    ensures |AssembleAll(list)| == Size(list[0]) + |AssembleAll(list[1..])|
    ensures script[ip..] == AssembleAll(list) ==> script[ip + Size(list[0])..] == AssembleAll(list[1..])
  {
    hide Decode, Assemble, WellFormed;
    var head, tail := Assemble(list[0]), AssembleAll(list[1..]);
    var code := script[ip..];
    assert head == (head + tail)[..|head|] == code[..|head|];
    assert script[ip..ip + |head|] == code[..|head|];
    assert tail == (head + tail)[|head|..] == code[|head|..|head| + |tail|];
    assert script[ip + |head|..] == code[|head|..];
    DecodeAssembled(script, ip, list[0]);
  }

  /** Walking an assembled script gives back exactly the instructions and ends at its length. */
  lemma {:induction false} WalkAssembled(script: seq<byte>, ip: nat, list: seq<Instruction>)
    requires forall i :: 0 <= i < |list| ==> WellFormed(list[i])
    requires ip <= |script| && script[ip..] == AssembleAll(list)
    ensures Walk(script, ip) == Listing(list)
    decreases |list|
  {
    hide *;
    if list == [] {
      WalkEnd(script, ip);
    } else {
      AssembledHead(script, ip, list);
      var rest := list[1..];
      assert forall i :: 0 <= i < |rest| ==> rest[i] == list[i + 1];
      WalkAssembled(script, ip + Size(list[0]), rest);
      WalkStep(script, ip, list[0], rest);
      assert [list[0]] + rest == list;
    }
  }

  lemma WalkEnd(script: seq<byte>, ip: nat)
    requires ip <= |script| && script[ip..] == AssembleAll([])
    ensures Walk(script, ip) == Listing([])
  {
    assert |script[ip..]| == 0;
  }

  lemma WalkStep(script: seq<byte>, ip: nat, ins: Instruction, rest: seq<Instruction>)
    requires ip < |script| && Decode(script, ip) == Found(ins) && ip + Size(ins) <= |script|
    requires Walk(script, ip + Size(ins)) == Listing(rest)
    ensures Walk(script, ip) == Listing([ins] + rest)
  {
  }

  /** Whatever a script holds, what is decoded from it is an instruction that could have been assembled. */
  lemma DecodedWellFormed(script: seq<byte>, ip: nat)
    requires ip < |script| && Decode(script, ip).Found?
    ensures WellFormed(Decode(script, ip).ins)
  {
    hide FromLE, FromLESigned;
    var op := script[ip];
    var start := ip + 1 + PrefixSize(op);
    PrefixInRange(op, script[ip + 1..start]);
  }

  lemma PrefixInRange(op: byte, prefix: seq<byte>)
    requires |prefix| == PrefixSize(op)
    ensures PrefixValue(prefix) < OperandLimit(op)
  {
    Pow256Is4();
    if op == PUSHDATA4 {
      var n := FromLE(prefix);
      ToLEFromLE(prefix);
      ByteAt(n, 4, 3);
      if n >= 0x8000_0000 { DivRange(n, Pow256(3), 128, 256); }
    }
  }

  lemma {:induction false} WalkedWellFormed(script: seq<byte>, ip: nat)
    requires ip <= |script| && Walk(script, ip).Listing?
    ensures forall i :: 0 <= i < |Walk(script, ip).list| ==> WellFormed(Walk(script, ip).list[i])
    decreases |script| - ip
  {
    hide Decode, WellFormed;
    if ip < |script| {
      DecodedWellFormed(script, ip);
      DecodeStaysInside(script, ip);
      WalkedWellFormed(script, ip + Size(Decode(script, ip).ins));
    }
  }
}
