/** neo/VM/ExecutionContext.py: the cursor of one frame, with its cache of decoded instructions. */
module ExecutionContexts {
  import opened Bytes
  import opened Instructions
  import opened Wrappers

  /** A decoded instruction, or `None` for the ValueError of the decoder. */
  function Result(d: Decoded): Option<Instruction> {
    match d
    case Found(ins) => Some(ins)
    case ValueError => None
  }

  class ExecutionContext {
    const script: seq<byte>
    var instructionPointer: nat
    var instructions: map<nat, Instruction>
    var ins: Option<Instruction>

    /** No cached instruction differs from a fresh decoding. */
    ghost predicate CacheValid()
      reads this`instructions
    {
      forall ip | ip in instructions :: ip < |script| && Decode(script, ip) == Found(instructions[ip])
    }

    /** Neither does the remembered current instruction. */
    ghost predicate Valid()
      reads this
    {
      CacheValid() && (ins.Some? ==> Fetch(script, instructionPointer) == Found(ins.value))
    }

    constructor (script: seq<byte>)
      ensures this.script == script && instructionPointer == 0 && ins == None && Valid()
    {
      this.script, instructionPointer, instructions, ins := script, 0, map[], None;
    }

    method GetInstruction(ip: nat) returns (r: Option<Instruction>)
      requires CacheValid()
      modifies this`instructions
      ensures CacheValid()
      ensures r == Result(Fetch(script, ip))
    {
      if ip >= |script| {
        return Some(Instruction(RET, []));
      }
      if ip in instructions {
        return Some(instructions[ip]);
      }
      match Decode(script, ip) {
        case ValueError =>
          r := None;
        case Found(i) =>
          instructions := instructions[ip := i];
          r := Some(i);
      }
    }

    method CurrentInstruction() returns (r: Option<Instruction>)
      requires Valid()
      modifies this`instructions
      ensures Valid()
      ensures r == Result(Fetch(script, instructionPointer))
    {
      if ins.None? {
        r := GetInstruction(instructionPointer);
      } else {
        r := ins;
      }
    }

    /** What a jump does: the target is decoded at once. */
    method JumpTo(offset: nat) returns (ok: bool)
      requires Valid() && offset <= |script|
      modifies this
      ensures instructionPointer == offset && CacheValid()
      ensures ok <==> Fetch(script, offset).Found?
      ensures if ok then Valid() && ins == Result(Fetch(script, offset)) else ins == old(ins)
    {
      instructionPointer := offset;
      var target := GetInstruction(instructionPointer);
      if target.None? {
        return false;
      }
      ins := target;
      return true;
    }

    /**
     * The move past the current instruction, whose successor is decoded at once. When that fails the
     * pointer has moved already while `ins` still holds the instruction behind it. From inside the
     * script the pointer never passes the end; from the end it runs ahead by the implicit RET.
     */
    method MoveNext() returns (r: Option<bool>)
      requires Valid()
      modifies this
      ensures CacheValid()
      ensures match Fetch(script, old(instructionPointer))
        case ValueError => r == None && instructionPointer == old(instructionPointer) && ins == old(ins)
        case Found(i) =>
          && instructionPointer == old(instructionPointer) + Size(i)
          && (match Fetch(script, instructionPointer)
              case ValueError => r == None && ins == old(ins)
              case Found(next) => r == Some(instructionPointer < |script|) && ins == Some(next))
      ensures r.Some? ==> Valid()
      ensures old(instructionPointer) < |script| ==> instructionPointer <= |script|
    {
      var current := CurrentInstruction();
      if current.None? {
        return None;
      }
      if instructionPointer < |script| {
        DecodeStaysInside(script, instructionPointer);
      }
      instructionPointer := instructionPointer + Size(current.value);
      var next := GetInstruction(instructionPointer);
      if next.None? {
        return None;
      }
      ins := next;
      return Some(instructionPointer < |script|);
    }
  }
}
