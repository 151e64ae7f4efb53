/**
 * Single instructions of neo/VM/ExecutionEngine.py, item by item: what the stack instructions leave, where jumps
 * land, what calls hand over, and what instructions cost.
 */
module VMInstructions {
  import opened Bytes
  import opened Instructions
  import opened RandomAccessStack
  import opened Wrappers
  import opened VM
  import opened VMRuns
  import opened VMScripts
  import CheckMultiSig

  // ---- stack instructions --------------------------------------------------------------------

  /** XDROP, XSWAP, XTUCK, PICK and ROLL take a position from the top of the stack. */
  predicate TakesPosition(op: byte) {
    op in {0x6D, 0x72, 0x73, 0x79, 0x7A}
  }

  /** The position on top of the stack; 0 is the item below it. */
  function TopNumber(es: seq<Item>): Option<int> {
    if es == [] then None else GetBigInteger(es[|es| - 1])
  }

  /** The items that a stack instruction needs: on the alt stack for two of them, and within the position. */
  predicate Suffices(op: byte, es: seq<Item>, alt: seq<Item>) {
    var n := |es|;
    if op == 0x6A || op == 0x6C then alt != []
    else if op == 0x74 then true
    else if op in {0x6B, 0x75, 0x76} then n >= 1
    else if op in {0x77, 0x78, 0x7C, 0x7D} then n >= 2
    else if op == 0x7B then n >= 3
    else
      match TopNumber(es)
      case None => false
      case Some(i) =>
        if op == 0x73 then 1 <= i <= n - 1
        else if op == 0x72 || op == 0x7A then i == 0 || 0 < i < n - 1
        else 0 <= i < n - 1
  }

  /** By how many items the stack grows. */
  function Growth(op: byte): int {
    if op in {0x6A, 0x6C, 0x74, 0x76, 0x78, 0x7D} then 1
    else if op in {0x6B, 0x72, 0x75, 0x77, 0x7A} then -1
    else if op == 0x6D then -2
    else 0
  }

  /** Where, in a stack of n items, item k of the new stack stood; i is the position taken, both from the bottom. */
  function Origin(op: byte, n: int, i: int, k: int): int {
    var last := n - 1;
    match op
    case 0x76 => if k == n then last else k
    case 0x77 => if k == n - 2 then last else k
    case 0x78 => if k == n then n - 2 else k
    case 0x7B => if k == last then n - 3 else if k >= n - 3 then k + 1 else k
    case 0x7C => if k == last then n - 2 else if k == n - 2 then last else k
    case 0x7D => if k == n || k == n - 2 then last else if k == last then n - 2 else k
    case 0x6D => if k >= i then k + 1 else k
    case 0x72 => if k == i then n - 2 else if k == n - 2 then i else k
    case 0x73 => if k == i + 1 then n - 2 else if k > i + 1 then k - 1 else k
    case 0x79 => if k == last then i else k
    case 0x7A => if k == n - 2 then i else if k >= i then k + 1 else k
    case _ => k
  }

  /** The new stacks, item by item. */
  ghost predicate Arranged(op: byte, es: seq<Item>, alt: seq<Item>, es': seq<Item>, alt': seq<Item>)
    requires Suffices(op, es, alt)
  {
    var n := |es|;
    var i := if TakesPosition(op) then n - 2 - TopNumber(es).value else 0;
    && |es'| == n + Growth(op)
    && (forall k :: 0 <= k < |es'| && !(k == n && op in {0x6A, 0x6C, 0x74}) ==>
        0 <= Origin(op, n, i, k) < n && es'[k] == es[Origin(op, n, i, k)])
    && (op == 0x6A || op == 0x6C ==> es'[n] == alt[|alt| - 1])
    && (op == 0x74 ==> es'[n] == Integer(n))
    && alt' == if op == 0x6B then alt + [es[n - 1]] else if op == 0x6C then alt[..|alt| - 1] else alt
  }

  /** How the change is counted: not by PICK, XTUCK and the moves to and from the alt stack. */
  function CountedAs(op: byte): seq<SizeCheck> {
    if op in {0x6A, 0x74, 0x76, 0x78, 0x7D} then [SizeCheck(true, 1)]
    else if op in {0x72, 0x7A} then [SizeCheck(true, -1)]
    else if op in {0x75, 0x77} then [SizeCheck(false, -1)]
    else if op == 0x6D then [SizeCheck(false, -2)]
    else []
  }

  function Change(checks: seq<SizeCheck>): int {
    if checks == [] then 0 else checks[0].delta
  }

  /** Only those that make the stack grow fail when it grows too large. */
  ghost predicate RightLocal(op: byte, es: seq<Item>, alt: seq<Item>, heap: Heap, out: Local) {
    if Suffices(op, es, alt) then
      && out.Moved? && Arranged(op, es, alt, out.estack, out.astack) && out.heap == heap
      && out.checks == CountedAs(op) && (out.enforced <==> Change(CountedAs(op)) > 0)
    else out.Failed?
  }

  lemma PushedLocal(op: byte, es: seq<Item>, alt: seq<Item>, heap: Heap)
    requires op in {0x6A, 0x6B, 0x6C, 0x74}
    ensures RightLocal(op, es, alt, heap, StackOp(op, es, alt, heap))
  {
    var out, n := StackOp(op, es, alt, heap), |es|;
    if out.Moved? && Suffices(op, es, alt) {
      forall k | 0 <= k < |out.estack| && !(k == n && op in {0x6A, 0x6C, 0x74})
        ensures 0 <= Origin(op, n, 0, k) < n && out.estack[k] == es[Origin(op, n, 0, k)]
      {
      }
    }
  }

  lemma DropDupLocal(op: byte, es: seq<Item>, alt: seq<Item>, heap: Heap)
    requires op in {0x75, 0x76}
    ensures RightLocal(op, es, alt, heap, StackOp(op, es, alt, heap))
  {
    var out, n := StackOp(op, es, alt, heap), |es|;
    if out.Moved? && Suffices(op, es, alt) {
      forall k | 0 <= k < |out.estack|
        ensures 0 <= Origin(op, n, 0, k) < n && out.estack[k] == es[Origin(op, n, 0, k)]
      {
      }
    }
  }

  lemma NipOverLocal(op: byte, es: seq<Item>, alt: seq<Item>, heap: Heap)
    requires op in {0x77, 0x78}
    ensures RightLocal(op, es, alt, heap, StackOp(op, es, alt, heap))
  {
    var out, n := StackOp(op, es, alt, heap), |es|;
    if out.Moved? && Suffices(op, es, alt) {
      forall k | 0 <= k < |out.estack|
        ensures 0 <= Origin(op, n, 0, k) < n && out.estack[k] == es[Origin(op, n, 0, k)]
      {
      }
    }
  }

  lemma RotLocal(es: seq<Item>, alt: seq<Item>, heap: Heap)
    ensures RightLocal(0x7B, es, alt, heap, StackOp(0x7B, es, alt, heap))
  {
    var out, n := StackOp(0x7B, es, alt, heap), |es|;
    if out.Moved? && Suffices(0x7B, es, alt) {
      forall k | 0 <= k < |out.estack|
        ensures 0 <= Origin(0x7B, n, 0, k) < n && out.estack[k] == es[Origin(0x7B, n, 0, k)]
      {
      }
    }
  }

  lemma SwapLocal(es: seq<Item>, alt: seq<Item>, heap: Heap)
    ensures RightLocal(0x7C, es, alt, heap, StackOp(0x7C, es, alt, heap))
  {
    var out, n := StackOp(0x7C, es, alt, heap), |es|;
    if out.Moved? && Suffices(0x7C, es, alt) {
      forall k | 0 <= k < |out.estack|
        ensures 0 <= Origin(0x7C, n, 0, k) < n && out.estack[k] == es[Origin(0x7C, n, 0, k)]
      {
      }
    }
  }

  lemma TuckLocal(es: seq<Item>, alt: seq<Item>, heap: Heap)
    ensures RightLocal(0x7D, es, alt, heap, StackOp(0x7D, es, alt, heap))
  {
    var out, n := StackOp(0x7D, es, alt, heap), |es|;
    if out.Moved? && Suffices(0x7D, es, alt) {
      forall k | 0 <= k < |out.estack|
        ensures 0 <= Origin(0x7D, n, 0, k) < n && out.estack[k] == es[Origin(0x7D, n, 0, k)]
      {
      }
    }
  }

  lemma XDropLocal(es: seq<Item>, alt: seq<Item>, heap: Heap)
    ensures RightLocal(0x6D, es, alt, heap, StackOp(0x6D, es, alt, heap))
  {
    hide GetBigInteger;
    var out, n := StackOp(0x6D, es, alt, heap), |es|;
    if out.Moved? && Suffices(0x6D, es, alt) {
      var i := n - 2 - TopNumber(es).value;
      forall k | 0 <= k < |out.estack|
        ensures 0 <= Origin(0x6D, n, i, k) < n && out.estack[k] == es[Origin(0x6D, n, i, k)]
      {
      }
    }
  }

  lemma XSwapLocal(es: seq<Item>, alt: seq<Item>, heap: Heap)
    ensures RightLocal(0x72, es, alt, heap, StackOp(0x72, es, alt, heap))
  {
    hide GetBigInteger;
    var out, n := StackOp(0x72, es, alt, heap), |es|;
    if out.Moved? && Suffices(0x72, es, alt) {
      var i := n - 2 - TopNumber(es).value;
      forall k | 0 <= k < |out.estack|
        ensures 0 <= Origin(0x72, n, i, k) < n && out.estack[k] == es[Origin(0x72, n, i, k)]
      {
      }
    }
  }

  lemma XTuckLocal(es: seq<Item>, alt: seq<Item>, heap: Heap)
    ensures RightLocal(0x73, es, alt, heap, StackOp(0x73, es, alt, heap))
  {
    hide GetBigInteger;
    var out, n := StackOp(0x73, es, alt, heap), |es|;
    if out.Moved? && Suffices(0x73, es, alt) {
      var i := n - 2 - TopNumber(es).value;
      forall k | 0 <= k < |out.estack|
        ensures 0 <= Origin(0x73, n, i, k) < n && out.estack[k] == es[Origin(0x73, n, i, k)]
      {
      }
    }
  }

  lemma FetchedLocal(op: byte, es: seq<Item>, alt: seq<Item>, heap: Heap)
    requires op in {0x79, 0x7A}
    ensures RightLocal(op, es, alt, heap, StackOp(op, es, alt, heap))
  {
    hide GetBigInteger;
    var out, n := StackOp(op, es, alt, heap), |es|;
    if out.Moved? && Suffices(op, es, alt) {
      var i := n - 2 - TopNumber(es).value;
      forall k | 0 <= k < |out.estack|
        ensures 0 <= Origin(op, n, i, k) < n && out.estack[k] == es[Origin(op, n, i, k)]
      {
      }
    }
  }

  lemma StackLocal(env: Env, op: byte, es: seq<Item>, alt: seq<Item>, heap: Heap)
    requires 0x6A <= op <= 0x6D || 0x72 <= op <= 0x7D
    ensures RightLocal(op, es, alt, heap, ExecLocal(env, Instruction(op, []), es, alt, heap))
  {
    hide StackOp, RightLocal;
    assert ExecLocal(env, Instruction(op, []), es, alt, heap) == StackOp(op, es, alt, heap);
    hide ExecLocal;
    if op in {0x6A, 0x6B, 0x6C, 0x74} {
      PushedLocal(op, es, alt, heap);
    } else if op in {0x75, 0x76} {
      DropDupLocal(op, es, alt, heap);
    } else if op in {0x77, 0x78} {
      NipOverLocal(op, es, alt, heap);
    } else if op == 0x7B {
      RotLocal(es, alt, heap);
    } else if op == 0x7C {
      SwapLocal(es, alt, heap);
    } else if op == 0x7D {
      TuckLocal(es, alt, heap);
    } else if op == 0x6D {
      XDropLocal(es, alt, heap);
    } else if op == 0x72 {
      XSwapLocal(es, alt, heap);
    } else if op == 0x73 {
      XTuckLocal(es, alt, heap);
    } else {
      FetchedLocal(op, es, alt, heap);
    }
  }

  lemma StackPlain(op: byte)
    requires 0x6A <= op <= 0x6D || 0x72 <= op <= 0x7D
    ensures Plain(op)
  {
  }

  /**
   * A stack instruction in a running engine with gas for it and a right count: with enough items it rearranges
   * the stacks item by item as written out, and nothing else; otherwise the engine faults.
   */
  lemma StackInstructionRuns(env: Env, s: State, op: byte, rest: seq<Instruction>) returns (r: State)
    requires 0x6A <= op <= 0x6D || 0x72 <= op <= 0x7D
    requires Ready(env, s, 0) && s.gas + 100000 <= env.gasAmount && 0 <= s.itemCount + Change(CountedAs(op)) <= 2048
    requires CodeAt(Current(s).script, Current(s).ip, [Instruction(op, [])] + rest)
    ensures r == Step(env, s)
    ensures if Suffices(op, Current(s).estack, Current(s).astack) then
        && r.frames != [] && Runs(env, s, r, 1, Current(r).estack, Current(r).astack, 1)
        && Arranged(op, Current(s).estack, Current(s).astack, Current(r).estack, Current(r).astack)
        && r.itemCount == s.itemCount + Change(CountedAs(op))
        && (r.strict <==> s.strict && forall c :: c in CountedAs(op) ==> c.strict)
      else r.status == Fault
  {
    hide Reaches, CodeAt, ExecLocal, Suffices, Arranged, Plain;
    var f := Current(s);
    StackLocal(env, op, f.estack, f.astack, s.heap);
    StackPlain(op);
    r := LocalRuns(env, s, op, ExecLocal(env, Instruction(op, []), f.estack, f.astack, s.heap), rest);
  }

  // ---- control transfer ----------------------------------------------------------------------

  /** The step took `price` units and replaced the current frame by these; only the item count may differ besides. */
  ghost predicate Leaves(s: State, r: State, top: seq<Frame>, price: nat)
    requires s.frames != []
  {
    r == s.(frames := s.frames[..|s.frames| - 1] + top, ops := s.ops + 1, gas := s.gas + price * 100000,
      itemCount := r.itemCount, strict := r.strict)
  }

  lemma PaidStep(env: Env, s: State, ins: Instruction, price: nat)
    requires Ready(env, s, 0) && Current(s).ip < |Current(s).script| && NextInstruction(s) == Found(ins)
    requires GetPrice(env, s.(ops := s.ops + 1), ins) == Some(price) && s.gas + price * 100000 <= env.gasAmount
    requires NeedsDynamicInvoke(ins) ==> env.dynamicInvoke(Current(s).script)
    ensures WellFormedOperand(ins)
    ensures Step(env, s) == ExecuteInstruction(env, s.(ops := s.ops + 1, gas := s.gas + price * 100000), ins)
  {
    hide Fetch, GetPrice, NeedsDynamicInvoke, ExecuteInstruction;
    var t := s.(ops := s.ops + 1);
    DecodedIsWellFormed(Current(s).script, Current(s).ip);
    assert PreExecute(env, t, ins) == Some((t.(gas := t.gas + price * RATIO), true));
  }

  /** Two bytes as a signed offset. */
  function Offset(low: byte, high: byte): int {
    low + 256 * high - if high >= 128 then 65536 else 0
  }

  lemma OffsetBytes(bs: seq<byte>)
    requires |bs| == 2
    ensures FromLESigned(bs) == Offset(bs[0], bs[1])
  {
    Pow256Is4();
    assert bs == [bs[0]] + [bs[1]] && bs[1..] == [bs[1]] && bs[1..][1..] == [];
    assert FromLE(bs[1..]) == bs[1] + 256 * FromLE(bs[1..][1..]);
  }

  lemma ShortFetched(script: seq<byte>, ip: nat)
    requires ip + 3 <= |script| && script[ip] in {0x62, 0x63, 0x64, 0x65}
    ensures Fetch(script, ip) == Found(Instruction(script[ip], [script[ip + 1], script[ip + 2]]))
    ensures FromLESigned([script[ip + 1], script[ip + 2]]) == Offset(script[ip + 1], script[ip + 2])
  {
    OffsetBytes([script[ip + 1], script[ip + 2]]);
    assert script[ip + 1..ip + 3] == [script[ip + 1], script[ip + 2]];
  }

  /**
   * JMP always goes to its offset from the instruction itself; JMPIF on a true and JMPIFNOT on a false item, which
   * they take, and otherwise to the next instruction. Outside the script, without an item, or in front of an
   * instruction that cannot be decoded the engine faults.
   */
  lemma JumpLands(env: Env, s: State)
    requires Ready(env, s, 0) && s.gas + 100000 <= env.gasAmount
    requires var f := Current(s); f.ip + 3 <= |f.script| && f.script[f.ip] in {0x62, 0x63, 0x64}
    ensures var r, f := Step(env, s), Current(s);
      var op, n, target := f.script[f.ip], |f.estack|, f.ip + Offset(f.script[f.ip + 1], f.script[f.ip + 2]);
      if target < 0 || target > |f.script| || (op != 0x62 && n == 0) then r.status == Fault
      else
        var taken := op == 0x62 || (op == 0x63 && GetBoolean(f.estack[n - 1]))
          || (op == 0x64 && !GetBoolean(f.estack[n - 1]));
        var landing := if taken then target else f.ip + 3;
        if Fetch(f.script, landing).ValueError? then r.status == Fault
        else Leaves(s, r, [f.(ip := landing, estack := if op == 0x62 then f.estack else f.estack[..n - 1])], 1)
  {
    hide Fetch, GetBoolean, Step, ExecuteInstruction, GetPrice, NeedsDynamicInvoke;
    var f := Current(s);
    ShortFetched(f.script, f.ip);
    var ins := Instruction(f.script[f.ip], [f.script[f.ip + 1], f.script[f.ip + 2]]);
    ShortPrice(env, s.(ops := s.ops + 1), ins);
    PaidStep(env, s, ins, 1);
    JumpExecutes(env, s.(ops := s.ops + 1, gas := s.gas + 1 * 100000), ins, f.ip + FromLESigned(ins.operand));
  }

  lemma ShortPrice(env: Env, s: State, ins: Instruction)
    requires s.frames != [] && ins.opcode in {0x62, 0x63, 0x64, 0x65}
    ensures GetPrice(env, s, ins) == Some(1) && !NeedsDynamicInvoke(ins)
  {
  }

  lemma JumpExecutes(env: Env, s: State, ins: Instruction, target: int)
    requires s.frames != [] && ins.opcode in {0x62, 0x63, 0x64} && WellFormedOperand(ins)
    requires target == Current(s).ip + FromLESigned(ins.operand)
    ensures var r, f, op, n := ExecuteInstruction(env, s, ins), Current(s), ins.opcode, |Current(s).estack|;
      if target < 0 || target > |f.script| || (op != 0x62 && n == 0) then r.status == Fault
      else
        var taken := op == 0x62 || (op == 0x63 && GetBoolean(f.estack[n - 1]))
          || (op == 0x64 && !GetBoolean(f.estack[n - 1]));
        var landing := if taken then target else f.ip + 3;
        if Fetch(f.script, landing).ValueError? then r.status == Fault
        else
          var top := f.(ip := landing, estack := if op == 0x62 then f.estack else f.estack[..n - 1]);
          r == s.(frames := s.frames[..|s.frames| - 1] + [top], itemCount := r.itemCount, strict := r.strict)
  {
    hide Fetch, CheckStackSize, GetBoolean, FromLESigned;
    assert ExecuteInstruction(env, s, ins) == DoJump(env, s, ins);
  }

  /** CALL: the whole stack goes to a new frame at its offset in the same script. */
  lemma CallEnters(env: Env, s: State)
    requires Ready(env, s, 0) && s.gas + 100000 <= env.gasAmount
    requires var f := Current(s); f.ip + 3 <= |f.script| && f.script[f.ip] == 0x65
    ensures var r, f := Step(env, s), Current(s);
      var target := f.ip + Offset(f.script[f.ip + 1], f.script[f.ip + 2]);
      if |s.frames| >= 1024 || target < 0 || target > |f.script| || Fetch(f.script, f.ip + 3).ValueError? then
        r.status == Fault
      else
        Leaves(s, r, [f.(ip := f.ip + 3, estack := []), Frame(f.script, target, -1, f.estack, [])], 1)
  {
    hide Fetch, Step, ExecuteInstruction, GetPrice, NeedsDynamicInvoke;
    var f := Current(s);
    ShortFetched(f.script, f.ip);
    var ins := Instruction(f.script[f.ip], [f.script[f.ip + 1], f.script[f.ip + 2]]);
    ShortPrice(env, s.(ops := s.ops + 1), ins);
    PaidStep(env, s, ins, 1);
    CallExecutes(env, s.(ops := s.ops + 1, gas := s.gas + 1 * 100000), ins, f.ip + FromLESigned(ins.operand));
  }

  lemma CallExecutes(env: Env, s: State, ins: Instruction, target: int)
    requires s.frames != [] && ins.opcode == 0x65 && WellFormedOperand(ins)
    requires target == Current(s).ip + FromLESigned(ins.operand)
    ensures var r, f := ExecuteInstruction(env, s, ins), Current(s);
      if |s.frames| >= 1024 || target < 0 || target > |f.script| || Fetch(f.script, f.ip + 3).ValueError? then
        r.status == Fault
      else
        var top := [f.(ip := f.ip + 3, estack := []), Frame(f.script, target, -1, f.estack, [])];
        r == s.(frames := s.frames[..|s.frames| - 1] + top)
  {
    hide Fetch, FromLESigned;
    assert ExecuteInstruction(env, s, ins) == DoCall(s, ins);
  }

  /** CALL_I: the same with the items and the return count that it names, its offset counted from those. */
  lemma IsolatedCallEnters(env: Env, s: State)
    requires Ready(env, s, 0) && s.gas + 100000 <= env.gasAmount
    requires var f := Current(s); f.ip + 5 <= |f.script| && f.script[f.ip] == 0xE0
    ensures var r, f := Step(env, s), Current(s);
      var returned, passed := f.script[f.ip + 1], f.script[f.ip + 2];
      var target, kept := f.ip + 2 + Offset(f.script[f.ip + 3], f.script[f.ip + 4]), |f.estack| - passed;
      if |s.frames| >= 1024 || kept < 0 || target < 0 || target > |f.script| || Fetch(f.script, f.ip + 5).ValueError?
      then r.status == Fault
      else
        Leaves(s, r, [f.(ip := f.ip + 5, estack := f.estack[..kept]),
          Frame(f.script, target, returned, f.estack[kept..], [])], 1)
  {
    hide Fetch, Step, ExecuteInstruction, GetPrice, NeedsDynamicInvoke;
    var f := Current(s);
    IsolatedFetched(f.script, f.ip);
    var ins := Instruction(0xE0, f.script[f.ip + 1..f.ip + 5]);
    IsolatedPrice(env, s.(ops := s.ops + 1), ins);
    PaidStep(env, s, ins, 1);
    IsolatedExecutes(env, s.(ops := s.ops + 1, gas := s.gas + 1 * 100000), ins,
      f.ip + 2 + Offset(f.script[f.ip + 3], f.script[f.ip + 4]));
  }

  lemma IsolatedPrice(env: Env, s: State, ins: Instruction)
    requires s.frames != [] && ins.opcode == 0xE0
    ensures GetPrice(env, s, ins) == Some(1) && !NeedsDynamicInvoke(ins)
  {
  }

  lemma IsolatedExecutes(env: Env, s: State, ins: Instruction, target: int)
    requires s.frames != [] && ins.opcode == 0xE0 && |ins.operand| == 4 && WellFormedOperand(ins)
    requires target == Current(s).ip + 2 + FromLESigned(ins.operand[2..])
    ensures var r, f, kept := ExecuteInstruction(env, s, ins), Current(s), |Current(s).estack| - ins.operand[1];
      if |s.frames| >= 1024 || kept < 0 || target < 0 || target > |f.script| || Fetch(f.script, f.ip + 5).ValueError?
      then r.status == Fault
      else
        var top := [f.(ip := f.ip + 5, estack := f.estack[..kept]),
          Frame(f.script, target, ins.operand[0], f.estack[kept..], [])];
        r == s.(frames := s.frames[..|s.frames| - 1] + top)
  {
    hide Fetch, FromLESigned;
    assert ExecuteInstruction(env, s, ins) == DoCallI(s, ins);
  }

  lemma IsolatedFetched(script: seq<byte>, ip: nat)
    requires ip + 5 <= |script| && script[ip] == 0xE0
    ensures Fetch(script, ip) == Found(Instruction(0xE0, script[ip + 1..ip + 5]))
    ensures FromLESigned(script[ip + 1..ip + 5][2..]) == Offset(script[ip + 3], script[ip + 4])
  {
    OffsetBytes(script[ip + 1..ip + 5][2..]);
  }

  lemma LongFetched(script: seq<byte>, ip: nat, size: nat)
    requires ip + 1 + size <= |script|
    requires (size == 20 && script[ip] in {0x67, 0x69}) || (size == 22 && script[ip] in {0xE1, 0xE3})
      || (size == 2 && script[ip] in {0xE2, 0xE4})
    ensures Fetch(script, ip) == Found(Instruction(script[ip], script[ip + 1..ip + 1 + size]))
  {
  }

  /** The hash an external call names: the bytes on top of the stack if it is dynamic, else those in the script. */
  function CalledHash(dynamic: bool, es: seq<Item>, written: seq<byte>): Option<seq<byte>> {
    if !dynamic then Some(written) else if es == [] then None else GetByteArray(es[|es| - 1])
  }

  /** The script of a contract, which 20 bytes may name. */
  function CalledScript(env: Env, hash: Option<seq<byte>>): Option<seq<byte>> {
    if hash.Some? && |hash.value| == 20 then env.table(hash.value) else None
  }

  /** What the next instruction is and costs. */
  ghost predicate Next(env: Env, s: State, ins: Instruction, price: nat) {
    && Ready(env, s, 0) && Current(s).ip < |Current(s).script| && NextInstruction(s) == Found(ins)
    && GetPrice(env, s.(ops := s.ops + 1), ins) == Some(price) && s.gas + price * 100000 <= env.gasAmount
    && (NeedsDynamicInvoke(ins) ==> env.dynamicInvoke(Current(s).script))
  }

  lemma PaidNext(env: Env, s: State, ins: Instruction, price: nat)
    requires Next(env, s, ins, price)
    ensures s.frames != [] && s.status == Running && WellFormedOperand(ins)
    ensures Step(env, s) == ExecuteInstruction(env, s.(ops := s.ops + 1, gas := s.gas + price * 100000), ins)
  {
    hide Fetch, GetPrice, NeedsDynamicInvoke, ExecuteInstruction, Step;
    PaidStep(env, s, ins, price);
  }

  lemma AppCallNext(env: Env, s: State)
    requires Ready(env, s, 0) && s.gas + 1000000 <= env.gasAmount
    requires var f := Current(s); f.ip + 21 <= |f.script| && f.script[f.ip] in {0x67, 0x69}
    requires var f := Current(s);
      (forall i :: f.ip < i < f.ip + 21 ==> f.script[i] == 0) ==> env.dynamicInvoke(f.script)
    ensures var f := Current(s); Next(env, s, Instruction(f.script[f.ip], f.script[f.ip + 1..f.ip + 21]), 10)
  {
    hide Fetch, AllZero;
    var f := Current(s);
    LongFetched(f.script, f.ip, 20);
    WrittenZero(f.script, f.ip);
  }

  /**
   * APPCALL and TAILCALL: the contract gets the whole stack, without the hash if that was on it; APPCALL leaves
   * the caller below with an empty stack, TAILCALL takes it away.
   */
  lemma AppCallEnters(env: Env, s: State)
    requires Ready(env, s, 0) && s.gas + 1000000 <= env.gasAmount
    requires var f := Current(s); f.ip + 21 <= |f.script| && f.script[f.ip] in {0x67, 0x69}
    requires var f := Current(s);
      (forall i :: f.ip < i < f.ip + 21 ==> f.script[i] == 0) ==> env.dynamicInvoke(f.script)
    ensures s.frames != []
    ensures var r, f := Step(env, s), Current(s);
      var n, written, tail := |f.estack|, f.script[f.ip + 1..f.ip + 21], f.script[f.ip] == 0x69;
      var dynamic := forall i :: f.ip < i < f.ip + 21 ==> f.script[i] == 0;
      var code := CalledScript(env, CalledHash(dynamic, f.estack, written));
      if (!tail && |s.frames| >= 1024) || code.None? || Fetch(f.script, f.ip + 21).ValueError? then r.status == Fault
      else
        var callee := Frame(code.value, 0, -1, if dynamic then f.estack[..n - 1] else f.estack, []);
        Leaves(s, r, if tail then [callee] else [f.(ip := f.ip + 21, estack := []), callee], 10)
  {
    hide Fetch, Step, ExecuteInstruction, AllZero, CalledScript, CalledHash, WellFormedOperand, Next;
    var f := Current(s);
    var ins := Instruction(f.script[f.ip], f.script[f.ip + 1..f.ip + 21]);
    AppCallNext(env, s);
    WrittenZero(f.script, f.ip);
    PaidNext(env, s, ins, 10);
    AppCallExecutes(env, s.(ops := s.ops + 1, gas := s.gas + 10 * 100000), ins);
  }

  lemma WrittenZero(script: seq<byte>, ip: nat)
    requires ip + 21 <= |script|
    ensures AllZero(script[ip + 1..ip + 21]) <==> forall i :: ip < i < ip + 21 ==> script[i] == 0
  {
    var bs := script[ip + 1..ip + 21];
    if AllZero(bs) {
      forall i | ip < i < ip + 21 ensures script[i] == 0 {
        assert bs[i - ip - 1] == 0;
      }
    }
  }

  lemma AppCallExecutes(env: Env, s: State, ins: Instruction)
    requires s.frames != [] && ins.opcode in {0x67, 0x69} && |ins.operand| == 20 && WellFormedOperand(ins)
    ensures var r, f, n := ExecuteInstruction(env, s, ins), Current(s), |Current(s).estack|;
      var tail, dynamic := ins.opcode == 0x69, AllZero(ins.operand);
      var code := CalledScript(env, CalledHash(dynamic, f.estack, ins.operand));
      if (!tail && |s.frames| >= 1024) || code.None? || Fetch(f.script, f.ip + 21).ValueError? then r.status == Fault
      else
        var callee := Frame(code.value, 0, -1, if dynamic then f.estack[..n - 1] else f.estack, []);
        var top := if tail then [callee] else [f.(ip := f.ip + 21, estack := []), callee];
        r == s.(frames := s.frames[..|s.frames| - 1] + top, itemCount := r.itemCount, strict := r.strict)
  {
    hide Fetch, GetByteArray, CheckStackSize, AllZero;
    assert ExecuteInstruction(env, s, ins) == DoAppCall(env, s, ins);
  }

  lemma ExternalCallNext(env: Env, s: State) returns (ins: Instruction)
    requires Ready(env, s, 0) && s.gas + 100000 <= env.gasAmount
    requires var f := Current(s); f.ip < |f.script| && f.script[f.ip] in {0xE1, 0xE2, 0xE3, 0xE4}
    requires var f := Current(s); f.ip + (if f.script[f.ip] in {0xE1, 0xE3} then 23 else 3) <= |f.script|
    requires Current(s).script[Current(s).ip] in {0xE2, 0xE4} ==> env.dynamicInvoke(Current(s).script)
    ensures s.frames != [] && Next(env, s, ins, 1) && ins.opcode == Current(s).script[Current(s).ip]
    ensures var f := Current(s);
      && |ins.operand| == (if ins.opcode in {0xE2, 0xE4} then 2 else 22)
      && ins.operand[0] == f.script[f.ip + 1] && ins.operand[1] == f.script[f.ip + 2]
      && (|ins.operand| == 22 ==> ins.operand[2..] == f.script[f.ip + 3..f.ip + 23])
      && (|ins.operand| == 2 ==> ins.operand[2..] == [])
  {
    hide Fetch;
    var f := Current(s);
    LongFetched(f.script, f.ip, if f.script[f.ip] in {0xE2, 0xE4} then 2 else 22);
    ins := NextInstruction(s).ins;
  }

  /**
   * CALL_E, CALL_ED, CALL_ET and CALL_EDT: the contract gets the items and owes the return count that they name;
   * the caller keeps the items below, or, in a tail call that owes as much as it does, is taken away. A CALL_EDT
   * with no item more than arguments miscounts.
   */
  lemma ExternalCallEnters(env: Env, s: State)
    requires Ready(env, s, 0) && s.gas + 100000 <= env.gasAmount
    requires var f := Current(s); f.ip < |f.script| && f.script[f.ip] in {0xE1, 0xE2, 0xE3, 0xE4}
    requires var f := Current(s); f.ip + (if f.script[f.ip] in {0xE1, 0xE3} then 23 else 3) <= |f.script|
    requires Current(s).script[Current(s).ip] in {0xE2, 0xE4} ==> env.dynamicInvoke(Current(s).script)
    ensures s.frames != []
    ensures var r, f := Step(env, s), Current(s);
      var op, returned, passed := f.script[f.ip], f.script[f.ip + 1], f.script[f.ip + 2];
      var dynamic, tail, n := op in {0xE2, 0xE4}, op in {0xE3, 0xE4}, |f.estack|;
      var next, m := f.ip + (if dynamic then 3 else 23), if dynamic then n - 1 else n;
      var written := if dynamic then [] else f.script[f.ip + 3..f.ip + 23];
      var code := CalledScript(env, CalledHash(dynamic, f.estack, written));
      if n < passed || code.None? || (if tail then f.rvcount != returned else |s.frames| >= 1024) then
        r.status == Fault
      else if Fetch(f.script, next).ValueError? then r.status == Fault
      else if m < passed then r.status == if tail then Miscounted else Fault
      else
        var callee := Frame(code.value, 0, returned, f.estack[m - passed..m], []);
        Leaves(s, r, if tail then [callee] else [f.(ip := next, estack := f.estack[..m - passed]), callee], 1)
  {
    hide Fetch, Step, ExecuteInstruction, CalledScript, CalledHash, WellFormedOperand, Next;
    var f := Current(s);
    var ins := ExternalCallNext(env, s);
    PaidNext(env, s, ins, 1);
    var u := s.(ops := s.ops + 1, gas := s.gas + 1 * 100000);
    if |ins.operand| == 22 {
      WrittenCallExecutes(env, u, ins);
    } else {
      DynamicCallExecutes(env, u, ins);
    }
  }

  ghost predicate ExecutesExternal(env: Env, s: State, ins: Instruction, r: State)
    requires s.frames != [] && ins.opcode in {0xE1, 0xE2, 0xE3, 0xE4} && |ins.operand| >= 2
  {
    var f, n := Current(s), |Current(s).estack|;
    var returned, passed, written := ins.operand[0], ins.operand[1], ins.operand[2..];
    var dynamic, tail := ins.opcode in {0xE2, 0xE4}, ins.opcode in {0xE3, 0xE4};
    var next, m := f.ip + (if dynamic then 3 else 23), if dynamic then n - 1 else n;
    var code := CalledScript(env, CalledHash(dynamic, f.estack, written));
    if n < passed || code.None? || (if tail then f.rvcount != returned else |s.frames| >= 1024) then
      r.status == Fault
    else if Fetch(f.script, next).ValueError? then r.status == Fault
    else if m < passed then r.status == if tail then Miscounted else Fault
    else
      var callee := Frame(code.value, 0, returned, f.estack[m - passed..m], []);
      var top := if tail then [callee] else [f.(ip := next, estack := f.estack[..m - passed]), callee];
      r == s.(frames := s.frames[..|s.frames| - 1] + top, itemCount := r.itemCount, strict := r.strict)
  }

  lemma WrittenCallExecutes(env: Env, s: State, ins: Instruction)
    requires s.frames != [] && ins.opcode in {0xE1, 0xE3} && |ins.operand| == 22 && WellFormedOperand(ins)
    requires s.status == Running
    ensures ExecutesExternal(env, s, ins, ExecuteInstruction(env, s, ins))
  {
    hide Fetch, GetByteArray, CheckStackSize, EnterExternal;
    assert ExecuteInstruction(env, s, ins) == DoCallE(env, s, ins);
    var es := Current(s).estack;
    assert es[..|es|] == es;
    if |es| >= ins.operand[1] {
      ExternalEnters(env, s, s, ins, ins.operand[2..], |es|, ins.opcode == 0xE3);
    }
  }

  lemma LoadedIffCalled(env: Env, hash: seq<byte>, rvcount: int, es: seq<Item>)
    ensures LoadScriptByHash(env, hash, rvcount, es).Some? <==> CalledScript(env, Some(hash)).Some?
    ensures CalledScript(env, None).None?
  {
  }

  lemma AdvancedIff(f: Frame, ins: Instruction)
    requires ins.opcode in {0xE2, 0xE4}
    ensures Advance(f, ins).Some? <==> Fetch(f.script, f.ip + 3).Found?
  {
    hide Fetch;
  }

  lemma DynamicCallExecutes(env: Env, s: State, ins: Instruction)
    requires s.frames != [] && ins.opcode in {0xE2, 0xE4} && |ins.operand| == 2 && WellFormedOperand(ins)
    requires s.status == Running
    ensures ExecutesExternal(env, s, ins, ExecuteInstruction(env, s, ins))
  {
    hide DoCallE, ExecutesExternal;
    assert ExecuteInstruction(env, s, ins) == DoCallE(env, s, ins);
    if |Current(s).estack| > ins.operand[1] {
      DynamicCallEnters(env, s, ins);
    } else {
      DynamicCallMiscounts(env, s, ins);
    }
  }

  lemma DynamicCallMiscounts(env: Env, s: State, ins: Instruction)
    requires s.frames != [] && ins.opcode in {0xE2, 0xE4} && |ins.operand| == 2 && s.status == Running
    requires |Current(s).estack| <= ins.operand[1]
    ensures ExecutesExternal(env, s, ins, DoCallE(env, s, ins))
  {
    hide Fetch, GetByteArray, CheckStackSize, EnterExternal, LoadScriptByHash, CalledScript, Advance;
    var hash := CalledHash(true, Current(s).estack, []);
    LoadedIffCalled(env, if hash.Some? then hash.value else [], ins.operand[0], []);
    AdvancedIff(Current(s), ins);
  }

  lemma DynamicCallEnters(env: Env, s: State, ins: Instruction)
    requires s.frames != [] && ins.opcode in {0xE2, 0xE4} && |ins.operand| == 2 && s.status == Running
    requires |Current(s).estack| > ins.operand[1]
    ensures ExecutesExternal(env, s, ins, DoCallE(env, s, ins))
  {
    hide Fetch, GetByteArray, CheckStackSize, EnterExternal, LoadScriptByHash, CalledScript, Advance;
    var es, n := Current(s).estack, |Current(s).estack|;
    LoadedIffCalled(env, [], ins.operand[0], []);
    if GetByteArray(es[n - 1]).Some? {
      var checked := CheckStackSize(env, s, SizeCheck(true, -1)).0;
      ExternalEnters(env, s, checked, ins, GetByteArray(es[n - 1]).value, n - 1, ins.opcode == 0xE4);
    }
  }

  lemma ExternalEnters(env: Env, s: State, t: State, ins: Instruction, hash: seq<byte>, m: nat, tail: bool)
    requires s.frames != [] && ins.opcode in {0xE1, 0xE2, 0xE3, 0xE4} && |ins.operand| >= 2
    requires t == s.(itemCount := t.itemCount, strict := t.strict) && ins.operand[1] <= m <= |Current(s).estack|
    ensures var r, f := EnterExternal(env, t, ins, hash, Current(s).estack[..m], tail), Current(s);
      var next, kept := f.ip + (if ins.opcode in {0xE2, 0xE4} then 3 else 23), m - ins.operand[1];
      var code := CalledScript(env, Some(hash));
      if code.None? || Fetch(f.script, next).ValueError? then r.status == Fault
      else
        var callee := Frame(code.value, 0, ins.operand[0], f.estack[kept..m], []);
        var top := if tail then [callee] else [f.(ip := next, estack := f.estack[..kept]), callee];
        r == s.(frames := s.frames[..|s.frames| - 1] + top, itemCount := r.itemCount, strict := r.strict)
  {
    hide Fetch;
    var es, passed := Current(s).estack, ins.operand[1];
    assert es[..m][m - passed..] == es[m - passed..m] && es[..m][..m - passed] == es[..m - passed];
  }

  /**
   * RET, written or at the end of the script: the top items that the frame owes, or all if it owes no number,
   * go to the caller, with the alt stack in the second case, or to the results of the run.
   */
  lemma ReturnHandsBack(env: Env, s: State)
    requires Ready(env, s, 0)
    requires var f := Current(s);
      f.ip >= |f.script| || (f.script[f.ip] == 0x66 && s.gas + 100000 <= env.gasAmount)
    ensures var r, f, n := Step(env, s), Current(s), |s.frames|;
      var owed := if f.rvcount == -1 then |f.estack| else f.rvcount;
      var gas := s.gas + if f.ip < |f.script| then 100000 else 0;
      if owed < 0 || owed > |f.estack| then r.status == Fault
      else
        var returned := f.estack[|f.estack| - owed..];
        if n == 1 then r.status == Halt && r.results == s.results + returned && r.gas == gas
        else
          var caller := s.frames[n - 2];
          var back := caller.(estack := caller.estack + returned,
            astack := if f.rvcount == -1 then caller.astack + f.astack else caller.astack);
          r == s.(frames := s.frames[..n - 2] + [back], ops := s.ops + 1, gas := gas, itemCount := r.itemCount,
            strict := r.strict)
  {
    hide Step, DoReturn, GetPrice, Fetch;
    var f, t := Current(s), s.(ops := s.ops + 1);
    if f.ip < |f.script| {
      ReturnNext(env, s);
      PaidStep(env, s, Instruction(RET, []), 1);
      ReturnExecutes(env, t.(gas := s.gas + 1 * 100000));
    } else {
      EndReturns(env, s);
      ReturnExecutes(env, t);
    }
  }

  lemma ReturnNext(env: Env, s: State)
    requires s.frames != [] && Current(s).ip < |Current(s).script| && Current(s).script[Current(s).ip] == 0x66
    ensures NextInstruction(s) == Found(Instruction(RET, []))
    ensures GetPrice(env, s.(ops := s.ops + 1), Instruction(RET, [])) == Some(1)
    ensures !NeedsDynamicInvoke(Instruction(RET, []))
  {
    ReturnFetched(Current(s).script, Current(s).ip);
  }

  lemma ReturnExecutes(env: Env, s: State)
    requires s.frames != []
    ensures var r, f, n := DoReturn(env, s), Current(s), |s.frames|;
      var owed := if f.rvcount == -1 then |f.estack| else f.rvcount;
      if owed < 0 || owed > |f.estack| then r.status == Fault
      else
        var returned := f.estack[|f.estack| - owed..];
        if n == 1 then r.status == Halt && r.results == s.results + returned && r.gas == s.gas
        else
          var caller := s.frames[n - 2];
          var back := caller.(estack := caller.estack + returned,
            astack := if f.rvcount == -1 then caller.astack + f.astack else caller.astack);
          r == s.(frames := s.frames[..n - 2] + [back], itemCount := r.itemCount, strict := r.strict)
  {
    hide CheckStackSize;
    var below := s.frames[..|s.frames| - 1];
    if below != [] {
      assert below[..|below| - 1] == s.frames[..|s.frames| - 2];
    }
  }

  lemma ReturnFetched(script: seq<byte>, ip: nat)
    requires ip < |script| && script[ip] == 0x66
    ensures Fetch(script, ip) == Found(Instruction(RET, []))
  {
  }

  lemma EndReturns(env: Env, s: State)
    requires s.frames != [] && Current(s).ip >= |Current(s).script|
    ensures Step(env, s) == DoReturn(env, s.(ops := s.ops + 1))
  {
    hide DoReturn;
  }

  /** THROWIFNOT goes on, without the item, if it is true. */
  lemma ThrowIfNotRuns(env: Env, s: State, rest: seq<Instruction>) returns (r: State)
    requires Ready(env, s, 0) && s.gas + 100000 <= env.gasAmount && s.itemCount >= 1
    requires CodeAt(Current(s).script, Current(s).ip, [Instruction(0xF1, [])] + rest)
    ensures r == Step(env, s)
    ensures var f, n := Current(s), |Current(s).estack|;
      if n >= 1 && GetBoolean(f.estack[n - 1]) then Runs(env, s, r, 1, f.estack[..n - 1], f.astack, 1)
      else r.status == Fault
  {
    hide Reaches, CodeAt, GetBoolean, Plain;
    var f := Current(s);
    ThrowPlain();
    r := LocalRuns(env, s, 0xF1, ExecLocal(env, Instruction(0xF1, []), f.estack, f.astack, s.heap), rest);
  }

  lemma ThrowPlain()
    ensures Plain(0xF1)
  {
  }

  // ---- what instructions cost ----------------------------------------------------------------

  /** Opcodes with a price of their own, in units of 0.001 GAS: hashes, signatures and application calls. */
  const PRICES: map<byte, nat> :=
    map[0x67 := 10, 0x69 := 10, 0xA7 := 10, 0xA8 := 10, 0xA9 := 20, 0xAA := 20, 0xAC := 100, 0xAD := 100]

  /** CHECKMULTISIG pays 100 for every key that it is told of. */
  function KeysPrice(es: seq<Item>, heap: Heap): Option<int> {
    if es == [] then Some(1)
    else
      var top := es[|es| - 1];
      match (GetArray(heap, top), GetBigInteger(top))
      case (Some(keys), _) => Some(if keys == [] then 1 else 100 * |keys|)
      case (None, Some(n)) => Some(if n <= 0 then 1 else 100 * n)
      case (None, None) => None
  }

  /**
   * The price of the instruction a state is about to execute. The end of a script costs nothing; None when the
   * instruction cannot be decoded or has no price.
   */
  function ListPrice(env: Env, s: State): Option<int> {
    if s.frames == [] || Current(s).ip >= |Current(s).script| then Some(0)
    else
      var f := Current(s);
      var op := f.script[f.ip];
      if Fetch(f.script, f.ip).ValueError? then None
      else if op <= 0x61 then Some(0)
      else if op in PRICES then Some(PRICES[op])
      else if op == 0xAE then KeysPrice(f.estack, s.heap)
      else if op == 0x68 then env.sysPrice(Fetch(f.script, f.ip).ins.operand, f.estack, s.heap)
      else Some(1)
  }

  function Charge(env: Env, s: State): int {
    match ListPrice(env, s) case Some(p) => p case None => 0
  }

  function Bill(env: Env, t: seq<State>): int {
    if t == [] then 0 else Bill(env, t[..|t| - 1]) + Charge(env, t[|t| - 1])
  }

  lemma PriceListed(env: Env, s: State, ins: Instruction)
    requires s.frames != [] && Current(s).ip < |Current(s).script| && NextInstruction(s) == Found(ins)
    ensures GetPrice(env, s.(ops := s.ops + 1), ins) == ListPrice(env, s)
  {
    hide GetBigInteger;
    DecodeStaysInside(Current(s).script, Current(s).ip);
    assert ins.opcode == Current(s).script[Current(s).ip];
    hide Decode;
  }

  /** The books after a step that has decoded an instruction. */
  lemma StepBooks(env: Env, s: State, ins: Instruction)
    requires s.frames != [] && NextInstruction(s) == Found(ins)
    ensures var t := s.(ops := s.ops + 1);
      Step(env, s).gas == match PreExecute(env, t, ins) case None => s.gas case Some((u, ok)) => u.gas
  {
    hide PreExecute, ExecuteInstruction, Fetch, Size;
    var f, t := Current(s), s.(ops := s.ops + 1);
    DecodedIsWellFormed(f.script, f.ip);
    match PreExecute(env, t, ins) {
      case None =>
      case Some((u, ok)) =>
        PreExecuteCharges(env, t, ins);
        ExecuteShape(env, if ok then u else SetFault(u), ins);
    }
  }

  lemma StepCharges(env: Env, s: State)
    ensures Step(env, s).gas == s.gas + Charge(env, s) * 100000
  {
    hide GetPrice, ExecuteInstruction, Fetch;
    if s.frames != [] && NextInstruction(s).Found? {
      var ins, f, t := NextInstruction(s).ins, Current(s), s.(ops := s.ops + 1);
      StepBooks(env, s, ins);
      if f.ip < |f.script| {
        PriceListed(env, s, ins);
        hide Step, ListPrice;
        assert PreExecute(env, t, ins).Some? <==> GetPrice(env, t, ins).Some?;
      }
    } else if s.frames != [] {
      FetchedEnd(Current(s).script, Current(s).ip);
    }
  }

  lemma FetchedEnd(script: seq<byte>, ip: nat)
    ensures ip >= |script| ==> Fetch(script, ip).Found?
  {
  }

  /** What any run has consumed is the sum of the listed prices of the instructions it has met. */
  lemma {:induction false} GasIsBill(env: Env, t: seq<State>)
    requires Run(env, t)
    ensures t[|t| - 1].gas == t[0].gas + 100000 * Bill(env, t[..|t| - 1])
    decreases |t|
  {
    hide Step, ListPrice;
    if |t| > 1 {
      var u := t[..|t| - 1];
      GasIsBill(env, u);
      StepCharges(env, u[|u| - 1]);
      assert t[|t| - 1] == Step(env, u[|u| - 1]);
    } else {
      assert t[..0] == [];
    }
  }

  // ---- limits and operands in figures --------------------------------------------------------

  /**
   * The count of stack items: up to 2048 it is taken as it is; a strict count above is refused, any other is made
   * exact by counting the items.
   */
  lemma CountInFigures(env: Env, s: State, c: SizeCheck)
    ensures var (t, ok), sum := CheckStackSize(env, s, c), s.itemCount + c.delta;
      var strict, n := s.strict && c.strict, env.recount(s.frames, s.heap);
      if 0 <= sum <= 2048 then ok && t == s.(itemCount := sum, strict := strict)
      else if strict then !ok && t == s.(itemCount := if 0 <= sum <= 2147483647 then sum else 2147483647)
      else (ok <==> n <= 2048) && t == s.(itemCount := n, strict := ok)
  {
  }

  /** Whether the next instruction may be executed: gas, or in test mode the number of operations, and permission. */
  ghost predicate Allowed(env: Env, s: State, ins: Instruction) {
    && ListPrice(env, s).Some?
    && (if env.testMode then s.ops < 500000 else s.gas + Charge(env, s) * 100000 <= env.gasAmount)
    && (ins.opcode in {0xE2, 0xE4} || (ins.opcode in {0x67, 0x69} && forall b :: b in ins.operand ==> b == 0)
        ==> s.frames != [] && env.dynamicInvoke(Current(s).script))
  }

  lemma PermissionInFigures(ins: Instruction)
    ensures NeedsDynamicInvoke(ins) <==>
      ins.opcode in {0xE2, 0xE4} || (ins.opcode in {0x67, 0x69} && forall b :: b in ins.operand ==> b == 0)
  {
    if AllZero(ins.operand) {
      forall b | b in ins.operand ensures b == 0 {
        var i :| 0 <= i < |ins.operand| && ins.operand[i] == b;
      }
    } else {
      var i :| 0 <= i < |ins.operand| && ins.operand[i] != 0;
      assert ins.operand[i] in ins.operand;
    }
  }

  /** An instruction is allowed exactly under these conditions; one that is not, other than RET, stops the engine. */
  lemma GateInFigures(env: Env, s: State, ins: Instruction)
    requires s.frames != [] && Current(s).ip < |Current(s).script| && NextInstruction(s) == Found(ins)
    ensures var gate := PreExecute(env, s.(ops := s.ops + 1), ins);
      (gate.Some? && gate.value.1) <==> Allowed(env, s, ins)
    ensures !Allowed(env, s, ins) && ins.opcode != 0x66 ==> Step(env, s).status != Running
  {
    hide Fetch, GetPrice, ExecuteInstruction, ListPrice, NeedsDynamicInvoke, Size;
    var t := s.(ops := s.ops + 1);
    PriceListed(env, s, ins);
    PermissionInFigures(ins);
    DecodedIsWellFormed(Current(s).script, Current(s).ip);
    if PreExecute(env, t, ins).Some? && !PreExecute(env, t, ins).value.1 {
      PreExecuteCharges(env, t, ins);
      FaultStays(env, SetFault(PreExecute(env, t, ins).value.0), ins);
    }
  }

  /**
   * Data of more than 1 MiB cannot be pushed, nor a system call of more than 252 bytes be made; a push fails when
   * the stack grows too large.
   */
  lemma LimitsInFigures(env: Env, ins: Instruction, es: seq<Item>, alt: seq<Item>, heap: Heap)
    ensures var out := ExecLocal(env, ins, es, alt, heap);
      && (1 <= ins.opcode <= 0x4E ==> (out.Failed? <==> |ins.operand| > 1048576))
      && (ins.opcode == 0x68 ==> (out.Failed? <==> |ins.operand| > 252 || env.syscall(ins.operand, es, heap).None?))
      && (ins.opcode == 0xF0 ==> out.Failed?)
      && (ins.opcode <= 0x60 && out.Moved? ==> out.checks == [SizeCheck(true, 1)] && out.enforced)
      && (ins.opcode == 0x61 ==> out == Moved(es, alt, heap, [], false))
  {
  }

  /** PACK makes an array of the items counted, the topmost first; of at most 1024 items. */
  lemma PackInFigures(env: Env, es: seq<Item>, alt: seq<Item>, heap: Heap)
    ensures var out, n := ExecLocal(env, Instruction(0xC1, []), es, alt, heap), |es|;
      match TopNumber(es)
      case None => out.Failed?
      case Some(size) =>
        if size < 0 || size > n - 1 || size > 1024 then out.Failed?
        else
          && out.Moved? && out.estack == es[..n - 1 - size] + [Ref(|heap|)] && out.astack == alt && out.checks == []
          && |out.heap| == |heap| + 1 && out.heap[..|heap|] == heap && out.heap[|heap|].ArrayCell?
          && |out.heap[|heap|].items| == size
          && forall k :: 0 <= k < size ==> out.heap[|heap|].items[k] == es[n - 2 - k]
  {
    hide GetBigInteger, Reverse, PackOp;
    assert ExecLocal(env, Instruction(0xC1, []), es, alt, heap) == PackOp(es, alt, heap);
    hide ExecLocal;
    PackOperation(es, alt, heap);
  }

  lemma PackOperation(es: seq<Item>, alt: seq<Item>, heap: Heap)
    ensures var n := |es|;
      match TopNumber(es)
      case None => PackOp(es, alt, heap).Failed?
      case Some(size) =>
        if size < 0 || size > n - 1 || size > 1024 then PackOp(es, alt, heap).Failed?
        else
          var cell := ArrayCell(Reverse(es[..n - 1][n - 1 - size..]));
          PackOp(es, alt, heap) == Moved(es[..n - 1 - size] + [Ref(|heap|)], alt, heap + [cell], [], false)
  {
    hide GetBigInteger, Reverse;
    var n := |es|;
    if TopNumber(es).Some? && 0 <= TopNumber(es).value <= n - 1 {
      var size := TopNumber(es).value;
      assert es[..n - 1][..n - 1 - size] == es[..n - 1 - size];
    }
  }

  /** The items of an operand list: of the array on top, or as many as the number on top says, the topmost first. */
  function OperandItems(es: seq<Item>, heap: Heap): Option<seq<Item>> {
    if es == [] then None
    else
      var n, top := |es|, es[|es| - 1];
      match (GetArray(heap, top), GetBigInteger(top))
      case (Some(items), _) => if items == [] then None else Some(items)
      case (None, Some(k)) =>
        if 1 <= k < n then Some(seq(k, i requires 0 <= i < k < n => es[n - 2 - i])) else None
      case (None, None) => None
  }

  lemma {:induction false} AllBytesInFigures(items: seq<Item>)
    ensures AllBytes(items).Some? <==> forall i :: 0 <= i < |items| ==> GetByteArray(items[i]).Some?
    ensures AllBytes(items).Some? ==> |AllBytes(items).value| == |items|
    ensures AllBytes(items).Some? ==>
      forall i :: 0 <= i < |items| ==> GetByteArray(items[i]) == Some(AllBytes(items).value[i])
  {
    hide GetByteArray;
    if items != [] {
      AllBytesInFigures(items[1..]);
      assert forall i :: 1 <= i < |items| ==> items[i] == items[1..][i - 1];
    }
  }

  /** CHECKMULTISIG takes its two lists only if they are non-empty and all bytes, and leaves what is below them. */
  lemma OperandsInFigures(es: seq<Item>, heap: Heap)
    ensures PopList(es, heap).Popped? <==>
      OperandItems(es, heap).Some? && forall x :: x in OperandItems(es, heap).value ==> GetByteArray(x).Some?
    ensures PopList(es, heap).Popped? ==>
      var popped, items := PopList(es, heap), OperandItems(es, heap).value;
      && |popped.list| == |items|
      && (forall i :: 0 <= i < |items| ==> GetByteArray(items[i]) == Some(popped.list[i]))
      && popped.rest == es[..|es| - 1 - if GetArray(heap, es[|es| - 1]).Some? then 0 else |items|]
  {
    hide GetByteArray, GetBigInteger, GetArray, AllBytes, PopList, OperandItems;
    PoppedItems(es, heap);
    if OperandItems(es, heap).Some? {
      AllBytesInFigures(OperandItems(es, heap).value);
    }
  }

  lemma PoppedItems(es: seq<Item>, heap: Heap)
    ensures PopList(es, heap).Popped? <==>
      OperandItems(es, heap).Some? && AllBytes(OperandItems(es, heap).value).Some?
    ensures PopList(es, heap).Popped? ==>
      var popped, items := PopList(es, heap), OperandItems(es, heap).value;
      && AllBytes(items) == Some(popped.list)
      && popped.rest == es[..|es| - 1 - if GetArray(heap, es[|es| - 1]).Some? then 0 else |items|]
  {
    hide GetByteArray, GetBigInteger, GetArray, AllBytes, Reverse;
    if OperandItems(es, heap).Some? && GetArray(heap, es[|es| - 1]).None? {
      var n, k, below := |es|, |OperandItems(es, heap).value|, es[..|es| - 1];
      CountedItems(es, k);
      assert below[..|below| - k] == es[..n - 1 - k];
    }
  }

  lemma CountedItems(es: seq<Item>, k: nat)
    requires 1 <= k < |es|
    ensures var n, below := |es|, es[..|es| - 1];
      Reverse(below[|below| - k..]) == seq(k, i requires 0 <= i < k < n => es[n - 2 - i])
  {
    hide Reverse;
  }

  /** It fails exactly on such a list or on more signatures than keys, and leaves the verdict of the scan. */
  lemma CheckMultiSigInFigures(env: Env, es: seq<Item>, alt: seq<Item>, heap: Heap)
    ensures var out, keys := ExecLocal(env, Instruction(0xAE, []), es, alt, heap), PopList(es, heap);
      if keys == BadOperand then out.Failed?
      else
        var sigs := PopList(keys.rest, heap);
        if sigs == BadOperand || |sigs.list| > |keys.list| then out.Failed?
        else
          && out.Moved? && out.astack == alt && out.heap == heap && |out.estack| == |sigs.rest| + 1
          && out.estack[..|sigs.rest|] == sigs.rest && out.estack[|sigs.rest|].Boolean?
          && (out.estack[|sigs.rest|].value ==> CheckMultiSig.Satisfied(env.verify, sigs.list, keys.list))
          && (CheckMultiSig.NeverRaises(env.verify, sigs.list, keys.list) ==>
            (out.estack[|sigs.rest|].value <==> CheckMultiSig.Satisfied(env.verify, sigs.list, keys.list)))
  {
    hide PopList, CheckMultiSig.Scan, CheckMultiSig.Satisfied, CheckMultiSig.NeverRaises;
    assert ExecLocal(env, Instruction(0xAE, []), es, alt, heap) == CheckMultiSigOp(env, es, alt, heap);
    var keys := PopList(es, heap);
    if keys.Popped? && PopList(keys.rest, heap).Popped? {
      var sigs := PopList(keys.rest, heap);
      CheckMultiSig.ScanIsSound(env.verify, sigs.list, keys.list);
      if CheckMultiSig.NeverRaises(env.verify, sigs.list, keys.list) {
        CheckMultiSig.ScanIsComplete(env.verify, sigs.list, keys.list);
      }
    }
  }
}
