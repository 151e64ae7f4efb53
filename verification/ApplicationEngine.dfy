/**
 * neo/VM/ExecutionEngine.py and neo/SmartContract/ApplicationEngine.py as an object: the methods update the
 * engine's fields in place and refine the step function of module VM, and `Execute` terminates.
 */
module ApplicationEngine {
  import opened Bytes
  import opened Instructions
  import opened RandomAccessStack
  import opened Wrappers
  import opened VM
  import opened VMRuns

  class ApplicationEngine {
    const env: Env
    var vmState: Status
    var invocationStack: seq<Frame>
    var resultStack: seq<Item>
    var heap: Heap
    var gasConsumed: int
    var opsProcessed: nat
    var stackItemCount: int
    var isStackItemCountStrict: bool

    ghost function View(): State
      reads this
    {
      State(vmState, invocationStack, resultStack, heap, gasConsumed, opsProcessed, stackItemCount,
        isStackItemCountStrict)
    }

    constructor (env: Env)
      ensures this.env == env
      ensures View() == State(Running, [], [], [], 0, 0, 0, true)
    {
      this.env := env;
      vmState := Running;
      invocationStack, resultStack, heap := [], [], [];
      gasConsumed, opsProcessed, stackItemCount, isStackItemCountStrict := 0, 0, 0, true;
    }

    method LoadScript(script: seq<byte>, rvcount: int)
      modifies this`invocationStack
      ensures View() == old(View()).(frames := old(invocationStack) + [Frame(script, 0, rvcount, [], [])])
    {
      invocationStack := invocationStack + [Frame(script, 0, rvcount, [], [])];
    }

    method CheckStackSize(c: SizeCheck) returns (ok: bool)
      modifies this`stackItemCount, this`isStackItemCountStrict
      ensures (View(), ok) == VM.CheckStackSize(env, old(View()), c)
    {
      isStackItemCountStrict := isStackItemCountStrict && c.strict;
      stackItemCount := stackItemCount + c.delta;
      if stackItemCount < 0 || stackItemCount > INT_MAX {
        stackItemCount := INT_MAX;
      }
      if stackItemCount <= MAX_STACK_SIZE {
        return true;
      }
      if isStackItemCountStrict {
        return false;
      }
      stackItemCount := env.recount(invocationStack, heap);
      if stackItemCount > MAX_STACK_SIZE {
        return false;
      }
      isStackItemCountStrict := true;
      return true;
    }

    method CheckSizes(cs: seq<SizeCheck>) returns (ok: bool)
      modifies this`stackItemCount, this`isStackItemCountStrict
      ensures (View(), ok) == CheckAll(env, old(View()), cs)
    {
      hide VM.CheckStackSize;
      ok := true;
      var i := 0;
      while i < |cs|
        invariant 0 <= i <= |cs| && (i == 0 ==> ok && View() == old(View()))
        invariant i < |cs| ==> CheckAll(env, old(View()), cs) == CheckAll(env, View(), cs[i..])
        invariant i == |cs| ==> (View(), ok) == CheckAll(env, old(View()), cs)
        invariant View() == old(View()).(itemCount := stackItemCount, strict := isStackItemCountStrict)
      {
        ghost var before := View();
        ok := CheckStackSize(cs[i]);
        assert cs[i..][1..] == cs[i + 1..];
        i := i + 1;
      }
    }

    method Fail()
      modifies this`vmState
      ensures View() == SetFault(old(View()))
    {
      vmState := Fault;
    }

    /** Everything that stays inside the current frame. */
    method ExecuteLocal(ins: Instruction)
      requires invocationStack != []
      modifies this
      ensures View() == DoLocal(env, old(View()), ins)
    {
      hide ExecLocal, CheckAll, Fetch, Size;
      var n := |invocationStack| - 1;
      var f := invocationStack[n];
      match ExecLocal(env, ins, f.estack, f.astack, heap)
      case Failed =>
        Fail();
      case Moved(es, alt, heap', checks, enforced) =>
        var g := f.(estack := es, astack := alt);
        invocationStack := invocationStack[..n] + [g];
        heap := heap';
        var ok := CheckSizes(checks);
        if enforced && !ok {
          Fail();
        } else {
          match Advance(g, ins)
          case None => Fail();
          case Some(next) => invocationStack := invocationStack[..n] + [next];
        }
    }

    method Jump(ins: Instruction)
      requires invocationStack != []
      modifies this
      ensures View() == DoJump(env, old(View()), ins)
    {
      hide Fetch, VM.CheckStackSize, GetBoolean;
      var n := |invocationStack| - 1;
      var f := invocationStack[n];
      var offset := f.ip + FromLESigned(ins.operand);
      if offset < 0 || offset > |f.script| {
        Fail();
        return;
      }
      var fValue := true;
      if ins.opcode != JMP {
        if f.estack == [] {
          Fail();
          return;
        }
        var ignored := CheckStackSize(SizeCheck(false, -1));
        var top := |f.estack| - 1;
        fValue := GetBoolean(f.estack[top]);
        f := f.(estack := f.estack[..top]);
        if ins.opcode != JMPIF {
          fValue := !fValue;
        }
      }
      var ip := if fValue then offset else f.ip + 3;
      match Fetch(f.script, ip)
      case ValueError => Fail();
      case Found(_) => invocationStack := invocationStack[..n] + [f.(ip := ip)];
    }

    method Call(ins: Instruction)
      requires invocationStack != []
      modifies this
      ensures View() == DoCall(old(View()), ins)
    {
      hide Fetch, Size;
      var n := |invocationStack| - 1;
      var context := invocationStack[n];
      if |invocationStack| >= MAX_INVOCATION_STACK_SIZE {
        Fail();
        return;
      }
      var target := context.ip + FromLESigned(ins.operand);
      if target < 0 || target > |context.script| {
        Fail();
        return;
      }
      var called := Frame(context.script, target, -1, context.estack, []);
      match Advance(context.(estack := []), ins)
      case None => Fail();
      case Some(caller) => invocationStack := invocationStack[..n] + [caller, called];
    }

    method Return()
      requires invocationStack != []
      modifies this
      ensures View() == DoReturn(env, old(View()))
    {
      hide VM.CheckStackSize;
      var n := |invocationStack| - 1;
      var context := invocationStack[n];
      var rvcount := if context.rvcount == -1 then |context.estack| else context.rvcount;
      if rvcount < 0 || |context.estack| < rvcount {
        Fail();
        return;
      }
      invocationStack := invocationStack[..n];
      var returned := context.estack[|context.estack| - rvcount..];
      if n == 0 {
        resultStack := resultStack + returned;
      } else {
        var caller := invocationStack[n - 1];
        caller := caller.(estack := caller.estack + returned);
        if context.rvcount == -1 {
          caller := caller.(astack := caller.astack + context.astack);
        }
        invocationStack := invocationStack[..n - 1] + [caller];
      }
      var ignored := CheckStackSize(SizeCheck(false, 0));
      if n == 0 {
        vmState := Halt;
      }
    }

    method AppCall(ins: Instruction)
      requires invocationStack != []
      modifies this
      ensures View() == DoAppCall(env, old(View()), ins)
    {
      hide Fetch, Size, VM.CheckStackSize, GetByteArray, AllZero;
      var n := |invocationStack| - 1;
      var context := invocationStack[n];
      if ins.opcode == APPCALL && |invocationStack| >= MAX_INVOCATION_STACK_SIZE {
        Fail();
        return;
      }
      var hash, es := ins.operand, context.estack;
      if AllZero(ins.operand) {
        if es == [] || GetByteArray(es[|es| - 1]).None? {
          Fail();
          return;
        }
        hash, es := GetByteArray(es[|es| - 1]).value, es[..|es| - 1];
      }
      var loaded := LoadScriptByHash(env, hash, -1, es);
      var moved := Advance(context.(estack := []), ins);
      if loaded.None? || moved.None? {
        Fail();
        return;
      }
      if ins.opcode == TAILCALL {
        invocationStack := invocationStack[..n] + [loaded.value];
      } else {
        invocationStack := invocationStack[..n] + [moved.value, loaded.value];
      }
      var ignored := CheckStackSize(SizeCheck(false, 0));
    }

    method CallIsolated(ins: Instruction)
      requires invocationStack != [] && |ins.operand| == 4
      modifies this
      ensures View() == DoCallI(old(View()), ins)
    {
      hide Advance, FromLESigned;
      var n := |invocationStack| - 1;
      var context := invocationStack[n];
      var rvcount, pcount := ins.operand[0], ins.operand[1];
      var target := context.ip + FromLESigned(ins.operand[2..]) + 2;
      if |invocationStack| >= MAX_INVOCATION_STACK_SIZE || |context.estack| < pcount
         || target < 0 || target > |context.script| {
        Fail();
        return;
      }
      var keep := |context.estack| - pcount;
      var called := Frame(context.script, target, rvcount, context.estack[keep..], []);
      match Advance(context.(estack := context.estack[..keep]), ins)
      case None => Fail();
      case Some(caller) => invocationStack := invocationStack[..n] + [caller, called];
    }

    method CallExternal(ins: Instruction)
      requires invocationStack != [] && |ins.operand| >= 2
      modifies this
      ensures View() == DoCallE(env, old(View()), ins)
    {
      hide Fetch, Size, VM.CheckStackSize, GetByteArray, VM.EnterExternal;
      var context := invocationStack[|invocationStack| - 1];
      var rvcount, pcount := ins.operand[0], ins.operand[1];
      var tail := ins.opcode == CALL_ET || ins.opcode == CALL_EDT;
      var es := context.estack;
      if |es| < pcount
        || (if tail then context.rvcount != rvcount else |invocationStack| >= MAX_INVOCATION_STACK_SIZE) {
        Fail();
        return;
      }
      var hash := ins.operand[2..];
      if ins.opcode == CALL_ED || ins.opcode == CALL_EDT {
        if |es| == 0 || GetByteArray(es[|es| - 1]).None? {
          Fail();
          return;
        }
        hash := GetByteArray(es[|es| - 1]).value;
        if |es| == pcount {
          Miscount(ins, hash);
          return;
        }
        es := es[..|es| - 1];
        var ignored := CheckStackSize(SizeCheck(true, -1));
      }
      EnterExternal(ins, hash, es, tail);
    }

    /** Too few arguments are left: CALL_ED fails while popping them; CALL_EDT, which pops none, goes on. */
    method Miscount(ins: Instruction, hash: seq<byte>)
      requires invocationStack != [] && |ins.operand| >= 2
      modifies this`vmState
      ensures View() == (
        var s := old(View());
        var found := LoadScriptByHash(env, hash, ins.operand[0], []).Some? && VM.Advance(Current(s), ins).Some?;
        if ins.opcode == CALL_EDT && found && s.status == Running then s.(status := Miscounted) else SetFault(s))
    {
      hide Fetch, Size, VM.LoadScriptByHash;
      var loaded := LoadScriptByHash(env, hash, ins.operand[0], []);
      var moved := Advance(invocationStack[|invocationStack| - 1], ins);
      if ins.opcode == CALL_EDT && loaded.Some? && moved.Some? && vmState == Running {
        vmState := Miscounted;
      } else {
        Fail();
      }
    }

    method EnterExternal(ins: Instruction, hash: seq<byte>, es: seq<Item>, tail: bool)
      requires invocationStack != [] && |ins.operand| >= 2 && ins.operand[1] <= |es|
      modifies this`invocationStack, this`vmState
      ensures View() == VM.EnterExternal(env, old(View()), ins, hash, es, tail)
    {
      hide Fetch, Size;
      var n := |invocationStack| - 1;
      var keep := |es| - ins.operand[1];
      var loaded := LoadScriptByHash(env, hash, ins.operand[0], es[keep..]);
      var moved := Advance(invocationStack[n].(estack := es[..keep]), ins);
      if loaded.None? || moved.None? {
        Fail();
        return;
      }
      if tail {
        invocationStack := invocationStack[..n] + [loaded.value];
      } else {
        invocationStack := invocationStack[..n] + [moved.value, loaded.value];
      }
    }

    method ExecuteInstruction(ins: Instruction)
      requires invocationStack != [] && WellFormedOperand(ins)
      modifies this
      ensures View() == VM.ExecuteInstruction(env, old(View()), ins)
    {
      hide DoJump, DoCall, DoReturn, DoAppCall, DoCallI, DoCallE, DoLocal;
      var op := ins.opcode;
      if IsJump(op) {
        Jump(ins);
      } else if op == CALL {
        Call(ins);
      } else if op == RET {
        Return();
      } else if op == APPCALL || op == TAILCALL {
        AppCall(ins);
      } else if op == CALL_I {
        CallIsolated(ins);
      } else if IsCallE(op) {
        CallExternal(ins);
      } else {
        ExecuteLocal(ins);
      }
    }

    /** Charges for the instruction; None when reading its price raises. */
    method PreExecuteInstruction(ins: Instruction) returns (ok: Option<bool>)
      requires invocationStack != []
      modifies this`gasConsumed
      ensures match PreExecute(env, old(View()), ins)
        case None => ok == None && View() == old(View())
        case Some((t, go)) => ok == Some(go) && View() == t
    {
      hide GetPrice, NeedsDynamicInvoke;
      var context := invocationStack[|invocationStack| - 1];
      if context.ip >= |context.script| {
        return Some(true);
      }
      var s := State(vmState, invocationStack, resultStack, heap, gasConsumed, opsProcessed, stackItemCount,
        isStackItemCountStrict);
      match GetPrice(env, s, ins)
      case None => return None;
      case Some(price) =>
        gasConsumed := gasConsumed + price * RATIO;
        if !env.testMode && gasConsumed > env.gasAmount {
          return Some(false);
        }
        if env.testMode && opsProcessed > MAX_FREE_OPS {
          return Some(false);
        }
        if NeedsDynamicInvoke(ins) {
          return Some(env.dynamicInvoke(context.script));
        }
        return Some(true);
    }

    method ExecuteNext()
      modifies this
      ensures View() == Step(env, old(View()))
    {
      hide Fetch, PreExecute, VM.ExecuteInstruction, WellFormedOperand;
      if invocationStack == [] {
        vmState := Halt;
        return;
      }
      opsProcessed := opsProcessed + 1;
      var context := invocationStack[|invocationStack| - 1];
      match Fetch(context.script, context.ip)
      case ValueError => Fail();
      case Found(ins) =>
        DecodedIsWellFormed(context.script, context.ip);
        ghost var before := View();
        if PreExecute(env, before, ins).Some? { PreExecuteCharges(env, before, ins); }
        var ok := PreExecuteInstruction(ins);
        match ok
        case None => Fail();
        case Some(go) =>
          if !go {
            Fail();
          }
          ExecuteInstruction(ins);
    }

    /** Runs until the engine stops, which it does, in the state `RunToEnd` describes. */
    method Execute()
      requires Sound(env, View()) && (env.testMode || PricesPositive(env))
      modifies this
      ensures vmState != Running
      ensures View() == RunToEnd(env, old(View()))
    {
      while vmState == Running
        invariant Sound(env, View()) && RunToEnd(env, View()) == RunToEnd(env, old(View()))
        decreases if vmState == Running then 1 else 0, Budget(env, View()), |invocationStack|, BytesLeft(View())
      {
        hide Step, Sound, Budget, BytesLeft, PricesPositive;
        ghost var s := View();
        StepKeepsSound(env, s);
        if Step(env, s).status == Running { StepProgress(env, s); }
        ExecuteNext();
      }
    }
  }
}
