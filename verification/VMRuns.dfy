/** What holds over whole runs of the NeoVM: stack isolation, gas, termination. */
module VMRuns {
  import opened Arithmetic
  import opened Bytes
  import opened Instructions
  import opened RandomAccessStack
  import opened Wrappers
  import opened VM
  import BigInteger
  import Bits

  // ---- what one instruction leaves alone -----------------------------------------------------

  ghost predicate WellPlaced(s: State) {
    forall i :: 0 <= i < |s.frames| ==> s.frames[i].ip <= |s.frames[i].script|
  }

  /** The first `k` frames are the same. */
  ghost predicate SameBelow(s: State, r: State, k: int) {
    0 <= k <= |s.frames| && k <= |r.frames| && r.frames[..k] == s.frames[..k]
  }

  ghost predicate SameBooks(s: State, r: State) {
    r.gas == s.gas && r.ops == s.ops
  }

  predicate Enters(op: byte) {
    op == CALL || op == APPCALL || op == CALL_I || op == CALL_E || op == CALL_ED
  }

  /** The frame is not popped: all below it stays, and unless a tail call replaces it, its return count too. */
  ghost predicate KeepsFrame(s: State, r: State, op: byte)
    requires s.frames != []
  {
    var n := |s.frames|;
    && |r.frames| == (if Enters(op) then n + 1 else n)
    && SameBelow(s, r, n - 1)
    && r.status == s.status
    && (op != TAILCALL ==> r.frames[n - 1].rvcount == s.frames[n - 1].rvcount)
  }

  /** A return to a caller appends the returned items to its stack and nothing else but an inherited alt stack. */
  ghost predicate Returns(s: State, r: State)
    requires s.frames != []
  {
    var n, f := |s.frames|, Current(s);
    var rv := if f.rvcount == -1 then |f.estack| else f.rvcount;
    && 0 <= rv <= |f.estack|
    && if n == 1 then r.status == Halt && r.frames == []
       else
         && r.status == s.status && |r.frames| == n - 1 && SameBelow(s, r, n - 2)
         && r.frames[n - 2] == s.frames[n - 2].(
              estack := s.frames[n - 2].estack + f.estack[|f.estack| - rv..],
              astack := if f.rvcount == -1 then s.frames[n - 2].astack + f.astack else s.frames[n - 2].astack)
  }

  /** A fault, or a stack counter that has gone wrong. */
  predicate Stopped(s: State) {
    s.status == Fault || s.status == Miscounted
  }

  lemma LocalShape(env: Env, s: State, ins: Instruction)
    requires s.frames != []
    ensures var r := DoLocal(env, s, ins); SameBooks(s, r)
    ensures var r := DoLocal(env, s, ins);
      Stopped(r) || (|r.frames| == |s.frames| && SameBelow(s, r, |s.frames| - 1) && r.status == s.status
        && Current(r).rvcount == Current(s).rvcount && Current(r).script == Current(s).script
        && Current(r).ip == Current(s).ip + Size(ins))
  {
    hide ExecLocal, Fetch, CheckAll;
  }

  lemma JumpShape(env: Env, s: State, ins: Instruction)
    requires s.frames != [] && IsJump(ins.opcode) && WellFormedOperand(ins)
    requires Current(s).ip + 3 <= |Current(s).script|
    ensures var r := DoJump(env, s, ins); SameBooks(s, r)
    ensures var r := DoJump(env, s, ins);
      Stopped(r) || (KeepsFrame(s, r, ins.opcode) && (WellPlaced(s) ==> WellPlaced(r)))
  {
    hide Fetch, CheckStackSize, GetBoolean;
  }

  lemma CallShape(s: State, ins: Instruction)
    requires s.frames != [] && ins.opcode == CALL && Current(s).ip + Size(ins) <= |Current(s).script|
    ensures var r := DoCall(s, ins); SameBooks(s, r)
    ensures var r := DoCall(s, ins); Stopped(r) || (KeepsFrame(s, r, ins.opcode) && (WellPlaced(s) ==> WellPlaced(r)))
  {
    hide Fetch, Size;
  }

  lemma CallIShape(s: State, ins: Instruction)
    requires s.frames != [] && ins.opcode == CALL_I && WellFormedOperand(ins)
    requires Current(s).ip + Size(ins) <= |Current(s).script|
    ensures var r := DoCallI(s, ins); SameBooks(s, r)
    ensures var r := DoCallI(s, ins); Stopped(r) || (KeepsFrame(s, r, ins.opcode) && (WellPlaced(s) ==> WellPlaced(r)))
    ensures var r := DoCallI(s, ins); Stopped(r) || IsolatesCall(s, r, ins)
  {
    hide Fetch, Size;
  }

  lemma AppCallShape(env: Env, s: State, ins: Instruction)
    requires s.frames != [] && (ins.opcode == APPCALL || ins.opcode == TAILCALL)
    requires Current(s).ip + Size(ins) <= |Current(s).script|
    ensures var r := DoAppCall(env, s, ins); SameBooks(s, r)
    ensures var r := DoAppCall(env, s, ins);
      Stopped(r) || (KeepsFrame(s, r, ins.opcode) && (WellPlaced(s) ==> WellPlaced(r)))
  {
    hide Fetch, Size, CheckStackSize, GetByteArray, AllZero;
  }

  lemma CallEShape(env: Env, s: State, ins: Instruction)
    requires s.frames != [] && IsCallE(ins.opcode) && WellFormedOperand(ins)
    requires Current(s).ip + Size(ins) <= |Current(s).script|
    ensures var r := DoCallE(env, s, ins); SameBooks(s, r)
    ensures var r := DoCallE(env, s, ins);
      Stopped(r) || (KeepsFrame(s, r, ins.opcode) && (WellPlaced(s) ==> WellPlaced(r)))
    ensures var r := DoCallE(env, s, ins); Stopped(r) || (ins.opcode == CALL_E ==> IsolatesCall(s, r, ins))
  {
    hide Fetch, Size, CheckStackSize, GetByteArray, DoCallE, KeepsFrame, WellPlaced, IsolatesCall, SameBooks;
    CallEKeeps(env, s, ins);
    CallEIsolates(env, s, ins);
  }

  lemma CallEKeeps(env: Env, s: State, ins: Instruction)
    requires s.frames != [] && IsCallE(ins.opcode) && WellFormedOperand(ins)
    requires Current(s).ip + Size(ins) <= |Current(s).script|
    ensures var r := DoCallE(env, s, ins); SameBooks(s, r)
    ensures var r := DoCallE(env, s, ins);
      Stopped(r) || (KeepsFrame(s, r, ins.opcode) && (WellPlaced(s) ==> WellPlaced(r)))
  {
    hide Fetch, Size, CheckStackSize, GetByteArray, EnterExternal, KeepsFrame, WellPlaced;
    var f, tail := Current(s), ins.opcode == CALL_ET || ins.opcode == CALL_EDT;
    var n := |f.estack|;
    if n >= ins.operand[1] && (tail ==> f.rvcount == ins.operand[0]) {
      ExternalKeeps(env, s, s, ins, ins.operand[2..], f.estack, tail);
      if n > ins.operand[1] && GetByteArray(f.estack[n - 1]).Some? {
        var checked := CheckStackSize(env, s, SizeCheck(true, -1)).0;
        CheckChangesCounts(env, s, SizeCheck(true, -1));
        ExternalKeeps(env, s, checked, ins, GetByteArray(f.estack[n - 1]).value, f.estack[..n - 1], tail);
      }
    }
  }

  lemma CheckChangesCounts(env: Env, s: State, c: SizeCheck)
    ensures var t := CheckStackSize(env, s, c).0;
      t.frames == s.frames && t.status == s.status && SameBooks(s, t)
  {
  }

  lemma ExternalKeeps(env: Env, s: State, t: State, ins: Instruction, hash: seq<byte>, es: seq<Item>, tail: bool)
    requires s.frames != [] && t.frames == s.frames && t.status == s.status && SameBooks(s, t)
    requires WellFormedOperand(ins) && |ins.operand| >= 2 && ins.operand[1] <= |es| && IsCallE(ins.opcode)
    requires tail == (ins.opcode == CALL_ET || ins.opcode == CALL_EDT)
    requires tail ==> Current(s).rvcount == ins.operand[0]
    requires Current(s).ip + Size(ins) <= |Current(s).script|
    ensures var r := EnterExternal(env, t, ins, hash, es, tail);
      SameBooks(s, r) && (Stopped(r) || (KeepsFrame(s, r, ins.opcode) && (WellPlaced(s) ==> WellPlaced(r))))
  {
    hide Fetch, Size;
  }

  lemma CallEIsolates(env: Env, s: State, ins: Instruction)
    requires s.frames != [] && IsCallE(ins.opcode) && WellFormedOperand(ins)
    requires Current(s).ip + Size(ins) <= |Current(s).script|
    ensures var r := DoCallE(env, s, ins); Stopped(r) || (ins.opcode == CALL_E ==> IsolatesCall(s, r, ins))
  {
    hide Fetch, Size, CheckStackSize, GetByteArray;
  }

  /** The caller of an isolated call keeps its items below the top `pcount`; the callee owes `rvcount`. */
  ghost predicate IsolatesCall(s: State, r: State, ins: Instruction)
    requires s.frames != [] && |ins.operand| >= 2
  {
    var n, f := |s.frames|, Current(s);
    var m := |f.estack| - ins.operand[1];
    && |r.frames| == n + 1 && m >= 0
    && r.frames[n - 1] == f.(ip := f.ip + Size(ins), estack := f.estack[..m])
    && r.frames[n].estack == f.estack[m..] && r.frames[n].astack == []
    && r.frames[n].rvcount == ins.operand[0]
  }

  lemma ReturnShape(env: Env, s: State)
    requires s.frames != []
    ensures var r := DoReturn(env, s); SameBooks(s, r)
    ensures var r := DoReturn(env, s); Stopped(r) || (Returns(s, r) && (WellPlaced(s) ==> WellPlaced(r)))
  {
    hide CheckStackSize;
  }

  /** Every instruction either keeps its frame, or returns from it, or stops the engine. */
  lemma ExecuteShape(env: Env, s: State, ins: Instruction)
    requires s.frames != [] && WellFormedOperand(ins)
    requires ins.opcode == RET || Current(s).ip + Size(ins) <= |Current(s).script|
    ensures var r := ExecuteInstruction(env, s, ins); SameBooks(s, r)
    ensures var r := ExecuteInstruction(env, s, ins);
      Stopped(r) || (
        && (if ins.opcode == RET then Returns(s, r) else KeepsFrame(s, r, ins.opcode))
        && (WellPlaced(s) ==> WellPlaced(r)))
  {
    hide DoJump, DoCall, DoReturn, DoAppCall, DoCallI, DoCallE, DoLocal;
    var op := ins.opcode;
    if IsJump(op) {
      JumpShape(env, s, ins);
    } else if op == CALL {
      CallShape(s, ins);
    } else if op == RET {
      ReturnShape(env, s);
    } else if op == APPCALL || op == TAILCALL {
      AppCallShape(env, s, ins);
    } else if op == CALL_I {
      CallIShape(s, ins);
    } else if IsCallE(op) {
      CallEShape(env, s, ins);
    } else {
      LocalShape(env, s, ins);
    }
  }

  /** The instruction a running engine is about to execute. */
  function NextInstruction(s: State): Decoded
    requires s.frames != []
  {
    Fetch(Current(s).script, Current(s).ip)
  }

  /** A step that leaves the engine running has decoded, been paid for, and executed its instruction. */
  lemma StepExecutes(env: Env, s: State) returns (ins: Instruction, u: State)
    requires s.status == Running && Step(env, s).status == Running
    ensures s.frames != [] && NextInstruction(s) == Found(ins) && WellFormedOperand(ins)
    ensures ins.opcode == RET || Current(s).ip + Size(ins) <= |Current(s).script|
    ensures PreExecute(env, s.(ops := s.ops + 1), ins) == Some((u, true))
    ensures u == s.(ops := s.ops + 1, gas := u.gas)
    ensures Step(env, s) == ExecuteInstruction(env, u, ins)
  {
    hide ExecuteInstruction, GetPrice, Fetch, NeedsDynamicInvoke, Size;
    var f := Current(s);
    DecodedIsWellFormed(f.script, f.ip);
    ins := NextInstruction(s).ins;
    var t := s.(ops := s.ops + 1);
    PreExecuteCharges(env, t, ins);
    hide PreExecute;
    var pre := PreExecute(env, t, ins).value;
    u := pre.0;
    if !pre.1 {
      FaultStays(env, SetFault(u), ins);
    }
  }

  lemma PreExecuteCharges(env: Env, s: State, ins: Instruction)
    requires s.frames != [] && PreExecute(env, s, ins).Some?
    ensures var (u, ok) := PreExecute(env, s, ins).value; u == s.(gas := u.gas)
  {
  }

  lemma FaultStays(env: Env, s: State, ins: Instruction)
    requires s.frames != [] && WellFormedOperand(ins) && s.status == Fault
    requires ins.opcode == RET || Current(s).ip + Size(ins) <= |Current(s).script|
    ensures ExecuteInstruction(env, s, ins).status != Running
  {
    ExecuteShape(env, s, ins);
  }

  // ---- runs ----------------------------------------------------------------------------------

  /** Consecutive states of one engine, all but perhaps the last of them running. */
  ghost predicate Run(env: Env, t: seq<State>) {
    && t != []
    && forall i :: 0 <= i < |t| - 1 ==> t[i].status == Running && t[i + 1] == Step(env, t[i])
  }

  /** No instruction pointer ever leaves its script, and no running engine has overspent. */
  ghost predicate Sound(env: Env, s: State) {
    s.status == Running ==> WellPlaced(s) && (env.testMode || s.gas <= env.gasAmount)
  }

  lemma StepKeepsSound(env: Env, s: State)
    requires s.status == Running && Sound(env, s)
    ensures Sound(env, Step(env, s))
  {
    hide Step, ExecuteInstruction, GetPrice, NextInstruction;
    if Step(env, s).status == Running {
      var ins, u := StepExecutes(env, s);
      assert WellPlaced(u);
      ExecuteShape(env, u, ins);
    }
  }

  lemma {:induction false} RunsStaySound(env: Env, t: seq<State>, i: nat)
    requires Run(env, t) && Sound(env, t[0]) && i < |t|
    ensures Sound(env, t[i])
  {
    if i > 0 {
      RunsStaySound(env, t, i - 1);
      StepKeepsSound(env, t[i - 1]);
    }
  }

  // ---- stack isolation -----------------------------------------------------------------------

  /** The next instruction is a CALL_EDT with no more items than it has arguments. */
  ghost predicate NextMiscounts(s: State)
    requires s.frames != []
  {
    && NextInstruction(s).Found? && |NextInstruction(s).ins.operand| >= 2
    && Miscounts(Current(s), NextInstruction(s).ins)
  }

  /**
   * During the call frame d is live; at its own depth it executes no TAILCALL, and no CALL_EDT miscounts,
   * since that would make the caller's counter grow by more items than arrive on the return.
   */
  ghost predicate InsideCall(s: State, d: nat) {
    && |s.frames| > d && !NextMiscounts(s)
    && (|s.frames| == d + 1 && NextInstruction(s).Found? ==> NextInstruction(s).ins.opcode != TAILCALL)
  }

  /** What a step inside the call preserves: all frames up to the caller, and what the callee owes. */
  lemma InsideStep(env: Env, s: State, d: nat)
    requires s.status == Running && InsideCall(s, d) && Step(env, s).status == Running && |Step(env, s).frames| > d
    ensures SameBelow(s, Step(env, s), d)
    ensures Step(env, s).frames[d].rvcount == s.frames[d].rvcount
  {
    hide Step, ExecuteInstruction, PreExecute, NextInstruction, WellFormedOperand, WellPlaced;
    var r := Step(env, s);
    var ins, u := StepExecutes(env, s);
    ExecuteShape(env, u, ins);
    var n := |s.frames|;
    var k := if ins.opcode == RET then n - 2 else n - 1;
    assert r.frames[..d] == r.frames[..k][..d] == s.frames[..k][..d];
    if d < k { assert r.frames[d] == r.frames[..k][d] == s.frames[..k][d]; }
  }

  lemma {:induction false} InsideRun(env: Env, t: seq<State>, d: nat, i: nat)
    requires Run(env, t) && 1 <= i < |t| && t[i].status == Running
    requires forall j :: 1 <= j <= i ==> InsideCall(t[j], d)
    ensures |t[1].frames| > d && |t[i].frames| > d
    ensures SameBelow(t[1], t[i], d) && t[i].frames[d].rvcount == t[1].frames[d].rvcount
    decreases i
  {
    if i > 1 {
      InsideRun(env, t, d, i - 1);
      InsideStep(env, t[i - 1], d);
    }
  }

  /**
   * Stack isolation of NEP-8 over whole runs. A CALL_I or CALL_E with counts (rvcount, pcount), whatever
   * runs until its frame returns, within the limits of `InsideCall`, leaves the caller's evaluation stack
   * without its top pcount items and with exactly rvcount items added; its alt stack and everything below it
   * are unchanged.
   */
  lemma CallIsIsolated(env: Env, t: seq<State>, ins: Instruction)
    requires Run(env, t) && |t| >= 3 && t[0].frames != [] && t[1].status == Running
    requires NextInstruction(t[0]) == Found(ins) && (ins.opcode == CALL_I || ins.opcode == CALL_E)
    requires forall i :: 1 <= i < |t| - 1 ==> InsideCall(t[i], |t[0].frames|)
    requires t[|t| - 1].status == Running && |t[|t| - 1].frames| == |t[0].frames|
    ensures |ins.operand| >= 2
    ensures var d, last := |t[0].frames|, t[|t| - 1];
      var before, after, callee := Current(t[0]), Current(last), Current(t[|t| - 2]);
      && var m, k := |before.estack| - ins.operand[1], |callee.estack| - ins.operand[0];
      && m >= 0 && k >= 0
      && after.estack == before.estack[..m] + callee.estack[k..]
      && after == before.(ip := before.ip + Size(ins), estack := after.estack)
      && SameBelow(t[0], last, d - 1)
  {
    hide Step, NextInstruction, Size;
    var d := |t[0].frames|;
    var s, last := t[|t| - 2], t[|t| - 1];
    CallStarts(env, t[0], ins);
    InsideRun(env, t, d, |t| - 2);
    CallEnds(env, s, d);
    assert last.frames[..d - 1] == s.frames[..d][..d - 1] == t[1].frames[..d][..d - 1] == t[0].frames[..d - 1];
    assert s.frames[d - 1] == s.frames[..d][d - 1] == t[1].frames[..d][d - 1];
  }

  lemma CallStarts(env: Env, s: State, ins: Instruction)
    requires s.status == Running && s.frames != [] && Step(env, s).status == Running
    requires NextInstruction(s) == Found(ins) && (ins.opcode == CALL_I || ins.opcode == CALL_E)
    ensures |ins.operand| >= 2 && IsolatesCall(s, Step(env, s), ins)
    ensures SameBelow(s, Step(env, s), |s.frames| - 1)
  {
    hide Step, PreExecute, DoCallI, DoCallE, WellPlaced;
    var ins', u := StepExecutes(env, s);
    ExecuteShape(env, u, ins);
    if ins.opcode == CALL_I { CallIShape(u, ins); } else { CallEShape(env, u, ins); }
  }

  lemma CallEnds(env: Env, s: State, d: nat)
    requires d >= 1 && s.status == Running && |s.frames| > d
    requires Step(env, s).status == Running && |Step(env, s).frames| == d
    ensures |s.frames| == d + 1 && Returns(s, Step(env, s))
  {
    hide Step, ExecuteInstruction, PreExecute, NextInstruction, WellFormedOperand, WellPlaced;
    var ins, u := StepExecutes(env, s);
    ExecuteShape(env, u, ins);
    assert ins.opcode == RET;
  }

  // ---- gas and termination -------------------------------------------------------------------

  /** Every system call that has a price costs at least one unit. */
  ghost predicate PricesPositive(env: Env) {
    forall operand, es, heap ::
      env.sysPrice(operand, es, heap).Some? ==> env.sysPrice(operand, es, heap).value >= 1
  }

  lemma PriceAtLeastOne(env: Env, s: State, ins: Instruction)
    requires s.frames != [] && PricesPositive(env) && GetPrice(env, s, ins).Some?
    ensures GetPrice(env, s, ins).value >= if ins.opcode <= NOP then 0 else 1
  {
  }

  function BytesLeft(s: State): nat {
    if s.frames == [] || Current(s).ip > |Current(s).script| then 0 else |Current(s).script| - Current(s).ip
  }

  /** What a run can still spend: gas, or in test mode operations. */
  function Budget(env: Env, s: State): int {
    if env.testMode then (if s.ops <= MAX_FREE_OPS then MAX_FREE_OPS + 1 - s.ops else 0)
    else env.gasAmount - s.gas
  }

  lemma Charged(env: Env, s: State, ins: Instruction)
    requires s.frames != [] && Current(s).ip < |Current(s).script|
    requires PreExecute(env, s, ins).Some? && PreExecute(env, s, ins).value.1
    ensures GetPrice(env, s, ins).Some?
    ensures PreExecute(env, s, ins).value.0.gas == s.gas + GetPrice(env, s, ins).value * RATIO
    ensures env.testMode ==> s.ops <= MAX_FREE_OPS
  {
    hide GetPrice;
  }

  lemma FreeStep(env: Env, s: State, ins: Instruction)
    requires s.frames != [] && ins.opcode <= NOP && Current(s).ip + Size(ins) <= |Current(s).script|
    requires WellFormedOperand(ins) && ExecuteInstruction(env, s, ins).status == Running
    ensures |ExecuteInstruction(env, s, ins).frames| == |s.frames|
    ensures BytesLeft(ExecuteInstruction(env, s, ins)) < BytesLeft(s)
  {
    hide DoLocal;
    assert ExecuteInstruction(env, s, ins) == DoLocal(env, s, ins);
    LocalShape(env, s, ins);
  }

  /** A step that leaves the engine running uses up budget, or frames, or bytes of the current script. */
  lemma StepProgress(env: Env, s: State)
    requires s.status == Running && Sound(env, s) && (env.testMode || PricesPositive(env))
    requires Step(env, s).status == Running
    ensures var r := Step(env, s);
      && Budget(env, r) >= 0 && Sound(env, r)
      && (Budget(env, r) < Budget(env, s) || (Budget(env, r) == Budget(env, s)
         && (|r.frames| < |s.frames| || (|r.frames| == |s.frames| && BytesLeft(r) < BytesLeft(s)))))
  {
    hide Step, ExecuteInstruction, GetPrice, PreExecute, NextInstruction, WellFormedOperand;
    StepKeepsSound(env, s);
    var ins, u := StepExecutes(env, s);
    ExecuteShape(env, u, ins);
    var t, f := s.(ops := s.ops + 1), Current(s);
    if f.ip < |f.script| {
      Charged(env, t, ins);
      if !env.testMode {
        PriceAtLeastOne(env, t, ins);
        if ins.opcode <= NOP { NotReturn(ins); FreeStep(env, u, ins); FreePrice(env, t, ins); }
      }
    } else {
      ImplicitReturn(env, s, ins, u);
    }
  }

  lemma NotReturn(ins: Instruction)
    requires ins.opcode <= NOP
    ensures ins.opcode != RET
  {
  }

  lemma FreePrice(env: Env, s: State, ins: Instruction)
    requires s.frames != [] && ins.opcode <= NOP
    ensures GetPrice(env, s, ins) == Some(0)
  {
  }

  lemma ImplicitReturn(env: Env, s: State, ins: Instruction, u: State)
    requires s.frames != [] && Current(s).ip >= |Current(s).script| && NextInstruction(s) == Found(ins)
    requires PreExecute(env, s.(ops := s.ops + 1), ins) == Some((u, true))
    ensures ins.opcode == RET && u.gas == s.gas
  {
  }

  /**
   * Execution under gas terminates: this is the state in which `Execute` stops, and its recursion is
   * well founded by budget, then invocation depth, then script bytes left.
   */
  ghost function RunToEnd(env: Env, s: State): (r: State)
    requires Sound(env, s) && (env.testMode || PricesPositive(env))
    ensures r.status != Running
    decreases if s.status == Running then 1 else 0, Budget(env, s), |s.frames|, BytesLeft(s)
  {
    if s.status != Running then s
    else
      var r := Step(env, s);
      if r.status != Running then r
      else
        StepProgress(env, s);
        RunToEnd(env, r)
  }

  /** Whatever a run reaches ends where the run ends. */
  lemma {:induction false} RunToEndOf(env: Env, t: seq<State>, i: nat)
    requires Run(env, t) && Sound(env, t[0]) && (env.testMode || PricesPositive(env)) && i < |t|
    ensures Sound(env, t[i]) && RunToEnd(env, t[i]) == RunToEnd(env, t[0])
  {
    RunsStaySound(env, t, i);
    if i > 0 { RunToEndOf(env, t, i - 1); }
  }

  /**
   * The one way to end in HALT with more gas consumed than allowed: an explicit RET of the last frame is
   * executed after its charge has failed, and HALT overwrites the FAULT.
   */
  lemma HaltOverspendsIff(env: Env, s: State)
    requires s.status == Running && Sound(env, s) && !env.testMode && s.frames != []
    ensures (Step(env, s).status == Halt && Step(env, s).gas > env.gasAmount)
      <==> (var f := Current(s);
        && |s.frames| == 1 && f.ip < |f.script| && f.script[f.ip] == RET
        && (f.rvcount == -1 || 0 <= f.rvcount <= |f.estack|) && s.gas + RATIO > env.gasAmount)
  {
    hide DoReturn, GetPrice, Decode, ExecuteInstruction, NeedsDynamicInvoke, Size;
    var f, t := Current(s), s.(ops := s.ops + 1);
    if f.ip < |f.script| && f.script[f.ip] == RET {
      RetSteps(env, s);
      var charged := t.(gas := t.gas + RATIO);
      ReturnHaltsIff(env, charged);
      ReturnHaltsIff(env, SetFault(charged));
    } else if NextInstruction(s).Found? {
      var ins := NextInstruction(s).ins;
      DecodedIsWellFormed(f.script, f.ip);
      if PreExecute(env, t, ins).Some? {
        PreExecuteCharges(env, t, ins);
        if f.ip < |f.script| { DecodeStaysInside(f.script, f.ip); }
        var (u, ok) := PreExecute(env, t, ins).value;
        assert f.ip >= |f.script| ==> u == t && ok;
        ExecuteShape(env, if ok then u else SetFault(u), ins);
      }
    }
  }

  lemma RetSteps(env: Env, s: State)
    requires s.status == Running && s.frames != [] && !env.testMode
    requires Current(s).ip < |Current(s).script| && Current(s).script[Current(s).ip] == RET
    ensures var charged := s.(ops := s.ops + 1, gas := s.gas + RATIO);
      Step(env, s) == DoReturn(env, if charged.gas > env.gasAmount then SetFault(charged) else charged)
  {
    hide DoReturn;
    assert NextInstruction(s) == Found(Instruction(RET, []));
  }

  lemma ReturnHaltsIff(env: Env, s: State)
    requires s.frames != [] && s.status != Halt
    ensures DoReturn(env, s).gas == s.gas
    ensures DoReturn(env, s).status == Halt <==>
      |s.frames| == 1 && (Current(s).rvcount == -1 || 0 <= Current(s).rvcount <= |Current(s).estack|)
  {
    hide CheckStackSize;
  }

  // ---- the range of arithmetic ---------------------------------------------------------------

  /** INC, DEC, ADD, SUB, MUL and SHL push only integers that the 32-byte limit accepts. */
  lemma ArithmeticStaysInRange(op: byte, es: seq<Item>, alt: seq<Item>, heap: Heap)
    requires op == INC || op == DEC || op == ADD || op == SUB || op == MUL || op == SHL
    requires ArithmeticOp(op, es, alt, heap).Moved?
    ensures var r := ArithmeticOp(op, es, alt, heap).estack;
      && r != [] && r[|r| - 1].Integer?
      && BigInteger.CheckBigInteger(r[|r| - 1].n)
      && -BigInteger.LIMIT <= r[|r| - 1].n < BigInteger.LIMIT
  {
    hide BigInteger.CheckBigInteger, Pow256;
    var out := ArithmeticOp(op, es, alt, heap).estack;
    var r := out[|out| - 1].n;
    if op == DEC {
      var x := GetBigInteger(es[|es| - 1]).value;
      BigInteger.CheckBigIntegerIff(x);
      BigInteger.CheckBigIntegerIff(r);
      BigInteger.PowerBelowLimit();
    } else {
      BigInteger.CheckBigIntegerIff(r);
    }
  }

  /** NEGATE checks nothing: of the integers in range it throws exactly the least one out of it. */
  lemma NegateLeavesRangeIff(x: int)
    requires -BigInteger.LIMIT <= x < BigInteger.LIMIT
    ensures Unary(NEGATE, x).Some?
    ensures -BigInteger.LIMIT <= Unary(NEGATE, x).value < BigInteger.LIMIT <==> x != -BigInteger.LIMIT
  {
    hide BigInteger.CheckBigInteger, Pow256;
  }

  /** Nor does ABS, with the same exception. */
  lemma AbsLeavesRangeIff(x: int)
    requires -BigInteger.LIMIT <= x < BigInteger.LIMIT
    ensures Unary(ABS, x).Some?
    ensures -BigInteger.LIMIT <= Unary(ABS, x).value < BigInteger.LIMIT <==> x != -BigInteger.LIMIT
  {
    hide BigInteger.CheckBigInteger, Pow256;
  }

  lemma LimitIsPower()
    ensures BigInteger.LIMIT == Bits.Pow2(255)
  {
    hide Pow256;
    Bits.Pow2Eight(31);
    Bits.Pow2Add(7, 248);
    assert Bits.Pow2(7) == 128;
  }

  /** SHR by a negative count shifts to the left, unchecked: the result stays in range for short operands only. */
  lemma ShiftRightLeavesRangeIff(x: int, count: int)
    requires Binary(SHR, x, count).Some?
    ensures -BigInteger.LIMIT <= Binary(SHR, x, count).value < BigInteger.LIMIT
      <==> count >= 0 || x == 0 || (count >= -255 && -Bits.Pow2(255 + count) <= x < Bits.Pow2(255 + count))
  {
    hide BigInteger.CheckBigInteger, Pow256, Bits.Pow2, ShiftLeft;
    BigInteger.CheckBigIntegerIff(x);
    LimitIsPower();
    ShiftedRange(x, count, BigInteger.LIMIT);
  }

  lemma ShiftedRange(x: int, count: int, limit: int)
    requires limit == Bits.Pow2(255) && -limit <= x < limit && -256 <= count
    ensures -limit <= ShiftLeft(x, -count) < limit
      <==> count >= 0 || x == 0 || (count >= -255 && -Bits.Pow2(255 + count) <= x < Bits.Pow2(255 + count))
  {
    hide Bits.Pow2;
    if count > 0 {
      var p := Bits.Pow2(count);
      MulLe(limit, 1, p);
      DivRange(x, p, -limit, limit);
    } else if count == 0 {
      ShiftNothing(x);
    } else if count >= -255 {
      Bits.Pow2Add(-count, 255 + count);
      ScaledRange(x, Bits.Pow2(-count), Bits.Pow2(255 + count));
    } else {
      DoubleLimit();
      if x > 0 { MulLe(Bits.Pow2(256), 1, x); }
      if x < 0 { MulLe(Bits.Pow2(256), x, -1); }
    }
  }

  lemma ShiftNothing(x: int)
    ensures ShiftLeft(x, 0) == x
  {
  }

  lemma DoubleLimit()
    ensures Bits.Pow2(256) == 2 * Bits.Pow2(255)
  {
  }

  lemma ScaledRange(x: int, p: int, q: int)
    requires p >= 1
    ensures -(p * q) <= x * p < p * q <==> -q <= x < q
  {
    if x < q { MulLe(p, x + 1, q); } else { MulLe(p, q, x); }
    if -q <= x { MulLe(p, -q, x); } else { MulLe(p, x + 1, -q); }
    assert p * (x + 1) == p * x + p && p * -q == -(p * q);
  }
}
