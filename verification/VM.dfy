/**
 * neo/VM/ExecutionEngine.py and neo/SmartContract/ApplicationEngine.py: one instruction of the NeoVM as a
 * function of the engine's state. What depends on code outside the VM core (contract table, signatures,
 * system calls, the splice, hash and collection opcodes) comes in through `Env`.
 */
module VM {
  import opened Bytes
  import opened Bits
  import opened Instructions
  import opened RandomAccessStack
  import opened Wrappers
  import BigInteger
  import CheckMultiSig

  // ---- stack items ---------------------------------------------------------------------------

  /** Arrays, structs and maps are references into the heap. */
  datatype Item =
    | ByteArray(bytes: seq<byte>)
    | Boolean(value: bool)
    | Integer(n: int)
    | Interop(id: int)
    | Ref(address: nat)

  datatype Cell = ArrayCell(items: seq<Item>) | StructCell(fields: seq<Item>) | MapCell(entries: seq<(Item, Item)>)

  type Heap = seq<Cell>

  function GetBigInteger(x: Item): Option<int> {
    match x
    case ByteArray(b) => Some(FromLESigned(b))
    case Boolean(v) => Some(if v then 1 else 0)
    case Integer(n) => Some(n)
    case _ => None
  }

  function GetByteArray(x: Item): Option<seq<byte>> {
    match x
    case ByteArray(b) => Some(b)
    case Boolean(v) => Some(if v then [1] else [])
    case Integer(n) => Some(BigInteger.Encode(n))
    case _ => None
  }

  predicate GetBoolean(x: Item) {
    match x
    case ByteArray(b) => exists i :: 0 <= i < |b| && b[i] > 0
    case Boolean(v) => v
    case Integer(n) => n != 0
    case _ => true
  }

  /** The elements of an Array or Struct, which share a Python class. */
  function GetArray(heap: Heap, x: Item): Option<seq<Item>> {
    if x.Ref? && x.address < |heap| then
      match heap[x.address]
      case ArrayCell(items) => Some(items)
      case StructCell(fields) => Some(fields)
      case MapCell(_) => None
    else None
  }

  // ---- engine state --------------------------------------------------------------------------

  datatype Frame = Frame(script: seq<byte>, ip: nat, rvcount: int, estack: seq<Item>, astack: seq<Item>)

  /**
   * Running and the two ends of a run. In the state Miscounted the program would go on, with an evaluation
   * stack whose counter exceeds its items; what it does from there is not described (see `Miscounts`).
   */
  datatype Status = Running | Halt | Fault | Miscounted

  datatype State = State(
    status: Status,
    frames: seq<Frame>,
    results: seq<Item>,
    heap: Heap,
    gas: int,
    ops: nat,
    itemCount: int,
    strict: bool)

  /** One call of `CheckStackSize`. */
  datatype SizeCheck = SizeCheck(strict: bool, delta: int)

  /** What an instruction that stays inside its frame does; `enforced` faults on a failed size check. */
  datatype Local =
    | Moved(estack: seq<Item>, astack: seq<Item>, heap: Heap, checks: seq<SizeCheck>, enforced: bool)
    | Failed

  datatype Env = Env(
    gasAmount: int,
    testMode: bool,
    table: seq<byte> -> Option<seq<byte>>,
    verify: CheckMultiSig.Verifier,
    syscall: (seq<byte>, seq<Item>, Heap) -> Option<(seq<Item>, Heap)>,
    sysPrice: (seq<byte>, seq<Item>, Heap) -> Option<int>,
    other: (Instruction, seq<Item>, seq<Item>, Heap) -> Local,
    recount: (seq<Frame>, Heap) -> nat,
    dynamicInvoke: seq<byte> -> bool)

  const RATIO := 100000
  const MAX_FREE_OPS := 500000
  const MAX_ITEM_SIZE := 1024 * 1024
  const MAX_ARRAY_SIZE := 1024
  const MAX_STACK_SIZE := 2048
  const MAX_INVOCATION_STACK_SIZE := 1024
  const INT_MAX := 2147483647

  // ---- size checks ---------------------------------------------------------------------------

  function CheckStackSize(env: Env, s: State, c: SizeCheck): (r: (State, bool))
    ensures r.0 == s.(itemCount := r.0.itemCount, strict := r.0.strict)
  {
    var strict := s.strict && c.strict;
    var sum := s.itemCount + c.delta;
    var count := if sum < 0 || sum > INT_MAX then INT_MAX else sum;
    if count <= MAX_STACK_SIZE then (s.(strict := strict, itemCount := count), true)
    else if strict then (s.(strict := strict, itemCount := count), false)
    else
      var n := env.recount(s.frames, s.heap);
      if n > MAX_STACK_SIZE then (s.(strict := strict, itemCount := n), false)
      else (s.(strict := true, itemCount := n), true)
  }

  function CheckAll(env: Env, s: State, cs: seq<SizeCheck>): (r: (State, bool))
    ensures r.0 == s.(itemCount := r.0.itemCount, strict := r.0.strict)
    decreases |cs|
  {
    if cs == [] then (s, true)
    else
      var (t, ok) := CheckStackSize(env, s, cs[0]);
      if |cs| == 1 then (t, ok) else CheckAll(env, t, cs[1..])
  }

  // ---- instructions inside one frame ---------------------------------------------------------

  function Pushed(es: seq<Item>, alt: seq<Item>, heap: Heap, x: Item): Local {
    Moved(es + [x], alt, heap, [SizeCheck(true, 1)], true)
  }

  /** Results of arithmetic that the size limit rejects become None. */
  function Limited(r: int): Option<int> {
    if BigInteger.CheckBigInteger(r) then Some(r) else None
  }

  function ShiftLeft(x: int, n: int): int {
    if n >= 0 then x * Pow2(n) else x / Pow2(-n)
  }

  const INC: byte := 0x8B
  const DEC: byte := 0x8C
  const SIGN: byte := 0x8D
  const NEGATE: byte := 0x8F
  const ABS: byte := 0x90
  const NOT: byte := 0x91
  const ADD: byte := 0x93
  const SUB: byte := 0x94
  const MUL: byte := 0x95
  const SHL: byte := 0x98
  const SHR: byte := 0x99
  const MAX_SHIFT := 256

  function Unary(op: byte, x: int): Option<int> {
    if op == INC then
      if BigInteger.CheckBigInteger(x) then Limited(x + 1) else None
    else if op == DEC then
      if BigInteger.CheckBigInteger(x) && (x > 0 || BigInteger.CheckBigInteger(x - 1)) then Some(x - 1) else None
    else if op == SIGN then Some(if x > 0 then 1 else if x == 0 then 0 else -1)
    else if op == NEGATE then Some(-x)
    else Some(if x < 0 then -x else x)
  }

  /** `x1` is the deeper operand; for the shifts `x2` is the shift count. */
  function Binary(op: byte, x1: int, x2: int): Option<int> {
    if op == SHL || op == SHR then
      if !(-MAX_SHIFT <= x2 <= MAX_SHIFT) || !BigInteger.CheckBigInteger(x1) then None
      else if op == SHL then Limited(ShiftLeft(x1, x2))
      else Some(ShiftLeft(x1, -x2))
    else if !BigInteger.CheckBigInteger(x1) || !BigInteger.CheckBigInteger(x2) then None
    else if op == ADD then Limited(x1 + x2)
    else if op == SUB then Limited(x1 - x2)
    else Limited(x1 * x2)
  }

  /** NUMEQUAL to MAX. */
  function Compare(op: byte, x1: int, x2: int): Item {
    if op == 0x9C then Boolean(x1 == x2)
    else if op == 0x9E then Boolean(x1 != x2)
    else if op == 0x9F then Boolean(x1 < x2)
    else if op == 0xA0 then Boolean(x1 > x2)
    else if op == 0xA1 then Boolean(x1 <= x2)
    else if op == 0xA2 then Boolean(x1 >= x2)
    else if op == 0xA3 then Integer(if x2 < x1 then x2 else x1)
    else Integer(if x2 > x1 then x2 else x1)
  }

  predicate IsUnary(op: byte) {
    op == INC || op == DEC || op == SIGN || op == NEGATE || op == ABS
  }

  predicate IsBinary(op: byte) {
    op == ADD || op == SUB || op == MUL || op == SHL || op == SHR
  }

  predicate IsCompare(op: byte) {
    op == 0x9C || (0x9E <= op && op <= 0xA4)
  }

  function ArithmeticOp(op: byte, es: seq<Item>, alt: seq<Item>, heap: Heap): Local {
    var n := |es|;
    if IsUnary(op) then
      if n < 1 || GetBigInteger(es[n - 1]).None? then Failed
      else
        match Unary(op, GetBigInteger(es[n - 1]).value)
        case Some(r) => Moved(es[..n - 1] + [Integer(r)], alt, heap, [], false)
        case None => Failed
    else if n < 2 || GetBigInteger(es[n - 1]).None? || GetBigInteger(es[n - 2]).None? then Failed
    else
      var x1, x2 := GetBigInteger(es[n - 2]).value, GetBigInteger(es[n - 1]).value;
      if IsCompare(op) then Moved(es[..n - 2] + [Compare(op, x1, x2)], alt, heap, [SizeCheck(true, -1)], false)
      else
        match Binary(op, x1, x2)
        case Some(r) => Moved(es[..n - 2] + [Integer(r)], alt, heap, [SizeCheck(true, -1)], false)
        case None => Failed
  }

  function ToLocal(r: Option<seq<Item>>, alt: seq<Item>, heap: Heap, checks: seq<SizeCheck>, enforced: bool): Local {
    match r
    case Some(es) => Moved(es, alt, heap, checks, enforced)
    case None => Failed
  }

  function PushPeek(es: seq<Item>, index: int): Option<seq<Item>> {
    match Peek(es, index)
    case Some(x) => Some(es + [x])
    case None => None
  }

  function Roll(es: seq<Item>, index: int): Option<seq<Item>> {
    match (Peek(es, index), Remove(es, index))
    case (Some(x), Some(rest)) => Some(rest + [x])
    case _ => None
  }

  function InsertTop(es: seq<Item>, index: int): Option<seq<Item>> {
    if es == [] then None else Insert(es, index, es[|es| - 1])
  }

  function SwapWithTop(es: seq<Item>, n: int): Option<seq<Item>> {
    if es == [] || Peek(es, n).None? then None
    else
      match Set(es, n, es[|es| - 1])
      case Some(t) => Set(t, 0, Peek(es, n).value)
      case None => None
  }

  /** DUPFROMALTSTACK to TUCK. */
  function StackOp(op: byte, es: seq<Item>, alt: seq<Item>, heap: Heap): Local {
    var n := |es|;
    if op == 0x6A then if alt == [] then Failed else Pushed(es, alt, heap, alt[|alt| - 1])
    else if op == 0x6B then
      if n == 0 then Failed else Moved(es[..n - 1], alt + [es[n - 1]], heap, [], false)
    else if op == 0x6C then
      if alt == [] then Failed else Moved(es + [alt[|alt| - 1]], alt[..|alt| - 1], heap, [], false)
    else if op == 0x74 then Pushed(es, alt, heap, Integer(n))
    else if op == 0x75 then ToLocal(Remove(es, 0), alt, heap, [SizeCheck(false, -1)], false)
    else if op == 0x76 then ToLocal(PushPeek(es, 0), alt, heap, [SizeCheck(true, 1)], true)
    else if op == 0x77 then ToLocal(Remove(es, 1), alt, heap, [SizeCheck(false, -1)], false)
    else if op == 0x78 then ToLocal(PushPeek(es, 1), alt, heap, [SizeCheck(true, 1)], true)
    else if op == 0x7B then ToLocal(Roll(es, 2), alt, heap, [], false)
    else if op == 0x7C then ToLocal(Roll(es, 1), alt, heap, [], false)
    else if op == 0x7D then ToLocal(InsertTop(es, 2), alt, heap, [SizeCheck(true, 1)], true)
    else if n == 0 || GetBigInteger(es[n - 1]).None? then Failed
    else
      var rest, i := es[..n - 1], GetBigInteger(es[n - 1]).value;
      if i < 0 then Failed
      else if op == 0x6D then ToLocal(Remove(rest, i), alt, heap, [SizeCheck(false, -2)], false)
      else if op == 0x72 then
        if i == 0 then Moved(rest, alt, heap, [SizeCheck(true, -1)], false)
        else ToLocal(SwapWithTop(rest, i), alt, heap, [SizeCheck(true, -1)], false)
      else if op == 0x73 then if i == 0 then Failed else ToLocal(InsertTop(rest, i), alt, heap, [], false)
      else if op == 0x79 then ToLocal(PushPeek(rest, i), alt, heap, [], false)
      else if i == 0 then Moved(rest, alt, heap, [SizeCheck(true, -1)], false)
      else ToLocal(Roll(rest, i), alt, heap, [SizeCheck(true, -1)], false)
  }

  predicate IsStackOp(op: byte) {
    (0x6A <= op && op <= 0x6D) || (0x72 <= op && op <= 0x7D)
  }

  function AllBytes(items: seq<Item>): Option<seq<seq<byte>>> {
    if items == [] then Some([])
    else
      match (GetByteArray(items[0]), AllBytes(items[1..]))
      case (Some(b), Some(rest)) => Some([b] + rest)
      case _ => None
  }

  /** An operand list of CHECKMULTISIG on top of the stack: an array, or a count and that many items. */
  datatype Popped = Popped(list: seq<seq<byte>>, rest: seq<Item>, check: SizeCheck) | BadOperand

  function PopList(es: seq<Item>, heap: Heap): Popped {
    if es == [] then BadOperand
    else
      var item, below := es[|es| - 1], es[..|es| - 1];
      var n := if GetArray(heap, item).Some? then Some(|GetArray(heap, item).value|) else GetBigInteger(item);
      if n.None? || n.value < 1 || (GetArray(heap, item).None? && n.value > |below|) then BadOperand
      else
        var k := n.value;
        var items, rest, check :=
          if GetArray(heap, item).Some? then GetArray(heap, item).value else Reverse(below[|below| - k..]),
          if GetArray(heap, item).Some? then below else below[..|below| - k],
          if GetArray(heap, item).Some? then SizeCheck(false, -1) else SizeCheck(true, -k - 1);
        match AllBytes(items)
        case Some(list) => Popped(list, rest, check)
        case None => BadOperand
  }

  function CheckMultiSigOp(env: Env, es: seq<Item>, alt: seq<Item>, heap: Heap): Local {
    match PopList(es, heap)
    case BadOperand => Failed
    case Popped(pubkeys, rest, c1) =>
      match PopList(rest, heap)
      case BadOperand => Failed
      case Popped(sigs, rest', c2) =>
        if |sigs| > |pubkeys| then Failed
        else Moved(rest' + [Boolean(CheckMultiSig.Scan(env.verify, sigs, pubkeys))], alt, heap, [c1, c2], false)
  }

  function PackOp(es: seq<Item>, alt: seq<Item>, heap: Heap): Local {
    if es == [] || GetBigInteger(es[|es| - 1]).None? then Failed
    else
      var size, below := GetBigInteger(es[|es| - 1]).value, es[..|es| - 1];
      if size < 0 || size > |below| || size > MAX_ARRAY_SIZE then Failed
      else
        var rest := below[..|below| - size];
        Moved(rest + [Ref(|heap|)], alt, heap + [ArrayCell(Reverse(below[|below| - size..]))], [], false)
  }

  /** Opcodes whose effect on the frame's stacks and on collections is left to `Env.other`. */
  predicate IsOther(op: byte) {
    || (0x7E <= op && op <= 0x87)
    || op == 0x92 || op == 0x96 || op == 0x97
    || (0xA7 <= op && op <= 0xAD && op != 0xAB)
    || op == 0xC0 || (0xC2 <= op && op <= 0xCD)
  }

  function ExecLocal(env: Env, ins: Instruction, es: seq<Item>, alt: seq<Item>, heap: Heap): Local {
    var op, n := ins.opcode, |es|;
    if 1 <= op && op <= PUSHDATA4 then
      if |ins.operand| > MAX_ITEM_SIZE then Failed else Pushed(es, alt, heap, ByteArray(ins.operand))
    else if op == PUSHM1 || (PUSH1 <= op && op <= PUSH16) then Pushed(es, alt, heap, Integer(op - PUSH1 + 1))
    else if op == PUSH0 then Pushed(es, alt, heap, ByteArray([]))
    else if op == NOP then Moved(es, alt, heap, [], false)
    else if op == SYSCALL then
      if |ins.operand| > 252 then Failed
      else
        match env.syscall(ins.operand, es, heap)
        case Some((es', heap')) => Moved(es', alt, heap', [SizeCheck(false, INT_MAX)], true)
        case None => Failed
    else if IsStackOp(op) then StackOp(op, es, alt, heap)
    else if IsUnary(op) || IsBinary(op) || IsCompare(op) then ArithmeticOp(op, es, alt, heap)
    else if op == NOT then
      if n == 0 then Failed
      else Moved(es[..n - 1] + [Boolean(!GetBoolean(es[n - 1]))], alt, heap, [SizeCheck(false, 0)], false)
    else if op == 0x9A || op == 0x9B then
      if n < 2 then Failed
      else
        var x1, x2 := GetBoolean(es[n - 2]), GetBoolean(es[n - 1]);
        var both := Boolean(if op == 0x9A then x1 && x2 else x1 || x2);
        Moved(es[..n - 2] + [both], alt, heap, [SizeCheck(false, -1)], false)
    else if op == 0xA5 then
      if n < 3 || exists i :: n - 3 <= i < n && GetBigInteger(es[i]).None? then Failed
      else
        var x, a, b := GetBigInteger(es[n - 3]).value, GetBigInteger(es[n - 2]).value, GetBigInteger(es[n - 1]).value;
        Moved(es[..n - 3] + [Boolean(a <= x && x < b)], alt, heap, [SizeCheck(true, -2)], false)
    else if op == CHECKMULTISIG then CheckMultiSigOp(env, es, alt, heap)
    else if op == PACK then PackOp(es, alt, heap)
    else if op == 0xF1 then
      if n == 0 || !GetBoolean(es[n - 1]) then Failed
      else Moved(es[..n - 1], alt, heap, [SizeCheck(false, -1)], false)
    else if IsOther(op) then env.other(ins, es, alt, heap)
    else Failed
  }

  // ---- control transfer ----------------------------------------------------------------------

  function SetFault(s: State): State {
    s.(status := Fault)
  }

  /** `MoveNext`: the next instruction is decoded at once, so a malformed one faults here. */
  function Advance(f: Frame, ins: Instruction): Option<Frame> {
    var ip := f.ip + Size(ins);
    if Fetch(f.script, ip).ValueError? then None else Some(f.(ip := ip))
  }

  function Current(s: State): Frame
    requires s.frames != []
  {
    s.frames[|s.frames| - 1]
  }

  /** Replaces the current frame by `fs`. */
  function WithTop(s: State, fs: seq<Frame>): State
    requires s.frames != []
  {
    s.(frames := s.frames[..|s.frames| - 1] + fs)
  }

  function DoLocal(env: Env, s: State, ins: Instruction): State
    requires s.frames != []
  {
    var f := Current(s);
    match ExecLocal(env, ins, f.estack, f.astack, s.heap)
    case Failed => SetFault(s)
    case Moved(es, alt, heap, checks, enforced) =>
      var (t, ok) := CheckAll(env, WithTop(s, [f.(estack := es, astack := alt)]).(heap := heap), checks);
      if enforced && !ok then SetFault(t)
      else
        match Advance(f.(estack := es, astack := alt), ins)
        case Some(g) => WithTop(t, [g])
        case None => SetFault(t)
  }

  function DoJump(env: Env, s: State, ins: Instruction): State
    requires s.frames != []
  {
    var f := Current(s);
    var offset := f.ip + FromLESigned(ins.operand);
    if offset < 0 || offset > |f.script| then SetFault(s)
    else if ins.opcode != JMP && f.estack == [] then SetFault(s)
    else
      var n := |f.estack|;
      var t := if ins.opcode == JMP then s else CheckStackSize(env, s, SizeCheck(false, -1)).0;
      var taken := ins.opcode == JMP || (GetBoolean(f.estack[n - 1]) == (ins.opcode == JMPIF));
      var es := if ins.opcode == JMP then f.estack else f.estack[..n - 1];
      var ip := if taken then offset else f.ip + 3;
      if Fetch(f.script, ip).ValueError? then SetFault(t) else WithTop(t, [f.(ip := ip, estack := es)])
  }

  function DoCall(s: State, ins: Instruction): State
    requires s.frames != []
  {
    var f := Current(s);
    var target := f.ip + FromLESigned(ins.operand);
    if |s.frames| >= MAX_INVOCATION_STACK_SIZE || target < 0 || target > |f.script| then SetFault(s)
    else
      match Advance(f.(estack := []), ins)
      case Some(caller) => WithTop(s, [caller, Frame(f.script, target, -1, f.estack, [])])
      case None => SetFault(s)
  }

  function DoReturn(env: Env, s: State): State
    requires s.frames != []
  {
    var f, below := Current(s), s.frames[..|s.frames| - 1];
    var rv := if f.rvcount == -1 then |f.estack| else f.rvcount;
    if rv > |f.estack| || rv < 0 then SetFault(s)
    else
      var returned := Top(f.estack, rv);
      if below == [] then
        CheckStackSize(env, s.(frames := [], results := s.results + returned), SizeCheck(false, 0)).0.(status := Halt)
      else
        var c := below[|below| - 1];
        var astack := if f.rvcount == -1 then c.astack + f.astack else c.astack;
        var c' := c.(estack := c.estack + returned, astack := astack);
        CheckStackSize(env, s.(frames := below[..|below| - 1] + [c']), SizeCheck(false, 0)).0
  }

  predicate AllZero(bs: seq<byte>) {
    forall i :: 0 <= i < |bs| ==> bs[i] == 0
  }

  /** The frame for a contract, or None when the hash has the wrong length or names no contract. */
  function LoadScriptByHash(env: Env, hash: seq<byte>, rvcount: int, es: seq<Item>): Option<Frame> {
    if |hash| != 20 then None
    else
      match env.table(hash)
      case Some(script) => Some(Frame(script, 0, rvcount, es, []))
      case None => None
  }

  function DoAppCall(env: Env, s: State, ins: Instruction): State
    requires s.frames != []
  {
    var f := Current(s);
    var n := |f.estack|;
    if ins.opcode == APPCALL && |s.frames| >= MAX_INVOCATION_STACK_SIZE then SetFault(s)
    else
      var dynamic := AllZero(ins.operand);
      if dynamic && (n == 0 || GetByteArray(f.estack[n - 1]).None?) then SetFault(s)
      else
        var hash := if dynamic then GetByteArray(f.estack[n - 1]).value else ins.operand;
        var es := if dynamic then f.estack[..n - 1] else f.estack;
        match (LoadScriptByHash(env, hash, -1, es), Advance(f.(estack := []), ins))
        case (Some(callee), Some(caller)) =>
          var t := WithTop(s, if ins.opcode == TAILCALL then [callee] else [caller, callee]);
          CheckStackSize(env, t, SizeCheck(false, 0)).0
        case _ => SetFault(s)
  }

  /** The caller of an isolated call keeps all but the top `pcount` items, which the callee gets. */
  function DoCallI(s: State, ins: Instruction): State
    requires s.frames != [] && |ins.operand| == 4
  {
    var f := Current(s);
    var rvcount, pcount := ins.operand[0], ins.operand[1];
    var target := f.ip + FromLESigned(ins.operand[2..]) + 2;
    var n := |f.estack|;
    if |s.frames| >= MAX_INVOCATION_STACK_SIZE || n < pcount || target < 0 || target > |f.script| then SetFault(s)
    else
      match Advance(f.(estack := f.estack[..n - pcount]), ins)
      case Some(caller) => WithTop(s, [caller, Frame(f.script, target, rvcount, f.estack[n - pcount..], [])])
      case None => SetFault(s)
  }

  /**
   * CALL_EDT counts its arguments before it pops the hash. With exactly `pcount` items it then copies one item
   * at most, while the new frame's counter says `pcount` (`RandomAccessStack.CallDynamicTail`); the replaced
   * frame, whose pops would fail, is gone.
   */
  predicate Miscounts(f: Frame, ins: Instruction)
    requires |ins.operand| >= 2
  {
    ins.opcode == CALL_EDT && |f.estack| == ins.operand[1]
  }

  function DoCallE(env: Env, s: State, ins: Instruction): State
    requires s.frames != [] && |ins.operand| >= 2
  {
    var f, op := Current(s), ins.opcode;
    var rvcount, pcount := ins.operand[0], ins.operand[1];
    var tail, dynamic := op == CALL_ET || op == CALL_EDT, op == CALL_ED || op == CALL_EDT;
    var n := |f.estack|;
    if n < pcount then SetFault(s)
    else if (if tail then f.rvcount != rvcount else |s.frames| >= MAX_INVOCATION_STACK_SIZE) then SetFault(s)
    else if dynamic && (n == 0 || GetByteArray(f.estack[n - 1]).None?) then SetFault(s)
    else if Miscounts(f, ins) then
      var found := LoadScriptByHash(env, GetByteArray(f.estack[n - 1]).value, rvcount, []).Some?
        && Advance(f, ins).Some?;
      if found && s.status == Running then s.(status := Miscounted) else SetFault(s)
    else if dynamic && n == pcount then SetFault(s)
    else if dynamic then
      var checked := CheckStackSize(env, s, SizeCheck(true, -1)).0;
      EnterExternal(env, checked, ins, GetByteArray(f.estack[n - 1]).value, f.estack[..n - 1], tail)
    else EnterExternal(env, s, ins, ins.operand[2..], f.estack, tail)
  }

  /** The call itself: `es` is the caller's stack without a dynamic hash. */
  function EnterExternal(env: Env, s: State, ins: Instruction, hash: seq<byte>, es: seq<Item>, tail: bool): State
    requires s.frames != [] && |ins.operand| >= 2 && ins.operand[1] <= |es|
  {
    var m := |es| - ins.operand[1];
    match (LoadScriptByHash(env, hash, ins.operand[0], es[m..]), Advance(Current(s).(estack := es[..m]), ins))
    case (Some(callee), Some(caller)) => WithTop(s, if tail then [callee] else [caller, callee])
    case _ => SetFault(s)
  }

  predicate IsJump(op: byte) {
    op == JMP || op == JMPIF || op == JMPIFNOT
  }

  predicate IsCallE(op: byte) {
    op == CALL_E || op == CALL_ED || op == CALL_ET || op == CALL_EDT
  }

  function ExecuteInstruction(env: Env, s: State, ins: Instruction): State
    requires s.frames != []
    requires WellFormedOperand(ins)
  {
    var op := ins.opcode;
    if IsJump(op) then DoJump(env, s, ins)
    else if op == CALL then DoCall(s, ins)
    else if op == RET then DoReturn(env, s)
    else if op == APPCALL || op == TAILCALL then DoAppCall(env, s, ins)
    else if op == CALL_I then DoCallI(s, ins)
    else if IsCallE(op) then DoCallE(env, s, ins)
    else DoLocal(env, s, ins)
  }

  /** Operands of fixed size have that size; the decoder guarantees it. */
  predicate WellFormedOperand(ins: Instruction) {
    PrefixSize(ins.opcode) == 0 ==> |ins.operand| == OperandSize(ins.opcode)
  }

  lemma DecodedIsWellFormed(script: seq<byte>, ip: nat)
    requires Fetch(script, ip).Found?
    ensures WellFormedOperand(Fetch(script, ip).ins)
    ensures ip < |script| ==> ip + Size(Fetch(script, ip).ins) <= |script|
    ensures ip >= |script| ==> Fetch(script, ip).ins == Instruction(RET, [])
  {
  }

  // ---- gas -----------------------------------------------------------------------------------

  /** `GetPrice`; None when reading the price raises. */
  function GetPrice(env: Env, s: State, ins: Instruction): Option<int>
    requires s.frames != []
  {
    var op, es := ins.opcode, Current(s).estack;
    if op <= NOP then Some(0)
    else if op == APPCALL || op == TAILCALL then Some(10)
    else if op == SYSCALL then env.sysPrice(ins.operand, es, s.heap)
    else if op == 0xA7 || op == 0xA8 then Some(10)
    else if op == 0xA9 || op == 0xAA then Some(20)
    else if op == 0xAC || op == 0xAD then Some(100)
    else if op == CHECKMULTISIG then
      if es == [] then Some(1)
      else
        var n := match GetArray(s.heap, es[|es| - 1])
          case Some(items) => Some(|items|)
          case None => GetBigInteger(es[|es| - 1]);
        match n
        case Some(k) => Some(if k < 1 then 1 else 100 * k)
        case None => None
    else Some(1)
  }

  predicate NeedsDynamicInvoke(ins: Instruction) {
    || ((ins.opcode == APPCALL || ins.opcode == TAILCALL) && AllZero(ins.operand))
    || ins.opcode == CALL_ED || ins.opcode == CALL_EDT
  }

  /** `PreExecuteInstruction`: the state with the charge made, and whether execution may go on. */
  function PreExecute(env: Env, s: State, ins: Instruction): Option<(State, bool)>
    requires s.frames != []
  {
    var f := Current(s);
    if f.ip >= |f.script| then Some((s, true))
    else
      match GetPrice(env, s, ins)
      case None => None
      case Some(price) =>
        var t := s.(gas := s.gas + price * RATIO);
        if !env.testMode && t.gas > env.gasAmount then Some((t, false))
        else if env.testMode && t.ops > MAX_FREE_OPS then Some((t, false))
        else Some((t, NeedsDynamicInvoke(ins) ==> env.dynamicInvoke(f.script)))
  }

  /**
   * `ExecuteNext` of an engine with exit_on_error. A failed pre-check sets FAULT and still executes the
   * instruction; a RET of the last frame then overwrites FAULT with HALT.
   */
  function Step(env: Env, s: State): State {
    if s.frames == [] then s.(status := Halt)
    else
      var t := s.(ops := s.ops + 1);
      match Fetch(Current(s).script, Current(s).ip)
      case ValueError => SetFault(t)
      case Found(ins) =>
        DecodedIsWellFormed(Current(s).script, Current(s).ip);
        match PreExecute(env, t, ins)
        case None => SetFault(t)
        case Some((u, ok)) => ExecuteInstruction(env, if ok then u else SetFault(u), ins)
  }
}
