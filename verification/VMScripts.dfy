/** Running the scripts that the assembler writes. */
module VMScripts {
  import opened Bytes
  import opened Instructions
  import opened RandomAccessStack
  import opened Wrappers
  import opened VM
  import opened VMRuns
  import opened ScriptBuilder
  import BigInteger

  // ---- reaching states -----------------------------------------------------------------------

  ghost predicate Reaches(env: Env, s: State, r: State) {
    exists t: seq<State> :: Run(env, t) && t[0] == s && t[|t| - 1] == r
  }

  lemma ReachesSelf(env: Env, s: State)
    ensures Reaches(env, s, s)
  {
    assert Run(env, [s]);
  }

  lemma ReachesStep(env: Env, s: State, r: State)
    requires s.status == Running && r == Step(env, s)
    ensures Reaches(env, s, r)
  {
    hide Step;
    assert Run(env, [s, r]);
  }

  lemma ReachesTrans(env: Env, a: State, b: State, c: State)
    requires Reaches(env, a, b) && Reaches(env, b, c)
    ensures Reaches(env, a, c)
  {
    hide Step;
    var t: seq<State> :| Run(env, t) && t[0] == a && t[|t| - 1] == b;
    var u: seq<State> :| Run(env, u) && u[0] == b && u[|u| - 1] == c;
    var w := t[..|t| - 1] + u;
    forall i | 0 <= i < |w| - 1 ensures w[i].status == Running && w[i + 1] == Step(env, w[i]) {
      if i < |t| - 1 {
        assert w[i] == t[i] && w[i + 1] == t[i + 1];
      } else {
        assert w[i] == u[i - (|t| - 1)] && w[i + 1] == u[i + 1 - (|t| - 1)];
      }
    }
    assert Run(env, w);
  }

  lemma ReachesEnd(env: Env, s: State, r: State)
    requires Reaches(env, s, r) && Sound(env, s) && (env.testMode || PricesPositive(env))
    ensures Sound(env, r) && RunToEnd(env, s) == RunToEnd(env, r)
  {
    var t: seq<State> :| Run(env, t) && t[0] == s && t[|t| - 1] == r;
    RunToEndOf(env, t, |t| - 1);
  }

  // ---- pushes --------------------------------------------------------------------------------

  predicate IsPush(ins: Instruction) {
    ins.opcode <= PUSH16 && ins.opcode != 0x50 && |ins.operand| <= MAX_ITEM_SIZE
  }

  /** The item a push leaves on the stack. */
  function PushedItem(ins: Instruction): Item {
    if ins.opcode == PUSHM1 || ins.opcode >= PUSH1 then Integer(ins.opcode - PUSH1 + 1)
    else if ins.opcode == PUSH0 then ByteArray([])
    else ByteArray(ins.operand)
  }

  function PushedItems(list: seq<Instruction>): (items: seq<Item>)
    ensures |items| == |list|
    ensures forall i :: 0 <= i < |list| ==> items[i] == PushedItem(list[i])
  {
    seq(|list|, i requires 0 <= i < |list| => PushedItem(list[i]))
  }

  /** An engine outside test mode that can pay for free instructions and has room for `room` more items. */
  ghost predicate Ready(env: Env, s: State, room: nat) {
    && s.status == Running && s.frames != [] && !env.testMode && s.gas <= env.gasAmount
    && 0 <= s.itemCount && s.itemCount + room <= MAX_STACK_SIZE
  }

  /** The state after pushing `items` with code of `length` bytes. */
  function AfterPushes(s: State, items: seq<Item>, length: nat): State
    requires s.frames != []
  {
    var f := Current(s);
    WithTop(s, [f.(ip := f.ip + length, estack := f.estack + items)])
      .(ops := s.ops + |items|, itemCount := s.itemCount + |items|)
  }

  predicate IsLocal(op: byte) {
    !IsJump(op) && op != CALL && op != RET && op != APPCALL && op != TAILCALL && op != CALL_I && !IsCallE(op)
  }

  /** The state after the size checks of a local instruction that costs `price`. */
  function Checked(env: Env, s: State, price: int, out: Local): (State, bool)
    requires s.frames != [] && out.Moved?
  {
    var f := Current(s);
    CheckAll(env,
      WithTop(s, [f.(estack := out.estack, astack := out.astack)])
        .(ops := s.ops + 1, gas := s.gas + price * RATIO, heap := out.heap),
      out.checks)
  }

  /** One instruction that stays in its frame, paid for and not stopped by a size check. */
  lemma LocalStep(env: Env, s: State, ins: Instruction, price: int, out: Local)
    requires Ready(env, s, 0) && Current(s).ip < |Current(s).script| && NextInstruction(s) == Found(ins)
    requires IsLocal(ins.opcode) && GetPrice(env, s.(ops := s.ops + 1), ins) == Some(price)
    requires s.gas + price * RATIO <= env.gasAmount
    requires ExecLocal(env, ins, Current(s).estack, Current(s).astack, s.heap) == out && out.Moved?
    requires out.enforced ==> Checked(env, s, price, out).1
    requires Fetch(Current(s).script, Current(s).ip + Size(ins)).Found?
    ensures Step(env, s) == WithTop(Checked(env, s, price, out).0,
      [Current(s).(ip := Current(s).ip + Size(ins), estack := out.estack, astack := out.astack)])
  {
    hide Fetch, Size, GetPrice, ExecLocal, CheckAll, AllZero;
    var f, t := Current(s), s.(ops := s.ops + 1);
    var u := t.(gas := t.gas + price * RATIO);
    DecodedIsWellFormed(f.script, f.ip);
    assert PreExecute(env, t, ins) == Some((u, true));
    assert WithTop(s, [f.(estack := out.estack, astack := out.astack)])
        .(ops := s.ops + 1, gas := s.gas + price * RATIO, heap := out.heap)
      == WithTop(u, [f.(estack := out.estack, astack := out.astack)]).(heap := out.heap);
    assert ExecuteInstruction(env, u, ins) == DoLocal(env, u, ins);
  }

  lemma PushStep(env: Env, s: State, ins: Instruction)
    requires Ready(env, s, 1) && IsPush(ins) && Current(s).ip < |Current(s).script|
    requires NextInstruction(s) == Found(ins)
    requires Fetch(Current(s).script, Current(s).ip + Size(ins)).Found?
    ensures Step(env, s) == AfterPushes(s, [PushedItem(ins)], Size(ins))
  {
    hide Fetch, Size, Step;
    var f := Current(s);
    var out := Pushed(f.estack, f.astack, s.heap, PushedItem(ins));
    FreePrice(env, s.(ops := s.ops + 1), ins);
    assert 0 * RATIO == 0;
    LocalStep(env, s, ins, 0, out);
  }

  /** Code made of pushes runs through and leaves their items, whatever instruction comes next. */
  lemma {:induction false} RunPushes(env: Env, s: State, list: seq<Instruction>)
    requires Ready(env, s, |list|) && Current(s).ip <= |Current(s).script|
    requires forall i :: 0 <= i < |list| ==> WellFormed(list[i]) && IsPush(list[i])
    requires AssembleAll(list) <= Current(s).script[Current(s).ip..]
    requires Fetch(Current(s).script, Current(s).ip + |AssembleAll(list)|).Found?
    ensures Reaches(env, s, AfterPushes(s, PushedItems(list), |AssembleAll(list)|))
    decreases |list|
  {
    hide *;
    ReadyWithLess(env, s, |list|);
    var f := Current(s);
    if list == [] {
      NoPushes(s);
      NothingAssembled();
      assert PushedItems(list) == [];
      ReachesSelf(env, s);
    } else {
      var ins, rest := list[0], list[1..];
      AssembledHead(f.script, f.ip, list);
      NextFound(f.script, f.ip, list);
      FetchInside(env, s);
      PushStep(env, s, ins);
      var r := Step(env, s);
      AfterPushesFacts(env, s, [PushedItem(ins)], Size(ins), |list|);
      ReachesStep(env, s, r);
      assert forall i :: 0 <= i < |rest| ==> rest[i] == list[i + 1];
      RunPushes(env, r, rest);
      AfterPushesCompose(s, PushedItem(ins), PushedItems(rest), Size(ins), |AssembleAll(rest)|);
      assert PushedItems(list) == [PushedItem(ins)] + PushedItems(rest);
      ReachesTrans(env, s, r, AfterPushes(r, PushedItems(rest), |AssembleAll(rest)|));
    }
  }

  lemma AfterPushesCompose(s: State, x: Item, items: seq<Item>, a: nat, b: nat)
    requires s.frames != []
    ensures AfterPushes(AfterPushes(s, [x], a), items, b) == AfterPushes(s, [x] + items, a + b)
  {
    var es := Current(s).estack;
    assert es + [x] + items == es + ([x] + items);
    var below := s.frames[..|s.frames| - 1];
    assert forall f :: (below + [f])[..|s.frames| - 1] == below;
  }

  lemma NoPushes(s: State)
    requires s.frames != []
    ensures AfterPushes(s, [], 0) == s
  {
    assert s.frames[..|s.frames| - 1] + [Current(s)] == s.frames;
    assert Current(s).estack + [] == Current(s).estack;
  }

  lemma NothingAssembled()
    ensures AssembleAll([]) == []
  {
  }

  lemma FetchInside(env: Env, s: State)
    requires s.frames != []
    ensures Current(s).ip < |Current(s).script| ==> NextInstruction(s) == Decode(Current(s).script, Current(s).ip)
  {
  }

  lemma ReadyWithLess(env: Env, s: State, room: nat)
    requires Ready(env, s, room)
    ensures s.status == Running && s.frames != []
    ensures room >= 1 ==> Ready(env, s, 1)
  {
  }

  lemma AfterPushesFacts(env: Env, s: State, items: seq<Item>, length: nat, room: nat)
    requires Ready(env, s, room) && |items| <= room
    ensures var r := AfterPushes(s, items, length);
      Ready(env, r, room - |items|)
      && Current(r) == Current(s).(ip := Current(s).ip + length, estack := Current(s).estack + items)
  {
  }

  /** After the first instruction of the list comes either the next of the list or what follows it. */
  lemma NextFound(script: seq<byte>, ip: nat, list: seq<Instruction>)
    requires forall i :: 0 <= i < |list| ==> WellFormed(list[i])
    requires list != [] && ip <= |script| && AssembleAll(list) <= script[ip..]
    requires Fetch(script, ip + |AssembleAll(list)|).Found?
    ensures Fetch(script, ip + Size(list[0])).Found?
  {
    hide Decode, Size, Assemble, WellFormed;
    AssembledHead(script, ip, list);
    if |list| > 1 {
      AssembledHead(script, ip + Size(list[0]), list[1..]);
    } else {
      assert AssembleAll(list[1..]) == [];
    }
  }

  // ---- pushes of the builder -----------------------------------------------------------------

  /** An argument that pushes something, and nothing larger than an item may be. */
  predicate PushesItem(arg: Pushable) {
    arg != Nothing && |Payload(arg)| <= MAX_ITEM_SIZE
  }

  function ArgItem(arg: Pushable): Item
    requires PushesItem(arg)
  {
    PushedItem(PushList(arg)[0])
  }

  /** The item a number becomes is read back as that number, and data as that data. */
  lemma ArgItemValue(arg: Pushable)
    requires PushesItem(arg)
    ensures arg.Number? ==> GetBigInteger(ArgItem(arg)) == Some(arg.n)
    ensures arg.Data? ==> GetByteArray(ArgItem(arg)) == Some(arg.buf)
  {
    if arg.Number? {
      hide BigInteger.Encode;
      BigInteger.RoundTrip(arg.n);
      BigInteger.EncodingIsNearlyShortest(arg.n, 1);
    }
  }

  lemma ArgIsPush(arg: Pushable)
    requires PushesItem(arg)
    ensures |PushList(arg)| == 1 && WellFormed(PushList(arg)[0]) && IsPush(PushList(arg)[0])
  {
    hide BigInteger.Encode;
    PushListWellFormed(arg);
  }

  function ArgItems(args: seq<Pushable>): (items: seq<Item>)
    requires forall i :: 0 <= i < |args| ==> PushesItem(args[i])
    ensures |items| == |args| && forall i :: 0 <= i < |args| ==> items[i] == ArgItem(args[i])
  {
    seq(|args|, i requires 0 <= i < |args| => ArgItem(args[i]))
  }

  lemma {:induction false} PushesOfArgs(args: seq<Pushable>)
    requires forall i :: 0 <= i < |args| ==> PushesItem(args[i])
    ensures forall i :: 0 <= i < |Pushes(args)| ==> WellFormed(Pushes(args)[i]) && IsPush(Pushes(args)[i])
    ensures PushedItems(Pushes(args)) == ArgItems(args)
  {
    hide WellFormed, IsPush, PushedItem, PushList, Payload;
    if args != [] {
      ArgIsPush(args[0]);
      PushesOfArgs(args[1..]);
      var head, tail := PushList(args[0]), Pushes(args[1..]);
      assert Pushes(args) == head + tail;
      assert PushedItems(head + tail) == PushedItems(head) + PushedItems(tail);
    }
  }

  // ---- packing the arguments -----------------------------------------------------------------

  /** A fresh engine with one script loaded. */
  function Loaded(scripts: seq<seq<byte>>): State {
    State(Running, seq(|scripts|, i requires 0 <= i < |scripts| => Frame(scripts[i], 0, -1, [], [])),
      [], [], 0, 0, 0, true)
  }

  lemma PackStep(env: Env, s: State, n: nat)
    requires Ready(env, s, 0) && s.gas + RATIO <= env.gasAmount
    requires Current(s).ip < |Current(s).script| && NextInstruction(s) == Found(Instruction(PACK, []))
    requires Fetch(Current(s).script, Current(s).ip + 1).Found?
    requires var es := Current(s).estack;
      n <= 16 && |es| == n + 1 && GetBigInteger(es[n]) == Some(n)
    ensures Step(env, s) == WithTop(
      s.(ops := s.ops + 1, gas := s.gas + RATIO, heap := s.heap + [ArrayCell(Reverse(Current(s).estack[..n]))]),
      [Current(s).(ip := Current(s).ip + 1, estack := [Ref(|s.heap|)])])
  {
    hide Fetch, Step, GetBigInteger, Reverse, GetPrice, ExecLocal;
    var f, ins := Current(s), Instruction(PACK, []);
    var out := Moved([Ref(|s.heap|)], f.astack, s.heap + [ArrayCell(Reverse(f.estack[..n]))], [], false);
    PackLocal(env, s, n);
    LocalStep(env, s, ins, 1, out);
    var below, between := s.frames[..|s.frames| - 1], f.(estack := out.estack);
    assert (below + [between])[..|below|] == below;
  }

  lemma PackLocal(env: Env, s: State, n: nat)
    requires s.frames != []
    requires var es := Current(s).estack;
      n <= 16 && |es| == n + 1 && GetBigInteger(es[n]) == Some(n)
    ensures var f := Current(s);
      ExecLocal(env, Instruction(PACK, []), f.estack, f.astack, s.heap)
        == Moved([Ref(|s.heap|)], f.astack, s.heap + [ArrayCell(Reverse(f.estack[..n]))], [], false)
    ensures GetPrice(env, s, Instruction(PACK, [])) == Some(1)
    ensures GetPrice(env, s.(ops := s.ops + 1), Instruction(PACK, [])) == Some(1)
  {
    hide GetBigInteger, Reverse;
    var f := Current(s);
    var below := f.estack[..n];
    assert below[..0] == [] && below[0..] == below && [] + [Ref(|s.heap|)] == [Ref(|s.heap|)];
    assert ExecLocal(env, Instruction(PACK, []), f.estack, f.astack, s.heap) == PackOp(f.estack, f.astack, s.heap);
  }

  // ---- code in place -------------------------------------------------------------------------

  /** From `ip` to its end the script is exactly this code. */
  ghost predicate CodeAt(script: seq<byte>, ip: nat, list: seq<Instruction>) {
    && (forall i :: 0 <= i < |list| ==> WellFormed(list[i]))
    && ip <= |script| && script[ip..] == AssembleAll(list)
  }

  lemma CodeAtFetch(script: seq<byte>, ip: nat, list: seq<Instruction>)
    requires CodeAt(script, ip, list)
    ensures Fetch(script, ip) == Found(if list == [] then Instruction(RET, []) else list[0])
    ensures list == [] <==> ip == |script|
    ensures list != [] ==> CodeAt(script, ip + Size(list[0]), list[1..])
  {
    hide Decode, Assemble, WellFormed, Size;
    if list != [] {
      AssembledHead(script, ip, list);
      SizePositive(list[0]);
    }
  }

  lemma SizePositive(ins: Instruction)
    ensures Size(ins) >= 1
  {
  }

  lemma CodeAtSplit(script: seq<byte>, ip: nat, a: seq<Instruction>, b: seq<Instruction>)
    requires CodeAt(script, ip, a + b)
    ensures forall i :: 0 <= i < |a| ==> WellFormed(a[i])
    ensures AssembleAll(a) <= script[ip..] && CodeAt(script, ip + |AssembleAll(a)|, b)
  {
    hide Assemble, AssembleAll, WellFormed;
    assert forall i :: 0 <= i < |a| ==> a[i] == (a + b)[i];
    assert forall i :: 0 <= i < |b| ==> b[i] == (a + b)[|a| + i];
    AssembleAllConcat(a, b);
    assert script[ip + |AssembleAll(a)|..] == script[ip..][|AssembleAll(a)|..];
  }

  /** Runs the pushes at the front of the code in place. */
  lemma RunCode(env: Env, s: State, args: seq<Pushable>, rest: seq<Instruction>)
      returns (r: State, length: nat)
    requires Ready(env, s, |args|) && CodeAt(Current(s).script, Current(s).ip, Pushes(args) + rest)
    requires forall i :: 0 <= i < |args| ==> PushesItem(args[i])
    ensures r == AfterPushes(s, ArgItems(args), length) && Reaches(env, s, r)
    ensures CodeAt(Current(s).script, Current(s).ip + length, rest)
  {
    hide Reaches, CodeAt, WellFormed, IsPush, PushesItem, Pushes, PushedItem, Ready;
    ReadyWithLess(env, s, |args|);
    var f := Current(s);
    var list := Pushes(args);
    CodeAtSplit(f.script, f.ip, list, rest);
    CodeAtInside(f.script, f.ip, list + rest);
    CodeAtFetch(f.script, f.ip + |AssembleAll(list)|, rest);
    PushesOfArgs(args);
    assert |list| == |PushedItems(list)| == |args|;
    RunPushes(env, s, list);
    length := |AssembleAll(list)|;
    r := AfterPushes(s, PushedItems(list), length);
  }

  lemma CodeAtInside(script: seq<byte>, ip: nat, list: seq<Instruction>)
    requires CodeAt(script, ip, list)
    ensures ip <= |script|
  {
  }

  /** An engine whose current frame has just these stacks. */
  function Engine(below: seq<Frame>, script: seq<byte>, ip: nat, es: seq<Item>, heap: Heap, gas: int, ops: nat,
      count: int, strict: bool): State {
    State(Running, below + [Frame(script, ip, -1, es, [])], [], heap, gas, ops, count, strict)
  }

  lemma EngineTop(below: seq<Frame>, script: seq<byte>, ip: nat, es: seq<Item>, heap: Heap, gas: int, ops: nat,
      count: int, strict: bool)
    ensures var s := Engine(below, script, ip, es, heap, gas, ops, count, strict);
      && s.status == Running && |s.frames| == |below| + 1 && Current(s) == Frame(script, ip, -1, es, [])
      && s.heap == heap && s.frames[..|below|] == below
      && forall env: Env :: !env.testMode && gas <= env.gasAmount && 0 <= count && count <= MAX_STACK_SIZE
           ==> Ready(env, s, MAX_STACK_SIZE - count)
  {
  }

  /** `RunCode` on such an engine. */
  lemma EngineRuns(env: Env, below: seq<Frame>, script: seq<byte>, ip: nat, es: seq<Item>, heap: Heap, gas: int,
      ops: nat, count: int, strict: bool, args: seq<Pushable>, rest: seq<Instruction>) returns (length: nat)
    requires !env.testMode && gas <= env.gasAmount && 0 <= count && count + |args| <= MAX_STACK_SIZE
    requires CodeAt(script, ip, Pushes(args) + rest)
    requires forall i :: 0 <= i < |args| ==> PushesItem(args[i])
    ensures Reaches(env, Engine(below, script, ip, es, heap, gas, ops, count, strict),
      Engine(below, script, ip + length, es + ArgItems(args), heap, gas, ops + |args|, count + |args|, strict))
    ensures CodeAt(script, ip + length, rest)
  {
    hide Reaches, CodeAt, PushesItem, Pushes, ArgItem;
    var s := Engine(below, script, ip, es, heap, gas, ops, count, strict);
    EngineTop(below, script, ip, es, heap, gas, ops, count, strict);
    var r;
    r, length := RunCode(env, s, args, rest);
    assert r
      == Engine(below, script, ip + length, es + ArgItems(args), heap, gas, ops + |args|, count + |args|, strict);
  }

  lemma EnginePacks(env: Env, script: seq<byte>, ip: nat, es: seq<Item>, gas: int, ops: nat, count: int, n: nat,
      rest: seq<Instruction>)
    requires !env.testMode && gas + RATIO <= env.gasAmount && 0 <= count && count <= MAX_STACK_SIZE
    requires CodeAt(script, ip, [Instruction(PACK, [])] + rest)
    requires n <= 16 && |es| == n + 1 && GetBigInteger(es[n]) == Some(n)
    ensures Reaches(env, Engine([], script, ip, es, [], gas, ops, count, true),
      Engine([], script, ip + 1, [Ref(0)], [ArrayCell(Reverse(es[..n]))], gas + RATIO, ops + 1, count, true))
    ensures CodeAt(script, ip + 1, rest)
  {
    hide Reaches, CodeAt, GetBigInteger, Reverse, Step, Fetch;
    var s := Engine([], script, ip, es, [], gas, ops, count, true);
    var code := [Instruction(PACK, [])] + rest;
    EngineTop([], script, ip, es, [], gas, ops, count, true);
    CodeAtFetch(script, ip, code);
    assert code[1..] == rest;
    PackSize();
    CodeAtFetch(script, ip + 1, rest);
    CodeAtInside(script, ip, code);
    PackStep(env, s, n);
    ReachesStep(env, s, Step(env, s));
    assert Step(env, s)
      == Engine([], script, ip + 1, [Ref(0)], [ArrayCell(Reverse(es[..n]))], gas + RATIO, ops + 1, count, true);
  }

  // ---- running on ----------------------------------------------------------------------------

  /** From `s` the engine gets to `r`, `length` bytes on, with these stacks and `price` units paid. */
  ghost predicate Runs(env: Env, s: State, r: State, length: nat, es: seq<Item>, alt: seq<Item>, price: nat) {
    && s.frames != [] && Reaches(env, s, r)
    && r == WithTop(s, [Current(s).(ip := Current(s).ip + length, estack := es, astack := alt)])
         .(ops := r.ops, gas := s.gas + price * RATIO, itemCount := r.itemCount, strict := r.strict)
  }

  /** An opcode without operand that stays in its frame and costs one unit. */
  ghost predicate Plain(op: byte) {
    && IsLocal(op) && Size(Instruction(op, [])) == 1 && op > NOP
    && forall env: Env, s: State :: s.frames != [] ==> GetPrice(env, s, Instruction(op, [])) == Some(1)
  }

  lemma RunsTrans(env: Env, s: State, t: State, r: State, a: nat, b: nat, es: seq<Item>, alt: seq<Item>,
      es': seq<Item>, alt': seq<Item>, p: nat, q: nat)
    requires Runs(env, s, t, a, es, alt, p) && Runs(env, t, r, b, es', alt', q)
    ensures Runs(env, s, r, a + b, es', alt', p + q)
  {
    hide Reaches;
    ReachesTrans(env, s, t, r);
    var below := s.frames[..|s.frames| - 1];
    assert forall f :: (below + [f])[..|s.frames| - 1] == below;
  }

  lemma RunsPlace(env: Env, s: State, r: State, length: nat, es: seq<Item>, alt: seq<Item>, price: nat)
    requires Runs(env, s, r, length, es, alt, price)
    ensures Reaches(env, s, r) && s.frames != [] && r.frames != [] && r.heap == s.heap
    ensures Current(r) == Current(s).(ip := Current(s).ip + length, estack := es, astack := alt)
    ensures r.gas == s.gas + price * RATIO && r.status == s.status
  {
    hide Reaches;
  }

  /** An instruction that stays in its frame and costs one unit. */
  lemma LocalRuns(env: Env, s: State, op: byte, out: Local, rest: seq<Instruction>) returns (r: State)
    requires Ready(env, s, 0) && s.gas + RATIO <= env.gasAmount
    requires CodeAt(Current(s).script, Current(s).ip, [Instruction(op, [])] + rest)
    requires Plain(op)
    requires ExecLocal(env, Instruction(op, []), Current(s).estack, Current(s).astack, s.heap) == out
    requires out.Moved? ==> out.heap == s.heap && |out.checks| <= 1
    requires out.Moved? && out.checks != [] ==> 0 <= s.itemCount + out.checks[0].delta <= MAX_STACK_SIZE
    ensures Reaches(env, s, r) && r == Step(env, s)
    ensures out.Failed? ==> r.status == Fault
    ensures out.Moved? ==> Runs(env, s, r, 1, out.estack, out.astack, 1)
    ensures out.Moved? ==> r.itemCount == s.itemCount + if out.checks == [] then 0 else out.checks[0].delta
    ensures out.Moved? ==> (r.strict <==> s.strict && forall c :: c in out.checks ==> c.strict)
    ensures CodeAt(Current(s).script, Current(s).ip + 1, rest)
  {
    hide Reaches, CodeAt, Step, Fetch, ExecLocal, GetPrice, Size, IsLocal;
    var f, ins := Current(s), Instruction(op, []);
    CodeAtFetch(f.script, f.ip, [ins] + rest);
    assert ([ins] + rest)[1..] == rest;
    CodeAtFetch(f.script, f.ip + 1, rest);
    CodeAtInside(f.script, f.ip, [ins] + rest);
    r := Step(env, s);
    ReachesStep(env, s, r);
    if out.Failed? {
      FailedStep(env, s, ins);
    } else {
      assert 1 * RATIO == RATIO;
      LocalStep(env, s, ins, 1, out);
    }
  }

  lemma FailedStep(env: Env, s: State, ins: Instruction)
    requires Ready(env, s, 0) && Current(s).ip < |Current(s).script| && NextInstruction(s) == Found(ins)
    requires IsLocal(ins.opcode) && GetPrice(env, s.(ops := s.ops + 1), ins) == Some(1)
    requires s.gas + RATIO <= env.gasAmount
    requires ExecLocal(env, ins, Current(s).estack, Current(s).astack, s.heap) == Failed
    ensures Step(env, s).status == Fault
  {
    hide Fetch, Size, GetPrice, ExecLocal, CheckAll, AllZero;
    var t := s.(ops := s.ops + 1);
    var u := t.(gas := t.gas + 1 * RATIO);
    DecodedIsWellFormed(Current(s).script, Current(s).ip);
    assert PreExecute(env, t, ins) == Some((u, true));
    assert ExecuteInstruction(env, u, ins) == DoLocal(env, u, ins);
  }

  // ---- the script of an application call -----------------------------------------------------

  /**
   * The script of EmitAppCallWithOperationAndArgs runs to its APPCALL with the operation on top of an
   * array of the arguments in their original order.
   */
  lemma AppCallIsReached(env: Env, hash: seq<byte>, operation: seq<byte>, args: seq<Pushable>) returns (r: State)
    requires |hash| == 20 && |args| <= 16 && |operation| <= MAX_ITEM_SIZE
    requires forall i :: 0 <= i < |args| ==> PushesItem(args[i])
    requires !env.testMode && env.gasAmount >= RATIO
    ensures Reaches(env, Loaded([CodeAll(AppCallCommands(hash, operation, args))]), r)
    ensures r.status == Running && |r.frames| == 1
    ensures NextInstruction(r) == Found(Instruction(APPCALL, hash))
    ensures Current(r).estack == [Ref(0), ByteArray(operation)] && r.heap == [ArrayCell(ArgItems(args))]
  {
    hide *;
    Limits();
    var n := |args|;
    var script := CodeAll(AppCallCommands(hash, operation, args));
    var front, op, call := Reverse(args) + [Number(n)], Data(operation), Instruction(APPCALL, hash);
    AppCallInPlace(hash, operation, args);
    FrontPushes(args);
    FrontItems(args);
    OperationItem(operation);
    LoadedIsEngine(script);
    var rest := [Instruction(PACK, [])] + (Pushes([op]) + [call]);
    var length := EngineRuns(env, [], script, 0, [], [], 0, 0, 0, true, front, rest);
    assert [] + ArgItems(front) == ArgItems(front);
    EnginePacks(env, script, length, ArgItems(front), 0, n + 1, n + 1, n, Pushes([op]) + [call]);
    var heap := [ArrayCell(ArgItems(args))];
    var length' := EngineRuns(env, [], script, length + 1, [Ref(0)], heap, RATIO, n + 2, n + 1, true, [op], [call]);
    assert [Ref(0)] + ArgItems([op]) == [Ref(0), ByteArray(operation)];
    var ip := length + 1 + length';
    r := Engine([], script, ip, [Ref(0), ByteArray(operation)], heap, RATIO, n + 3, n + 2, true);
    EngineTop([], script, ip, [Ref(0), ByteArray(operation)], heap, RATIO, n + 3, n + 2, true);
    CodeAtNext(r, [call]);
    var s, a, b := Loaded([script]), Engine([], script, length, ArgItems(front), [], 0, n + 1, n + 1, true),
      Engine([], script, length + 1, [Ref(0)], heap, RATIO, n + 2, n + 1, true);
    ReachesTrans(env, s, a, b);
    ReachesTrans(env, s, b, r);
  }

  lemma Limits()
    ensures RATIO == 100000 && MAX_STACK_SIZE == 2048
  {
  }

  lemma LoadedIsEngine(script: seq<byte>)
    ensures Loaded([script]) == Engine([], script, 0, [], [], 0, 0, 0, true)
  {
  }

  lemma CodeAtNext(s: State, list: seq<Instruction>)
    requires s.frames != [] && list != [] && CodeAt(Current(s).script, Current(s).ip, list)
    ensures NextInstruction(s) == Found(list[0])
  {
    hide CodeAt, Fetch;
    CodeAtFetch(Current(s).script, Current(s).ip, list);
  }

  lemma PackSize()
    ensures Size(Instruction(PACK, [])) == 1
  {
  }

  lemma OperationItem(operation: seq<byte>)
    requires |operation| <= MAX_ITEM_SIZE
    ensures ArgItem(Data(operation)) == ByteArray(operation) && PushesItem(Data(operation))
  {
  }

  lemma FrontPushes(args: seq<Pushable>)
    requires |args| <= 16 && forall i :: 0 <= i < |args| ==> PushesItem(args[i])
    ensures var front := Reverse(args) + [Number(|args|)];
      forall i :: 0 <= i < |front| ==> PushesItem(front[i])
  {
  }

  /** The items of the reversed arguments, reversed again by PACK, are those of the arguments. */
  lemma FrontItems(args: seq<Pushable>)
    requires |args| <= 16 && forall i :: 0 <= i < |args| ==> PushesItem(args[i])
    requires var front := Reverse(args) + [Number(|args|)];
      forall i :: 0 <= i < |front| ==> PushesItem(front[i])
    ensures var items := ArgItems(Reverse(args) + [Number(|args|)]);
      && GetBigInteger(items[|args|]) == Some(|args|)
      && Reverse(items[..|args|]) == ArgItems(args)
  {
    hide PushesItem, ArgItem, GetBigInteger;
    assert (Reverse(args) + [Number(|args|)])[|args|] == Number(|args|);
    ArgItemValue(Number(|args|));
  }

  lemma AppCallLegal(hash: seq<byte>, operation: seq<byte>, args: seq<Pushable>)
    requires |hash| == 20 && |args| <= 16 && |operation| <= MAX_ITEM_SIZE
    requires forall i :: 0 <= i < |args| ==> PushesItem(args[i])
    ensures forall c :: c in AppCallCommands(hash, operation, args) ==> Legal(c)
  {
  }

  lemma AppCallInPlace(hash: seq<byte>, operation: seq<byte>, args: seq<Pushable>)
    requires |hash| == 20 && |args| <= 16 && |operation| <= MAX_ITEM_SIZE
    requires forall i :: 0 <= i < |args| ==> PushesItem(args[i])
    ensures CodeAt(CodeAll(AppCallCommands(hash, operation, args)), 0,
      Pushes(Reverse(args) + [Number(|args|)])
      + ([Instruction(PACK, [])] + (Pushes([Data(operation)]) + [Instruction(APPCALL, hash)])))
  {
    hide *;
    var cs := AppCallCommands(hash, operation, args);
    AppCallLegal(hash, operation, args);
    CodeAllAssembles(cs);
    AppCallSplit(hash, operation, args);
    CallTailMeaning(hash, operation, |args|);
    PushesSnoc(Reverse(args), Number(|args|));
    Regrouped(Pushes(Reverse(args)), PushList(Number(|args|)), [Instruction(PACK, [])], PushList(Data(operation)),
      [Instruction(APPCALL, hash)]);
    AssembledIsInPlace(CodeAll(cs), MeaningAll(cs));
  }

  lemma Regrouped<T>(a: seq<T>, b: seq<T>, p: seq<T>, c: seq<T>, d: seq<T>)
    ensures a + (b + p + c + d) == (a + b) + (p + (c + d))
  {
  }

  lemma AssembledIsInPlace(script: seq<byte>, list: seq<Instruction>)
    requires (forall i :: 0 <= i < |list| ==> WellFormed(list[i])) && script == AssembleAll(list)
    ensures CodeAt(script, 0, list)
  {
    hide WellFormed, Assemble;
  }

  lemma CallTailMeaning(hash: seq<byte>, operation: seq<byte>, n: nat)
    ensures MeaningAll(CallTail(hash, operation, n))
      == PushList(Number(n)) + [Instruction(PACK, [])] + Pushes([Data(operation)]) + [Instruction(APPCALL, hash)]
    ensures Pushes([Data(operation)]) == PushList(Data(operation))
  {
    hide PushList;
    ConcatMapOne(PushList, Data(operation));
    ConcatMapFour(Meaning, Push(Number(n)), Op(PACK), Push(Data(operation)), AppCall(hash, false));
  }

  lemma PushesSnoc(args: seq<Pushable>, last: Pushable)
    ensures Pushes(args + [last]) == Pushes(args) + PushList(last)
  {
    hide PushList;
    ConcatMapAppend(PushList, args, [last]);
    ConcatMapOne(PushList, last);
  }
}
