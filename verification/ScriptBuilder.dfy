/** neo/VM/ScriptBuilder.py: the assembler. */
module ScriptBuilder {
  import opened Arithmetic
  import opened Bytes
  import opened Instructions
  import BigInteger

  /** What `push` accepts: None, a BigInteger, or a bytearray of raw data. */
  datatype Pushable = Nothing | Number(n: int) | Data(buf: seq<byte>)

  function PushData(buf: seq<byte>): Instruction {
    if |buf| <= PUSHBYTES75 then Instruction(|buf|, buf)
    else if |buf| < 0x100 then Instruction(PUSHDATA1, buf)
    else if |buf| < 0x1_0000 then Instruction(PUSHDATA2, buf)
    else Instruction(PUSHDATA4, buf)
  }

  function PushNumber(n: int): Instruction {
    if n == -1 then Instruction(PUSHM1, [])
    else if n == 0 then Instruction(PUSH0, [])
    else if 1 <= n <= 16 then Instruction(PUSH1 - 1 + n, [])
    else PushData(BigInteger.Encode(n))
  }

  /** The instruction `push` is meant to emit. */
  function PushList(arg: Pushable): seq<Instruction> {
    match arg
    case Nothing => []
    case Number(n) => [PushNumber(n)]
    case Data(buf) => [PushData(buf)]
  }

  /** The data behind a push, whose length decides its form. */
  function Payload(arg: Pushable): seq<byte> {
    match arg
    case Nothing => []
    case Number(n) => if -1 <= n <= 16 then [] else BigInteger.Encode(n)
    case Data(buf) => buf
  }

  /** Lengths that the decoder's signed four-byte prefix can hold. */
  predicate Readable(arg: Pushable) {
    |Payload(arg)| < 0x8000_0000
  }

  lemma PushListWellFormed(arg: Pushable)
    requires Readable(arg)
    ensures forall i :: 0 <= i < |PushList(arg)| ==> WellFormed(PushList(arg)[i])
  {
    Pow256Is4();
    assert Pow256(1) == 256 * Pow256(0);
  }

  /** The bytes `push` writes; data of 4 GiB and more is dropped without a trace. */
  function PushCode(arg: Pushable): seq<byte> {
    match arg
    case Nothing => []
    case Number(n) => if -1 <= n <= 16 then [PushNumber(n).opcode] else DataCode(BigInteger.Encode(n))
    case Data(buf) => DataCode(buf)
  }

  function DataCode(buf: seq<byte>): seq<byte> {
    if |buf| >= 0x1_0000_0000 then []
    else
      var op := PushData(buf).opcode;
      [op] + ToLE(|buf|, PrefixSize(op)) + buf
  }

  function PushListCode(args: seq<Pushable>): seq<byte> {
    ConcatMap(PushCode, args)
  }

  function Pushes(args: seq<Pushable>): seq<Instruction> {
    ConcatMap(PushList, args)
  }

  /** A push assembles to its instruction when its data is shorter than 2 GiB. */
  lemma PushAssembles(arg: Pushable)
    requires Readable(arg)
    ensures forall i :: 0 <= i < |PushList(arg)| ==> WellFormed(PushList(arg)[i])
    ensures PushCode(arg) == AssembleAll(PushList(arg))
  {
    PushListWellFormed(arg);
    if arg != Nothing {
      AssembleOne(PushList(arg)[0]);
      var ins := PushList(arg)[0];
      assert ToLE(|ins.operand|, 0) == [];
      assert Assemble(ins) == [ins.opcode] + ToLE(|ins.operand|, PrefixSize(ins.opcode)) + ins.operand;
    }
  }

  /** From 2 GiB on the length reads back negative and the data is decoded as further instructions. */
  lemma LongPushIsLost(buf: seq<byte>)
    requires 0x8000_0000 <= |buf| < 0x1_0000_0000
    ensures Decode(DataCode(buf), 0) == Found(Instruction(PUSHDATA4, []))
  {
    var prefix, code := ToLE(|buf|, 4), DataCode(buf);
    Pow256Is4();
    FromLEToLE(|buf|, 4);
    DivModUnique(|buf|, Pow256(4), 0, |buf|);
    assert code == [PUSHDATA4] + prefix + buf;
    assert code[1..5] == prefix;
    assert PrefixValue(prefix) <= 0 by {
      ByteAt(|buf|, 4, 3);
      DivRange(|buf|, Pow256(3), 128, 256);
    }
  }

  // ---- whole scripts -------------------------------------------------------------------------

  datatype Command =
    | Push(arg: Pushable)
    | Op(opcode: byte)
    | AppCall(hash: seq<byte>, tail: bool)
    | SysCall(api: seq<byte>)

  /** Opcodes that stand alone, and arguments the builder does not reject. */
  predicate Legal(c: Command) {
    match c
    case Push(arg) => Readable(arg)
    case Op(op) => PrefixSize(op) == 0 && OperandSize(op) == 0
    case AppCall(hash, _) => |hash| == 20
    case SysCall(api) => |api| < 0x100
  }

  function Meaning(c: Command): seq<Instruction> {
    match c
    case Push(arg) => PushList(arg)
    case Op(op) => [Instruction(op, [])]
    case AppCall(hash, tail) => [Instruction(if tail then TAILCALL else APPCALL, hash)]
    case SysCall(api) => [Instruction(SYSCALL, api)]
  }

  function Code(c: Command): seq<byte> {
    match c
    case Push(arg) => PushCode(arg)
    case Op(op) => [op]
    case AppCall(hash, tail) => [if tail then TAILCALL else APPCALL] + hash
    case SysCall(api) => [SYSCALL] + ToLE(|api|, 1) + api
  }

  function MeaningAll(cs: seq<Command>): seq<Instruction> {
    ConcatMap(Meaning, cs)
  }

  function CodeAll(cs: seq<Command>): seq<byte> {
    ConcatMap(Code, cs)
  }

  lemma CodeAssembles(c: Command)
    requires Legal(c)
    ensures forall i :: 0 <= i < |Meaning(c)| ==> WellFormed(Meaning(c)[i])
    ensures Code(c) == AssembleAll(Meaning(c))
  {
    if c.Push? {
      PushAssembles(c.arg);
    } else {
      var ins := Meaning(c)[0];
      assert Pow256(1) == 256 * Pow256(0);
      AssembleOne(ins);
      assert ToLE(|ins.operand|, 0) == [];
    }
  }

  lemma {:induction false} CodeAllAssembles(cs: seq<Command>)
    requires forall i :: 0 <= i < |cs| ==> Legal(cs[i])
    ensures forall i :: 0 <= i < |MeaningAll(cs)| ==> WellFormed(MeaningAll(cs)[i])
    ensures CodeAll(cs) == AssembleAll(MeaningAll(cs))
  {
    if cs != [] {
      CodeAssembles(cs[0]);
      CodeAllAssembles(cs[1..]);
      AssembleAllConcat(Meaning(cs[0]), MeaningAll(cs[1..]));
    }
  }

  /** Assembler and decoder agree on every script the builder can emit. */
  lemma DecoderReadsBack(cs: seq<Command>)
    requires forall i :: 0 <= i < |cs| ==> Legal(cs[i])
    ensures Walk(CodeAll(cs), 0) == Listing(MeaningAll(cs))
  {
    CodeAllAssembles(cs);
    WalkAssembled(CodeAll(cs), 0, MeaningAll(cs));
  }

  /** What the builder emits without an exception: also pushes that are too long. */
  predicate Emittable(c: Command) {
    c.Push? || Legal(c)
  }

  lemma LegalIff(c: Command)
    requires Emittable(c)
    ensures Legal(c) <==> forall i :: 0 <= i < |Meaning(c)| ==> WellFormed(Meaning(c)[i])
  {
    if Legal(c) {
      CodeAssembles(c);
    } else {
      Pow256Is4();
      assert !WellFormed(Meaning(c)[0]);
    }
  }

  lemma {:induction false} MeaningWithin(cs: seq<Command>, k: nat)
    requires k < |cs|
    ensures forall ins :: ins in Meaning(cs[k]) ==> ins in MeaningAll(cs)
    decreases k
  {
    hide Meaning;
    assert MeaningAll(cs) == Meaning(cs[0]) + MeaningAll(cs[1..]);
    if k > 0 { MeaningWithin(cs[1..], k - 1); }
  }

  /**
   * A script reads back as what was meant exactly when none of its pushes is 2 GiB or longer: the decoder takes
   * the four-byte length for signed, and from 4 GiB on the builder writes nothing.
   */
  lemma DecoderReadsBackIff(cs: seq<Command>)
    requires forall i :: 0 <= i < |cs| ==> Emittable(cs[i])
    ensures Walk(CodeAll(cs), 0) == Listing(MeaningAll(cs))
      <==> forall i :: 0 <= i < |cs| && cs[i].Push? ==> Readable(cs[i].arg)
  {
    hide Meaning, Walk, CodeAll, MeaningAll, WellFormed, Readable;
    if forall i :: 0 <= i < |cs| && cs[i].Push? ==> Readable(cs[i].arg) {
      DecoderReadsBack(cs);
    } else {
      var k :| 0 <= k < |cs| && cs[k].Push? && !Readable(cs[k].arg);
      LegalIff(cs[k]);
      MeaningWithin(cs, k);
      var i :| 0 <= i < |Meaning(cs[k])| && !WellFormed(Meaning(cs[k])[i]);
      assert Meaning(cs[k])[i] in MeaningAll(cs);
      if Walk(CodeAll(cs), 0) == Listing(MeaningAll(cs)) { WalkedWellFormed(CodeAll(cs), 0); }
    }
  }

  function Reversed(args: seq<Pushable>): (cs: seq<Command>)
    ensures |cs| == |args| && forall i :: 0 <= i < |args| ==> cs[i] == Push(args[|args| - 1 - i])
  {
    seq(|args|, i requires 0 <= i < |args| => Push(args[|args| - 1 - i]))
  }

  function CallTail(hash: seq<byte>, operation: seq<byte>, n: nat): seq<Command> {
    [Push(Number(n)), Op(PACK), Push(Data(operation)), AppCall(hash, false)]
  }

  /** The script of `EmitAppCallWithOperationAndArgs`. */
  function AppCallCommands(hash: seq<byte>, operation: seq<byte>, args: seq<Pushable>): seq<Command> {
    Reversed(args) + CallTail(hash, operation, |args|)
  }

  datatype Outcome = Done | Exception

  class ScriptBuilder {
    var ms: seq<byte>

    constructor ()
      ensures ms == []
    {
      ms := [];
    }

    method Add(op: byte)
      modifies this
      ensures ms == old(ms) + [op]
    {
      ms := ms + [op];
    }

    method AddBytes(buf: seq<byte>)
      modifies this
      ensures ms == old(ms) + buf
    {
      ms := ms + buf;
    }

    method PushBuffer(buf: seq<byte>)
      modifies this
      ensures ms == old(ms) + DataCode(buf)
    {
      hide *;
      ghost var before := ms;
      var n := |buf|;
      DataCodeBytes(buf);
      if n <= PUSHBYTES75 {
        Add(n);
        AddBytes(buf);
        assert ms == before + ([n] + buf);
      } else if n < 0x100 {
        Add(PUSHDATA1);
        Add(n);
        AddBytes(buf);
        assert ms == before + ([PUSHDATA1, n] + buf);
      } else if n < 0x1_0000 {
        Add(PUSHDATA2);
        Add(n % 0x100);
        Add(n / 0x100);
        AddBytes(buf);
        assert ms == before + ([PUSHDATA2, n % 0x100, n / 0x100] + buf);
      } else if n < 0x1_0000_0000 {
        Add(PUSHDATA4);
        Add(n % 0x100);
        Add(n / 0x100 % 0x100);
        Add(n / 0x1_0000 % 0x100);
        Add(n / 0x100_0000);
        AddBytes(buf);
        assert ms == before + ([PUSHDATA4, n % 0x100, n / 0x100 % 0x100, n / 0x1_0000 % 0x100, n / 0x100_0000] + buf);
      }
    }

    method Push(arg: Pushable)
      modifies this
      ensures ms == old(ms) + PushCode(arg)
    {
      match arg
      case Nothing =>
      case Number(n) =>
        if n == -1 {
          Add(PUSHM1);
        } else if n == 0 {
          Add(PUSH0);
        } else if 0 < n <= 16 {
          Add(PUSH1 - 1 + n);
        } else {
          var buf := BigInteger.ToByteArray(n);
          PushBuffer(buf);
        }
      case Data(buf) =>
        PushBuffer(buf);
    }

    method Emit(op: byte, arg: seq<byte>)
      modifies this
      ensures ms == old(ms) + ([op] + arg)
    {
      Add(op);
      AddBytes(arg);
    }

    method EmitAppCall(hash: seq<byte>, useTailCall: bool) returns (r: Outcome)
      modifies this
      ensures r == Exception <==> |hash| != 20
      ensures ms == old(ms) + if r == Exception then [] else Code(AppCall(hash, useTailCall))
    {
      if |hash| != 20 {
        return Exception;
      }
      Emit(if useTailCall then TAILCALL else APPCALL, hash);
      return Done;
    }

    method EmitSysCall(api: seq<byte>) returns (r: Outcome)
      modifies this
      ensures r == Exception <==> |api| >= 0x100
      ensures ms == old(ms) + if r == Exception then [] else Code(SysCall(api))
    {
      if |api| >= 0x100 {
        return Exception;
      }
      assert ToLE(|api|, 1) == [|api|];
      Emit(SYSCALL, [|api|] + api);
      return Done;
    }

    method PushAll(args: array<Pushable>)
      modifies this
      ensures ms == old(ms) + PushListCode(args[..])
    {
      hide PushCode, DataCode;
      var i := 0;
      while i < args.Length
        invariant 0 <= i <= args.Length
        invariant ms == old(ms) + PushListCode(args[..i])
      {
        Push(args[i]);
        ConcatMapStep(PushCode, args[..], i);
        assert args[..][..i] == args[..i] && args[..][..i + 1] == args[..i + 1];
        i := i + 1;
      }
      assert args[..i] == args[..];
    }

    /** Reverses `args` in place; more than 16 arguments make the push of their count raise. */
    method EmitAppCallWithOperationAndArgs(hash: seq<byte>, operation: seq<byte>, args: array<Pushable>)
        returns (r: Outcome)
      requires |hash| == 20
      modifies this, args
      ensures args[..] == Reverse(old(args[..]))
      ensures r == Exception <==> args.Length > 16
      ensures r == Done ==> ms == old(ms) + CodeAll(AppCallCommands(hash, operation, old(args[..])))
    {
      hide PushCode, DataCode, AppCallCommands, CodeAll;
      ghost var given, before := args[..], ms;
      ReverseArray(args);
      PushAll(args);
      if args.Length > 16 {
        return Exception;
      }
      Push(Number(args.Length));
      Emit(PACK, []);
      Push(Data(operation));
      Emit(APPCALL, hash);
      FinishAppCall(hash, operation, given, before, ms);
      return Done;
    }
  }

  method ReverseArray<T>(a: array<T>)
    modifies a
    ensures a[..] == Reverse(old(a[..]))
  {
    ghost var was := a[..];
    var i, n := 0, a.Length;
    while i < n / 2
      invariant 0 <= i <= n / 2
      invariant forall k :: 0 <= k < i ==> a[k] == was[n - 1 - k] && a[n - 1 - k] == was[k]
      invariant forall k :: i <= k < n - i ==> a[k] == was[k]
    {
      a[i], a[n - 1 - i] := a[n - 1 - i], a[i];
      i := i + 1;
    }
  }

  /** The prefix bytes one by one. */
  lemma DataCodeBytes(buf: seq<byte>)
    ensures var n := |buf|;
      DataCode(buf) == (if n <= PUSHBYTES75 then [n] + buf
      else if n < 0x100 then [PUSHDATA1, n] + buf
      else if n < 0x1_0000 then [PUSHDATA2, n % 0x100, n / 0x100] + buf
      else if n < 0x1_0000_0000 then
        [PUSHDATA4, n % 0x100, n / 0x100 % 0x100, n / 0x1_0000 % 0x100, n / 0x100_0000] + buf
        else [])
  {
    hide ToLE;
    var n := |buf|;
    NoBytes(n);
    if PUSHBYTES75 < n < 0x100 {
      OneByte(n);
    } else if 0x100 <= n < 0x1_0000 {
      TwoBytes(n);
    } else if 0x1_0000 <= n < 0x1_0000_0000 {
      FourBytes(n);
    }
  }

  lemma NoBytes(n: int)
    ensures ToLE(n, 0) == []
  {
  }

  lemma OneByte(n: int)
    requires 0 <= n < 0x100
    ensures ToLE(n, 1) == [n]
  {
  }

  lemma TwoBytes(n: int)
    requires 0 <= n < 0x1_0000
    ensures ToLE(n, 2) == [n % 0x100, n / 0x100]
  {
    OneByte(n / 0x100);
  }

  lemma FourBytes(n: int)
    requires 0 <= n < 0x1_0000_0000
    ensures ToLE(n, 4) == [n % 0x100, n / 0x100 % 0x100, n / 0x1_0000 % 0x100, n / 0x100_0000]
  {
    DivDiv(n, 0x100, 0x100);
    DivDiv(n, 0x1_0000, 0x100);
    var m := n / 0x100_0000;
    assert ToLE(m, 1) == [m];
    assert ToLE(n / 0x1_0000, 2) == [n / 0x1_0000 % 0x100] + ToLE(m, 1);
    assert ToLE(n / 0x100, 3) == [n / 0x100 % 0x100] + ToLE(n / 0x1_0000, 2);
  }

  lemma {:induction false} PushCommands(args: seq<Pushable>, cs: seq<Command>)
    requires |cs| == |args| && forall i :: 0 <= i < |args| ==> cs[i] == Command.Push(args[i])
    ensures CodeAll(cs) == PushListCode(args)
    ensures MeaningAll(cs) == Pushes(args)
  {
    if args != [] { PushCommands(args[1..], cs[1..]); }
  }

  lemma AppCallSplit(hash: seq<byte>, operation: seq<byte>, args: seq<Pushable>)
    ensures CodeAll(AppCallCommands(hash, operation, args))
         == PushListCode(Reverse(args)) + CodeAll(CallTail(hash, operation, |args|))
    ensures MeaningAll(AppCallCommands(hash, operation, args))
         == Pushes(Reverse(args)) + MeaningAll(CallTail(hash, operation, |args|))
  {
    hide Code, Meaning, CallTail;
    var tail := CallTail(hash, operation, |args|);
    ConcatMapAppend(Code, Reversed(args), tail);
    ConcatMapAppend(Meaning, Reversed(args), tail);
    PushCommands(Reverse(args), Reversed(args));
  }

  lemma Regroup(x: seq<byte>, a: seq<byte>, b: seq<byte>, p: seq<byte>, c: seq<byte>, d: seq<byte>)
    ensures x + a + b + (p + []) + c + d == x + (a + (b + p + c + d))
  {
  }

  lemma FinishAppCall(hash: seq<byte>, operation: seq<byte>, args: seq<Pushable>, before: seq<byte>, after: seq<byte>)
    requires after == before + PushListCode(Reverse(args)) + PushCode(Number(|args|)) + ([PACK] + [])
      + PushCode(Data(operation)) + ([APPCALL] + hash)
    ensures after == before + CodeAll(AppCallCommands(hash, operation, args))
  {
    hide *;
    AppCallSplit(hash, operation, args);
    CallTailCode(hash, operation, |args|);
    var a, b := PushListCode(Reverse(args)), PushCode(Number(|args|));
    var c, d := PushCode(Data(operation)), [APPCALL] + hash;
    Regroup(before, a, b, [PACK], c, d);
  }

  lemma CallTailCode(hash: seq<byte>, operation: seq<byte>, n: nat)
    ensures CodeAll(CallTail(hash, operation, n))
         == PushCode(Number(n)) + [PACK] + PushCode(Data(operation)) + ([APPCALL] + hash)
  {
    hide PushCode;
    ConcatMapFour(Code, Command.Push(Number(n)), Op(PACK), Command.Push(Data(operation)), AppCall(hash, false));
  }
}
