/** What the arithmetic of neo/VM/ExecutionEngine.py computes: assembled expressions run to their values. */
module VMArithmetic {
  import opened Bytes
  import opened Bits
  import opened Instructions
  import opened ScriptBuilder
  import opened Wrappers
  import opened VM
  import opened VMRuns
  import opened VMScripts
  import BigInteger

  // ---- expressions and what they are worth ---------------------------------------------------

  datatype Operator1 = Increment | Decrement | Sign | Negation | Absolute | Not

  datatype Operator2 =
    | Plus | Minus | Times | LeftShift | RightShift | And | Or
    | Equal | NotEqual | Less | Greater | AtMost | AtLeast | Smaller | Larger

  datatype Expr =
    | Literal(n: int)
    | One(op1: Operator1, x: Expr)
    | Two(op2: Operator2, left: Expr, right: Expr)
    | Within(y: Expr, low: Expr, high: Expr)

  function Truth(b: bool): int {
    if b then 1 else 0
  }

  function Result1(op: Operator1, x: int): int {
    match op
    case Increment => x + 1
    case Decrement => x - 1
    case Sign => if x > 0 then 1 else if x < 0 then -1 else 0
    case Negation => 0 - x
    case Absolute => if x >= 0 then x else 0 - x
    case Not => Truth(x == 0)
  }

  /** A product with a power of two; for negative counts the quotient, rounded down. */
  function Scaled(x: int, count: int): (r: int)
    ensures count >= 0 ==> r == Pow2(count) * x
    ensures count < 0 ==> Pow2(-count) * r <= x < Pow2(-count) * r + Pow2(-count)
  {
    if count >= 0 then x * Pow2(count) else x / Pow2(-count)
  }

  function Result2(op: Operator2, a: int, b: int): int {
    match op
    case Plus => a + b
    case Minus => a - b
    case Times => a * b
    case LeftShift => Scaled(a, b)
    case RightShift => Scaled(a, 0 - b)
    case And => Truth(a != 0 && b != 0)
    case Or => Truth(a != 0 || b != 0)
    case Equal => Truth(a == b)
    case NotEqual => Truth(a != b)
    case Less => Truth(a < b)
    case Greater => Truth(a > b)
    case AtMost => Truth(a <= b)
    case AtLeast => Truth(a >= b)
    case Smaller => if a < b then a else b
    case Larger => if a < b then b else a
  }

  function Value(e: Expr): int {
    match e
    case Literal(n) => n
    case One(op, x) => Result1(op, Value(x))
    case Two(op, left, right) => Result2(op, Value(left), Value(right))
    case Within(y, low, high) => Truth(Value(low) <= Value(y) < Value(high))
  }

  // ---- which operands and results the engine accepts -----------------------------------------

  /** The signed 256-bit integers but one. */
  predicate InRange(x: int) {
    -Pow2(255) <= x < Pow2(255) && x != -Pow2(248)
  }

  predicate Accepts1(op: Operator1, x: int) {
    op == Increment || op == Decrement ==> InRange(x) && InRange(Result1(op, x))
  }

  predicate Accepts2(op: Operator2, a: int, b: int) {
    match op
    case Plus | Minus | Times => InRange(a) && InRange(b) && InRange(Result2(op, a, b))
    case LeftShift => -256 <= b <= 256 && InRange(a) && InRange(Result2(op, a, b))
    case RightShift => -256 <= b <= 256 && InRange(a)
    case _ => true
  }

  /** All operations of the expression are accepted. */
  predicate Accepted(e: Expr) {
    match e
    case Literal(n) => true
    case One(op, x) => Accepted(x) && Accepts1(op, Value(x))
    case Two(op, left, right) => Accepted(left) && Accepted(right) && Accepts2(op, Value(left), Value(right))
    case Within(y, low, high) => Accepted(y) && Accepted(low) && Accepted(high)
  }

  lemma InRangeIff(x: int)
    ensures InRange(x) <==> BigInteger.CheckBigInteger(x)
  {
    hide BigInteger.CheckBigInteger, Pow2, Pow256;
    BigInteger.CheckBigIntegerIff(x);
    SevenMoreBits(31);
  }

  lemma SevenMoreBits(k: nat)
    ensures Pow2(8 * k) == Pow256(k) && Pow2(8 * k + 7) == 128 * Pow256(k)
  {
    Pow2Eight(k);
    Pow2Add(7, 8 * k);
    assert Pow2(7) == 128;
  }

  // ---- their code ----------------------------------------------------------------------------

  function Opcode1(op: Operator1): byte {
    match op
    case Increment => 0x8B
    case Decrement => 0x8C
    case Sign => 0x8D
    case Negation => 0x8F
    case Absolute => 0x90
    case Not => 0x91
  }

  function Opcode2(op: Operator2): byte {
    match op
    case Plus => 0x93
    case Minus => 0x94
    case Times => 0x95
    case LeftShift => 0x98
    case RightShift => 0x99
    case And => 0x9A
    case Or => 0x9B
    case Equal => 0x9C
    case NotEqual => 0x9E
    case Less => 0x9F
    case Greater => 0xA0
    case AtMost => 0xA1
    case AtLeast => 0xA2
    case Smaller => 0xA3
    case Larger => 0xA4
  }

  /** Operands before operators, left before right. */
  function Code(e: Expr): seq<Command> {
    match e
    case Literal(n) => [Push(Number(n))]
    case One(op, x) => Code(x) + [Op(Opcode1(op))]
    case Two(op, left, right) => Code(left) + Code(right) + [Op(Opcode2(op))]
    case Within(y, low, high) => Code(y) + Code(low) + Code(high) + [Op(0xA5)]
  }

  /** Operators cost one unit each, literals nothing. */
  function Cost(e: Expr): nat {
    match e
    case Literal(n) => 0
    case One(op, x) => Cost(x) + 1
    case Two(op, left, right) => Cost(left) + Cost(right) + 1
    case Within(y, low, high) => Cost(y) + Cost(low) + Cost(high) + 1
  }

  /** How many items the code has on the stack at once. */
  function Depth(e: Expr): (n: nat)
    ensures n >= 1
  {
    match e
    case Literal(n) => 1
    case One(op, x) => Depth(x)
    case Two(op, left, right) => Max(Depth(left), 1 + Depth(right))
    case Within(y, low, high) => Max(Depth(y), Max(1 + Depth(low), 2 + Depth(high)))
  }

  function Max(a: nat, b: nat): nat {
    if a <= b then b else a
  }

  /** No literal is larger than an item may be. */
  predicate LiteralsFit(e: Expr) {
    match e
    case Literal(n) => PushesItem(Number(n))
    case One(op, x) => LiteralsFit(x)
    case Two(op, left, right) => LiteralsFit(left) && LiteralsFit(right)
    case Within(y, low, high) => LiteralsFit(y) && LiteralsFit(low) && LiteralsFit(high)
  }

  /** Comparisons and logic leave a Boolean, the others an Integer. */
  function ResultItem(logical: bool, value: int): Item {
    if logical then Boolean(value != 0) else Integer(value)
  }

  predicate IsLogical(op: Operator2) {
    op in {And, Or, Equal, NotEqual, Less, Greater, AtMost, AtLeast}
  }

  function ItemOf(e: Expr): Item
    requires LiteralsFit(e)
  {
    match e
    case Literal(n) => ArgItem(Number(n))
    case One(op, x) => ResultItem(op == Not, Value(e))
    case Two(op, left, right) => ResultItem(IsLogical(op), Value(e))
    case Within(y, low, high) => ResultItem(true, Value(e))
  }

  ghost predicate IsWorth(x: Item, value: int) {
    GetBigInteger(x) == Some(value) && (GetBoolean(x) <==> value != 0)
  }

  /** As a number the item of an expression is its value; as a truth value it is whether that is not 0. */
  lemma ItemOfValue(e: Expr)
    requires LiteralsFit(e)
    ensures IsWorth(ItemOf(e), Value(e))
  {
    hide GetBoolean, PushesItem, ArgItem, InRange, Pow2;
    BooleanOfNumber(ItemOf(e));
    match e {
      case Literal(n) => ArgItemValue(Number(n));
      case _ =>
    }
  }

  lemma BooleanOfNumber(x: Item)
    ensures GetBigInteger(x).Some? ==> (GetBoolean(x) <==> GetBigInteger(x).value != 0)
  {
    if x.ByteArray? {
      ZeroBytes(x.bytes);
    }
  }

  /** Items are numbers exactly if they are bytes, and then the bytes of their number; the others are true. */
  lemma BytesOfNumber(x: Item)
    ensures GetByteArray(x).Some? <==> GetBigInteger(x).Some?
    ensures GetByteArray(x).Some? ==> FromLESigned(GetByteArray(x).value) == GetBigInteger(x).value
    ensures x.Boolean? ==> |GetByteArray(x).value| == GetBigInteger(x).value
    ensures GetBigInteger(x).None? <==> x.Interop? || x.Ref?
    ensures GetBigInteger(x).None? ==> GetBoolean(x)
  {
    if x.Integer? {
      BigInteger.RoundTrip(x.n);
    } else if x.Boolean? && x.value {
      assert FromLE([1]) == 1 + 256 * FromLE([1][1..]);
    }
  }

  lemma {:induction false} ZeroBytes(b: seq<byte>)
    ensures FromLE(b) == 0 <==> forall i :: 0 <= i < |b| ==> b[i] == 0
    ensures FromLESigned(b) == 0 <==> forall i :: 0 <= i < |b| ==> b[i] == 0
  {
    if b != [] {
      ZeroBytes(b[1..]);
      assert forall i :: 1 <= i < |b| ==> b[i] == b[1..][i - 1];
    }
  }

  // ---- one operator --------------------------------------------------------------------------

  lemma Local1(env: Env, op: Operator1, base: seq<Item>, x: Item, alt: seq<Item>, heap: Heap)
    requires GetBigInteger(x).Some?
    ensures var v := GetBigInteger(x).value;
      ExecLocal(env, Instruction(Opcode1(op), []), base + [x], alt, heap) == if !Accepts1(op, v) then Failed else
        Moved(base + [ResultItem(op == Not, Result1(op, v))], alt, heap,
          if op == Not then [SizeCheck(false, 0)] else [], false)
  {
    hide BigInteger.CheckBigInteger, InRange, GetBigInteger, GetBoolean;
    var v := GetBigInteger(x).value;
    BooleanOfNumber(x);
    InRangeIff(v);
    InRangeIff(v + 1);
    InRangeIff(v - 1);
    if op == Decrement && v > 0 && InRange(v) { BelowInRange(v); }
    assert (base + [x])[..|base|] == base;
  }

  lemma BelowInRange(x: int)
    requires InRange(x) && x > 0
    ensures InRange(x - 1)
  {
    hide Pow2;
    Pow2Positive(255);
    Pow2Positive(248);
  }

  lemma Pow2Positive(n: nat)
    ensures Pow2(n) >= 1
  {
  }

  /** What a binary operator does to the items on top of the stack, the deeper one being the left. */
  ghost predicate RightLocal2(env: Env, op: Operator2, base: seq<Item>, x: Item, y: Item, alt: seq<Item>, heap: Heap)
    requires GetBigInteger(x).Some? && GetBigInteger(y).Some?
  {
    var a, b := GetBigInteger(x).value, GetBigInteger(y).value;
    ExecLocal(env, Instruction(Opcode2(op), []), base + [x, y], alt, heap) == if !Accepts2(op, a, b) then Failed else
      Moved(base + [ResultItem(IsLogical(op), Result2(op, a, b))], alt, heap,
        [SizeCheck(op != And && op != Or, -1)], false)
  }

  lemma LocalSum(env: Env, op: Operator2, base: seq<Item>, x: Item, y: Item, alt: seq<Item>, heap: Heap)
    requires GetBigInteger(x).Some? && GetBigInteger(y).Some? && op in {Plus, Minus, Times}
    ensures RightLocal2(env, op, base, x, y, alt, heap)
  {
    hide BigInteger.CheckBigInteger, InRange, GetBigInteger, GetBoolean, Pow2;
    var a, b := GetBigInteger(x).value, GetBigInteger(y).value;
    InRangeIff(a);
    InRangeIff(b);
    InRangeIff(Result2(op, a, b));
    assert (base + [x, y])[..|base|] == base;
  }

  lemma LocalShift(env: Env, op: Operator2, base: seq<Item>, x: Item, y: Item, alt: seq<Item>, heap: Heap)
    requires GetBigInteger(x).Some? && GetBigInteger(y).Some? && op in {LeftShift, RightShift}
    ensures RightLocal2(env, op, base, x, y, alt, heap)
  {
    hide BigInteger.CheckBigInteger, InRange, GetBigInteger, GetBoolean, Pow2;
    var a, b := GetBigInteger(x).value, GetBigInteger(y).value;
    InRangeIff(a);
    InRangeIff(b);
    InRangeIff(Result2(op, a, b));
    assert (base + [x, y])[..|base|] == base;
  }

  lemma LocalLogic(env: Env, op: Operator2, base: seq<Item>, x: Item, y: Item, alt: seq<Item>, heap: Heap)
    requires GetBigInteger(x).Some? && GetBigInteger(y).Some? && op in {And, Or}
    ensures RightLocal2(env, op, base, x, y, alt, heap)
  {
    hide BigInteger.CheckBigInteger, InRange, GetBigInteger, GetBoolean, Pow2;
    var a, b := GetBigInteger(x).value, GetBigInteger(y).value;
    BooleanOfNumber(x);
    BooleanOfNumber(y);
    assert (base + [x, y])[..|base|] == base;
  }

  lemma LocalOrder(env: Env, op: Operator2, base: seq<Item>, x: Item, y: Item, alt: seq<Item>, heap: Heap)
    requires GetBigInteger(x).Some? && GetBigInteger(y).Some? && op in {Equal, NotEqual, Less, Greater}
    ensures RightLocal2(env, op, base, x, y, alt, heap)
  {
    hide BigInteger.CheckBigInteger, InRange, GetBigInteger, GetBoolean, Pow2;
    var a, b := GetBigInteger(x).value, GetBigInteger(y).value;
    assert (base + [x, y])[..|base|] == base;
  }

  lemma LocalBound(env: Env, op: Operator2, base: seq<Item>, x: Item, y: Item, alt: seq<Item>, heap: Heap)
    requires GetBigInteger(x).Some? && GetBigInteger(y).Some? && op in {AtMost, AtLeast}
    ensures RightLocal2(env, op, base, x, y, alt, heap)
  {
    hide BigInteger.CheckBigInteger, InRange, GetBigInteger, GetBoolean, Pow2;
    var a, b := GetBigInteger(x).value, GetBigInteger(y).value;
    assert (base + [x, y])[..|base|] == base;
  }

  lemma LocalExtreme(env: Env, op: Operator2, base: seq<Item>, x: Item, y: Item, alt: seq<Item>, heap: Heap)
    requires GetBigInteger(x).Some? && GetBigInteger(y).Some? && op in {Smaller, Larger}
    ensures RightLocal2(env, op, base, x, y, alt, heap)
  {
    hide BigInteger.CheckBigInteger, InRange, GetBigInteger, GetBoolean, Pow2;
    var a, b := GetBigInteger(x).value, GetBigInteger(y).value;
    assert (base + [x, y])[..|base|] == base;
  }

  lemma Local2(env: Env, op: Operator2, base: seq<Item>, x: Item, y: Item, alt: seq<Item>, heap: Heap)
    requires GetBigInteger(x).Some? && GetBigInteger(y).Some?
    ensures RightLocal2(env, op, base, x, y, alt, heap)
  {
    hide *;
    match op {
      case Plus | Minus | Times => LocalSum(env, op, base, x, y, alt, heap);
      case LeftShift | RightShift => LocalShift(env, op, base, x, y, alt, heap);
      case And | Or => LocalLogic(env, op, base, x, y, alt, heap);
      case Equal | NotEqual | Less | Greater => LocalOrder(env, op, base, x, y, alt, heap);
      case AtMost | AtLeast => LocalBound(env, op, base, x, y, alt, heap);
      case Smaller | Larger => LocalExtreme(env, op, base, x, y, alt, heap);
    }
  }

  lemma LocalWithin(env: Env, base: seq<Item>, x: Item, y: Item, z: Item, alt: seq<Item>, heap: Heap)
    requires GetBigInteger(x).Some? && GetBigInteger(y).Some? && GetBigInteger(z).Some?
    ensures var v, low, high := GetBigInteger(x).value, GetBigInteger(y).value, GetBigInteger(z).value;
      ExecLocal(env, Instruction(0xA5, []), base + [x, y, z], alt, heap)
        == Moved(base + [Boolean(low <= v < high)], alt, heap, [SizeCheck(true, -2)], false)
  {
    hide GetBigInteger;
    var es, n := base + [x, y, z], |base| + 3;
    assert es[n - 3] == x && es[n - 2] == y && es[n - 1] == z;
    assert es[..|base|] == base;
  }

  // ---- whole expressions ---------------------------------------------------------------------

  function Listed(e: Expr): seq<Instruction> {
    MeaningAll(Code(e))
  }

  lemma ListedAppend(a: seq<Command>, b: seq<Command>)
    ensures MeaningAll(a + b) == MeaningAll(a) + MeaningAll(b)
  {
    ConcatMapAppend(Meaning, a, b);
  }

  lemma ListedOp(op: byte)
    ensures MeaningAll([Op(op)]) == [Instruction(op, [])]
  {
    ConcatMapOne(Meaning, Op(op));
  }

  lemma LiteralListed(n: int)
    ensures Listed(Literal(n)) == Pushes([Number(n)])
  {
    hide PushList;
    ConcatMapOne(Meaning, Push(Number(n)));
    ConcatMapOne(PushList, Number(n));
  }

  lemma OneListed(op: Operator1, x: Expr, rest: seq<Instruction>)
    ensures Listed(One(op, x)) + rest == Listed(x) + ([Instruction(Opcode1(op), [])] + rest)
  {
    hide Opcode1, MeaningAll;
    ListedAppend(Code(x), [Op(Opcode1(op))]);
    ListedOp(Opcode1(op));
    Associate(Listed(x), [Instruction(Opcode1(op), [])], rest);
  }

  lemma TwoListed(op: Operator2, x: Expr, y: Expr, rest: seq<Instruction>)
    ensures Listed(Two(op, x, y)) + rest == Listed(x) + (Listed(y) + ([Instruction(Opcode2(op), [])] + rest))
  {
    hide Opcode2, MeaningAll;
    ListedAppend(Code(x) + Code(y), [Op(Opcode2(op))]);
    ListedAppend(Code(x), Code(y));
    ListedOp(Opcode2(op));
  }

  lemma WithinListed(x: Expr, y: Expr, z: Expr, rest: seq<Instruction>)
    ensures Listed(Within(x, y, z)) + rest
      == Listed(x) + (Listed(y) + (Listed(z) + ([Instruction(0xA5, [])] + rest)))
  {
    hide MeaningAll;
    ListedAppend(Code(x) + Code(y) + Code(z), [Op(0xA5)]);
    ListedAppend(Code(x) + Code(y), Code(z));
    ListedAppend(Code(x), Code(y));
    ListedOp(0xA5);
  }

  /** The engine has room, gas and the code of the expression in front of it. */
  ghost predicate Prepared(env: Env, s: State, e: Expr, rest: seq<Instruction>) {
    && Ready(env, s, Depth(e)) && s.gas + Cost(e) * RATIO <= env.gasAmount && LiteralsFit(e)
    && CodeAt(Current(s).script, Current(s).ip, Listed(e) + rest)
  }

  /** The code has left the item of the expression on the stack, at the price of its operators. */
  ghost predicate Delivers(env: Env, s: State, r: State, e: Expr, length: nat, rest: seq<Instruction>)
    requires LiteralsFit(e) && s.frames != []
  {
    && Runs(env, s, r, length, Current(s).estack + [ItemOf(e)], Current(s).astack, Cost(e))
    && r.itemCount == s.itemCount + 1 && CodeAt(Current(s).script, Current(s).ip + length, rest)
  }

  lemma LiteralRuns(env: Env, s: State, n: int, rest: seq<Instruction>) returns (r: State, length: nat)
    requires Prepared(env, s, Literal(n), rest)
    ensures Delivers(env, s, r, Literal(n), length, rest)
  {
    hide Reaches, CodeAt, PushesItem, ArgItem, Listed, Pushes;
    LiteralListed(n);
    assert PushesItem([Number(n)][0]);
    r, length := RunCode(env, s, [Number(n)], rest);
    assert ArgItems([Number(n)]) == [ArgItem(Number(n))];
  }

  /** What the state is after an operand. */
  lemma Delivered(env: Env, s: State, t: State, e: Expr, length: nat, rest: seq<Instruction>, room: nat)
    requires LiteralsFit(e) && s.frames != [] && Delivers(env, s, t, e, length, rest)
    requires Ready(env, s, room) && room >= 1 && s.gas + Cost(e) * RATIO <= env.gasAmount
    ensures Ready(env, t, room - 1) && t.gas == s.gas + Cost(e) * RATIO && t.itemCount == s.itemCount + 1
    ensures Current(t).estack == Current(s).estack + [ItemOf(e)] && Current(t).astack == Current(s).astack
    ensures Current(t).script == Current(s).script && t.heap == s.heap
    ensures CodeAt(Current(t).script, Current(t).ip, rest) && Reaches(env, s, t)
  {
    hide Reaches, CodeAt, ItemOf, Cost, LiteralsFit;
  }

  /** An operator that ends the code of an expression. */
  lemma OperatorDelivers(env: Env, s: State, t: State, op: byte, e: Expr, length: nat, price: nat, es: seq<Item>,
      rest: seq<Instruction>) returns (r: State)
    requires Ready(env, t, 0) && t.gas + RATIO <= env.gasAmount && s.frames != [] && LiteralsFit(e)
    requires Runs(env, s, t, length, es, Current(s).astack, price) && price + 1 == Cost(e)
    requires CodeAt(Current(t).script, Current(t).ip, [Instruction(op, [])] + rest) && Plain(op)
    requires var out := ExecLocal(env, Instruction(op, []), es, Current(s).astack, s.heap);
      out.Moved? ==>
        && out == Moved(Current(s).estack + [ItemOf(e)], Current(s).astack, s.heap, out.checks, out.enforced)
        && |out.checks| <= 1 && 0 <= s.itemCount + 1 <= MAX_STACK_SIZE
        && t.itemCount + (if out.checks == [] then 0 else out.checks[0].delta) == s.itemCount + 1
    ensures Reaches(env, s, r)
    ensures if ExecLocal(env, Instruction(op, []), es, Current(s).astack, s.heap).Moved?
      then Delivers(env, s, r, e, length + 1, rest) else r.status == Fault
  {
    hide *;
    var out := ExecLocal(env, Instruction(op, []), es, Current(s).astack, s.heap);
    RunsPlace(env, s, t, length, es, Current(s).astack, price);
    r := LocalRuns(env, t, op, out, rest);
    ReachesTrans(env, s, t, r);
    if out.Moved? {
      RunsTrans(env, s, t, r, length, 1, es, Current(s).astack, out.estack, out.astack, price, 1);
      DeliveredBy(env, s, r, e, length + 1, rest);
    }
  }

  lemma DeliveredBy(env: Env, s: State, r: State, e: Expr, length: nat, rest: seq<Instruction>)
    requires LiteralsFit(e) && s.frames != []
    requires Runs(env, s, r, length, Current(s).estack + [ItemOf(e)], Current(s).astack, Cost(e))
    requires r.itemCount == s.itemCount + 1 && CodeAt(Current(s).script, Current(s).ip + length, rest)
    ensures Delivers(env, s, r, e, length, rest)
  {
    hide Runs, CodeAt, ItemOf, Cost, LiteralsFit;
  }

  lemma OperatorsPlain()
    ensures forall op: Operator1 :: Plain(Opcode1(op))
    ensures forall op: Operator2 :: Plain(Opcode2(op))
    ensures Plain(0xA5)
  {
  }

  lemma Item1(env: Env, op: Operator1, x: Expr, base: seq<Item>, alt: seq<Item>, heap: Heap)
    requires LiteralsFit(x)
    ensures LiteralsFit(One(op, x)) && Cost(One(op, x)) == Cost(x) + 1 && Plain(Opcode1(op))
    ensures ExecLocal(env, Instruction(Opcode1(op), []), base + [ItemOf(x)], alt, heap)
      == if !Accepts1(op, Value(x)) then Failed else
        Moved(base + [ItemOf(One(op, x))], alt, heap, if op == Not then [SizeCheck(false, 0)] else [], false)
  {
    hide ExecLocal, GetBigInteger, GetBoolean, PushesItem, ArgItem, Plain, Result1, Accepts1, Opcode1;
    ItemOfValue(x);
    Local1(env, op, base, ItemOf(x), alt, heap);
    OperatorsPlain();
  }

  lemma Item2(env: Env, op: Operator2, x: Expr, y: Expr, base: seq<Item>, alt: seq<Item>, heap: Heap)
    requires LiteralsFit(x) && LiteralsFit(y)
    ensures LiteralsFit(Two(op, x, y)) && Cost(Two(op, x, y)) == Cost(x) + Cost(y) + 1 && Plain(Opcode2(op))
    ensures ExecLocal(env, Instruction(Opcode2(op), []), base + [ItemOf(x), ItemOf(y)], alt, heap)
      == if !Accepts2(op, Value(x), Value(y)) then Failed else
        Moved(base + [ItemOf(Two(op, x, y))], alt, heap, [SizeCheck(op != And && op != Or, -1)], false)
  {
    hide ExecLocal, GetBigInteger, GetBoolean, PushesItem, ArgItem, Plain, Result2, Accepts2, Opcode2;
    ItemOfValue(x);
    ItemOfValue(y);
    Local2(env, op, base, ItemOf(x), ItemOf(y), alt, heap);
    OperatorsPlain();
  }

  lemma ItemWithin(env: Env, x: Expr, y: Expr, z: Expr, base: seq<Item>, alt: seq<Item>, heap: Heap)
    requires LiteralsFit(x) && LiteralsFit(y) && LiteralsFit(z)
    ensures LiteralsFit(Within(x, y, z)) && Cost(Within(x, y, z)) == Cost(x) + Cost(y) + Cost(z) + 1 && Plain(0xA5)
    ensures ExecLocal(env, Instruction(0xA5, []), base + [ItemOf(x), ItemOf(y), ItemOf(z)], alt, heap)
      == Moved(base + [ItemOf(Within(x, y, z))], alt, heap, [SizeCheck(true, -2)], false)
  {
    hide ExecLocal, GetBigInteger, GetBoolean, PushesItem, ArgItem, Plain;
    ItemOfValue(x);
    ItemOfValue(y);
    ItemOfValue(z);
    LocalWithin(env, base, ItemOf(x), ItemOf(y), ItemOf(z), alt, heap);
    OperatorsPlain();
  }

  /** What running the operands of `e` needs. */
  lemma PreparedFacts(env: Env, s: State, e: Expr, rest: seq<Instruction>)
    requires Prepared(env, s, e, rest)
    ensures Ready(env, s, Depth(e)) && s.frames != [] && LiteralsFit(e) && 0 <= s.itemCount + 1 <= MAX_STACK_SIZE
    ensures s.gas + Cost(e) * RATIO <= env.gasAmount
    ensures e.One? ==> LiteralsFit(e.x) && Depth(e.x) == Depth(e) && Cost(e) == Cost(e.x) + 1
    ensures e.Two? ==> Ready(env, s, 2) && LiteralsFit(e.left) && LiteralsFit(e.right)
    ensures e.Two? ==> Cost(e) == Cost(e.left) + Cost(e.right) + 1
    ensures e.Within? ==> Ready(env, s, 3) && LiteralsFit(e.y) && LiteralsFit(e.low) && LiteralsFit(e.high)
    ensures e.Within? ==> Cost(e) == Cost(e.y) + Cost(e.low) + Cost(e.high) + 1
  {
    hide CodeAt, PushesItem;
  }

  /** One unit is left for the operator. */
  lemma OneUnitLeft(gas: int, amount: int, price: nat)
    requires gas + (price + 1) * RATIO <= amount
    ensures gas + price * RATIO <= amount && gas + price * RATIO + RATIO <= amount
  {
  }

  lemma OneDelivers(env: Env, s: State, t: State, op: Operator1, x: Expr, a: nat, rest: seq<Instruction>)
      returns (r: State)
    requires Prepared(env, s, One(op, x), rest)
    requires LiteralsFit(x) && s.frames != [] && Delivers(env, s, t, x, a, [Instruction(Opcode1(op), [])] + rest)
    ensures Reaches(env, s, r)
    ensures if Accepts1(op, Value(x)) then Delivers(env, s, r, One(op, x), a + 1, rest) else r.status == Fault
  {
    hide *;
    var base, alt := Current(s).estack, Current(s).astack;
    PreparedFacts(env, s, One(op, x), rest);
    OneUnitLeft(s.gas, env.gasAmount, Cost(x));
    OperandsRun1(env, s, t, x, a, [Instruction(Opcode1(op), [])] + rest, Depth(x));
    Item1(env, op, x, base, alt, s.heap);
    r := OperatorDelivers(env, s, t, Opcode1(op), One(op, x), a, Cost(x), base + [ItemOf(x)], rest);
  }

  lemma TwoDelivers(env: Env, s: State, t: State, u: State, op: Operator2, x: Expr, y: Expr, a: nat, b: nat,
      rest: seq<Instruction>) returns (r: State)
    requires Prepared(env, s, Two(op, x, y), rest) && LiteralsFit(x) && LiteralsFit(y)
    requires s.frames != [] && t.frames != []
    requires Delivers(env, s, t, x, a, Listed(y) + ([Instruction(Opcode2(op), [])] + rest))
    requires Delivers(env, t, u, y, b, [Instruction(Opcode2(op), [])] + rest)
    ensures Reaches(env, s, r)
    ensures if Accepts2(op, Value(x), Value(y)) then Delivers(env, s, r, Two(op, x, y), a + b + 1, rest)
      else r.status == Fault
  {
    hide *;
    var base, alt, last := Current(s).estack, Current(s).astack, [Instruction(Opcode2(op), [])] + rest;
    PreparedFacts(env, s, Two(op, x, y), rest);
    OneUnitLeft(s.gas, env.gasAmount, Cost(x) + Cost(y));
    OperandsRun2(env, s, t, u, x, y, a, b, Listed(y) + last, last);
    Item2(env, op, x, y, base, alt, s.heap);
    r := OperatorDelivers(env, s, u, Opcode2(op), Two(op, x, y), a + b, Cost(x) + Cost(y),
      base + [ItemOf(x), ItemOf(y)], rest);
  }

  lemma OperandsRun1(env: Env, s: State, t: State, x: Expr, a: nat, last: seq<Instruction>, room: nat)
    requires LiteralsFit(x) && Ready(env, s, room) && room >= 1 && s.gas + Cost(x) * RATIO <= env.gasAmount
    requires Delivers(env, s, t, x, a, last)
    ensures Ready(env, t, 0) && t.gas == s.gas + Cost(x) * RATIO
    ensures t.itemCount == s.itemCount + 1 && CodeAt(Current(t).script, Current(t).ip, last)
    ensures Runs(env, s, t, a, Current(s).estack + [ItemOf(x)], Current(s).astack, Cost(x))
  {
    hide Reaches, CodeAt, LiteralsFit, ItemOf, Cost, Runs;
    Delivered(env, s, t, x, a, last, room);
  }

  lemma OperandsRun2(env: Env, s: State, t: State, u: State, x: Expr, y: Expr, a: nat, b: nat,
      tail: seq<Instruction>, last: seq<Instruction>)
    requires LiteralsFit(x) && LiteralsFit(y) && Ready(env, s, 2)
    requires s.gas + (Cost(x) + Cost(y)) * RATIO <= env.gasAmount
    requires Delivers(env, s, t, x, a, tail) && t.frames != [] && Delivers(env, t, u, y, b, last)
    ensures Ready(env, u, 0) && u.gas == s.gas + (Cost(x) + Cost(y)) * RATIO
    ensures u.itemCount == s.itemCount + 2 && CodeAt(Current(u).script, Current(u).ip, last)
    ensures Runs(env, s, u, a + b, Current(s).estack + [ItemOf(x), ItemOf(y)], Current(s).astack, Cost(x) + Cost(y))
  {
    hide Reaches, CodeAt, LiteralsFit, ItemOf, Cost, Runs;
    var base, alt := Current(s).estack, Current(s).astack;
    Delivered(env, s, t, x, a, tail, 2);
    Delivered(env, t, u, y, b, last, 1);
    assert base + [ItemOf(x)] + [ItemOf(y)] == base + [ItemOf(x), ItemOf(y)];
    RunsTrans(env, s, t, u, a, b, base + [ItemOf(x)], alt, base + [ItemOf(x), ItemOf(y)], alt, Cost(x), Cost(y));
  }

  lemma OperandsRun3(env: Env, s: State, t: State, u: State, v: State, x: Expr, y: Expr, z: Expr, a: nat, b: nat,
      c: nat, tail1: seq<Instruction>, tail2: seq<Instruction>, last: seq<Instruction>)
    requires LiteralsFit(x) && LiteralsFit(y) && LiteralsFit(z) && Ready(env, s, 3)
    requires s.gas + (Cost(x) + Cost(y) + Cost(z)) * RATIO <= env.gasAmount
    requires Delivers(env, s, t, x, a, tail1) && t.frames != [] && Delivers(env, t, u, y, b, tail2)
    requires u.frames != [] && Delivers(env, u, v, z, c, last)
    ensures Ready(env, v, 0) && v.gas == s.gas + (Cost(x) + Cost(y) + Cost(z)) * RATIO
    ensures v.itemCount == s.itemCount + 3 && CodeAt(Current(v).script, Current(v).ip, last)
    ensures Runs(env, s, v, a + b + c, Current(s).estack + [ItemOf(x), ItemOf(y), ItemOf(z)], Current(s).astack,
      Cost(x) + Cost(y) + Cost(z))
  {
    hide Reaches, CodeAt, LiteralsFit, ItemOf, Cost, Runs, Delivers;
    var base, alt := Current(s).estack, Current(s).astack;
    OperandsRun2(env, s, t, u, x, y, a, b, tail1, tail2);
    Delivered(env, s, t, x, a, tail1, 3);
    Delivered(env, t, u, y, b, tail2, 2);
    OperandsRun1(env, u, v, z, c, last, 1);
    var two, three := base + [ItemOf(x), ItemOf(y)], base + [ItemOf(x), ItemOf(y), ItemOf(z)];
    assert base + [ItemOf(x)] + [ItemOf(y)] == two && two + [ItemOf(z)] == three;
    RunsTrans(env, s, u, v, a + b, c, two, alt, three, alt, Cost(x) + Cost(y), Cost(z));
  }

  lemma WithinDelivers(env: Env, s: State, t: State, u: State, v: State, x: Expr, y: Expr, z: Expr, a: nat, b: nat,
      c: nat, rest: seq<Instruction>) returns (r: State)
    requires Prepared(env, s, Within(x, y, z), rest) && LiteralsFit(x) && LiteralsFit(y) && LiteralsFit(z)
    requires s.frames != [] && t.frames != [] && u.frames != []
    requires var last := [Instruction(0xA5, [])] + rest;
      Delivers(env, s, t, x, a, Listed(y) + (Listed(z) + last)) && Delivers(env, t, u, y, b, Listed(z) + last)
      && Delivers(env, u, v, z, c, last)
    ensures Reaches(env, s, r) && Delivers(env, s, r, Within(x, y, z), a + b + c + 1, rest)
  {
    hide *;
    var e, base, alt, last := Within(x, y, z), Current(s).estack, Current(s).astack, [Instruction(0xA5, [])] + rest;
    PreparedFacts(env, s, e, rest);
    OneUnitLeft(s.gas, env.gasAmount, Cost(x) + Cost(y) + Cost(z));
    OperandsRun3(env, s, t, u, v, x, y, z, a, b, c, Listed(y) + (Listed(z) + last), Listed(z) + last, last);
    ItemWithin(env, x, y, z, base, alt, s.heap);
    r := OperatorDelivers(env, s, v, 0xA5, e, a + b + c, Cost(x) + Cost(y) + Cost(z),
      base + [ItemOf(x), ItemOf(y), ItemOf(z)], rest);
  }

  lemma OnePrepared(env: Env, s: State, op: Operator1, x: Expr, rest: seq<Instruction>)
    requires Prepared(env, s, One(op, x), rest)
    ensures Prepared(env, s, x, [Instruction(Opcode1(op), [])] + rest)
  {
    hide CodeAt, Listed, Opcode1, PushesItem;
    OneListed(op, x, rest);
  }

  lemma TwoPrepared(env: Env, s: State, op: Operator2, x: Expr, y: Expr, rest: seq<Instruction>)
    requires Prepared(env, s, Two(op, x, y), rest)
    ensures Prepared(env, s, x, Listed(y) + ([Instruction(Opcode2(op), [])] + rest))
  {
    hide CodeAt, Listed, Opcode2, PushesItem;
    TwoListed(op, x, y, rest);
  }

  lemma WithinPrepared(env: Env, s: State, x: Expr, y: Expr, z: Expr, rest: seq<Instruction>)
    requires Prepared(env, s, Within(x, y, z), rest)
    ensures Prepared(env, s, x, Listed(y) + (Listed(z) + ([Instruction(0xA5, [])] + rest)))
  {
    hide CodeAt, Listed, PushesItem;
    WithinListed(x, y, z, rest);
  }

  /** After one operand the engine is prepared for the next. */
  lemma OperandPrepared(env: Env, s: State, t: State, x: Expr, length: nat, y: Expr, tail: seq<Instruction>,
      room: nat, price: nat)
    requires LiteralsFit(x) && LiteralsFit(y) && Ready(env, s, room) && room >= 1 + Depth(y)
    requires Delivers(env, s, t, x, length, Listed(y) + tail)
    requires price >= Cost(x) + Cost(y) && s.gas + price * RATIO <= env.gasAmount
    ensures Prepared(env, t, y, tail) && Ready(env, t, room - 1)
    ensures t.gas + (price - Cost(x)) * RATIO <= env.gasAmount
  {
    hide CodeAt, Listed, Delivers, LiteralsFit, Depth, Cost;
    Delivered(env, s, t, x, length, Listed(y) + tail, room);
  }

  /**
   * In front of anything, the code of an expression whose operations are all accepted runs to the item of its
   * value; otherwise it runs to a fault.
   */
  lemma {:induction false} Computes(env: Env, s: State, e: Expr, rest: seq<Instruction>)
      returns (r: State, length: nat)
    requires Prepared(env, s, e, rest)
    ensures Reaches(env, s, r)
    ensures if Accepted(e) then Delivers(env, s, r, e, length, rest) else r.status == Fault
    decreases e
  {
    hide Reaches, Delivers, Listed, CodeAt, Result1, Result2, Accepts1, Accepts2, Value, Opcode1, Opcode2, PushesItem;
    length := 0;
    match e {
      case Literal(n) =>
        r, length := LiteralRuns(env, s, n, rest);
        ReachesDelivered(env, s, r, e, length, rest);
      case One(op, x) =>
        OnePrepared(env, s, op, x, rest);
        r, length := Computes(env, s, x, [Instruction(Opcode1(op), [])] + rest);
        if Accepted(x) {
          r := OneDelivers(env, s, r, op, x, length, rest);
          length := length + 1;
        }
      case Two(op, x, y) =>
        var last := [Instruction(Opcode2(op), [])] + rest;
        TwoPrepared(env, s, op, x, y, rest);
        var t, a := Computes(env, s, x, Listed(y) + last);
        r := t;
        if Accepted(x) {
          OperandPrepared(env, s, t, x, a, y, last, Depth(e), Cost(e));
          var u, b := Computes(env, t, y, last);
          r := u;
          ReachesTrans(env, s, t, u);
          if Accepted(y) {
            r := TwoDelivers(env, s, t, u, op, x, y, a, b, rest);
            length := a + b + 1;
          }
        }
      case Within(x, y, z) =>
        var last := [Instruction(0xA5, [])] + rest;
        WithinPrepared(env, s, x, y, z, rest);
        var t, a := Computes(env, s, x, Listed(y) + (Listed(z) + last));
        r := t;
        if Accepted(x) {
          OperandPrepared(env, s, t, x, a, y, Listed(z) + last, Depth(e), Cost(e));
          var u, b := Computes(env, t, y, Listed(z) + last);
          r := u;
          ReachesTrans(env, s, t, u);
          if Accepted(y) {
            OperandPrepared(env, t, u, y, b, z, last, Depth(e) - 1, Cost(y) + Cost(z));
            var v, c := Computes(env, u, z, last);
            r := v;
            ReachesTrans(env, s, u, v);
            if Accepted(z) {
              r := WithinDelivers(env, s, t, u, v, x, y, z, a, b, c, rest);
              length := a + b + c + 1;
            }
          }
        }
    }
  }

  lemma ReachesDelivered(env: Env, s: State, r: State, e: Expr, length: nat, rest: seq<Instruction>)
    requires LiteralsFit(e) && s.frames != [] && Delivers(env, s, r, e, length, rest)
    ensures Reaches(env, s, r)
  {
  }

  // ---- a script of its own -------------------------------------------------------------------

  lemma {:induction false} CodeLegal(e: Expr)
    requires LiteralsFit(e)
    ensures forall i :: 0 <= i < |Code(e)| ==> Legal(Code(e)[i])
  {
    hide Legal, Opcode1, Opcode2, PushesItem, LiteralsFit;
    CommandsLegal(e);
    match e {
      case Literal(n) =>
      case One(op, x) => CodeLegal(x);
      case Two(op, x, y) => CodeLegal(x); CodeLegal(y);
      case Within(x, y, z) => CodeLegal(x); CodeLegal(y); CodeLegal(z);
    }
  }

  lemma CommandsLegal(e: Expr)
    requires LiteralsFit(e)
    ensures match e
      case Literal(n) => Legal(Push(Number(n)))
      case One(op, x) => LiteralsFit(x) && Legal(Op(Opcode1(op)))
      case Two(op, x, y) => LiteralsFit(x) && LiteralsFit(y) && Legal(Op(Opcode2(op)))
      case Within(x, y, z) => LiteralsFit(x) && LiteralsFit(y) && LiteralsFit(z) && Legal(Op(0xA5))
  {
    hide Payload;
  }

  lemma LoadedPrepared(env: Env, e: Expr)
    requires !env.testMode && LiteralsFit(e) && Depth(e) <= 2048 && Cost(e) * 100000 <= env.gasAmount
    ensures var s := Loaded([CodeAll(Code(e))]); Prepared(env, s, e, []) && Sound(env, s)
    ensures var s := Loaded([CodeAll(Code(e))]);
      |s.frames| == 1 && Current(s) == Frame(CodeAll(Code(e)), 0, -1, [], []) && s.gas == 0 && s.results == []
  {
    hide LiteralsFit, Depth, Cost, Code, CodeAt, CodeAll, Listed;
    CodeInPlace(e);
    assert Cost(e) * RATIO >= 0;
  }

  lemma CodeInPlace(e: Expr)
    requires LiteralsFit(e)
    ensures CodeAt(CodeAll(Code(e)), 0, Listed(e) + [])
  {
    hide LiteralsFit, Code, CodeAt, WellFormed, Assemble, Legal;
    CodeLegal(e);
    CodeAllAssembles(Code(e));
    AssembledIsInPlace(CodeAll(Code(e)), Listed(e));
    assert Listed(e) + [] == Listed(e);
  }

  /** At the end of its script the last frame halts with its whole stack as the result. */
  lemma EndHalts(env: Env, s: State) returns (r: State)
    requires s.status == Running && |s.frames| == 1 && Current(s).ip >= |Current(s).script| && Current(s).rvcount == -1
    ensures Reaches(env, s, r) && r.status == Halt && r.results == s.results + Current(s).estack && r.gas == s.gas
  {
    hide Reaches, CheckStackSize, Step;
    r := Step(env, s);
    EndStep(env, s);
    ReachesStep(env, s, r);
  }

  lemma EndStep(env: Env, s: State)
    requires s.frames != [] && Current(s).ip >= |Current(s).script|
    ensures Step(env, s) == DoReturn(env, s.(ops := s.ops + 1))
  {
    hide DoReturn;
  }

  /**
   * An assembled expression, run as a script of its own with gas for its operators, halts exactly if all its
   * operations are accepted. The only result is then the item of its value, and the gas that of the operators.
   */
  lemma ExpressionRuns(env: Env, e: Expr)
    requires !env.testMode && PricesPositive(env) && LiteralsFit(e)
    requires Depth(e) <= 2048 && Cost(e) * 100000 <= env.gasAmount
    ensures Sound(env, Loaded([CodeAll(Code(e))]))
    ensures var r := RunToEnd(env, Loaded([CodeAll(Code(e))]));
      && r.status in {Halt, Fault} && (r.status == Halt <==> Accepted(e))
      && (Accepted(e) ==> r.gas == Cost(e) * 100000 && |r.results| == 1 && IsWorth(r.results[0], Value(e)))
  {
    hide *;
    var s := Loaded([CodeAll(Code(e))]);
    LoadedPrepared(env, e);
    var t, length := Computes(env, s, e, []);
    if Accepted(e) {
      LastDelivered(env, s, t, e, length);
      var r := EndHalts(env, t);
      ReachesTrans(env, s, t, r);
      ReachesEnd(env, s, r);
      Ended(env, r);
      ItemOfValue(e);
    } else {
      ReachesEnd(env, s, t);
      Ended(env, t);
    }
  }

  lemma Ended(env: Env, r: State)
    requires r.status != Running && Sound(env, r) && PricesPositive(env)
    ensures RunToEnd(env, r) == r
  {
    hide PricesPositive;
  }

  lemma LastDelivered(env: Env, s: State, t: State, e: Expr, length: nat)
    requires Prepared(env, s, e, []) && Delivers(env, s, t, e, length, [])
    requires |s.frames| == 1 && s.results == [] && s.gas == 0 && Current(s) == Frame(CodeAll(Code(e)), 0, -1, [], [])
    ensures t.status == Running && |t.frames| == 1 && Current(t).ip >= |Current(t).script| && Current(t).rvcount == -1
    ensures t.results + Current(t).estack == [ItemOf(e)] && t.gas == Cost(e) * 100000 && LiteralsFit(e)
  {
    hide Reaches, CodeAt, LiteralsFit, ItemOf, Cost, Depth, Code, CodeAll, Listed;
    CodeAtFetch(Current(s).script, length, []);
    assert [] + [ItemOf(e)] == [ItemOf(e)];
  }
}
