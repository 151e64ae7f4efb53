/**
 * The four pieces of the multi-signature pipeline agree: redeem script, signature collection, invocation
 * script and the CHECKMULTISIG instruction of the VM.
 */
module MultiSigVerification {
  import opened Arithmetic
  import opened Bytes
  import opened Instructions
  import opened ScriptBuilder
  import opened MultiSig
  import opened SignatureContext
  import opened SignerOrder
  import opened Wrappers
  import opened VM
  import opened VMRuns
  import opened VMScripts
  import CheckMultiSig
  import EC = ECCurve
  import NumberTheory

  // ---- keys and their encoding ---------------------------------------------------------------

  /** A curve whose points decompress: a 32-byte prime, 3 modulo 4. */
  ghost predicate GoodCurve(c: EC.Curve) {
    NumberTheory.Prime(c.p) && c.p % 4 == 3 && Pow256(31) <= c.p < Pow256(32)
  }

  ghost predicate GoodKey(c: EC.Curve, k: Point)
    requires c.p > 0
  {
    EC.InField(c, k) && EC.OnCurve(c, k) && k != EC.INFINITY
  }

  ghost predicate GoodKeys(c: EC.Curve, keys: seq<Point>) {
    GoodCurve(c) && forall i :: 0 <= i < |keys| ==> GoodKey(c, keys[i])
  }

  lemma EncodedRoundTrip(c: EC.Curve, k: Point)
    requires GoodCurve(c) && GoodKey(c, k)
    ensures |Encoded(k)| == 33 && EC.Decode(c, Encoded(k)) == EC.Ok(k)
  {
    EC.OnCurveIff(c, k);
    EC.CompressionRoundTrip(c, k);
    hide EC.Decode, GoodCurve;
  }

  /** Different keys have different encodings. */
  lemma EncodedInjective(c: EC.Curve, j: Point, k: Point)
    requires GoodCurve(c) && GoodKey(c, j) && GoodKey(c, k) && Encoded(j) == Encoded(k)
    ensures j == k
  {
    hide *;
    EncodedRoundTrip(c, j);
    EncodedRoundTrip(c, k);
  }

  // ---- reading the keys back -----------------------------------------------------------------

  lemma KeyCode(k: Point)
    requires |Encoded(k)| == 33
    ensures PushCode(Data(Encoded(k))) == [33] + Encoded(k)
  {
    hide Encoded;
    assert ToLE(33, 0) == [];
  }

  lemma {:induction false} ParseAt(c: EC.Curve, script: seq<byte>, pos: nat, keys: seq<Point>, rest: seq<byte>)
    requires GoodKeys(c, keys) && pos <= |script|
    requires script[pos..] == PushListCode(KeyData(keys)) + rest && rest != [] && rest[0] != 33
    ensures c.p > 0 && ParseKeys(c, script, pos) == Keys(keys)
    decreases |keys|
  {
    hide Encoded, PushCode, EC.Decode, GoodCurve, GoodKey;
    CurvePositive(c);
    if keys == [] {
      assert KeyData(keys) == [];
      assert script[pos] == script[pos..][0];
    } else {
      var k, tail := keys[0], PushListCode(KeyData(keys[1..])) + rest;
      EncodedRoundTrip(c, k);
      KeyCode(k);
      assert KeyData(keys)[1..] == KeyData(keys[1..]);
      assert script[pos..] == [33] + Encoded(k) + tail;
      assert script[pos] == script[pos..][0];
      assert script[pos + 1..pos + 34] == script[pos..][1..34] == Encoded(k);
      assert script[pos + 34..] == script[pos..][34..] == tail;
      ParseAt(c, script, pos + 34, keys[1..], rest);
    }
  }

  lemma CurvePositive(c: EC.Curve)
    requires GoodCurve(c)
    ensures c.p > 0
  {
  }

  lemma NumberCode(n: int)
    requires 1 <= n <= 16
    ensures PushCode(Number(n)) == [PUSH1 - 1 + n]
  {
  }

  /** AddSignature reads exactly the script's keys, in the script's order. */
  lemma RedeemScriptParses(c: EC.Curve, m: int, keys: seq<Point>)
    requires GoodKeys(c, keys) && 1 <= m <= |keys| <= 16
    ensures c.p > 0 && ParseKeys(c, RedeemScript(m, keys), 1) == Keys(SortAscending(keys))
  {
    hide Encoded, PushCode, GoodCurve, GoodKey, SortAscending, ParseKeys;
    CurvePositive(c);
    var sorted, script := SortAscending(keys), RedeemScript(m, keys);
    SortPermutes(keys);
    SortMembers(keys);
    forall i | 0 <= i < |sorted| ensures GoodKey(c, sorted[i]) {
      assert sorted[i] in keys;
    }
    RedeemPushCode(m, keys);
    NumberCode(m);
    NumberCode(|keys|);
    var rest := [PUSH1 - 1 + |keys|] + [CHECKMULTISIG];
    assert script == [PUSH1 - 1 + m] + (PushListCode(KeyData(sorted)) + rest);
    ParseAt(c, script, 1, sorted, rest);
  }

  // ---- collecting the signatures -------------------------------------------------------------

  type Signed = (Point, seq<byte>)

  /** Adding signatures one after the other, as long as every call returns True. */
  function AddAll(c: EC.Curve, script: seq<byte>, ctx: Context, entries: seq<Signed>): Added
    requires c.p > 0
    decreases |entries|
  {
    if entries == [] then Added(true, ctx)
    else
      match WithSignature(c, script, ctx, entries[0].0, entries[0].1)
      case Error => Added.Error
      case Added(ok, next) => if ok then AddAll(c, script, next, entries[1..]) else Added(false, next)
  }

  function Extend(sigs: map<seq<byte>, seq<byte>>, entries: seq<Signed>): map<seq<byte>, seq<byte>>
    decreases |entries|
  {
    if entries == [] then sigs else Extend(sigs[Encoded(entries[0].0) := entries[0].1], entries[1..])
  }

  /** Signers are distinct keys of the list, none of whom has signed yet. */
  ghost predicate NewSigners(points: seq<Point>, sigs: map<seq<byte>, seq<byte>>, entries: seq<Signed>) {
    && (forall i :: 0 <= i < |entries| ==> entries[i].0 in points && Encoded(entries[i].0) !in sigs)
    && (forall i, j :: 0 <= i < j < |entries| ==> Encoded(entries[i].0) != Encoded(entries[j].0))
  }

  ghost predicate DistinctEncodings(points: seq<Point>) {
    forall i, j :: 0 <= i < j < |points| ==> Encoded(points[i]) != Encoded(points[j])
  }

  ghost predicate AllFrom(points: seq<Point>, sigs: map<seq<byte>, seq<byte>>) {
    forall e :: e in sigs ==> exists k :: k in points && Encoded(k) == e
  }

  lemma {:induction false} ExtendKeys(points: seq<Point>, sigs: map<seq<byte>, seq<byte>>, entries: seq<Signed>)
    requires NewSigners(points, sigs, entries) && AllFrom(points, sigs)
    ensures |Extend(sigs, entries)| == |sigs| + |entries| && AllFrom(points, Extend(sigs, entries))
    decreases |entries|
  {
    hide Encoded;
    if entries != [] {
      var e := Encoded(entries[0].0);
      var more := sigs[e := entries[0].1];
      assert more.Keys == sigs.Keys + {e};
      assert |more| == |sigs| + 1 by { assert |more.Keys| == |more| && |sigs.Keys| == |sigs|; }
      assert NewSigners(points, more, entries[1..]);
      ExtendKeys(points, more, entries[1..]);
    }
  }

  /** Every signature is collected once: the keys that have signed are as many as the signatures. */
  lemma {:induction false} CollectCounts(points: seq<Point>, sigs: map<seq<byte>, seq<byte>>)
    requires DistinctEncodings(points) && AllFrom(points, sigs)
    ensures |Collect(points, sigs)| == |sigs|
    decreases |points|
  {
    hide Encoded;
    if points == [] {
      assert sigs.Keys == {};
      assert |sigs| == |sigs.Keys|;
    } else {
      var e, rest := Encoded(points[0]), points[1..];
      WithoutEntry(points, sigs);
      CollectCounts(rest, sigs - {e});
      CollectWithout(rest, sigs, e);
      RemoveOne(sigs, e);
    }
  }

  lemma WithoutEntry(points: seq<Point>, sigs: map<seq<byte>, seq<byte>>)
    requires points != [] && DistinctEncodings(points) && AllFrom(points, sigs)
    ensures DistinctEncodings(points[1..]) && AllFrom(points[1..], sigs - {Encoded(points[0])})
    ensures forall i :: 0 <= i < |points[1..]| ==> Encoded(points[1..][i]) != Encoded(points[0])
  {
    hide Encoded;
    forall x | x in sigs - {Encoded(points[0])} ensures exists k :: k in points[1..] && Encoded(k) == x {
      var k :| k in points && Encoded(k) == x;
      assert k in points[1..];
    }
  }

  lemma RemoveOne(sigs: map<seq<byte>, seq<byte>>, e: seq<byte>)
    ensures |sigs - {e}| == |sigs| - if e in sigs then 1 else 0
  {
    assert |sigs| == |sigs.Keys| && |sigs - {e}| == |(sigs - {e}).Keys|;
    assert (sigs - {e}).Keys == sigs.Keys - {e};
  }

  lemma {:induction false} CollectWithout(points: seq<Point>, sigs: map<seq<byte>, seq<byte>>, e: seq<byte>)
    requires forall i :: 0 <= i < |points| ==> Encoded(points[i]) != e
    ensures Collect(points, sigs - {e}) == Collect(points, sigs)
  {
    hide Encoded;
    if points != [] { CollectWithout(points[1..], sigs, e); }
  }

  function Pending(ctx: Context): map<seq<byte>, seq<byte>> {
    if ctx.signatures.Some? then ctx.signatures.value else map[]
  }

  /** After the last of m distinct signers the parameters are the signatures in descending key order. */
  lemma {:induction false} AddAllFills(c: EC.Curve, script: seq<byte>, ctx: Context, points: seq<Point>,
      entries: seq<Signed>)
    requires c.p > 0 && ParseKeys(c, script, 1) == Keys(points) && DistinctEncodings(SortDescending(points))
    requires NewSigners(points, Pending(ctx), entries) && AllFrom(SortDescending(points), Pending(ctx))
    requires forall k :: k in points ==> k in SortDescending(points)
    requires entries != [] && |Pending(ctx)| + |entries| == |ctx.parameters| && !Started(ctx.parameters)
    ensures var all := Extend(Pending(ctx), entries);
      && |Collect(SortDescending(points), all)| == |ctx.parameters|
      && AddAll(c, script, ctx, entries)
           == Added(true, Context(None, FillFront(ctx.parameters, Collect(SortDescending(points), all))))
    decreases |entries|
  {
    hide Encoded, ParseKeys, SortDescending, FillFront, DistinctEncodings;
    var down, sigs := SortDescending(points), Pending(ctx);
    assert NewSigners(down, sigs, entries);
    ExtendKeys(down, sigs, entries);
    CollectCounts(down, Extend(sigs, entries));
    var (k, s) := entries[0];
    var more := sigs[Encoded(k) := s];
    assert NewSigners(down, sigs, entries[..1]);
    ExtendKeys(down, sigs, entries[..1]);
    assert Extend(sigs, entries[..1]) == more by {
      assert Extend(sigs, entries[..1]) == Extend(more, entries[..1][1..]);
    }
    if |entries| == 1 {
      assert Extend(sigs, entries) == more;
    } else {
      var next := ctx.(signatures := Some(more));
      assert WithSignature(c, script, ctx, k, s) == Added(true, next);
      AddAllFills(c, script, next, points, entries[1..]);
    }
  }

  // ---- CHECKMULTISIG on what the two scripts push --------------------------------------------

  function ByteItems(list: seq<seq<byte>>): (r: seq<Item>)
    ensures |r| == |list| && forall i :: 0 <= i < |list| ==> r[i] == ByteArray(list[i])
  {
    seq(|list|, i requires 0 <= i < |list| => ByteArray(list[i]))
  }

  lemma {:induction false} AllBytesOf(list: seq<seq<byte>>)
    ensures AllBytes(ByteItems(list)) == Some(list)
  {
    if list != [] {
      AllBytesOf(list[1..]);
      assert ByteItems(list)[1..] == ByteItems(list[1..]);
      assert [list[0]] + list[1..] == list;
    }
  }

  lemma ReverseItems(list: seq<seq<byte>>)
    ensures Reverse(ByteItems(list)) == ByteItems(Reverse(list))
  {
    hide Reverse;
  }

  lemma NothingBefore<T>(s: seq<T>)
    ensures [] + s == s
  {
  }

  /** A counted operand list, popped from the top: the items come out in reverse. */
  lemma PopCounted(below: seq<Item>, list: seq<seq<byte>>, count: Item, heap: Heap)
    requires list != [] && GetBigInteger(count) == Some(|list|)
    ensures PopList(below + ByteItems(list) + [count], heap)
      == Popped(Reverse(list), below, SizeCheck(true, -|list| - 1))
  {
    hide *;
    var rest, n := below + ByteItems(list), |list|;
    SplitBack(below, ByteItems(list));
    ReverseItems(list);
    AllBytesOf(Reverse(list));
    PopShape(rest, n, count, heap);
  }

  lemma SplitBack<T>(a: seq<T>, b: seq<T>)
    ensures (a + b)[|a + b| - |b|..] == b && (a + b)[..|a + b| - |b|] == a
  {
  }

  lemma PopShape(rest: seq<Item>, n: int, count: Item, heap: Heap)
    requires 1 <= n <= |rest| && GetBigInteger(count) == Some(n)
    requires AllBytes(Reverse(rest[|rest| - n..])).Some?
    ensures PopList(rest + [count], heap)
      == Popped(AllBytes(Reverse(rest[|rest| - n..])).value, rest[..|rest| - n], SizeCheck(true, -n - 1))
  {
    hide GetByteArray, FromLESigned, AllBytes, Reverse;
    assert (rest + [count])[..|rest|] == rest;
    assert GetArray(heap, count).None?;
  }

  lemma CheckLocal(env: Env, s: State, sigs: seq<seq<byte>>, keys: seq<seq<byte>>, m: Item, n: Item)
    requires s.frames != [] && 1 <= |sigs| <= |keys|
    requires GetBigInteger(m) == Some(|sigs|) && GetBigInteger(n) == Some(|keys|)
    requires Current(s).estack == ByteItems(sigs) + [m] + ByteItems(keys) + [n]
    ensures var f := Current(s);
      ExecLocal(env, Instruction(CHECKMULTISIG, []), f.estack, f.astack, s.heap) == Moved(
        [Boolean(CheckMultiSig.Scan(env.verify, Reverse(sigs), Reverse(keys)))], f.astack, s.heap,
        [SizeCheck(true, -|keys| - 1), SizeCheck(true, -|sigs| - 1)], false)
    ensures GetPrice(env, s, Instruction(CHECKMULTISIG, [])) == Some(100 * |keys|)
  {
    hide GetByteArray, FromLESigned, PopList, Reverse, CheckMultiSig.Scan;
    var f := Current(s);
    var below := ByteItems(sigs) + [m];
    PopCounted(below, keys, n, s.heap);
    PopCounted([], sigs, m, s.heap);
    assert [] + ByteItems(sigs) + [m] == below;
    var op := CheckMultiSigOp(env, f.estack, f.astack, s.heap);
    assert [] + [Boolean(CheckMultiSig.Scan(env.verify, Reverse(sigs), Reverse(keys)))]
      == [Boolean(CheckMultiSig.Scan(env.verify, Reverse(sigs), Reverse(keys)))];
    assert ExecLocal(env, Instruction(CHECKMULTISIG, []), f.estack, f.astack, s.heap) == op;
  }

  /** The instruction run by an engine at the end of the redeem script. */
  lemma EngineChecks(env: Env, script: seq<byte>, ip: nat, es: seq<Item>, ops: nat, count: int, strict: bool,
      sigs: seq<seq<byte>>, keys: seq<seq<byte>>, m: Item, n: Item) returns (count': int, strict': bool)
    requires !env.testMode && 100 * |keys| * RATIO <= env.gasAmount && |keys| <= 16
    requires count == |sigs| + |keys| + 2 && CodeAt(script, ip, [Instruction(CHECKMULTISIG, [])])
    requires 1 <= |sigs| <= |keys| && GetBigInteger(m) == Some(|sigs|) && GetBigInteger(n) == Some(|keys|)
    requires es == ByteItems(sigs) + [m] + ByteItems(keys) + [n]
    ensures Reaches(env, Engine([], script, ip, es, [], 0, ops, count, strict),
      Engine([], script, ip + 1, [Boolean(CheckMultiSig.Scan(env.verify, Reverse(sigs), Reverse(keys)))], [],
        100 * |keys| * RATIO, ops + 1, count', strict'))
    ensures ip + 1 == |script|
  {
    hide Reaches, CodeAt, GetBigInteger, Reverse, Step, Fetch, ExecLocal, GetPrice, CheckMultiSig.Scan;
    var s, ins := Engine([], script, ip, es, [], 0, ops, count, strict), Instruction(CHECKMULTISIG, []);
    EngineTop([], script, ip, es, [], 0, ops, count, strict);
    CodeAtFetch(script, ip, [ins]);
    assert [ins][1..] == [] && Size(ins) == 1;
    CodeAtFetch(script, ip + 1, []);
    CodeAtInside(script, ip, [ins]);
    CheckLocal(env, s, sigs, keys, m, n);
    CheckLocal(env, s.(ops := s.ops + 1), sigs, keys, m, n);
    var out := ExecLocal(env, ins, es, [], []);
    LocalStep(env, s, ins, 100 * |keys|, out);
    ReachesStep(env, s, Step(env, s));
    var t := Step(env, s);
    count', strict' := t.itemCount, t.strict;
    assert t == Engine([], script, ip + 1, out.estack, [], 100 * |keys| * RATIO, ops + 1, count', strict');
  }

  // ---- the two implicit returns --------------------------------------------------------------

  function RedeemFrame(script: seq<byte>): Frame {
    Frame(script, 0, -1, [], [])
  }

  lemma ImplicitRetStep(env: Env, s: State)
    requires s.frames != [] && Current(s).ip >= |Current(s).script|
    ensures Step(env, s) == DoReturn(env, s.(ops := s.ops + 1))
  {
    hide DoReturn;
  }

  /** The invocation script ends and its items go to the redeem script's frame. */
  lemma ReturnToRedeem(env: Env, redeem: seq<byte>, script: seq<byte>, es: seq<Item>, ops: nat, count: int)
    requires 0 <= count <= MAX_STACK_SIZE
    ensures Reaches(env, Engine([RedeemFrame(redeem)], script, |script|, es, [], 0, ops, count, true),
      Engine([], redeem, 0, es, [], 0, ops + 1, count, false))
  {
    hide Reaches, Step;
    var s := Engine([RedeemFrame(redeem)], script, |script|, es, [], 0, ops, count, true);
    ImplicitRetStep(env, s);
    assert [] + es == es;
    assert Step(env, s) == Engine([], redeem, 0, es, [], 0, ops + 1, count, false);
    ReachesStep(env, s, Step(env, s));
  }

  lemma ReturnLast(env: Env, script: seq<byte>, es: seq<Item>, gas: int, ops: nat, count: int, strict: bool)
      returns (r: State)
    ensures Reaches(env, Engine([], script, |script|, es, [], gas, ops, count, strict), r)
    ensures r.status == Halt && r.results == es && r.gas == gas
  {
    hide Reaches, Step, CheckStackSize;
    var s := Engine([], script, |script|, es, [], gas, ops, count, strict);
    ImplicitRetStep(env, s);
    assert [] + es == es;
    r := Step(env, s);
    ReachesStep(env, s, r);
  }

  // ---- end to end ----------------------------------------------------------------------------

  lemma DataItem(buf: seq<byte>)
    requires |buf| <= MAX_ITEM_SIZE
    ensures PushesItem(Data(buf)) && ArgItem(Data(buf)) == ByteArray(buf)
  {
  }

  lemma NumberItem(n: int)
    requires 1 <= n <= 16
    ensures PushesItem(Number(n)) && GetBigInteger(ArgItem(Number(n))) == Some(n)
  {
    ArgItemValue(Number(n));
  }

  lemma RedeemItems(m: int, keys: seq<Point>)
    requires 1 <= m <= |keys| <= 16 && forall k :: k in SortAscending(keys) ==> |Encoded(k)| == 33
    ensures |SortAscending(keys)| == |keys|
    ensures var pushes := RedeemPushes(m, keys);
      && (forall i :: 0 <= i < |pushes| ==> PushesItem(pushes[i]))
      && ArgItems(pushes)
        == [ArgItem(Number(m))] + ByteItems(Encodings(SortAscending(keys))) + [ArgItem(Number(|keys|))]
  {
    hide Encoded, ArgItem, PushesItem, SortAscending;
    SortPermutes(keys);
    var sorted, pushes := SortAscending(keys), RedeemPushes(m, keys);
    NumberItem(m);
    NumberItem(|keys|);
    assert MAX_ITEM_SIZE >= 33;
    forall i | 0 <= i < |sorted|
      ensures PushesItem(Data(Encoded(sorted[i]))) && ArgItem(Data(Encoded(sorted[i]))) == ByteArray(Encoded(sorted[i]))
    {
      DataItem(Encoded(sorted[i]));
    }
    assert |pushes| == |keys| + 2;
    forall i | 0 <= i < |pushes|
      ensures PushesItem(pushes[i])
      ensures ArgItem(pushes[i])
        == ([ArgItem(Number(m))] + ByteItems(Encodings(sorted)) + [ArgItem(Number(|keys|))])[i]
    {
      if 1 <= i <= |keys| { assert pushes[i] == Data(Encoded(sorted[i - 1])); }
    }
  }

  lemma InvocationItems(values: seq<seq<byte>>)
    requires forall v :: v in values ==> |v| <= MAX_ITEM_SIZE
    ensures var pushes := InvocationPushes(values);
      && (forall i :: 0 <= i < |pushes| ==> PushesItem(pushes[i]))
      && ArgItems(pushes) == ByteItems(Reverse(values))
  {
    hide ArgItem, PushesItem;
    var pushes := InvocationPushes(values);
    forall i | 0 <= i < |pushes| ensures PushesItem(pushes[i]) && ArgItem(pushes[i]) == ByteItems(Reverse(values))[i] {
      assert values[|values| - 1 - i] in values;
      DataItem(values[|values| - 1 - i]);
    }
  }

  /** Code that is the pushes of `args` and then `rest`, in place at the start of its script. */
  lemma PushCodeInPlace(args: seq<Pushable>, rest: seq<Instruction>)
    requires forall i :: 0 <= i < |args| ==> PushesItem(args[i])
    requires forall i :: 0 <= i < |rest| ==> WellFormed(rest[i])
    ensures CodeAt(PushListCode(args) + AssembleAll(rest), 0, Pushes(args) + rest)
  {
    hide PushCode, PushesItem, WellFormed, Assemble, PushList;
    PushesOfArgs(args);
    PushListAssembles(args);
    AssembleAllConcat(Pushes(args), rest);
    AssembledIsInPlace(PushListCode(args) + AssembleAll(rest), Pushes(args) + rest);
  }

  lemma {:induction false} PushListAssembles(args: seq<Pushable>)
    requires forall i :: 0 <= i < |args| ==> PushesItem(args[i])
    ensures forall i :: 0 <= i < |Pushes(args)| ==> WellFormed(Pushes(args)[i])
    ensures PushListCode(args) == AssembleAll(Pushes(args))
  {
    hide PushCode, WellFormed, Assemble, PushList;
    if args != [] {
      PushAssembles(args[0]);
      PushListAssembles(args[1..]);
      AssembleAllConcat(PushList(args[0]), Pushes(args[1..]));
    }
  }

  /** Running the two scripts of a witness, as far as what their pushes and the check decide. */
  lemma WitnessRuns(env: Env, m: nat, keys: seq<Point>, values: seq<seq<byte>>) returns (r: State)
    requires 1 <= m <= |keys| <= 16 && |values| == m
    requires forall v :: v in values ==> |v| <= MAX_ITEM_SIZE
    requires forall k :: k in SortAscending(keys) ==> |Encoded(k)| == 33
    requires !env.testMode && 100 * |keys| * RATIO <= env.gasAmount
    ensures Reaches(env, Loaded([RedeemScript(m, keys), PushListCode(InvocationPushes(values))]), r)
    ensures r.status == Halt
    ensures r.results == [Boolean(CheckMultiSig.Scan(env.verify, values, Reverse(Encodings(SortAscending(keys)))))]
  {
    hide *;
    Limits();
    var s := Loaded([RedeemScript(m, keys), PushListCode(InvocationPushes(values))]);
    var t := Engine([], RedeemScript(m, keys), 0, ByteItems(Reverse(values)), [], 0, m + 1, m, false);
    InvocationRuns(env, m, RedeemScript(m, keys), values);
    r := RedeemRuns(env, m, keys, values);
    ReachesTrans(env, s, t, r);
  }

  lemma InvocationRuns(env: Env, m: nat, redeem: seq<byte>, values: seq<seq<byte>>)
    requires m <= 16 && |values| == m && !env.testMode && 0 <= env.gasAmount
    requires forall v :: v in values ==> |v| <= MAX_ITEM_SIZE
    ensures Reaches(env, Loaded([redeem, PushListCode(InvocationPushes(values))]),
      Engine([], redeem, 0, ByteItems(Reverse(values)), [], 0, m + 1, m, false))
  {
    hide *;
    Limits();
    var items, invocation := ByteItems(Reverse(values)), PushListCode(InvocationPushes(values));
    InvocationPushed(env, m, redeem, values);
    ReturnToRedeem(env, redeem, invocation, items, m, m);
    var s, t := Loaded([redeem, invocation]),
      Engine([RedeemFrame(redeem)], invocation, |invocation|, items, [], 0, m, m, true);
    ReachesTrans(env, s, t, Engine([], redeem, 0, items, [], 0, m + 1, m, false));
  }

  lemma InvocationPushed(env: Env, m: nat, redeem: seq<byte>, values: seq<seq<byte>>)
    requires m <= 16 && |values| == m && !env.testMode && 0 <= env.gasAmount
    requires forall v :: v in values ==> |v| <= MAX_ITEM_SIZE
    ensures var invocation, items := PushListCode(InvocationPushes(values)), ByteItems(Reverse(values));
      Reaches(env, Loaded([redeem, invocation]),
        Engine([RedeemFrame(redeem)], invocation, |invocation|, items, [], 0, m, m, true))
  {
    hide *;
    Limits();
    var args := InvocationPushes(values);
    var invocation := PushListCode(args);
    InvocationItems(values);
    InvocationInPlace(values);
    TwoLoaded(redeem, invocation);
    var length := EngineRuns(env, [RedeemFrame(redeem)], invocation, 0, [], [], 0, 0, 0, true, args, []);
    EndOfCode(invocation, 0 + length);
    NothingBefore(ArgItems(args));
  }

  lemma RedeemRuns(env: Env, m: nat, keys: seq<Point>, values: seq<seq<byte>>) returns (r: State)
    requires 1 <= m <= |keys| <= 16 && |values| == m
    requires forall k :: k in SortAscending(keys) ==> |Encoded(k)| == 33
    requires !env.testMode && 100 * |keys| * RATIO <= env.gasAmount
    ensures Reaches(env, Engine([], RedeemScript(m, keys), 0, ByteItems(Reverse(values)), [], 0, m + 1, m, false), r)
    ensures r.status == Halt
    ensures r.results == [Boolean(CheckMultiSig.Scan(env.verify, values, Reverse(Encodings(SortAscending(keys)))))]
  {
    hide *;
    Limits();
    var n, redeem, encs, items := |keys|, RedeemScript(m, keys), Encodings(SortAscending(keys)),
      ByteItems(Reverse(values));
    RedeemItems(m, keys);
    RedeemInPlace(m, keys);
    NumberItem(m);
    NumberItem(n);
    var check := Instruction(CHECKMULTISIG, []);
    var length := EngineRuns(env, [], redeem, 0, items, [], 0, m + 1, m, false, RedeemPushes(m, keys), [check]);
    var es := items + ArgItems(RedeemPushes(m, keys));
    assert es == items + [ArgItem(Number(m))] + ByteItems(encs) + [ArgItem(Number(n))];
    var count, strict := EngineChecks(env, redeem, length, es, m + n + 3, m + n + 2, false,
      Reverse(values), encs, ArgItem(Number(m)), ArgItem(Number(n)));
    assert Reverse(Reverse(values)) == values;
    var out := [Boolean(CheckMultiSig.Scan(env.verify, values, Reverse(encs)))];
    r := ReturnLast(env, redeem, out, 100 * n * RATIO, m + n + 4, count, strict);
    var s2 := Engine([], redeem, 0, items, [], 0, m + 1, m, false);
    var s3 := Engine([], redeem, length, es, [], 0, m + n + 3, m + n + 2, false);
    var s4 := Engine([], redeem, length + 1, out, [], 100 * n * RATIO, m + n + 4, count, strict);
    ReachesTrans(env, s2, s3, s4);
    ReachesTrans(env, s2, s4, r);
  }

  lemma TwoLoaded(redeem: seq<byte>, invocation: seq<byte>)
    ensures Loaded([redeem, invocation]) == Engine([RedeemFrame(redeem)], invocation, 0, [], [], 0, 0, 0, true)
  {
  }

  lemma EndOfCode(script: seq<byte>, ip: nat)
    requires CodeAt(script, ip, [])
    ensures ip == |script|
  {
    CodeAtFetch(script, ip, []);
  }

  lemma InvocationInPlace(values: seq<seq<byte>>)
    requires forall v :: v in values ==> |v| <= MAX_ITEM_SIZE
    ensures CodeAt(PushListCode(InvocationPushes(values)), 0, Pushes(InvocationPushes(values)) + [])
  {
    hide *;
    InvocationItems(values);
    PushCodeInPlace(InvocationPushes(values), []);
    NothingAssembled();
    assert PushListCode(InvocationPushes(values)) + [] == PushListCode(InvocationPushes(values));
  }

  lemma CheckCode()
    ensures WellFormed(Instruction(CHECKMULTISIG, []))
    ensures AssembleAll([Instruction(CHECKMULTISIG, [])]) == [CHECKMULTISIG]
  {
    var check := Instruction(CHECKMULTISIG, []);
    AssembleOne(check);
    assert ToLE(0, 0) == [];
    assert Assemble(check) == [CHECKMULTISIG];
  }

  lemma RedeemInPlace(m: int, keys: seq<Point>)
    requires 1 <= m <= |keys| <= 16 && forall k :: k in SortAscending(keys) ==> |Encoded(k)| == 33
    ensures CodeAt(RedeemScript(m, keys), 0, Pushes(RedeemPushes(m, keys)) + [Instruction(CHECKMULTISIG, [])])
  {
    hide PushCode, PushesItem, PushList, Encoded, ArgItem, CodeAt, SortAscending, Assemble, AssembleAll, WellFormed;
    RedeemItems(m, keys);
    var check := Instruction(CHECKMULTISIG, []);
    CheckCode();
    PushCodeInPlace(RedeemPushes(m, keys), [check]);
  }

  /** Each of m distinct listed keys contributes a signature that verifies under it. */
  ghost predicate GoodSigners(v: CheckMultiSig.Verifier, keys: seq<Point>, entries: seq<Signed>) {
    && (forall i :: 0 <= i < |entries| ==> entries[i].0 in keys && |entries[i].1| <= MAX_ITEM_SIZE)
    && (forall i :: 0 <= i < |entries| ==> v(entries[i].1, Encoded(entries[i].0)) == CheckMultiSig.Valid)
    && (forall i, j :: 0 <= i < j < |entries| ==> entries[i].0 != entries[j].0)
  }

  function NoParameters(m: nat): seq<Option<seq<byte>>> {
    seq(m, i => None)
  }

  lemma {:induction false} ExtendValues(v: CheckMultiSig.Verifier, keys: seq<Point>,
      sigs: map<seq<byte>, seq<byte>>, entries: seq<Signed>)
    requires GoodSigners(v, keys, entries)
    requires forall e :: e in sigs ==> |sigs[e]| <= MAX_ITEM_SIZE && v(sigs[e], e) == CheckMultiSig.Valid
    ensures forall e :: e in Extend(sigs, entries) ==>
      |Extend(sigs, entries)[e]| <= MAX_ITEM_SIZE && v(Extend(sigs, entries)[e], e) == CheckMultiSig.Valid
    decreases |entries|
  {
    hide Encoded;
    if entries != [] {
      var more := sigs[Encoded(entries[0].0) := entries[0].1];
      ExtendValues(v, keys, more, entries[1..]);
    }
  }

  lemma {:induction false} CollectFrom(points: seq<Point>, sigs: map<seq<byte>, seq<byte>>, s: seq<byte>)
    requires s in Collect(points, sigs)
    ensures exists e :: e in sigs && sigs[e] == s
    decreases |points|
  {
    hide Encoded;
    if points != [] && s in Collect(points[1..], sigs) {
      CollectFrom(points[1..], sigs, s);
    }
  }

  /** What both sorts keep of distinct keys of a curve. */
  lemma GoodSorted(c: EC.Curve, keys: seq<Point>)
    requires GoodKeys(c, keys) && Distinct(keys)
    ensures var sorted := SortAscending(keys); var down := SortDescending(sorted);
      && DistinctEncodings(down)
      && (forall k :: k in sorted ==> k in down)
      && (forall k :: k in sorted ==> |Encoded(k)| == 33)
  {
    hide Encoded, GoodCurve, GoodKey, SortAscending, SortDescending;
    CurvePositive(c);
    var sorted := SortAscending(keys);
    var down := SortDescending(sorted);
    SortPermutes(keys);
    DistinctPermutes(keys, sorted);
    SortDescends(sorted);
    DistinctPermutes(sorted, down);
    forall k | k in sorted ensures |Encoded(k)| == 33 {
      EncodedRoundTrip(c, k);
    }
    forall i, j | 0 <= i < j < |down| ensures Encoded(down[i]) != Encoded(down[j]) {
      assert down[i] in keys && down[j] in keys;
      if Encoded(down[i]) == Encoded(down[j]) { EncodedInjective(c, down[i], down[j]); }
    }
  }

  lemma SignersAreNew(c: EC.Curve, v: CheckMultiSig.Verifier, keys: seq<Point>, entries: seq<Signed>)
    requires GoodKeys(c, keys) && GoodSigners(v, keys, entries)
    ensures NewSigners(SortAscending(keys), map[], entries)
  {
    hide Encoded, GoodCurve, GoodKey, SortAscending;
    CurvePositive(c);
    SortMembers(keys);
    forall i, j | 0 <= i < j < |entries| ensures Encoded(entries[i].0) != Encoded(entries[j].0) {
      assert entries[i].0 in keys && entries[j].0 in keys;
      if Encoded(entries[i].0) == Encoded(entries[j].0) { EncodedInjective(c, entries[i].0, entries[j].0); }
    }
  }

  lemma FilledValues(m: nat, values: seq<seq<byte>>)
    requires |values| == m
    ensures !Started(NoParameters(m)) && |NoParameters(m)| == m
    ensures var ps := FillFront(NoParameters(m), values); Completed(ps) && Values(ps) == values
  {
  }

  /** For well-formed keys the only exception of VerifySignature, a failed decompression, does not occur. */
  ghost predicate KeysVerify(v: CheckMultiSig.Verifier, keys: seq<Point>) {
    forall s: seq<byte>, k: Point :: k in keys ==> v(s, Encoded(k)) != CheckMultiSig.Raises
  }

  /** No two of the signers share an x. */
  ghost predicate SignersApart(entries: seq<Signed>) {
    forall i, j :: 0 <= i < j < |entries| ==> entries[i].0.x != entries[j].0.x
  }

  /** No signature verifies under a listed key other than its signer's. */
  ghost predicate OnlyOwn(v: CheckMultiSig.Verifier, keys: seq<Point>, entries: seq<Signed>) {
    forall i, k :: 0 <= i < |entries| && k in keys && k != entries[i].0 ==>
      v(entries[i].1, Encoded(k)) == CheckMultiSig.Invalid
  }

  /** The map of signatures holds the entries and what it held before. */
  lemma {:induction false} ExtendAt(sigs: Signatures, entries: seq<Signed>, e: seq<byte>)
    requires forall i, j :: 0 <= i < j < |entries| ==> Encoded(entries[i].0) != Encoded(entries[j].0)
    ensures (exists i :: 0 <= i < |entries| && Encoded(entries[i].0) == e) || e in sigs <==> e in Extend(sigs, entries)
    ensures forall i :: 0 <= i < |entries| && Encoded(entries[i].0) == e ==> Extend(sigs, entries)[e] == entries[i].1
    ensures e in sigs && (forall i :: 0 <= i < |entries| ==> Encoded(entries[i].0) != e) ==>
      Extend(sigs, entries)[e] == sigs[e]
    decreases |entries|
  {
    hide Encoded;
    if entries != [] {
      var more, rest := sigs[Encoded(entries[0].0) := entries[0].1], entries[1..];
      ExtendAt(more, rest, e);
      assert forall i :: 0 < i < |entries| ==> entries[i] == rest[i - 1];
    }
  }

  /** Who has signed according to the map are the signers. */
  lemma SignerEntries(c: EC.Curve, v: CheckMultiSig.Verifier, keys: seq<Point>, entries: seq<Signed>)
    requires GoodKeys(c, keys) && GoodSigners(v, keys, entries)
    ensures var all := Extend(map[], entries);
      && (forall i :: 0 <= i < |entries| ==> Encoded(entries[i].0) in all && all[Encoded(entries[i].0)] == entries[i].1)
      && (forall k :: k in keys && Encoded(k) in all ==> exists i :: 0 <= i < |entries| && entries[i].0 == k)
  {
    hide Encoded, GoodCurve, GoodKey, Extend;
    CurvePositive(c);
    SignersAreNew(c, v, keys, entries);
    var all := Extend(map[], entries);
    forall i | 0 <= i < |entries|
      ensures Encoded(entries[i].0) in all && all[Encoded(entries[i].0)] == entries[i].1
    {
      ExtendAt(map[], entries, Encoded(entries[i].0));
    }
    forall k | k in keys && Encoded(k) in all ensures exists i :: 0 <= i < |entries| && entries[i].0 == k {
      ExtendAt(map[], entries, Encoded(k));
      var i :| 0 <= i < |entries| && Encoded(entries[i].0) == Encoded(k);
      assert entries[i].0 in keys;
      EncodedInjective(c, entries[i].0, k);
    }
  }

  lemma ApartIff(c: EC.Curve, v: CheckMultiSig.Verifier, keys: seq<Point>, entries: seq<Signed>)
    requires GoodKeys(c, keys) && Distinct(keys) && GoodSigners(v, keys, entries)
    ensures Apart(SortAscending(keys), Extend(map[], entries)) <==> SignersApart(entries)
  {
    hide Encoded, GoodCurve, GoodKey, Extend, SortAscending;
    CurvePositive(c);
    SignerEntries(c, v, keys, entries);
    var sorted, all := SortAscending(keys), Extend(map[], entries);
    SortPermutes(keys);
    DistinctPermutes(keys, sorted);
    if Apart(sorted, all) {
      forall i, j | 0 <= i < j < |entries| ensures entries[i].0.x != entries[j].0.x {
        assert entries[i].0 in sorted && entries[j].0 in sorted;
        var a :| 0 <= a < |sorted| && sorted[a] == entries[i].0;
        var b :| 0 <= b < |sorted| && sorted[b] == entries[j].0;
        assert a < b || b < a;
      }
    } else {
      var a, b :| 0 <= a < b < |sorted| && Encoded(sorted[a]) in all && Encoded(sorted[b]) in all
        && sorted[a].x == sorted[b].x;
      assert sorted[a] in keys && sorted[b] in keys;
      var i :| 0 <= i < |entries| && entries[i].0 == sorted[a];
      var j :| 0 <= j < |entries| && entries[j].0 == sorted[b];
      assert i < j || j < i;
    }
  }

  lemma SignaturesOwn(c: EC.Curve, v: CheckMultiSig.Verifier, keys: seq<Point>, entries: seq<Signed>)
    requires GoodKeys(c, keys) && GoodSigners(v, keys, entries) && OnlyOwn(v, keys, entries)
    ensures var all := Extend(map[], entries); Own(v, Signers(keys, all), keys, all)
  {
    hide Encoded, GoodKeys, Extend;
    SignerEntries(c, v, keys, entries);
    var all := Extend(map[], entries);
    forall k, l | k in Signers(keys, all) && l in keys
      ensures v(all[Encoded(k)], Encoded(l)) == if k == l then CheckMultiSig.Valid else CheckMultiSig.Invalid
    {
      var i :| 0 <= i < |entries| && entries[i].0 == k;
    }
  }

  /** Witness and result of a contract whose parameters have been filled. */
  ghost predicate Verdict(env: Env, m: nat, keys: seq<Point>, ctx: Context, r: State, answer: bool) {
    && Completed(ctx.parameters)
    && var loaded := Loaded([RedeemScript(m, keys), PushListCode(InvocationPushes(Values(ctx.parameters)))]);
    && Sound(env, loaded) && Reaches(env, loaded, r)
    && (PricesPositive(env) ==> RunToEnd(env, loaded) == r)
    && r.status == Halt && r.results == [Boolean(answer)]
  }

  lemma WitnessEnds(env: Env, s: State, r: State)
    requires Sound(env, s) && Reaches(env, s, r) && r.status == Halt && PricesPositive(env)
    ensures RunToEnd(env, s) == r
  {
    hide Reaches, PricesPositive;
    ReachesEnd(env, s, r);
  }

  lemma LoadedSound(env: Env, scripts: seq<seq<byte>>)
    requires env.gasAmount >= 0
    ensures Sound(env, Loaded(scripts))
  {
  }

  /** From the signatures to the verdict of the check. */
  lemma PipelineRuns(env: Env, c: EC.Curve, m: nat, keys: seq<Point>, entries: seq<Signed>)
      returns (ctx: Context, r: State)
    requires GoodKeys(c, keys) && Distinct(keys) && 1 <= m <= |keys| <= 16
    requires |entries| == m && GoodSigners(env.verify, keys, entries)
    requires !env.testMode && 100 * |keys| * RATIO <= env.gasAmount
    ensures c.p > 0 && AddAll(c, RedeemScript(m, keys), Context(None, NoParameters(m)), entries) == Added(true, ctx)
    ensures var sorted := SortAscending(keys);
      Verdict(env, m, keys, ctx, r, CheckMultiSig.Scan(env.verify,
        Collect(SortDescending(sorted), Extend(map[], entries)), Reverse(Encodings(sorted))))
  {
    hide *;
    KeysOnCurve(c, keys);
    var sorted, all := SortAscending(keys), Extend(map[], entries);
    var values := Collect(SortDescending(sorted), all);
    GoodSorted(c, keys);
    RedeemScriptParses(c, m, keys);
    SignersAreNew(c, env.verify, keys, entries);
    AddAllCollects(c, RedeemScript(m, keys), m, sorted, entries);
    FilledValues(m, values);
    ctx := Context(None, FillFront(NoParameters(m), values));
    ExtendValues(env.verify, keys, map[], entries);
    forall s | s in values ensures |s| <= MAX_ITEM_SIZE {
      CollectFrom(SortDescending(sorted), all, s);
    }
    r := WitnessRuns(env, m, keys, values);
    var loaded := Loaded([RedeemScript(m, keys), PushListCode(InvocationPushes(values))]);
    Limits();
    LoadedSound(env, [RedeemScript(m, keys), PushListCode(InvocationPushes(values))]);
    if PricesPositive(env) { WitnessEnds(env, loaded, r); }
    VerdictOf(env, m, keys, ctx, r, values);
  }

  lemma KeysOnCurve(c: EC.Curve, keys: seq<Point>)
    requires GoodKeys(c, keys)
    ensures c.p > 0
  {
  }

  /**
   * The whole pipeline: signatures of any m distinct listed keys, added in any order, complete the context,
   * and the witness made of it runs to HALT. Its only result is True exactly if no two signers share an x.
   */
  lemma MultiSigVerifiesIff(env: Env, c: EC.Curve, m: nat, keys: seq<Point>, entries: seq<Signed>)
      returns (ctx: Context, r: State)
    requires GoodKeys(c, keys) && Distinct(keys) && 1 <= m <= |keys| <= 16
    requires |entries| == m && GoodSigners(env.verify, keys, entries) && OnlyOwn(env.verify, keys, entries)
    requires !env.testMode && 100 * |keys| * RATIO <= env.gasAmount
    ensures c.p > 0 && AddAll(c, RedeemScript(m, keys), Context(None, NoParameters(m)), entries) == Added(true, ctx)
    ensures Verdict(env, m, keys, ctx, r, SignersApart(entries))
  {
    hide *;
    ctx, r := PipelineRuns(env, c, m, keys, entries);
    SignaturesOwn(c, env.verify, keys, entries);
    CollectedScanIff(env.verify, keys, Extend(map[], entries));
    ApartIff(c, env.verify, keys, entries);
  }

  /** A signature that happens to verify under several keys does no harm. */
  lemma MultiSigVerifies(env: Env, c: EC.Curve, m: nat, keys: seq<Point>, entries: seq<Signed>)
      returns (ctx: Context, r: State)
    requires GoodKeys(c, keys) && Distinct(keys) && 1 <= m <= |keys| <= 16
    requires |entries| == m && GoodSigners(env.verify, keys, entries) && SignersApart(entries)
    requires KeysVerify(env.verify, keys)
    requires !env.testMode && 100 * |keys| * RATIO <= env.gasAmount
    ensures c.p > 0 && AddAll(c, RedeemScript(m, keys), Context(None, NoParameters(m)), entries) == Added(true, ctx)
    ensures Verdict(env, m, keys, ctx, r, true)
  {
    hide *;
    ctx, r := PipelineRuns(env, c, m, keys, entries);
    ExtendValues(env.verify, keys, map[], entries);
    ApartIff(c, env.verify, keys, entries);
    ScanPasses(env.verify, keys, Extend(map[], entries));
  }

  lemma ScanPasses(v: CheckMultiSig.Verifier, keys: seq<Point>, all: Signatures)
    requires Distinct(keys) && KeysVerify(v, keys) && Apart(SortAscending(keys), all)
    requires forall e :: e in all ==> v(all[e], e) == CheckMultiSig.Valid
    ensures var sorted := SortAscending(keys);
      CheckMultiSig.Scan(v, Collect(SortDescending(sorted), all), Reverse(Encodings(sorted)))
  {
    hide Encoded, SortAscending, SortDescending, CheckMultiSig.Scan, Collect, Apart;
    CollectedScan(v, keys, all);
  }

  lemma VerdictOf(env: Env, m: nat, keys: seq<Point>, ctx: Context, r: State, values: seq<seq<byte>>)
    requires Completed(ctx.parameters) && Values(ctx.parameters) == values && |values| == m
    requires var loaded := Loaded([RedeemScript(m, keys), PushListCode(InvocationPushes(values))]);
      && Sound(env, loaded) && Reaches(env, loaded, r) && (PricesPositive(env) ==> RunToEnd(env, loaded) == r)
    requires r.status == Halt && |r.results| == 1 && r.results[0].Boolean?
    ensures Verdict(env, m, keys, ctx, r, r.results[0].value)
  {
    hide Completed, Values, Sound, Reaches, PricesPositive;
    hide RunToEnd, RedeemScript, PushListCode, InvocationPushes, Loaded;
    assert r.results == [Boolean(r.results[0].value)];
  }

  lemma AddAllCollects(c: EC.Curve, script: seq<byte>, m: nat, points: seq<Point>, entries: seq<Signed>)
    requires c.p > 0 && ParseKeys(c, script, 1) == Keys(points) && DistinctEncodings(SortDescending(points))
    requires forall k :: k in points ==> k in SortDescending(points)
    requires NewSigners(points, map[], entries) && |entries| == m >= 1
    ensures var values := Collect(SortDescending(points), Extend(map[], entries));
      && |values| == m && |NoParameters(m)| == m
      && AddAll(c, script, Context(None, NoParameters(m)), entries)
           == Added(true, Context(None, FillFront(NoParameters(m), values)))
  {
    hide Encoded, ParseKeys, SortDescending, FillFront, DistinctEncodings;
    FilledValues(m, seq(m, i => []));
    AddAllFills(c, script, Context(None, NoParameters(m)), points, entries);
  }

  // ---- a point and its negative --------------------------------------------------------------

  lemma OppositeIsGood(c: EC.Curve, p: Point)
    requires GoodCurve(c) && GoodKey(c, p) && p.y != 0
    ensures var q := EC.Opposite(c, p); c.p > 0 && GoodKey(c, q) && q != p && q.x == p.x
  {
    hide EC.OnCurve, NumberTheory.Prime, Pow256;
    EC.OppositeOnCurve(c, p);
  }

  /**
   * For any key and its opposite a two-of-two contract cannot be signed: the signatures complete the context,
   * and the witness runs to HALT with False.
   */
  lemma EqualXFails(env: Env, c: EC.Curve, p: Point, s: seq<byte>, t: seq<byte>) returns (ctx: Context, r: State)
    requires GoodCurve(c) && GoodKey(c, p) && p.y != 0
    requires var q, v := EC.Opposite(c, p), env.verify;
      && v(s, Encoded(p)) == v(t, Encoded(q)) == CheckMultiSig.Valid
      && v(s, Encoded(q)) == v(t, Encoded(p)) == CheckMultiSig.Invalid
    requires |s| <= MAX_ITEM_SIZE && |t| <= MAX_ITEM_SIZE && !env.testMode && 200 * RATIO <= env.gasAmount
    ensures var keys := [p, EC.Opposite(c, p)];
      && AddAll(c, RedeemScript(2, keys), Context(None, NoParameters(2)), [(p, s), (keys[1], t)]) == Added(true, ctx)
      && Verdict(env, 2, keys, ctx, r, false)
  {
    hide *;
    OppositeIsGood(c, p);
    var q := EC.Opposite(c, p);
    var entries := [(p, s), (q, t)];
    OppositePair(env, c, p, q, s, t);
    ctx, r := MultiSigVerifiesIff(env, c, 2, [p, q], entries);
  }

  lemma OppositePair(env: Env, c: EC.Curve, p: Point, q: Point, s: seq<byte>, t: seq<byte>)
    requires GoodCurve(c) && GoodKey(c, p) && GoodKey(c, q) && p != q && p.x == q.x
    requires var v := env.verify;
      && v(s, Encoded(p)) == v(t, Encoded(q)) == CheckMultiSig.Valid
      && v(s, Encoded(q)) == v(t, Encoded(p)) == CheckMultiSig.Invalid
    requires |s| <= MAX_ITEM_SIZE && |t| <= MAX_ITEM_SIZE
    ensures var entries := [(p, s), (q, t)];
      && GoodKeys(c, [p, q]) && Distinct([p, q]) && GoodSigners(env.verify, [p, q], entries)
      && OnlyOwn(env.verify, [p, q], entries) && !SignersApart(entries)
  {
    hide Encoded, GoodCurve, GoodKey;
    var entries := [(p, s), (q, t)];
    assert entries[0].0.x == entries[1].0.x;
  }
}
