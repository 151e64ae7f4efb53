/** neo/SmartContract/Helper.py: the verification of the witnesses of a transaction or block. */
module Witnesses {
  import opened Bytes
  import opened ScriptBuilder
  import opened MultiSig
  import opened SignatureContext
  import opened SignerOrder
  import opened MultiSigVerification
  import opened Wrappers
  import opened VM
  import opened VMRuns
  import opened VMScripts
  import ApplicationEngine
  import EC = ECCurve

  datatype Script = Script(invocation: seq<byte>, verification: seq<byte>)

  /** The answer is the one item that the run leaves; how the run ended is not asked. */
  ghost predicate Accepts(env: Env, verification: seq<byte>, invocation: seq<byte>)
    requires Sound(env, Loaded([verification, invocation])) && (env.testMode || PricesPositive(env))
  {
    var results := RunToEnd(env, Loaded([verification, invocation])).results;
    |results| == 1 && GetBoolean(results[0])
  }

  /** An empty verification script stands for a call of the contract; any other one must have the right hash. */
  ghost predicate Holds(env: Env, toScriptHash: seq<byte> -> seq<byte>, hash: seq<byte>, script: Script)
    requires env.gasAmount >= 0 && (env.testMode || PricesPositive(env))
  {
    LoadedSound(env, [Code(AppCall(hash, false)), script.invocation]);
    LoadedSound(env, [script.verification, script.invocation]);
    if script.verification == [] then Accepts(env, Code(AppCall(hash, false)), script.invocation)
    else hash == toScriptHash(script.verification) && Accepts(env, script.verification, script.invocation)
  }

  method RunScripts(env: Env, verification: seq<byte>, invocation: seq<byte>) returns (ok: bool)
    requires Sound(env, Loaded([verification, invocation])) && (env.testMode || PricesPositive(env))
    ensures ok <==> Accepts(env, verification, invocation)
  {
    hide Sound, PricesPositive, RunToEnd, GetBoolean;
    var engine := new ApplicationEngine.ApplicationEngine(env);
    engine.LoadScript(verification, -1);
    engine.LoadScript(invocation, -1);
    assert engine.View() == Loaded([verification, invocation]);
    engine.Execute();
    ok := |engine.resultStack| == 1 && GetBoolean(engine.resultStack[0]);
  }

  method VerifyWitnesses(env: Env, toScriptHash: seq<byte> -> seq<byte>, hashes: seq<seq<byte>>, scripts: seq<Script>)
      returns (ok: bool)
    requires env.gasAmount >= 0 && (env.testMode || PricesPositive(env))
    requires forall i :: 0 <= i < |hashes| ==> |hashes[i]| == 20
    ensures ok ==> |hashes| == |scripts|
    ensures |hashes| == |scripts| ==>
      (ok <==> forall i :: 0 <= i < |hashes| ==> Holds(env, toScriptHash, hashes[i], scripts[i]))
  {
    hide Sound, PricesPositive, Accepts, Loaded, Code;
    if |hashes| != |scripts| {
      return false;
    }
    for i := 0 to |hashes|
      invariant forall k :: 0 <= k < i ==> Holds(env, toScriptHash, hashes[k], scripts[k])
    {
      var verification := scripts[i].verification;
      if |verification| == 0 {
        var sb := new ScriptBuilder();
        var emitted := sb.EmitAppCall(hashes[i], false);
        verification := sb.ms;
        assert verification == Code(AppCall(hashes[i], false));
      } else if hashes[i] != toScriptHash(verification) {
        return false;
      }
      LoadedSound(env, [verification, scripts[i].invocation]);
      var accepted := RunScripts(env, verification, scripts[i].invocation);
      if !accepted {
        return false;
      }
    }
    ok := true;
  }

  /**
   * A witness of a multi-signature contract, finished with m good signatures, is accepted exactly if no two of
   * its signers share an x.
   */
  lemma MultiSigHoldsIff(env: Env, c: EC.Curve, m: nat, keys: seq<Point>, entries: seq<Signed>,
      toScriptHash: seq<byte> -> seq<byte>) returns (ctx: Context)
    requires GoodKeys(c, keys) && Distinct(keys) && 1 <= m <= |keys| <= 16
    requires |entries| == m && GoodSigners(env.verify, keys, entries) && OnlyOwn(env.verify, keys, entries)
    requires !env.testMode && PricesPositive(env) && 100 * |keys| * RATIO <= env.gasAmount
    ensures c.p > 0 && AddAll(c, RedeemScript(m, keys), Context(None, NoParameters(m)), entries) == Added(true, ctx)
    ensures env.gasAmount >= 0 && Completed(ctx.parameters)
    ensures var redeem, invocation := RedeemScript(m, keys), PushListCode(InvocationPushes(Values(ctx.parameters)));
      Holds(env, toScriptHash, toScriptHash(redeem), Script(invocation, redeem)) <==> SignersApart(entries)
  {
    hide *;
    var r: State;
    ctx, r := MultiSigVerifiesIff(env, c, m, keys, entries);
    Limits();
    RedeemNotEmpty(m, keys);
    HoldsIs(env, m, keys, ctx, r, SignersApart(entries), toScriptHash);
  }

  lemma RedeemNotEmpty(m: int, keys: seq<Point>)
    ensures RedeemScript(m, keys) != []
  {
    hide PushListCode, RedeemPushes;
  }

  lemma HoldsIs(env: Env, m: nat, keys: seq<Point>, ctx: Context, r: State, answer: bool,
      toScriptHash: seq<byte> -> seq<byte>)
    requires Verdict(env, m, keys, ctx, r, answer) && RedeemScript(m, keys) != []
    requires env.gasAmount >= 0 && PricesPositive(env)
    ensures Completed(ctx.parameters)
    ensures var redeem, invocation := RedeemScript(m, keys), PushListCode(InvocationPushes(Values(ctx.parameters)));
      Holds(env, toScriptHash, toScriptHash(redeem), Script(invocation, redeem)) <==> answer
  {
    hide Completed, Sound, Reaches, PricesPositive, RunToEnd;
    hide RedeemScript, PushListCode, InvocationPushes, Loaded, Values;
  }
}
