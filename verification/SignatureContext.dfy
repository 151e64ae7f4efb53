/** neo/SmartContract/ContractParameterContext.py: collecting the signatures of one multi-signature contract. */
module SignatureContext {
  import opened Bytes
  import opened Instructions
  import opened ScriptBuilder
  import opened MultiSig
  import opened RandomAccessStack
  import opened Wrappers
  import EC = ECCurve

  /** The context item of one contract: its parameters are as many as the signatures it needs. */
  datatype Context = Context(signatures: Option<map<seq<byte>, seq<byte>>>, parameters: seq<Option<seq<byte>>>)

  /** Rejected stands for a ValueError, Unreadable for any other exception. */
  datatype Parsed = Keys(list: seq<Point>) | Rejected | Unreadable

  /** The keys of a redeem script, read until a byte other than PUSHBYTES33. */
  function ParseKeys(c: EC.Curve, script: seq<byte>, pos: nat): Parsed
    requires c.p > 0
    decreases |script| - pos
  {
    if pos >= |script| then Unreadable
    else if script[pos] != 33 then Keys([])
    else
      var end := if pos + 34 <= |script| then pos + 34 else |script|;
      match EC.Decode(c, script[pos + 1..end])
      case Error => if EC.DecodeRejects(c, script[pos + 1..end]) then Rejected else Unreadable
      case Ok(k) =>
        match ParseKeys(c, script, end)
        case Keys(rest) => Keys([k] + rest)
        case failed => failed
  }

  /** The collected signatures in the order of the keys given. */
  function Collect(keys: seq<Point>, sigs: map<seq<byte>, seq<byte>>): seq<seq<byte>> {
    if keys == [] then []
    else (if Encoded(keys[0]) in sigs then [sigs[Encoded(keys[0])]] else []) + Collect(keys[1..], sigs)
  }

  /** False, True, or an exception but a ValueError: an unreadable script, or more signed keys than parameters. */
  datatype Added = Added(ok: bool, context: Context) | Error

  lemma {:induction false} CollectAppend(a: seq<Point>, b: seq<Point>, sigs: map<seq<byte>, seq<byte>>)
    ensures Collect(a + b, sigs) == Collect(a, sigs) + Collect(b, sigs)
  {
    hide Encoded, Collect;
    CollectUnfold(a, sigs);
    CollectUnfold(a + b, sigs);
    if a == [] {
      assert a + b == b;
    } else {
      CollectAppend(a[1..], b, sigs);
      assert (a + b)[1..] == a[1..] + b;
      Associate(if Encoded(a[0]) in sigs then [sigs[Encoded(a[0])]] else [], Collect(a[1..], sigs), Collect(b, sigs));
    }
  }

  lemma CollectUnfold(keys: seq<Point>, sigs: map<seq<byte>, seq<byte>>)
    ensures Collect(keys, sigs)
         == if keys == [] then []
            else (if Encoded(keys[0]) in sigs then [sigs[Encoded(keys[0])]] else []) + Collect(keys[1..], sigs)
  {
    hide Encoded;
  }

  lemma CollectStep(points: seq<Point>, j: nat, sigs: map<seq<byte>, seq<byte>>)
    requires j < |points|
    ensures Collect(points[..j + 1], sigs) ==
      if Encoded(points[j]) in sigs then Collect(points[..j], sigs) + [sigs[Encoded(points[j])]]
      else Collect(points[..j], sigs)
    ensures |Collect(points[..j + 1], sigs)| <= |Collect(points, sigs)|
  {
    hide Encoded;
    assert points[..j + 1] == points[..j] + [points[j]] && points == points[..j + 1] + points[j + 1..];
    CollectAppend(points[..j], [points[j]], sigs);
    CollectAppend(points[..j + 1], points[j + 1..], sigs);
    assert Collect([points[j]], sigs)
      == (if Encoded(points[j]) in sigs then [sigs[Encoded(points[j])]] else []) + Collect([], sigs);
  }

  lemma FillNothing(parameters: seq<Option<seq<byte>>>)
    ensures FillFront(parameters, []) == parameters
  {
  }

  lemma FillNext(parameters: seq<Option<seq<byte>>>, values: seq<seq<byte>>, value: seq<byte>)
    requires |values| < |parameters|
    ensures FillFront(parameters, values + [value]) == FillFront(parameters, values)[|values| := Some(value)]
  {
  }

  function FillFront(parameters: seq<Option<seq<byte>>>, values: seq<seq<byte>>): (r: seq<Option<seq<byte>>>)
    requires |values| <= |parameters|
    ensures |r| == |parameters|
  {
    seq(|parameters|, i requires 0 <= i < |parameters| => if i < |values| then Some(values[i]) else parameters[i])
  }

  predicate Started(parameters: seq<Option<seq<byte>>>) {
    exists i :: 0 <= i < |parameters| && parameters[i].Some?
  }

  /** `AddSignature`. Its test for a repeated key compares bytes with text and never fires. */
  function WithSignature(c: EC.Curve, script: seq<byte>, ctx: Context, pubkey: Point, signature: seq<byte>): Added
    requires c.p > 0
  {
    if Started(ctx.parameters) then Added(false, ctx)
    else
      var sigs := if ctx.signatures.Some? then ctx.signatures.value else map[];
      match ParseKeys(c, script, 1)
      case Unreadable => Added.Error
      case Rejected => Added(false, ctx.(signatures := Some(sigs)))
      case Keys(points) =>
        if pubkey !in points then Added(false, ctx.(signatures := Some(sigs)))
        else
          var more := sigs[Encoded(pubkey) := signature];
          if |more| != |ctx.parameters| then Added(true, ctx.(signatures := Some(more)))
          else
            var values := Collect(SortDescending(points), more);
            if |values| > |ctx.parameters| then Added.Error
            else Added(true, Context(None, FillFront(ctx.parameters, values)))
  }

  /** The pushes of `GetScripts`: the parameters from the last to the first. */
  function InvocationPushes(values: seq<seq<byte>>): (r: seq<Pushable>)
    ensures |r| == |values| && forall i :: 0 <= i < |values| ==> r[i] == Data(values[|values| - 1 - i])
  {
    seq(|values|, i requires 0 <= i < |values| => Data(values[|values| - 1 - i]))
  }

  predicate Completed(parameters: seq<Option<seq<byte>>>) {
    forall i :: 0 <= i < |parameters| ==> parameters[i].Some?
  }

  function Values(parameters: seq<Option<seq<byte>>>): (r: seq<seq<byte>>)
    requires Completed(parameters)
    ensures |r| == |parameters| && forall i :: 0 <= i < |r| ==> r[i] == parameters[i].value
  {
    seq(|parameters|, i requires 0 <= i < |parameters| => parameters[i].value)
  }

  datatype Answer = Yes | No | Thrown

  datatype Witness = Witness(invocation: seq<byte>) | NotComplete

  class ContractParametersContext {
    const curve: EC.Curve
    const script: seq<byte>
    var signatures: Option<map<seq<byte>, seq<byte>>>
    var parameters: seq<Option<seq<byte>>>

    constructor (curve: EC.Curve, script: seq<byte>, parameterCount: nat)
      ensures this.curve == curve && this.script == script
      ensures View() == Context(None, seq(parameterCount, i => None))
    {
      this.curve, this.script := curve, script;
      signatures := None;
      parameters := seq(parameterCount, i => None);
    }

    ghost function View(): Context
      reads this
    {
      Context(signatures, parameters)
    }

    method ReadKeys() returns (r: Parsed)
      requires curve.p > 0
      ensures r == ParseKeys(curve, script, 1)
    {
      hide EC.Decode, EC.DecodeRejects;
      var points: seq<Point> := [];
      var pos := 1;
      while pos < |script| && script[pos] == 33
        invariant ParseKeys(curve, script, 1) == match ParseKeys(curve, script, pos)
          case Keys(rest) => Keys(points + rest)
          case failed => failed
        decreases |script| - pos
      {
        var end := if pos + 34 <= |script| then pos + 34 else |script|;
        match EC.Decode(curve, script[pos + 1..end])
        case Error => return if EC.DecodeRejects(curve, script[pos + 1..end]) then Rejected else Unreadable;
        case Ok(k) =>
          points := points + [k];
          pos := end;
      }
      if pos >= |script| {
        return Unreadable;
      }
      return Keys(points);
    }

    method AddSignature(pubkey: Point, signature: seq<byte>) returns (r: Answer)
      requires curve.p > 0
      modifies this
      ensures match WithSignature(curve, script, old(View()), pubkey, signature)
        case Error => r == Thrown
        case Added(ok, ctx) => r == (if ok then Yes else No) && View() == ctx
    {
      for i := 0 to |parameters|
        invariant forall j :: 0 <= j < i ==> parameters[j].None?
      {
        if parameters[i].Some? {
          return No;
        }
      }
      if signatures.None? {
        signatures := Some(map[]);
      }
      var parsed := ReadKeys();
      if parsed.Unreadable? {
        return Thrown;
      }
      if parsed.Rejected? || pubkey !in parsed.list {
        return No;
      }
      signatures := Some(signatures.value[Encoded(pubkey) := signature]);
      if |signatures.value| == |parameters| {
        r := Distribute(SortDescending(parsed.list), signatures.value);
        if r == Thrown {
          return;
        }
        signatures := None;
      }
      return Yes;
    }

    /** Gives each signed key's signature to the next parameter. */
    method Distribute(points: seq<Point>, sigs: map<seq<byte>, seq<byte>>) returns (r: Answer)
      modifies this`parameters
      ensures r == Thrown <==> |Collect(points, sigs)| > |old(parameters)|
      ensures r != Thrown ==> r == Yes && parameters == FillFront(old(parameters), Collect(points, sigs))
    {
      hide FillFront, Encoded;
      ghost var before := parameters;
      var i := 0;
      FillNothing(before);
      for j := 0 to |points|
        invariant i == |Collect(points[..j], sigs)| <= |before|
        invariant parameters == FillFront(before, Collect(points[..j], sigs))
      {
        CollectStep(points, j, sigs);
        if Encoded(points[j]) in sigs {
          if i >= |parameters| {
            return Thrown;
          }
          FillNext(before, Collect(points[..j], sigs), sigs[Encoded(points[j])]);
          parameters := parameters[i := Some(sigs[Encoded(points[j])])];
          i := i + 1;
        }
      }
      assert points[..|points|] == points;
      return Yes;
    }

    method GetScripts() returns (w: Witness)
      ensures w == NotComplete <==> !Completed(parameters)
      ensures Completed(parameters) ==> w == Witness(PushListCode(InvocationPushes(Values(parameters))))
    {
      for i := 0 to |parameters|
        invariant forall j :: 0 <= j < i ==> parameters[j].Some?
      {
        if parameters[i].None? {
          return NotComplete;
        }
      }
      var code := InvocationScript();
      return Witness(code);
    }

    /** Pushes the parameters from the last to the first. */
    method InvocationScript() returns (code: seq<byte>)
      requires Completed(parameters)
      ensures code == PushListCode(InvocationPushes(Values(parameters)))
    {
      hide PushCode;
      var sb := new ScriptBuilder();
      var plist := Reverse(parameters);
      ghost var pushes := InvocationPushes(Values(parameters));
      for i := 0 to |plist|
        invariant sb.ms == PushListCode(pushes[..i])
      {
        sb.Push(Data(plist[i].value));
        ConcatMapStep(PushCode, pushes, i);
      }
      assert pushes[..|plist|] == pushes;
      return sb.ms;
    }
  }
}
