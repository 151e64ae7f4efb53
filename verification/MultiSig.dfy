/** neo/SmartContract/Contract.py: the order of public keys and the multi-signature redeem script. */
module MultiSig {
  import opened Bytes
  import opened Instructions
  import opened ScriptBuilder
  import EC = ECCurve

  type Point = EC.Point

  // ---- Python's stable sort under the point order, which compares x only ---------------------

  function InsertAscending(k: Point, s: seq<Point>): seq<Point> {
    if s == [] then [k]
    else if s[0].x < k.x then [s[0]] + InsertAscending(k, s[1..])
    else [k] + s
  }

  function SortAscending(s: seq<Point>): seq<Point> {
    if s == [] then [] else InsertAscending(s[0], SortAscending(s[1..]))
  }

  function InsertDescending(k: Point, s: seq<Point>): seq<Point> {
    if s == [] then [k]
    else if s[0].x > k.x then [s[0]] + InsertDescending(k, s[1..])
    else [k] + s
  }

  function SortDescending(s: seq<Point>): seq<Point> {
    if s == [] then [] else InsertDescending(s[0], SortDescending(s[1..]))
  }

  ghost predicate DistinctX(s: seq<Point>) {
    forall i, j :: 0 <= i < j < |s| ==> s[i].x != s[j].x
  }

  ghost predicate Increasing(s: seq<Point>) {
    forall i, j :: 0 <= i < j < |s| ==> s[i].x < s[j].x
  }

  lemma {:induction false} InsertKeeps(k: Point, s: seq<Point>)
    ensures multiset(InsertAscending(k, s)) == multiset(s) + multiset{k}
  {
    if s != [] {
      assert s == [s[0]] + s[1..];
      if s[0].x < k.x { InsertKeeps(k, s[1..]); }
    }
  }

  lemma {:induction false} InsertIncreasing(k: Point, s: seq<Point>)
    requires Increasing(s) && forall i :: 0 <= i < |s| ==> s[i].x != k.x
    ensures Increasing(InsertAscending(k, s))
    ensures InsertAscending(k, s)[0] == k || (s != [] && InsertAscending(k, s)[0] == s[0])
  {
    if s != [] && s[0].x < k.x {
      InsertIncreasing(k, s[1..]);
      var r := InsertAscending(k, s[1..]);
      assert r[0] == k || r[0] == s[1];
      assert forall j :: 0 < j < |r| ==> r[0].x < r[j].x;
    }
  }

  /** Sorting is a permutation. */
  lemma {:induction false} SortPermutes(s: seq<Point>)
    ensures multiset(SortAscending(s)) == multiset(s)
    ensures |SortAscending(s)| == |s|
  {
    if s != [] {
      SortPermutes(s[1..]);
      InsertKeeps(s[0], SortAscending(s[1..]));
      assert s == [s[0]] + s[1..];
    }
    assert |multiset(SortAscending(s))| == |SortAscending(s)| && |multiset(s)| == |s|;
  }

  lemma SortMembers(s: seq<Point>)
    ensures forall k :: k in SortAscending(s) <==> k in s
  {
    hide SortAscending;
    SortPermutes(s);
    assert forall k :: k in s <==> k in multiset(s);
    assert forall k :: k in SortAscending(s) <==> k in multiset(SortAscending(s));
  }

  /** With distinct x coordinates the sorted list is strictly increasing. */
  lemma {:induction false} SortIncreases(s: seq<Point>)
    requires DistinctX(s)
    ensures Increasing(SortAscending(s))
  {
    if s != [] {
      SortIncreases(s[1..]);
      SortMembers(s[1..]);
      var rest := SortAscending(s[1..]);
      forall i | 0 <= i < |rest| ensures rest[i].x != s[0].x {
        assert rest[i] in s[1..];
      }
      InsertIncreasing(s[0], rest);
    }
  }

  lemma {:induction false} InsertLast(k: Point, s: seq<Point>)
    requires forall i :: 0 <= i < |s| ==> s[i].x > k.x
    ensures InsertDescending(k, s) == s + [k]
  {
    if s != [] { InsertLast(k, s[1..]); }
  }

  /** Sorting the script's keys the other way round reverses them. */
  lemma {:induction false} DescendingReverses(s: seq<Point>)
    requires Increasing(s)
    ensures SortDescending(s) == Reverse(s)
  {
    if s != [] {
      DescendingReverses(s[1..]);
      InsertLast(s[0], Reverse(s[1..]));
    }
  }

  // ---- the redeem script ---------------------------------------------------------------------

  function Encoded(k: Point): seq<byte> {
    match EC.EncodePoint(k, true)
    case Ok(bytes) => bytes
    case Error => []
  }

  /** `to_bytes(32)` does not overflow. */
  predicate Encodable(k: Point) {
    EC.EncodePoint(k, true).Ok?
  }

  function KeyData(keys: seq<Point>): (r: seq<Pushable>)
    ensures |r| == |keys| && forall i :: 0 <= i < |keys| ==> r[i] == Data(Encoded(keys[i]))
  {
    seq(|keys|, i requires 0 <= i < |keys| => Data(Encoded(keys[i])))
  }

  /** The pushes of the redeem script: m, the keys in ascending order, n. */
  function RedeemPushes(m: int, keys: seq<Point>): seq<Pushable> {
    [Number(m)] + KeyData(SortAscending(keys)) + [Number(|keys|)]
  }

  function RedeemScript(m: int, keys: seq<Point>): seq<byte> {
    PushListCode(RedeemPushes(m, keys)) + [CHECKMULTISIG]
  }

  datatype Created = Created(script: seq<byte>) | Raised

  /** More than 16 keys raise at the push of their count, which is a plain int. */
  method CreateMultiSigRedeemScript(m: int, publicKeys: seq<Point>) returns (r: Created)
    ensures r == Raised <==> (m < 1 || m > |publicKeys| || |publicKeys| > 16
      || exists k :: k in publicKeys && !Encodable(k))
    ensures r.Created? ==> r.script == RedeemScript(m, publicKeys)
  {
    if m < 1 || m > |publicKeys| || |publicKeys| > 1024 || m > 16 {
      return Raised;
    }
    hide *;
    SortMembers(publicKeys);
    SortPermutes(publicKeys);
    var sb := new ScriptBuilder();
    sb.Push(Number(m));
    var pkeys := SortAscending(publicKeys);
    var encodable := AllEncodable(pkeys);
    if !encodable {
      return Raised;
    }
    PushKeys(sb, pkeys);
    if |publicKeys| > 16 {
      return Raised;
    }
    sb.Push(Number(|publicKeys|));
    sb.Add(CHECKMULTISIG);
    RedeemConcat(m, publicKeys);
    return Created(sb.ms);
  }

  method AllEncodable(keys: seq<Point>) returns (ok: bool)
    ensures ok <==> forall k :: k in keys ==> Encodable(k)
  {
    hide *;
    for i := 0 to |keys|
      invariant forall j :: 0 <= j < i ==> Encodable(keys[j])
    {
      if !Encodable(keys[i]) {
        return false;
      }
    }
    return true;
  }

  lemma RedeemConcat(m: int, keys: seq<Point>)
    ensures RedeemScript(m, keys) == [] + PushCode(Number(m)) + PushListCode(KeyData(SortAscending(keys)))
      + PushCode(Number(|keys|)) + [CHECKMULTISIG]
  {
    RedeemPushCode(m, keys);
    hide PushCode, SortAscending, PushListCode, RedeemPushes, KeyData;
    assert [] + PushCode(Number(m)) == PushCode(Number(m));
  }

  lemma RedeemPushCode(m: int, keys: seq<Point>)
    ensures PushListCode(RedeemPushes(m, keys))
      == PushCode(Number(m)) + PushListCode(KeyData(SortAscending(keys))) + PushCode(Number(|keys|))
  {
    hide PushCode, SortAscending;
    var k := KeyData(SortAscending(keys));
    ConcatMapAppend(PushCode, [Number(m)] + k, [Number(|keys|)]);
    ConcatMapAppend(PushCode, [Number(m)], k);
    ConcatMapOne(PushCode, Number(m));
    ConcatMapOne(PushCode, Number(|keys|));
  }

  method PushKeys(sb: ScriptBuilder, keys: seq<Point>)
    modifies sb
    ensures sb.ms == old(sb.ms) + PushListCode(KeyData(keys))
  {
    hide PushCode, Encoded;
    for i := 0 to |keys|
      invariant sb.ms == old(sb.ms) + PushListCode(KeyData(keys)[..i])
    {
      sb.Push(Data(Encoded(keys[i])));
      ConcatMapStep(PushCode, KeyData(keys), i);
    }
    assert KeyData(keys)[..|keys|] == KeyData(keys);
  }
}
