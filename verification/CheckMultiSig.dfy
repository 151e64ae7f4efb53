/** neo/VM/ExecutionEngine.py: the two-pointer loop of CHECKMULTISIG. */
module CheckMultiSig {
  import opened Bytes

  /** What one call of `VerifySignature` on the container's message can do. */
  datatype Verdict = Valid | Invalid | Raises

  type Verifier = (seq<byte>, seq<byte>) -> Verdict

  /** Signature i verifies under key f[i], and the assignment never goes backwards. */
  ghost predicate Matching(v: Verifier, sigs: seq<seq<byte>>, keys: seq<seq<byte>>, f: seq<nat>) {
    && |f| == |sigs|
    && (forall i :: 0 <= i < |f| ==> f[i] < |keys| && v(sigs[i], keys[f[i]]) == Valid)
    && (forall i, j :: 0 <= i < j < |f| ==> f[i] < f[j])
  }

  ghost predicate Satisfied(v: Verifier, sigs: seq<seq<byte>>, keys: seq<seq<byte>>) {
    exists f :: Matching(v, sigs, keys, f)
  }

  ghost predicate NeverRaises(v: Verifier, sigs: seq<seq<byte>>, keys: seq<seq<byte>>) {
    forall s, k :: s in sigs && k in keys ==> v(s, k) != Raises
  }

  /** The loop from its current signatures and keys on. */
  function Scan(v: Verifier, sigs: seq<seq<byte>>, keys: seq<seq<byte>>): bool
    decreases |keys|
  {
    if sigs == [] then true
    else if |sigs| > |keys| then false
    else
      match v(sigs[0], keys[0])
      case Valid => Scan(v, sigs[1..], keys[1..])
      case Invalid => Scan(v, sigs, keys[1..])
      case Raises => false
  }

  method Run(v: Verifier, sigs: seq<seq<byte>>, keys: seq<seq<byte>>) returns (success: bool)
    requires 1 <= |sigs| <= |keys|
    ensures success == Scan(v, sigs, keys)
    ensures success ==> Satisfied(v, sigs, keys)
    ensures NeverRaises(v, sigs, keys) ==> (success <==> Satisfied(v, sigs, keys))
  {
    success := true;
    var m, n := |sigs|, |keys|;
    var i, j := 0, 0;
    while success && i < m && j < n
      invariant 0 <= i <= m && 0 <= j <= n
      invariant success ==> m - i <= n - j
      invariant Scan(v, sigs, keys) == (success && Scan(v, sigs[i..], keys[j..]))
    {
      assert sigs[i..][1..] == sigs[i + 1..] && keys[j..][1..] == keys[j + 1..];
      match v(sigs[i], keys[j]) {
        case Valid => i := i + 1;
        case Invalid =>
        case Raises =>
          success := false;
          break;
      }
      j := j + 1;
      if m - i > n - j {
        success := false;
      }
    }
    ScanIsSound(v, sigs, keys);
    if NeverRaises(v, sigs, keys) { ScanIsComplete(v, sigs, keys); }
  }

  function Shift(f: seq<nat>): (g: seq<nat>)
    ensures |g| == |f| && forall i :: 0 <= i < |f| ==> g[i] == f[i] + 1
  {
    seq(|f|, i requires 0 <= i < |f| => f[i] + 1)
  }

  function Unshift(f: seq<nat>): (g: seq<nat>)
    requires forall i :: 0 <= i < |f| ==> f[i] >= 1
    ensures |g| == |f| && forall i :: 0 <= i < |f| ==> g[i] == f[i] - 1
  {
    seq(|f|, i requires 0 <= i < |f| => f[i] - 1)
  }

  lemma SkipKey(v: Verifier, sigs: seq<seq<byte>>, keys: seq<seq<byte>>)
    requires keys != [] && Satisfied(v, sigs, keys[1..])
    ensures Satisfied(v, sigs, keys)
  {
    var f :| Matching(v, sigs, keys[1..], f);
    assert Matching(v, sigs, keys, Shift(f));
  }

  lemma UseKey(v: Verifier, sigs: seq<seq<byte>>, keys: seq<seq<byte>>)
    requires sigs != [] && keys != [] && v(sigs[0], keys[0]) == Valid && Satisfied(v, sigs[1..], keys[1..])
    ensures Satisfied(v, sigs, keys)
  {
    var f :| Matching(v, sigs[1..], keys[1..], f);
    var g := [0] + Shift(f);
    forall i | 0 <= i < |g| ensures g[i] < |keys| && v(sigs[i], keys[g[i]]) == Valid {
      if i > 0 { assert sigs[i] == sigs[1..][i - 1] && keys[g[i]] == keys[1..][f[i - 1]]; }
    }
    assert Matching(v, sigs, keys, g);
  }

  /** A matching that does not use the first key works without it. */
  lemma DropKey(v: Verifier, sigs: seq<seq<byte>>, keys: seq<seq<byte>>, f: seq<nat>)
    requires keys != [] && Matching(v, sigs, keys, f) && (f == [] || f[0] >= 1)
    ensures Satisfied(v, sigs, keys[1..])
  {
    assert forall i :: 0 <= i < |f| ==> f[i] >= 1;
    assert Matching(v, sigs, keys[1..], Unshift(f));
  }

  lemma DropSignature(v: Verifier, sigs: seq<seq<byte>>, keys: seq<seq<byte>>, f: seq<nat>)
    requires sigs != [] && Matching(v, sigs, keys, f)
    ensures Matching(v, sigs[1..], keys, f[1..])
  {
  }

  lemma {:induction false} ScanIsSound(v: Verifier, sigs: seq<seq<byte>>, keys: seq<seq<byte>>)
    ensures Scan(v, sigs, keys) ==> Satisfied(v, sigs, keys)
    decreases |keys|
  {
    if sigs == [] {
      assert Matching(v, sigs, keys, []);
    } else if Scan(v, sigs, keys) {
      if v(sigs[0], keys[0]) == Valid {
        ScanIsSound(v, sigs[1..], keys[1..]);
        UseKey(v, sigs, keys);
      } else {
        ScanIsSound(v, sigs, keys[1..]);
        SkipKey(v, sigs, keys);
      }
    }
  }

  /** Taking the first key that fits a signature never spoils a later one. */
  lemma {:induction false} ScanIsComplete(v: Verifier, sigs: seq<seq<byte>>, keys: seq<seq<byte>>)
    requires NeverRaises(v, sigs, keys)
    ensures Satisfied(v, sigs, keys) ==> Scan(v, sigs, keys)
    decreases |keys|
  {
    if sigs != [] && Satisfied(v, sigs, keys) {
      var f :| Matching(v, sigs, keys, f);
      IncreasingIsLong(f, |keys|);
      if v(sigs[0], keys[0]) == Valid {
        DropSignature(v, sigs, keys, f);
        DropKey(v, sigs[1..], keys, f[1..]);
        ScanIsComplete(v, sigs[1..], keys[1..]);
      } else {
        DropKey(v, sigs, keys, f);
        ScanIsComplete(v, sigs, keys[1..]);
      }
    }
  }

  lemma {:induction false} IncreasingIsLong(f: seq<nat>, n: nat)
    requires forall i :: 0 <= i < |f| ==> f[i] < n
    requires forall i, j :: 0 <= i < j < |f| ==> f[i] < f[j]
    ensures |f| <= n
    decreases |f|
  {
    if f != [] {
      var last := |f| - 1;
      IncreasingIsLong(f[..last], f[last]);
    }
  }
}
