/**
 * The order in which collected signatures meet the keys of a multi-signature contract: both sorts are stable
 * under a comparison of x alone, so signers of equal x come out of the second sort as they went in, while the
 * loop of CHECKMULTISIG looks for them the other way round.
 */
module SignerOrder {
  import opened Bytes
  import opened MultiSig
  import opened SignatureContext
  import CheckMultiSig

  type Signatures = map<seq<byte>, seq<byte>>

  function Encodings(points: seq<Point>): (r: seq<seq<byte>>)
    ensures |r| == |points| && forall i :: 0 <= i < |points| ==> r[i] == Encoded(points[i])
  {
    seq(|points|, i requires 0 <= i < |points| => Encoded(points[i]))
  }

  ghost predicate Distinct(s: seq<Point>) {
    forall i, j :: 0 <= i < j < |s| ==> s[i] != s[j]
  }

  // ---- the signatures fit the keys -----------------------------------------------------------

  /** Every collected signature verifies under its key. */
  ghost predicate AllValid(v: CheckMultiSig.Verifier, points: seq<Point>, sigs: Signatures) {
    forall k :: k in points && Encoded(k) in sigs ==> v(sigs[Encoded(k)], Encoded(k)) == CheckMultiSig.Valid
  }

  /** The points of a list that have signed, in its order. */
  function Signers(points: seq<Point>, sigs: Signatures): (r: seq<Point>)
    ensures forall k :: k in r <==> k in points && Encoded(k) in sigs
  {
    if points == [] then []
    else (if Encoded(points[0]) in sigs then [points[0]] else []) + Signers(points[1..], sigs)
  }

  lemma {:induction false} SignersAppend(a: seq<Point>, b: seq<Point>, sigs: Signatures)
    ensures Signers(a + b, sigs) == Signers(a, sigs) + Signers(b, sigs)
  {
    hide Encoded, Signers;
    SignersUnfold(a, sigs);
    SignersUnfold(a + b, sigs);
    if a == [] {
      assert a + b == b;
    } else {
      SignersAppend(a[1..], b, sigs);
      assert (a + b)[1..] == a[1..] + b;
      Associate(if Encoded(a[0]) in sigs then [a[0]] else [], Signers(a[1..], sigs), Signers(b, sigs));
    }
  }

  lemma SignersUnfold(points: seq<Point>, sigs: Signatures)
    ensures Signers(points, sigs)
         == if points == [] then []
            else (if Encoded(points[0]) in sigs then [points[0]] else []) + Signers(points[1..], sigs)
  {
    hide Encoded;
  }

  lemma {:induction false} CollectSigners(points: seq<Point>, sigs: Signatures)
    ensures Collect(Signers(points, sigs), sigs) == Collect(points, sigs)
  {
    hide Encoded;
    if points != [] {
      CollectSigners(points[1..], sigs);
      CollectAppend(if Encoded(points[0]) in sigs then [points[0]] else [], Signers(points[1..], sigs), sigs);
      assert Collect([points[0]][1..], sigs) == [];
    }
  }

  /** `a` arises from `b` by leaving elements out. */
  predicate Within(a: seq<Point>, b: seq<Point>)
    decreases |b|
  {
    a == [] || (b != [] && Within(if a[0] == b[0] then a[1..] else a, b[1..]))
  }

  lemma {:induction false} WithinMembers(a: seq<Point>, b: seq<Point>)
    requires Within(a, b)
    ensures |a| <= |b| && forall k :: k in a ==> k in b
    decreases |b|
  {
    if a != [] {
      var rest := if a[0] == b[0] then a[1..] else a;
      WithinMembers(rest, b[1..]);
      forall k | k in a ensures k in b {
        assert k in rest || k == b[0];
      }
    }
  }

  /** A last element is either needed for the last one, or for none. */
  lemma {:induction false} WithinLast(a: seq<Point>, b: seq<Point>, k: Point)
    ensures Within(a, b + [k])
       <==> Within(if a != [] && a[|a| - 1] == k then a[..|a| - 1] else a, b)
    decreases |b|
  {
    var last := |a| - 1;
    if a == [] {
    } else if b == [] {
      assert (b + [k])[1..] == [];
    } else {
      assert (b + [k])[1..] == b[1..] + [k];
      if a[0] == b[0] {
        WithinLast(a[1..], b[1..], k);
        if last > 0 { assert a[..last][1..] == a[1..][..last - 1]; }
      } else {
        WithinLast(a, b[1..], k);
      }
    }
  }

  /** Signatures in the order in which the keys come fit them, whichever keys are left out. */
  lemma {:induction false} CollectedMatch(v: CheckMultiSig.Verifier, signers: seq<Point>, keys: seq<Point>,
      sigs: Signatures)
    requires Within(signers, keys) && (forall k :: k in signers ==> Encoded(k) in sigs) && AllValid(v, signers, sigs)
    ensures CheckMultiSig.Satisfied(v, Collect(signers, sigs), Encodings(keys))
    decreases |keys|
  {
    hide Encoded;
    var s, e := Collect(signers, sigs), Encodings(keys);
    if signers == [] {
      assert CheckMultiSig.Matching(v, s, e, []);
    } else {
      var rest := if signers[0] == keys[0] then signers[1..] else signers;
      CollectedMatch(v, rest, keys[1..], sigs);
      assert e[1..] == Encodings(keys[1..]);
      if signers[0] == keys[0] {
        assert s[1..] == Collect(rest, sigs);
        CheckMultiSig.UseKey(v, s, e);
      } else {
        CheckMultiSig.SkipKey(v, s, e);
      }
    }
  }

  /** Each of these signatures verifies under its signer's key and under no other. */
  ghost predicate Own(v: CheckMultiSig.Verifier, signers: seq<Point>, keys: seq<Point>, sigs: Signatures) {
    && (forall k :: k in signers ==> Encoded(k) in sigs)
    && forall k, l :: k in signers && l in keys ==>
      v(sigs[Encoded(k)], Encoded(l)) == if k == l then CheckMultiSig.Valid else CheckMultiSig.Invalid
  }

  /** Then the loop succeeds exactly if it meets the keys in the order of the signatures. */
  lemma {:induction false} ScanIsWithin(v: CheckMultiSig.Verifier, signers: seq<Point>, keys: seq<Point>,
      sigs: Signatures)
    requires Own(v, signers, keys, sigs)
    ensures CheckMultiSig.Scan(v, Collect(signers, sigs), Encodings(keys)) <==> Within(signers, keys)
    decreases |keys|
  {
    hide Encoded;
    CollectAll(signers, sigs);
    if signers != [] && keys != [] {
      var rest := if signers[0] == keys[0] then signers[1..] else signers;
      assert Own(v, rest, keys[1..], sigs);
      ScanIsWithin(v, rest, keys[1..], sigs);
      assert Encodings(keys)[1..] == Encodings(keys[1..]);
      assert Collect(signers, sigs) == [sigs[Encoded(signers[0])]] + Collect(signers[1..], sigs);
      if |signers| > |keys| && Within(signers, keys) { WithinMembers(signers, keys); }
    }
  }

  lemma {:induction false} CollectAll(points: seq<Point>, sigs: Signatures)
    requires forall k :: k in points ==> Encoded(k) in sigs
    ensures |Collect(points, sigs)| == |points|
  {
    hide Encoded;
    if points != [] { CollectAll(points[1..], sigs); }
  }

  // ---- what the second sort does to keys of equal x ------------------------------------------

  ghost predicate Ascending(s: seq<Point>) {
    forall i, j :: 0 <= i < j < |s| ==> s[i].x <= s[j].x
  }

  ghost predicate Descending(s: seq<Point>) {
    forall i, j :: 0 <= i < j < |s| ==> s[i].x >= s[j].x
  }

  lemma {:induction false} InsertAscends(k: Point, s: seq<Point>)
    requires Ascending(s)
    ensures Ascending(InsertAscending(k, s))
  {
    if s != [] && s[0].x < k.x {
      InsertAscends(k, s[1..]);
      var r := InsertAscending(k, s[1..]);
      InsertKeeps(k, s[1..]);
      forall j | 0 <= j < |r| ensures s[0].x <= r[j].x {
        assert r[j] in multiset(r);
      }
    }
  }

  lemma {:induction false} SortAscends(s: seq<Point>)
    ensures Ascending(SortAscending(s))
  {
    if s != [] {
      SortAscends(s[1..]);
      InsertAscends(s[0], SortAscending(s[1..]));
    }
  }

  /** Where a key is put: behind those of greater x and in front of those of equal x. */
  lemma {:induction false} InsertSplits(k: Point, s: seq<Point>) returns (i: nat)
    requires Descending(s)
    ensures i <= |s| && InsertDescending(k, s) == s[..i] + [k] + s[i..]
    ensures forall j :: 0 <= j < i ==> s[j].x > k.x
    ensures forall j :: i <= j < |s| ==> s[j].x <= k.x
  {
    if s == [] || s[0].x <= k.x {
      i := 0;
    } else {
      var h := InsertSplits(k, s[1..]);
      i := h + 1;
      assert s[..i] == [s[0]] + s[1..][..h] && s[i..] == s[1..][h..];
      forall j | 0 <= j < |s| ensures if j < i then s[j].x > k.x else s[j].x <= k.x {
        if j > 0 { assert s[j] == s[1..][j - 1]; }
      }
    }
  }

  lemma SplitDescends(k: Point, s: seq<Point>, i: nat)
    requires Descending(s) && i <= |s|
    requires forall j :: 0 <= j < i ==> s[j].x > k.x
    requires forall j :: i <= j < |s| ==> s[j].x <= k.x
    ensures Descending(s[..i] + [k] + s[i..])
  {
    var r := s[..i] + [k] + s[i..];
    assert forall j :: 0 <= j < |r| ==> r[j] == if j < i then s[j] else if j == i then k else s[j - 1];
  }

  lemma {:induction false} SortDescends(s: seq<Point>)
    ensures Descending(SortDescending(s)) && multiset(SortDescending(s)) == multiset(s)
  {
    if s != [] {
      hide InsertDescending;
      SortDescends(s[1..]);
      var d := SortDescending(s[1..]);
      var i := InsertSplits(s[0], d);
      assert d == d[..i] + d[i..] && s == [s[0]] + s[1..];
      SplitDescends(s[0], d, i);
    }
  }

  lemma {:induction false} DistinctCounts(s: seq<Point>)
    requires Distinct(s)
    ensures forall k :: multiset(s)[k] <= 1
  {
    if s != [] {
      DistinctCounts(s[1..]);
      assert s == [s[0]] + s[1..];
      assert s[0] !in s[1..];
    }
  }

  lemma DistinctPermutes(s: seq<Point>, t: seq<Point>)
    requires Distinct(s) && multiset(s) == multiset(t)
    ensures Distinct(t) && |t| == |s| && forall k :: k in t <==> k in s
  {
    DistinctCounts(s);
    assert |multiset(s)| == |s| && |multiset(t)| == |t|;
    forall i, j | 0 <= i < j < |t| ensures t[i] != t[j] {
      assert t == t[..j] + t[j..];
      assert t[..j][i] == t[i] && t[j..][0] == t[j];
      assert multiset(t)[t[j]] == multiset(t[..j])[t[j]] + multiset(t[j..])[t[j]];
    }
    forall k ensures k in t <==> k in s {
      assert k in t <==> k in multiset(t);
      assert k in s <==> k in multiset(s);
    }
  }

  /** No two keys that have signed share an x. */
  ghost predicate Apart(points: seq<Point>, sigs: Signatures) {
    forall i, j :: 0 <= i < j < |points| && Encoded(points[i]) in sigs && Encoded(points[j]) in sigs ==>
      points[i].x != points[j].x
  }

  /** Nobody at this x has signed. */
  ghost predicate NoneAt(points: seq<Point>, sigs: Signatures, x: int) {
    forall r :: r in Signers(points, sigs) ==> r.x != x
  }

  lemma ApartFront(s: seq<Point>, sigs: Signatures)
    requires s != []
    ensures Apart(s, sigs) <==> (Apart(s[1..], sigs) && (Encoded(s[0]) in sigs ==> NoneAt(s[1..], sigs, s[0].x)))
  {
    hide Encoded, Signers;
    var rest := s[1..];
    if Apart(s, sigs) {
      forall i, j | 0 <= i < j < |rest| && Encoded(rest[i]) in sigs && Encoded(rest[j]) in sigs
        ensures rest[i].x != rest[j].x
      {
        assert rest[i] == s[i + 1] && rest[j] == s[j + 1];
      }
      forall r | Encoded(s[0]) in sigs && r in Signers(rest, sigs) ensures r.x != s[0].x {
        var j :| 0 <= j < |rest| && rest[j] == r;
        assert s[j + 1] == r;
      }
    } else {
      var i, j :| 0 <= i < j < |s| && Encoded(s[i]) in sigs && Encoded(s[j]) in sigs && s[i].x == s[j].x;
      assert s[j] == rest[j - 1];
      if i == 0 {
        assert s[j] in Signers(rest, sigs);
      } else {
        assert s[i] == rest[i - 1];
      }
    }
  }

  lemma ReverseMembers(s: seq<Point>)
    ensures forall k :: k in Reverse(s) ==> k in s
  {
  }

  lemma SplitSigners(k: Point, d: seq<Point>, i: nat, sigs: Signatures)
    requires i <= |d|
    ensures Signers(d[..i] + [k] + d[i..], sigs)
      == Signers(d[..i], sigs) + (if Encoded(k) in sigs then [k] else []) + Signers(d[i..], sigs)
    ensures Signers(d, sigs) == Signers(d[..i], sigs) + Signers(d[i..], sigs)
  {
    hide Encoded, Signers;
    SignersAppend(d[..i], d[i..], sigs);
    assert d == d[..i] + d[i..];
    SignersAppend(d[..i] + [k], d[i..], sigs);
    SignersAppend(d[..i], [k], sigs);
    SignersUnfold([k], sigs);
    SignersUnfold([], sigs);
    assert [k][1..] == [];
  }

  /** A signer put into the others' list stands where the loop expects it if nobody behind it has signed. */
  lemma SignerPlaced(k: Point, others: seq<Point>, d: seq<Point>, i: nat, sigs: Signatures)
    requires Encoded(k) in sigs && k !in others && i <= |d| && forall r :: r in d <==> r in others
    requires forall j :: 0 <= j < |d| ==> d[j].x >= k.x
    requires forall j :: 0 <= j < i ==> d[j].x > k.x
    requires forall j :: i <= j < |d| ==> d[j].x <= k.x
    ensures Within(Signers(d[..i] + [k] + d[i..], sigs), Reverse(others) + [k])
       <==> Within(Signers(d, sigs), Reverse(others)) && NoneAt(others, sigs, k.x)
  {
    hide Encoded, Signers, Within, Reverse;
    var front, behind, rev := Signers(d[..i], sigs), Signers(d[i..], sigs), Reverse(others);
    var all := front + [k] + behind;
    SplitSigners(k, d, i, sigs);
    ReverseMembers(others);
    WithinLast(all, rev, k);
    if behind == [] {
      assert all[..|all| - 1] == front == Signers(d, sigs);
      forall r | r in Signers(others, sigs) ensures r.x != k.x {
        assert r in front;
        var j :| 0 <= j < |d[..i]| && d[..i][j] == r;
      }
    } else {
      var r := behind[|behind| - 1];
      assert r in d[i..] && r in d;
      var j :| 0 <= j < |d[i..]| && d[i..][j] == r;
      assert r == d[i + j] && r.x == k.x && r in Signers(others, sigs);
      assert k in all;
      if Within(all, rev) {
        WithinMembers(all, rev);
        assert false;
      }
    }
  }

  /** Sorted the other way, the signers stand in the reversed order of the keys exactly if no two share an x. */
  lemma {:induction false} OrderAgreesIff(s: seq<Point>, sigs: Signatures)
    requires Ascending(s) && Distinct(s)
    ensures Within(Signers(SortDescending(s), sigs), Reverse(s)) <==> Apart(s, sigs)
  {
    hide Encoded, InsertDescending, Signers, Within, Apart;
    if s == [] {
      NoSigners(sigs);
    } else {
      var k, rest, d := s[0], s[1..], SortDescending(s[1..]);
      OrderAgreesIff(rest, sigs);
      SortDescends(rest);
      DistinctPermutes(rest, d);
      ApartFront(s, sigs);
      var i := InsertSplits(k, d);
      assert Reverse(s) == Reverse(rest) + [k];
      assert k !in rest;
      if Encoded(k) in sigs {
        forall j | 0 <= j < |d| ensures d[j].x >= k.x {
          assert d[j] in rest;
        }
        SignerPlaced(k, rest, d, i, sigs);
      } else {
        SplitSigners(k, d, i, sigs);
        assert Signers(d[..i], sigs) + [] + Signers(d[i..], sigs) == Signers(d, sigs);
        WithinLast(Signers(d, sigs), Reverse(rest), k);
      }
    }
  }

  lemma NoSigners(sigs: Signatures)
    ensures Within(Signers(SortDescending([]), sigs), Reverse([])) && Apart([], sigs)
  {
  }

  /** The signers as collected, among the keys as the loop takes them. */
  lemma CollectedInOrder(keys: seq<Point>, sigs: Signatures) returns (signers: seq<Point>, loop: seq<Point>)
    requires Distinct(keys)
    ensures var sorted := SortAscending(keys);
      && Collect(SortDescending(sorted), sigs) == Collect(signers, sigs)
      && Reverse(Encodings(sorted)) == Encodings(loop)
      && (Within(signers, loop) <==> Apart(sorted, sigs))
    ensures forall k :: k in signers <==> k in keys && Encoded(k) in sigs
    ensures forall k :: k in loop ==> k in keys
  {
    hide Encoded, Signers, Within, SortAscending, SortDescending, Collect, Apart, Encodings, Distinct;
    var sorted := SortAscending(keys);
    var down := SortDescending(sorted);
    SortPermutes(keys);
    SortAscends(keys);
    DistinctPermutes(keys, sorted);
    SortDescends(sorted);
    DistinctPermutes(sorted, down);
    ReverseMembers(sorted);
    OrderAgreesIff(sorted, sigs);
    CollectSigners(down, sigs);
    signers, loop := Signers(down, sigs), Reverse(sorted);
    ReverseEncodings(sorted);
  }

  lemma ReverseEncodings(keys: seq<Point>)
    ensures Reverse(Encodings(keys)) == Encodings(Reverse(keys))
  {
    hide Encoded;
  }

  /**
   * The check of collected signatures, each of which verifies under its own key only: it succeeds exactly
   * if no two of the signers share an x.
   */
  lemma CollectedScanIff(v: CheckMultiSig.Verifier, keys: seq<Point>, sigs: Signatures)
    requires Distinct(keys) && Own(v, Signers(keys, sigs), keys, sigs)
    ensures var sorted := SortAscending(keys);
      CheckMultiSig.Scan(v, Collect(SortDescending(sorted), sigs), Reverse(Encodings(sorted))) <==> Apart(sorted, sigs)
  {
    hide Encoded, Within, SortAscending, SortDescending, CheckMultiSig.Scan, Collect;
    var signers, loop := CollectedInOrder(keys, sigs);
    ScanIsWithin(v, signers, loop, sigs);
  }

  /** Without knowing that signatures verify nowhere else, distinct x still suffice. */
  lemma CollectedScan(v: CheckMultiSig.Verifier, keys: seq<Point>, sigs: Signatures)
    requires Distinct(keys) && AllValid(v, keys, sigs) && Apart(SortAscending(keys), sigs)
    requires forall s: seq<byte>, k: Point :: k in keys ==> v(s, Encoded(k)) != CheckMultiSig.Raises
    ensures var sorted := SortAscending(keys);
      CheckMultiSig.Scan(v, Collect(SortDescending(sorted), sigs), Reverse(Encodings(sorted)))
  {
    hide Encoded, Within, SortAscending, SortDescending, CheckMultiSig.Scan, Collect;
    var signers, loop := CollectedInOrder(keys, sigs);
    CollectedMatch(v, signers, loop, sigs);
    var values := Collect(signers, sigs);
    forall s, e | s in values && e in Encodings(loop) ensures v(s, e) != CheckMultiSig.Raises {
      var i :| 0 <= i < |loop| && Encodings(loop)[i] == e;
      assert loop[i] in keys;
    }
    CheckMultiSig.ScanIsComplete(v, values, Encodings(loop));
  }
}
