/** neo/Core/Blockchain.py: the GAS that spent NEO outputs have earned. */
module Bonus {
  import opened Wrappers
  import P = Persist

  const D := 100_000_000
  const DECREMENT_INTERVAL := 2_000_000
  const GENERATION_AMOUNT: seq<nat> := [8, 7, 6, 5, 4, 3, 2, 1, 1, 1, 1, 1, 1, 1, 1, 1, 1, 1, 1, 1, 1, 1]

  /** An output spent at `end` that was created at `start`; its value is in units of 1/D. */
  datatype SpentCoin = SpentCoin(value: nat, start: nat, end: nat)

  // ---- the meaning: one block at a time ------------------------------------------------------

  function Total(s: seq<nat>): nat {
    if s == [] then 0 else s[0] + Total(s[1..])
  }

  /** What block `h` generates for the whole NEO supply. */
  function Generation(h: nat): nat {
    if h / DECREMENT_INTERVAL < |GENERATION_AMOUNT| then GENERATION_AMOUNT[h / DECREMENT_INTERVAL] else 0
  }

  function GeneratedBetween(start: nat, end: nat): nat
    requires start <= end
  {
    if start == end then 0 else GeneratedBetween(start, end - 1) + Generation(end - 1)
  }

  /** The system fees of the blocks from `start` up to `end`. */
  function FeesBetween(fees: seq<nat>, start: nat, end: nat): nat
    requires start <= end <= |fees|
  {
    if start == end then 0 else FeesBetween(fees, start, end - 1) + fees[end - 1]
  }

  /** What one NEO earns: the sum over its blocks of what each generates and collects. */
  function EarnedBetween(fees: seq<nat>, start: nat, end: nat): nat
    requires start <= end <= |fees|
  {
    if start == end then 0
    else EarnedBetween(fees, start, end - 1) + (Generation(end - 1) + fees[end - 1])
  }

  lemma {:induction false} GeneratedSplit(a: nat, b: nat, c: nat)
    requires a <= b <= c
    ensures GeneratedBetween(a, c) == GeneratedBetween(a, b) + GeneratedBetween(b, c)
  {
    hide Generation;
    if b < c { GeneratedSplit(a, b, c - 1); }
  }

  lemma {:induction false} EarnedIs(fees: seq<nat>, start: nat, end: nat)
    requires start <= end <= |fees|
    ensures EarnedBetween(fees, start, end) == GeneratedBetween(start, end) + FeesBetween(fees, start, end)
  {
    hide Generation;
    if start < end { EarnedIs(fees, start, end - 1); }
  }

  /** Adjacent intervals add up, so holding an output or passing it on in between earns the same. */
  lemma {:induction false} EarnedAdds(fees: seq<nat>, a: nat, b: nat, c: nat)
    requires a <= b <= c <= |fees|
    ensures EarnedBetween(fees, a, c) == EarnedBetween(fees, a, b) + EarnedBetween(fees, b, c)
  {
    hide Generation;
    if b < c { EarnedAdds(fees, a, b, c - 1); }
  }

  // ---- system fees ---------------------------------------------------------------------------

  /** `GetSysFeeAmountByHeight`: each stored amount includes all earlier blocks; unknown heights give 0. */
  function SysFeeAmountByHeight(fees: seq<nat>, height: nat): nat {
    if height < |fees| then Total(fees[..height + 1]) else 0
  }

  lemma {:induction false} TotalAppend(a: seq<nat>, b: seq<nat>)
    ensures Total(a + b) == Total(a) + Total(b)
  {
    if a == [] {
      assert a + b == b;
    } else {
      assert (a + b)[1..] == a[1..] + b;
      TotalAppend(a[1..], b);
    }
  }

  lemma {:induction false} FeesTelescope(fees: seq<nat>, start: nat, end: nat)
    requires start <= end <= |fees|
    ensures FeesBetween(fees, start, end) == Total(fees[..end]) - Total(fees[..start])
  {
    if start < end {
      FeesTelescope(fees, start, end - 1);
      assert fees[..end] == fees[..end - 1] + [fees[end - 1]];
      TotalAppend(fees[..end - 1], [fees[end - 1]]);
    }
  }

  // ---- the interval loop ---------------------------------------------------------------------

  lemma GenerationIs(h: nat, q: nat)
    requires q < |GENERATION_AMOUNT| && q * DECREMENT_INTERVAL <= h < (q + 1) * DECREMENT_INTERVAL
    ensures Generation(h) == GENERATION_AMOUNT[q]
  {
    assert h / DECREMENT_INTERVAL == q;
  }

  lemma OneMore(n: nat, g: nat)
    ensures (n + 1) * g == n * g + g
  {
  }

  /** Within one interval the generation is constant. */
  lemma {:induction false} ConstantRun(q: nat, start: nat, end: nat)
    requires q < |GENERATION_AMOUNT|
    requires q * DECREMENT_INTERVAL <= start <= end <= (q + 1) * DECREMENT_INTERVAL
    ensures GeneratedBetween(start, end) == (end - start) * GENERATION_AMOUNT[q]
  {
    hide Generation, GENERATION_AMOUNT;
    if start < end {
      ConstantRun(q, start, end - 1);
      GenerationIs(end - 1, q);
      OneMore(end - 1 - start, GENERATION_AMOUNT[q]);
    }
  }

  lemma {:induction false} NothingPastTable(start: nat, end: nat)
    requires |GENERATION_AMOUNT| * DECREMENT_INTERVAL <= start <= end
    ensures GeneratedBetween(start, end) == 0
  {
    if start < end { NothingPastTable(start, end - 1); }
  }

  /** The table ends at block 44,000,000; the loop can run one interval beyond it. */
  predicate PastTheTable(start: nat, end: nat) {
    start < |GENERATION_AMOUNT| * DECREMENT_INTERVAL && end >= (|GENERATION_AMOUNT| + 1) * DECREMENT_INTERVAL
  }

  /** What the loop adds for an output spent in the very block that created it. */
  function Spurious(start: nat, end: nat): nat {
    if start == end && start % DECREMENT_INTERVAL == 0 then DECREMENT_INTERVAL * Generation(start) else 0
  }

  /**
   * The interval arithmetic. `None` stands for the IndexError of a table index out of range. The result
   * is the per-block sum, except for an empty interval that lies exactly on a decrement.
   */
  method Generated(start: nat, end: nat) returns (amount: Option<nat>)
    requires start <= end
    ensures amount == None <==> PastTheTable(start, end)
    ensures amount.Some? ==> amount.value == GeneratedBetween(start, end) + Spurious(start, end)
  {
    hide GeneratedBetween, Generation, Spurious, GENERATION_AMOUNT;
    assert |GENERATION_AMOUNT| == 22 by { TableLength(); }
    var ustart := start / DECREMENT_INTERVAL;
    ghost var first := ustart;
    if ustart >= |GENERATION_AMOUNT| {
      NothingPastTable(start, end);
      NotSpurious(start, end);
      return Some(0);
    }
    var istart := start % DECREMENT_INTERVAL;
    var uend := end / DECREMENT_INTERVAL;
    var iend := end % DECREMENT_INTERVAL;
    if uend >= |GENERATION_AMOUNT| {
      iend := 0;
    }
    if iend == 0 {
      uend := uend - 1;
      iend := DECREMENT_INTERVAL;
    }
    if uend >= |GENERATION_AMOUNT| {
      return None;
    }
    var sum := 0;
    EmptyInterval(start);
    while ustart < uend
      invariant first <= ustart && (ustart <= uend || (ustart == first && start == end))
      invariant istart == if ustart == first then start % DECREMENT_INTERVAL else 0
      invariant sum == GeneratedBetween(start, ustart * DECREMENT_INTERVAL + istart)
    {
      LoopStep(start, ustart, istart);
      sum := sum + (DECREMENT_INTERVAL - istart) * GENERATION_AMOUNT[ustart];
      ustart := ustart + 1;
      istart := 0;
    }
    LoopEnd(start, end, ustart, istart, uend, iend);
    return Some(sum + (iend - istart) * GENERATION_AMOUNT[ustart]);
  }

  lemma TableLength()
    ensures |GENERATION_AMOUNT| == 22
  {
  }

  lemma NotSpurious(start: nat, end: nat)
    requires start / DECREMENT_INTERVAL >= |GENERATION_AMOUNT|
    ensures Spurious(start, end) == 0
  {
  }

  lemma LoopStep(start: nat, ustart: nat, istart: nat)
    requires ustart < |GENERATION_AMOUNT| && istart < DECREMENT_INTERVAL
    requires start <= ustart * DECREMENT_INTERVAL + istart
    ensures GeneratedBetween(start, (ustart + 1) * DECREMENT_INTERVAL)
         == GeneratedBetween(start, ustart * DECREMENT_INTERVAL + istart)
          + (DECREMENT_INTERVAL - istart) * GENERATION_AMOUNT[ustart]
  {
    hide GeneratedBetween, GENERATION_AMOUNT;
    var from := ustart * DECREMENT_INTERVAL + istart;
    ConstantRun(ustart, from, (ustart + 1) * DECREMENT_INTERVAL);
    GeneratedSplit(start, from, (ustart + 1) * DECREMENT_INTERVAL);
  }

  lemma LoopEnd(start: nat, end: nat, ustart: nat, istart: nat, uend: int, iend: nat)
    requires start <= end && ustart < |GENERATION_AMOUNT| && iend <= DECREMENT_INTERVAL
    requires ustart == uend || (uend < ustart && start == end)
    requires start <= ustart * DECREMENT_INTERVAL + istart
    requires istart < DECREMENT_INTERVAL
    requires uend < ustart ==>
      istart == 0 && iend == DECREMENT_INTERVAL && start == ustart * DECREMENT_INTERVAL
    requires uend == ustart ==>
      && istart <= iend
      && ustart * DECREMENT_INTERVAL + iend <= end
      && (ustart * DECREMENT_INTERVAL + iend == end
            || (iend == DECREMENT_INTERVAL && ustart == |GENERATION_AMOUNT| - 1))
      && (start == end ==> start % DECREMENT_INTERVAL != 0)
    ensures iend >= istart
    ensures GeneratedBetween(start, ustart * DECREMENT_INTERVAL + istart) + (iend - istart) * GENERATION_AMOUNT[ustart]
         == GeneratedBetween(start, end) + Spurious(start, end)
  {
    if uend < ustart {
      GenerationIs(start, ustart);
    } else {
      FinalPart(start, end, ustart, istart, iend);
    }
  }

  lemma FinalPart(start: nat, end: nat, ustart: nat, istart: nat, iend: nat)
    requires ustart < |GENERATION_AMOUNT| && istart <= iend <= DECREMENT_INTERVAL
    requires start <= ustart * DECREMENT_INTERVAL + istart <= ustart * DECREMENT_INTERVAL + iend <= end
    requires ustart * DECREMENT_INTERVAL + iend == end
      || (iend == DECREMENT_INTERVAL && ustart == |GENERATION_AMOUNT| - 1)
    ensures GeneratedBetween(start, ustart * DECREMENT_INTERVAL + istart) + (iend - istart) * GENERATION_AMOUNT[ustart]
         == GeneratedBetween(start, end)
  {
    hide GeneratedBetween;
    var from, to := ustart * DECREMENT_INTERVAL + istart, ustart * DECREMENT_INTERVAL + iend;
    ConstantRun(ustart, from, to);
    GeneratedSplit(start, from, to);
    GeneratedSplit(start, to, end);
    if to < end {
      NothingPastTable(to, end);
    } else {
      EmptyInterval(end);
    }
  }

  lemma EmptyInterval(h: nat)
    ensures GeneratedBetween(h, h) == 0
  {
  }

  // ---- the whole claim -----------------------------------------------------------------------

  /** NEO has no decimals, and an output is spent in a block after genesis that the chain holds. */
  predicate Spent(fees: seq<nat>, c: SpentCoin) {
    c.start <= c.end && 1 <= c.end <= |fees| && c.value % D == 0
  }

  predicate AllSpent(fees: seq<nat>, coins: seq<SpentCoin>) {
    forall c | c in coins :: Spent(fees, c)
  }

  /** The coin's NEO times what each earned block by block, with the loop's error on empty intervals. */
  function CoinBonus(fees: seq<nat>, c: SpentCoin): nat
    requires Spent(fees, c)
  {
    (c.value / D) * (EarnedBetween(fees, c.start, c.end) + Spurious(c.start, c.end))
  }

  function TotalBonus(fees: seq<nat>, coins: seq<SpentCoin>): nat
    requires AllSpent(fees, coins)
  {
    if coins == [] then 0 else TotalBonus(fees, coins[..|coins| - 1]) + CoinBonus(fees, coins[|coins| - 1])
  }

  /** An output that was held over at least one block earns exactly its per-block sum. */
  lemma PerBlockIff(fees: seq<nat>, c: SpentCoin)
    requires Spent(fees, c) && c.value > 0
    ensures CoinBonus(fees, c) == (c.value / D) * EarnedBetween(fees, c.start, c.end)
      <==> c.start != c.end || c.start % DECREMENT_INTERVAL != 0 || c.start >= |GENERATION_AMOUNT| * DECREMENT_INTERVAL
  {
    hide EarnedBetween;
    var neo, earned, extra := c.value / D, EarnedBetween(fees, c.start, c.end), Spurious(c.start, c.end);
    Distribute(neo, earned, extra);
    assert extra == 0 || extra == DECREMENT_INTERVAL * Generation(c.start);
    TablePositive(c.start);
  }

  lemma Distribute(a: nat, b: nat, c: nat)
    ensures a * (b + c) == a * b + a * c
    ensures a * c == 0 <==> a == 0 || c == 0
  {
  }

  lemma TablePositive(h: nat)
    ensures Generation(h) > 0 <==> h / DECREMENT_INTERVAL < |GENERATION_AMOUNT|
  {
  }

  method CalculateBonusInternal(unclaimed: seq<SpentCoin>, fees: seq<nat>) returns (r: Option<nat>)
    requires AllSpent(fees, unclaimed)
    ensures r == None <==> exists c :: c in unclaimed && PastTheTable(c.start, c.end)
    ensures r.Some? ==> r.value == TotalBonus(fees, unclaimed)
  {
    hide EarnedBetween, Spurious, GeneratedBetween, PastTheTable, SysFeeAmountByHeight, CoinBonus;
    var claimed: nat := 0;
    var i := 0;
    while i < |unclaimed|
      invariant i <= |unclaimed|
      invariant forall k | 0 <= k < i :: !PastTheTable(unclaimed[k].start, unclaimed[k].end)
      invariant claimed == TotalBonus(fees, unclaimed[..i])
    {
      var start, end := unclaimed[i].start, unclaimed[i].end;
      assert Spent(fees, unclaimed[i]);
      var generated := Generated(start, end);
      if generated.None? {
        return None;
      }
      var endamount := SysFeeAmountByHeight(fees, end - 1);
      var startamount := if start == 0 then 0 else SysFeeAmountByHeight(fees, start - 1);
      AmountIsEarned(fees, start, end);
      var amount: nat := generated.value + (endamount - startamount);
      var j, outputSum: nat := i, 0;
      while j < |unclaimed| && unclaimed[j].start == start && unclaimed[j].end == end
        invariant i <= j <= |unclaimed| && (j == i ==> i < |unclaimed|)
        invariant forall k | i <= k < j :: unclaimed[k].start == start && unclaimed[k].end == end
        invariant outputSum % D == 0
        invariant claimed + outputSum / D * amount == TotalBonus(fees, unclaimed[..j])
      {
        assert Spent(fees, unclaimed[j]) by { assert unclaimed[j] in unclaimed; }
        GroupStep(fees, unclaimed, j, amount, claimed, outputSum);
        outputSum := outputSum + unclaimed[j].value;
        j := j + 1;
      }
      WholeQuotient(outputSum, amount);
      claimed := claimed + outputSum * amount / D;
      i := j;
    }
    assert unclaimed[..i] == unclaimed;
    return Some(claimed);
  }

  lemma AmountIsEarned(fees: seq<nat>, start: nat, end: nat)
    requires start <= end && 1 <= end <= |fees|
    ensures var startamount := if start == 0 then 0 else SysFeeAmountByHeight(fees, start - 1);
      GeneratedBetween(start, end) + (SysFeeAmountByHeight(fees, end - 1) - startamount)
        == EarnedBetween(fees, start, end)
  {
    EarnedIs(fees, start, end);
    FeesTelescope(fees, start, end);
    assert fees[..0] == [];
  }

  lemma GroupStep(fees: seq<nat>, coins: seq<SpentCoin>, j: nat, amount: nat, claimed: nat, outputSum: nat)
    requires AllSpent(fees, coins)
    requires j < |coins| && Spent(fees, coins[j]) && outputSum % D == 0
    requires amount == EarnedBetween(fees, coins[j].start, coins[j].end) + Spurious(coins[j].start, coins[j].end)
    requires claimed + outputSum / D * amount == TotalBonus(fees, coins[..j])
    ensures (outputSum + coins[j].value) % D == 0
    ensures claimed + (outputSum + coins[j].value) / D * amount == TotalBonus(fees, coins[..j + 1])
  {
    hide EarnedBetween, Spurious, Spent;
    WholeSum(fees, outputSum, coins[j]);
    assert coins[..j + 1][..j] == coins[..j] && coins[..j + 1][j] == coins[j];
    var v := coins[j].value;
    DistributeLeft(outputSum / D, v / D, amount);
  }

  lemma WholeSum(fees: seq<nat>, outputSum: nat, c: SpentCoin)
    requires outputSum % D == 0 && Spent(fees, c)
    ensures (outputSum + c.value) % D == 0
    ensures (outputSum + c.value) / D == outputSum / D + c.value / D
  {
  }

  lemma DistributeLeft(a: nat, b: nat, c: nat)
    ensures (a + b) * c == a * c + b * c
  {
  }

  lemma WholeQuotient(n: nat, amount: nat)
    requires n % D == 0
    ensures n * amount / D == n / D * amount
  {
    var q := n / D;
    assert n * amount == q * amount * D by { assert n == q * D; Rearrange(q, D, amount); }
  }

  lemma Rearrange(a: nat, b: nat, c: nat)
    ensures a * b * c == a * c * b
  {
  }

  /** Neither the order of the coins nor, with it, the grouping of equal heights changes a claim. */
  lemma {:induction false} OrderDoesNotMatter(fees: seq<nat>, a: seq<SpentCoin>, b: seq<SpentCoin>)
    requires AllSpent(fees, a) && multiset(a) == multiset(b)
    ensures AllSpent(fees, b) && TotalBonus(fees, a) == TotalBonus(fees, b)
  {
    hide CoinBonus, Spent;
    SameElements(fees, a, b);
    if a == [] {
      assert |multiset(b)| == |multiset(a)| == 0;
    } else {
      var i := WithoutLast(a, b);
      OrderDoesNotMatter(fees, a[..|a| - 1], b[..i] + b[i + 1..]);
      TotalWithout(fees, b, i);
    }
  }

  lemma SameElements(fees: seq<nat>, a: seq<SpentCoin>, b: seq<SpentCoin>)
    requires AllSpent(fees, a) && multiset(a) == multiset(b)
    ensures AllSpent(fees, b)
  {
    hide Spent;
    forall c | c in b ensures Spent(fees, c) {
      assert c in multiset(b);
    }
  }

  lemma MultisetWithout<T>(s: seq<T>, i: nat)
    requires i < |s|
    ensures multiset(s) == multiset(s[..i] + s[i + 1..]) + multiset{s[i]}
  {
    assert s == s[..i] + [s[i]] + s[i + 1..];
  }

  lemma WithoutLast<T>(a: seq<T>, b: seq<T>) returns (i: nat)
    requires a != [] && multiset(a) == multiset(b)
    ensures i < |b| && b[i] == a[|a| - 1]
    ensures multiset(a[..|a| - 1]) == multiset(b[..i] + b[i + 1..])
  {
    var n := |a| - 1;
    MultisetWithout(a, n);
    assert a[..n] + a[n + 1..] == a[..n];
    assert a[n] in multiset(b);
    i :| 0 <= i < |b| && b[i] == a[n];
    MultisetWithout(b, i);
    SameRest(multiset(a[..n]), multiset(b[..i] + b[i + 1..]), a[n]);
  }

  lemma SameRest<T>(a: multiset<T>, b: multiset<T>, x: T)
    requires a + multiset{x} == b + multiset{x}
    ensures a == b
  {
    assert a == (a + multiset{x}) - multiset{x};
    assert b == (b + multiset{x}) - multiset{x};
  }

  lemma {:induction false} TotalWithout(fees: seq<nat>, b: seq<SpentCoin>, i: nat)
    requires AllSpent(fees, b)
    requires i < |b|
    ensures AllSpent(fees, b[..i] + b[i + 1..])
    ensures TotalBonus(fees, b) == TotalBonus(fees, b[..i] + b[i + 1..]) + CoinBonus(fees, b[i])
  {
    hide CoinBonus;
    if i == |b| - 1 {
      assert b[..i] + b[i + 1..] == b[..i];
    } else {
      var front := b[..|b| - 1];
      TotalWithout(fees, front, i);
      var rest := b[..i] + b[i + 1..];
      assert rest[..|rest| - 1] == front[..i] + front[i + 1..];
    }
  }

  /** Passing an output on after block `h`, in any split of its value, earns what holding it would have. */
  lemma HoldOrPassOn(fees: seq<nat>, c: SpentCoin, h: nat, part: nat)
    requires Spent(fees, c) && c.start < h < c.end && part <= c.value && part % D == 0
    ensures var parts := [SpentCoin(c.value, c.start, h), SpentCoin(part, h, c.end),
      SpentCoin(c.value - part, h, c.end)];
      AllSpent(fees, parts) && TotalBonus(fees, parts) == CoinBonus(fees, c)
  {
    hide EarnedBetween;
    var x, y, z := SpentCoin(c.value, c.start, h), SpentCoin(part, h, c.end), SpentCoin(c.value - part, h, c.end);
    TotalOfThree(fees, x, y, z);
    EarnedAdds(fees, c.start, h, c.end);
    var e, f := EarnedBetween(fees, c.start, h), EarnedBetween(fees, h, c.end);
    Distribute(c.value / D, e, f);
    assert c.value / D == part / D + (c.value - part) / D;
    DistributeLeft(part / D, (c.value - part) / D, f);
  }

  lemma TotalOfThree(fees: seq<nat>, x: SpentCoin, y: SpentCoin, z: SpentCoin)
    requires Spent(fees, x) && Spent(fees, y) && Spent(fees, z)
    ensures AllSpent(fees, [x, y, z])
    ensures TotalBonus(fees, [x, y, z]) == CoinBonus(fees, x) + CoinBonus(fees, y) + CoinBonus(fees, z)
  {
    hide CoinBonus, Spent;
    TotalAdd(fees, [x, y], z);
    TotalAdd(fees, [x], y);
    TotalAdd(fees, [], x);
    assert [x, y, z] == [x, y] + [z] && [x, y] == [x] + [y] && [x] == [] + [x];
  }

  lemma TotalAdd(fees: seq<nat>, coins: seq<SpentCoin>, c: SpentCoin)
    requires AllSpent(fees, coins) && Spent(fees, c)
    ensures AllSpent(fees, coins + [c])
    ensures TotalBonus(fees, coins + [c]) == TotalBonus(fees, coins) + CoinBonus(fees, c)
  {
    hide CoinBonus, Spent;
    assert (coins + [c])[..|coins|] == coins;
  }

  // ---- looking claims up ---------------------------------------------------------------------

  /** `GetUnclaimed` for every transaction that is known: its spent and unclaimed outputs by index. */
  type Claimable = map<P.UInt256, map<nat, SpentCoin>>

  predicate IsClaimable(claimable: Claimable, ref: P.CoinReference) {
    ref.prevHash in claimable && ref.prevIndex in claimable[ref.prevHash]
  }

  /** The coins of the references that can be claimed, in order and as often as they are named. */
  function Unclaimed(claimable: Claimable, inputs: seq<P.CoinReference>): seq<SpentCoin> {
    if inputs == [] then []
    else
      var front, last := inputs[..|inputs| - 1], inputs[|inputs| - 1];
      Unclaimed(claimable, front)
        + (if IsClaimable(claimable, last) then [claimable[last.prevHash][last.prevIndex]] else [])
  }

  /**
   * The claim pays for exactly the named references that can be claimed. `None` stands for an exception:
   * a reference that cannot be, unless those are to be ignored, or an interval past the table.
   */
  method CalculateBonusIgnoreClaimed(inputs: seq<P.CoinReference>, ignoreClaimed: bool, claimable: Claimable,
      fees: seq<nat>)
    returns (r: Option<nat>)
    requires forall h, i | h in claimable && i in claimable[h] :: Spent(fees, claimable[h][i])
    ensures AllSpent(fees, Unclaimed(claimable, inputs))
    ensures r.Some? ==> r.value == TotalBonus(fees, Unclaimed(claimable, inputs))
    ensures r == None <==>
      || (!ignoreClaimed && exists ref :: ref in inputs && !IsClaimable(claimable, ref))
      || exists c :: c in Unclaimed(claimable, inputs) && PastTheTable(c.start, c.end)
  {
    hide Spent, TotalBonus, PastTheTable;
    UnclaimedSpent(inputs, claimable, fees);
    var unclaimed: seq<SpentCoin> := [];
    var i := 0;
    while i < |inputs|
      invariant 0 <= i <= |inputs| && unclaimed == Unclaimed(claimable, inputs[..i])
      invariant !ignoreClaimed ==> forall k :: 0 <= k < i ==> IsClaimable(claimable, inputs[k])
    {
      var hash, start := inputs[i].prevHash, i;
      var known := hash in claimable && claimable[hash] != map[];
      if !known && !ignoreClaimed {
        assert !IsClaimable(claimable, inputs[i]);
        return None;
      }
      while i < |inputs| && inputs[i].prevHash == hash
        invariant start <= i <= |inputs| && (i == start ==> inputs[i].prevHash == hash)
        invariant unclaimed == Unclaimed(claimable, inputs[..i])
        invariant !ignoreClaimed ==> forall k :: 0 <= k < i ==> IsClaimable(claimable, inputs[k])
      {
        assert inputs[..i + 1][..i] == inputs[..i];
        if known && inputs[i].prevIndex in claimable[hash] {
          unclaimed := unclaimed + [claimable[hash][inputs[i].prevIndex]];
        } else if !ignoreClaimed {
          assert !IsClaimable(claimable, inputs[i]);
          return None;
        }
        i := i + 1;
      }
    }
    assert inputs[..i] == inputs;
    r := CalculateBonusInternal(unclaimed, fees);
  }

  lemma {:induction false} UnclaimedSpent(inputs: seq<P.CoinReference>, claimable: Claimable, fees: seq<nat>)
    requires forall h, i | h in claimable && i in claimable[h] :: Spent(fees, claimable[h][i])
    ensures AllSpent(fees, Unclaimed(claimable, inputs))
  {
    hide Spent;
    if inputs != [] {
      UnclaimedSpent(inputs[..|inputs| - 1], claimable, fees);
    }
  }

  // ---- the two assets ------------------------------------------------------------------------

  /** The amounts that the genesis block registers: both are the table's sum, in units of 1/D. */
  function SystemShareAmount(): nat {
    Total(GENERATION_AMOUNT) * DECREMENT_INTERVAL * D
  }

  function SystemCoinAmount(): nat {
    Total(GENERATION_AMOUNT) * DECREMENT_INTERVAL * D
  }

  lemma {:induction false} GeneratedToTable(n: nat)
    requires n <= |GENERATION_AMOUNT|
    ensures GeneratedBetween(0, n * DECREMENT_INTERVAL) == Total(GENERATION_AMOUNT[..n]) * DECREMENT_INTERVAL
  {
    hide GENERATION_AMOUNT, Generation, GeneratedBetween;
    var amounts := GENERATION_AMOUNT;
    if n == 0 {
      EmptyInterval(0);
      assert amounts[..0] == [];
    } else {
      GeneratedToTable(n - 1);
      ConstantRun(n - 1, (n - 1) * DECREMENT_INTERVAL, n * DECREMENT_INTERVAL);
      GeneratedSplit(0, (n - 1) * DECREMENT_INTERVAL, n * DECREMENT_INTERVAL);
      assert amounts[..n] == amounts[..n - 1] + [amounts[n - 1]];
      TotalAppend(amounts[..n - 1], [amounts[n - 1]]);
    }
  }

  function GeneratedFor(coins: seq<SpentCoin>): nat
    requires forall c | c in coins :: c.start <= c.end
  {
    if coins == [] then 0
    else coins[0].value / D * GeneratedBetween(coins[0].start, coins[0].end) + GeneratedFor(coins[1..])
  }

  function ValueOf(coins: seq<SpentCoin>): nat {
    if coins == [] then 0 else coins[0].value + ValueOf(coins[1..])
  }

  /** However the whole NEO supply is split, over the whole schedule it generates the whole GAS supply. */
  lemma {:induction false} WholeSupply(coins: seq<SpentCoin>)
    requires forall c | c in coins ::
      c.start == 0 && c.end >= |GENERATION_AMOUNT| * DECREMENT_INTERVAL && c.value % D == 0
    ensures GeneratedFor(coins) * D == ValueOf(coins) * (Total(GENERATION_AMOUNT) * DECREMENT_INTERVAL)
    ensures ValueOf(coins) == SystemShareAmount() ==> GeneratedFor(coins) == SystemCoinAmount()
  {
    TableTotal();
    hide GENERATION_AMOUNT, Generation, GeneratedBetween, Total;
    var all := Total(GENERATION_AMOUNT) * DECREMENT_INTERVAL;
    if coins != [] {
      var c := coins[0];
      WholeSupply(coins[1..]);
      WholeSchedule(c.end);
      DistributeLeft(c.value, ValueOf(coins[1..]), all);
      assert c.value / D * all * D == c.value * all;
    }
  }

  lemma WholeSchedule(end: nat)
    requires end >= |GENERATION_AMOUNT| * DECREMENT_INTERVAL
    ensures GeneratedBetween(0, end) == Total(GENERATION_AMOUNT) * DECREMENT_INTERVAL
  {
    hide GENERATION_AMOUNT, Generation, GeneratedBetween, Total;
    var amounts := GENERATION_AMOUNT;
    GeneratedToTable(|amounts|);
    assert amounts[..|amounts|] == amounts;
    GeneratedSplit(0, |amounts| * DECREMENT_INTERVAL, end);
    NothingPastTable(|amounts| * DECREMENT_INTERVAL, end);
  }

  lemma TableTotal()
    ensures Total(GENERATION_AMOUNT) == 50
  {
    hide Total;
    SevenThenOnes(GENERATION_AMOUNT);
  }

  lemma SevenThenOnes(g: seq<nat>)
    requires |g| >= 7 && forall i :: 7 <= i < |g| ==> g[i] == 1
    ensures Total(g) == g[0] + g[1] + g[2] + g[3] + g[4] + g[5] + g[6] + |g| - 7
  {
    hide Total;
    TotalHead(g);
    TotalHead(g[1..]);
    TotalHead(g[1..][1..]);
    var h := g[1..][1..][1..];
    TotalHead(h);
    TotalHead(h[1..]);
    TotalHead(h[1..][1..]);
    TotalHead(h[1..][1..][1..]);
    TotalOnes(h[1..][1..][1..][1..]);
  }

  lemma TotalHead(s: seq<nat>)
    requires s != []
    ensures Total(s) == s[0] + Total(s[1..])
  {
  }

  lemma {:induction false} TotalOnes(s: seq<nat>)
    requires forall i :: 0 <= i < |s| ==> s[i] == 1
    ensures Total(s) == |s|
  {
    if s != [] { TotalOnes(s[1..]); }
  }

  // ---- the schedule in figures ---------------------------------------------------------------

  /** 8 GAS a block for the first two million blocks, one less every two million blocks, 1 from 14 to 44 million. */
  lemma Schedule(h: nat)
    ensures h < 14_000_000 ==> Generation(h) == 8 - h / 2_000_000
    ensures 14_000_000 <= h < 44_000_000 ==> Generation(h) == 1
    ensures h >= 44_000_000 ==> Generation(h) == 0
  {
  }

  /** What all blocks below h have generated. */
  function Emitted(h: nat): nat {
    if h < 2_000_000 then 8 * h
    else if h < 4_000_000 then 16_000_000 + 7 * (h - 2_000_000)
    else if h < 6_000_000 then 30_000_000 + 6 * (h - 4_000_000)
    else if h < 8_000_000 then 42_000_000 + 5 * (h - 6_000_000)
    else if h < 10_000_000 then 52_000_000 + 4 * (h - 8_000_000)
    else if h < 12_000_000 then 60_000_000 + 3 * (h - 10_000_000)
    else if h < 14_000_000 then 66_000_000 + 2 * (h - 12_000_000)
    else if h < 44_000_000 then 70_000_000 + (h - 14_000_000)
    else 100_000_000
  }

  lemma {:induction false} EmittedBetween(a: nat, b: nat)
    requires a <= b
    ensures GeneratedBetween(a, b) == Emitted(b) - Emitted(a)
  {
    hide Generation;
    if a < b {
      EmittedBetween(a, b - 1);
      Schedule(b - 1);
    }
  }

  /**
   * The bonus of an output held from block `start` to a later block `end`, in figures: its NEO times what the
   * schedule has emitted in between and what the fees have come to.
   */
  lemma BonusInFigures(fees: seq<nat>, c: SpentCoin)
    requires Spent(fees, c) && c.start < c.end
    ensures CoinBonus(fees, c) == (c.value / 100_000_000)
      * (Emitted(c.end) - Emitted(c.start) + Total(fees[..c.end]) - Total(fees[..c.start]))
  {
    hide Emitted, EarnedBetween, Total;
    EarnedIs(fees, c.start, c.end);
    EmittedBetween(c.start, c.end);
    FeesTelescope(fees, c.start, c.end);
  }

  lemma NeverRises(a: nat, b: nat)
    requires a <= b
    ensures Generation(b) <= Generation(a) <= 8
  {
    hide Generation;
    Schedule(a);
    Schedule(b);
  }

  /** Of two equally long intervals the earlier one generates no less. */
  lemma {:induction false} EarlierGeneratesMore(a: nat, b: nat, n: nat)
    requires a <= b
    ensures GeneratedBetween(b, b + n) <= GeneratedBetween(a, a + n)
  {
    hide Generation;
    if n > 0 {
      EarlierGeneratesMore(a, b, n - 1);
      NeverRises(a + n - 1, b + n - 1);
    }
  }

  /** Both assets are registered with 100 million whole units. */
  lemma RegisteredAmounts()
    ensures SystemShareAmount() == SystemCoinAmount() == 100_000_000 * 100_000_000
  {
    hide Total, GENERATION_AMOUNT;
    TableTotal();
  }
}
