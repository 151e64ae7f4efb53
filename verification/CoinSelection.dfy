/** neo/Wallets/Wallet.py: choosing coins that reach an amount. */
module CoinSelection {
  import opened Bytes
  import opened Persist
  import opened Wrappers

  /** The bits of `CoinState`. */
  datatype Flag = Confirmed | Spent | Claimed | Locked | Frozen | WatchOnly

  datatype WalletCoin = WalletCoin(ref: CoinReference, output: Output, state: set<Flag>)

  function Total(coins: seq<WalletCoin>): nat {
    if coins == [] then 0 else Total(coins[..|coins| - 1]) + coins[|coins| - 1].output.value
  }

  // ---- order ---------------------------------------------------------------------------------

  predicate Increasing(coins: seq<WalletCoin>) {
    forall i, j :: 0 <= i < j < |coins| ==> coins[i].output.value <= coins[j].output.value
  }

  function Insert(c: WalletCoin, coins: seq<WalletCoin>): seq<WalletCoin> {
    if coins == [] || c.output.value <= coins[0].output.value then [c] + coins
    else [coins[0]] + Insert(c, coins[1..])
  }

  /** `sorted(coins, key=value)`, equal values keeping their order. */
  function SortByValue(coins: seq<WalletCoin>): seq<WalletCoin> {
    if coins == [] then [] else Insert(coins[0], SortByValue(coins[1..]))
  }

  lemma ConsAdds<T>(x: T, s: seq<T>)
    ensures multiset([x] + s) == multiset(s) + multiset{x}
  {
  }

  lemma {:induction false} InsertAdds(c: WalletCoin, coins: seq<WalletCoin>)
    ensures multiset(Insert(c, coins)) == multiset(coins) + multiset{c}
  {
    ConsAdds(c, coins);
    if coins != [] && c.output.value > coins[0].output.value {
      InsertAdds(c, coins[1..]);
      ConsAdds(coins[0], coins[1..]);
      ConsAdds(coins[0], Insert(c, coins[1..]));
      assert coins == [coins[0]] + coins[1..];
    }
  }

  lemma {:induction false} InsertIncreases(c: WalletCoin, coins: seq<WalletCoin>, low: nat)
    requires Increasing(coins) && low <= c.output.value && forall i :: 0 <= i < |coins| ==> low <= coins[i].output.value
    ensures Increasing(Insert(c, coins))
    ensures forall i :: 0 <= i < |Insert(c, coins)| ==> low <= Insert(c, coins)[i].output.value
  {
    if coins != [] && c.output.value > coins[0].output.value {
      InsertIncreases(c, coins[1..], coins[0].output.value);
    }
  }

  lemma {:induction false} SortSorts(coins: seq<WalletCoin>)
    ensures multiset(SortByValue(coins)) == multiset(coins) && Increasing(SortByValue(coins))
  {
    if coins != [] {
      SortSorts(coins[1..]);
      InsertAdds(coins[0], SortByValue(coins[1..]));
      InsertIncreases(coins[0], SortByValue(coins[1..]), 0);
      ConsAdds(coins[0], coins[1..]);
      assert coins == [coins[0]] + coins[1..];
    }
  }

  lemma {:induction false} TotalAppend(a: seq<WalletCoin>, b: seq<WalletCoin>)
    ensures Total(a + b) == Total(a) + Total(b)
  {
    if b == [] {
      assert a + b == a;
    } else {
      assert (a + b)[..|a + b| - 1] == a + b[..|b| - 1];
      TotalAppend(a, b[..|b| - 1]);
    }
  }

  lemma {:induction false} InsertTotal(c: WalletCoin, coins: seq<WalletCoin>)
    ensures Total(Insert(c, coins)) == Total(coins) + c.output.value
  {
    assert [c][..0] == [];
    if coins == [] || c.output.value <= coins[0].output.value {
      TotalAppend([c], coins);
    } else {
      InsertTotal(c, coins[1..]);
      TotalAppend([coins[0]], Insert(c, coins[1..]));
      TotalAppend([coins[0]], coins[1..]);
      assert coins == [coins[0]] + coins[1..];
    }
  }

  lemma {:induction false} SortTotal(coins: seq<WalletCoin>)
    ensures Total(SortByValue(coins)) == Total(coins)
  {
    if coins != [] {
      SortTotal(coins[1..]);
      InsertTotal(coins[0], SortByValue(coins[1..]));
      TotalAppend([coins[0]], coins[1..]);
      assert coins == [coins[0]] + coins[1..];
      assert [coins[0]][..0] == [];
    }
  }

  lemma {:induction false} ReverseTotal(coins: seq<WalletCoin>)
    ensures Total(Reverse(coins)) == Total(coins)
    ensures multiset(Reverse(coins)) == multiset(coins)
  {
    if coins != [] {
      ReverseTotal(coins[1..]);
      TotalAppend(Reverse(coins[1..]), [coins[0]]);
      TotalAppend([coins[0]], coins[1..]);
      assert coins == [coins[0]] + coins[1..];
      ConsAdds(coins[0], coins[1..]);
      ConsAdds(coins[0], Reverse(coins[1..]));
      SnocAdds(Reverse(coins[1..]), coins[0]);
    }
  }

  lemma SnocAdds<T>(s: seq<T>, x: T)
    ensures multiset(s + [x]) == multiset(s) + multiset{x}
  {
  }

  // ---- selection -----------------------------------------------------------------------------

  function Ordered(coins: seq<WalletCoin>, reverse: bool): seq<WalletCoin> {
    if reverse then Reverse(SortByValue(coins)) else SortByValue(coins)
  }

  lemma OrderedSame(coins: seq<WalletCoin>, reverse: bool)
    ensures multiset(Ordered(coins, reverse)) == multiset(coins) && Total(Ordered(coins, reverse)) == Total(coins)
  {
    hide SortByValue, Reverse, Total;
    SortSorts(coins);
    SortTotal(coins);
    ReverseTotal(SortByValue(coins));
  }

  predicate HasExact(coins: seq<WalletCoin>, amount: int) {
    exists c :: c in coins && c.output.value == amount
  }

  /** The shortest beginning of `coins` that is worth at least `amount`. */
  predicate ShortestPrefix(coins: seq<WalletCoin>, amount: int, chosen: seq<WalletCoin>) {
    && chosen <= coins && Total(chosen) >= amount
    && (chosen != [] ==> Total(chosen[..|chosen| - 1]) < amount)
  }

  method SumOf(coins: seq<WalletCoin>) returns (sum: nat)
    ensures sum == Total(coins)
  {
    sum := 0;
    for i := 0 to |coins|
      invariant sum == Total(coins[..i])
    {
      assert coins[..i + 1][..i] == coins[..i];
      sum := sum + coins[i].output.value;
    }
    assert coins[..|coins|] == coins;
  }

  method FindExact(coins: seq<WalletCoin>, amount: int) returns (r: Option<WalletCoin>)
    ensures r.Some? <==> HasExact(coins, amount)
    ensures r.Some? ==> r.value in coins && r.value.output.value == amount
  {
    for i := 0 to |coins|
      invariant forall k :: 0 <= k < i ==> coins[k].output.value != amount
    {
      if coins[i].output.value == amount {
        return Some(coins[i]);
      }
    }
    return None;
  }

  /** Takes coins from the front; one coin is taken even for an amount that needs none. */
  method TakeUntil(coins: seq<WalletCoin>, amount: int) returns (toRet: seq<WalletCoin>)
    requires Total(coins) >= amount
    ensures toRet <= coins && Total(toRet) >= amount
    ensures amount > 0 ==> ShortestPrefix(coins, amount, toRet)
    ensures amount <= 0 ==> toRet == if coins == [] then [] else coins[..1]
  {
    hide Total;
    TotalNothing();
    var total, i := 0, 0;
    toRet := [];
    while i < |coins|
      invariant 0 <= i <= |coins| && toRet == coins[..i] && total == Total(toRet)
      invariant i > 0 ==> total < amount
    {
      ghost var before := toRet;
      TotalAppend(toRet, [coins[i]]);
      TotalOne(coins[i]);
      total := total + coins[i].output.value;
      toRet := toRet + [coins[i]];
      assert toRet[..|toRet| - 1] == before;
      i := i + 1;
      if total >= amount {
        return;
      }
    }
    assert toRet == coins;
  }

  /** The part of `FindUnspentCoinsByAssetAndTotal` after the coins of the asset are listed. */
  method SelectCoins(coins: seq<WalletCoin>, amount: int, reverse: bool) returns (r: Option<seq<WalletCoin>>)
    ensures r == None <==> Total(coins) < amount
    ensures r.Some? ==> Total(r.value) >= amount && multiset(r.value) <= multiset(coins)
    ensures r.Some? && HasExact(coins, amount) ==> |r.value| == 1 && r.value[0].output.value == amount
    ensures r.Some? && !HasExact(coins, amount) && amount > 0 ==>
      ShortestPrefix(Ordered(coins, reverse), amount, r.value)
    ensures r.Some? && !HasExact(coins, amount) && amount <= 0 ==>
      r.value == if coins == [] then [] else Ordered(coins, reverse)[..1]
  {
    hide Total, SortByValue, Reverse, ShortestPrefix, HasExact;
    var sum := SumOf(coins);
    if sum < amount {
      return None;
    }
    var ordered := SortByValue(coins);
    if reverse {
      ordered := Reverse(ordered);
    }
    OrderedSame(coins, reverse);
    SameMembers(coins, ordered);
    SameExact(coins, ordered, amount);
    var exact := FindExact(ordered, amount);
    if exact.Some? {
      TotalOne(exact.value);
      OneWithin(exact.value, coins);
      return Some([exact.value]);
    }
    var toRet := TakeUntil(ordered, amount);
    PrefixWithin(toRet, ordered);
    r := Some(toRet);
  }

  lemma TotalNothing()
    ensures Total([]) == 0
  {
  }

  lemma PrefixWithin<T>(a: seq<T>, b: seq<T>)
    requires a <= b
    ensures multiset(a) <= multiset(b)
  {
    assert b == a + b[|a|..];
  }

  lemma OneWithin<T>(x: T, s: seq<T>)
    requires x in s
    ensures multiset([x]) <= multiset(s)
  {
  }

  lemma SameExact(a: seq<WalletCoin>, b: seq<WalletCoin>, amount: int)
    requires forall c :: c in a <==> c in b
    ensures HasExact(a, amount) <==> HasExact(b, amount)
  {
  }

  lemma TotalOne(c: WalletCoin)
    ensures Total([c]) == c.output.value
  {
    assert [c][..0] == [];
  }

  lemma SameMembers<T>(a: seq<T>, b: seq<T>)
    requires multiset(a) == multiset(b)
    ensures forall c: T :: c in a <==> c in b
    ensures |a| == |b|
  {
    forall c ensures c in a <==> c in b {
      assert c in multiset(a) <==> c in multiset(b);
    }
    assert |multiset(a)| == |multiset(b)|;
  }
}
