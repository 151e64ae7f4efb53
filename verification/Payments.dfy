/** neo/Wallets/Wallet.py: what a built transaction pays, spends and gives back. */
module Payments {
  import opened CoinSelection
  import opened Persist

  /** The outputs' total in one asset. */
  function AssetSum(outputs: seq<Output>, asset: UInt256): nat {
    if outputs == [] then 0
    else AssetSum(outputs[..|outputs| - 1], asset) + OutputIn(outputs[|outputs| - 1], asset)
  }

  function OutputIn(o: Output, asset: UInt256): nat {
    if o.asset == asset then o.value else 0
  }

  /** The coins' total in one asset. */
  function CoinSum(coins: seq<WalletCoin>, asset: UInt256): nat {
    if coins == [] then 0
    else CoinSum(coins[..|coins| - 1], asset) + OutputIn(coins[|coins| - 1].output, asset)
  }

  /** The outputs' total, to which a positive fee is added in the utility token. */
  function Due(outputs: seq<Output>, systemCoin: UInt256, fee: int, asset: UInt256): nat {
    AssetSum(outputs, asset) + if asset == systemCoin && fee > 0 then fee else 0
  }

  lemma {:induction false} AssetSumAppend(a: seq<Output>, b: seq<Output>, asset: UInt256)
    ensures AssetSum(a + b, asset) == AssetSum(a, asset) + AssetSum(b, asset)
  {
    hide OutputIn;
    if b == [] {
      assert a + b == a;
    } else {
      assert (a + b)[..|a + b| - 1] == a + b[..|b| - 1];
      AssetSumAppend(a, b[..|b| - 1], asset);
    }
  }

  lemma {:induction false} CoinSumAppend(a: seq<WalletCoin>, b: seq<WalletCoin>, asset: UInt256)
    ensures CoinSum(a + b, asset) == CoinSum(a, asset) + CoinSum(b, asset)
  {
    hide OutputIn;
    if b == [] {
      assert a + b == a;
    } else {
      assert (a + b)[..|a + b| - 1] == a + b[..|b| - 1];
      CoinSumAppend(a, b[..|b| - 1], asset);
    }
  }

  lemma {:induction false} CoinSumAtMostTotal(coins: seq<WalletCoin>, asset: UInt256)
    ensures CoinSum(coins, asset) <= Total(coins)
    ensures CoinSum(coins, asset) == Total(coins)
      <==> forall c | c in coins && c.output.value > 0 :: c.output.asset == asset
  {
    if coins != [] {
      var front, last := coins[..|coins| - 1], coins[|coins| - 1];
      CoinSumAtMostTotal(front, asset);
      assert forall c | c in coins :: c in front || c == last;
    }
  }

  // ---- change --------------------------------------------------------------------------------

  /** The coins chosen for one asset: all of that asset, and worth what is due. */
  predicate Covers(coins: seq<WalletCoin>, asset: UInt256, due: nat) {
    && (forall c | c in coins && c.output.value > 0 :: c.output.asset == asset)
    && Total(coins) >= due
  }

  function ChangeFor(coins: seq<WalletCoin>, asset: UInt256, due: nat, address: UInt160): seq<Output> {
    if Total(coins) > due then [Output(asset, Total(coins) - due, address)] else []
  }

  function AllChange(chosen: seq<seq<WalletCoin>>, assets: seq<UInt256>, dues: seq<nat>, address: UInt160): seq<Output>
    requires |chosen| == |assets| == |dues|
  {
    if chosen == [] then []
    else
      var n := |chosen| - 1;
      AllChange(chosen[..n], assets[..n], dues[..n], address) + ChangeFor(chosen[n], assets[n], dues[n], address)
  }

  lemma {:induction false} ChangeGoesTo(chosen: seq<seq<WalletCoin>>, assets: seq<UInt256>, dues: seq<nat>,
      address: UInt160)
    requires |chosen| == |assets| == |dues|
    ensures forall o | o in AllChange(chosen, assets, dues, address) :: o.account == address && o.value > 0
  {
    if chosen != [] {
      var n := |chosen| - 1;
      ChangeGoesTo(chosen[..n], assets[..n], dues[..n], address);
    }
  }

  function AllCoins(chosen: seq<seq<WalletCoin>>): seq<WalletCoin> {
    if chosen == [] then [] else AllCoins(chosen[..|chosen| - 1]) + chosen[|chosen| - 1]
  }

  function DueIn(assets: seq<UInt256>, dues: seq<nat>, asset: UInt256): nat
    requires |assets| == |dues|
  {
    if assets == [] then 0
    else
      var n := |assets| - 1;
      DueIn(assets[..n], dues[..n], asset) + if assets[n] == asset then dues[n] else 0
  }

  /** By how much one choice, with its change, misses what is due. */
  function Excess(coins: seq<WalletCoin>, asset: UInt256, due: nat, address: UInt160, x: UInt256): int {
    CoinSum(coins, x) - AssetSum(ChangeFor(coins, asset, due, address), x) - if x == asset then due else 0
  }

  lemma ChangeSum(coins: seq<WalletCoin>, asset: UInt256, due: nat, address: UInt160, x: UInt256)
    ensures AssetSum(ChangeFor(coins, asset, due, address), x)
      == if x == asset && Total(coins) > due then Total(coins) - due else 0
  {
    var o := Output(asset, if Total(coins) > due then Total(coins) - due else 0, address);
    assert [o][..0] == [];
  }

  /** A choice and its change pay exactly what is due, in every asset, if and only if it covers it. */
  lemma CoversIff(coins: seq<WalletCoin>, asset: UInt256, due: nat, address: UInt160)
    ensures Covers(coins, asset, due) <==> forall x :: Excess(coins, asset, due, address, x) == 0
  {
    hide CoinSum, AssetSum, ChangeFor, Total;
    CoinSumAtMostTotal(coins, asset);
    if Covers(coins, asset, due) {
      forall x ensures Excess(coins, asset, due, address, x) == 0 {
        ChangeSum(coins, asset, due, address, x);
        OtherAssets(coins, asset, x);
      }
    }
    if forall x :: Excess(coins, asset, due, address, x) == 0 {
      ChangeSum(coins, asset, due, address, asset);
      assert Excess(coins, asset, due, address, asset) == 0;
    }
  }

  lemma {:induction false} OtherAssets(coins: seq<WalletCoin>, asset: UInt256, x: UInt256)
    requires forall c | c in coins && c.output.value > 0 :: c.output.asset == asset
    ensures x != asset ==> CoinSum(coins, x) == 0
  {
    if coins != [] {
      OtherAssets(coins[..|coins| - 1], asset, x);
      assert coins[|coins| - 1] in coins;
    }
  }

  /** All choices but the one at `v` are known to cover what is due. */
  lemma {:induction false} TotalExcess(chosen: seq<seq<WalletCoin>>, assets: seq<UInt256>, dues: seq<nat>,
      address: UInt160, v: int, x: UInt256)
    requires |chosen| == |assets| == |dues|
    requires forall i | 0 <= i < |chosen| && i != v :: Covers(chosen[i], assets[i], dues[i])
    ensures CoinSum(AllCoins(chosen), x) - AssetSum(AllChange(chosen, assets, dues, address), x)
         == DueIn(assets, dues, x) + if 0 <= v < |chosen| then Excess(chosen[v], assets[v], dues[v], address, x) else 0
    decreases |chosen|
  {
    hide Covers, CoinSum, AssetSum, ChangeFor;
    if chosen == [] {
      NothingSummed(x);
    } else {
      var n := |chosen| - 1;
      TotalExcess(chosen[..n], assets[..n], dues[..n], address, v, x);
      CoinSumAppend(AllCoins(chosen[..n]), chosen[n], x);
      AssetSumAppend(AllChange(chosen[..n], assets[..n], dues[..n], address),
        ChangeFor(chosen[n], assets[n], dues[n], address), x);
      CoversIff(chosen[n], assets[n], dues[n], address);
      assert n != v ==> Excess(chosen[n], assets[n], dues[n], address, x) == 0;
    }
  }

  lemma NothingSummed(x: UInt256)
    ensures CoinSum([], x) == 0 && AssetSum([], x) == 0
  {
  }

  /** In every asset the coins spent are worth what is due and what comes back as change. */
  ghost predicate Conserved(chosen: seq<seq<WalletCoin>>, assets: seq<UInt256>, dues: seq<nat>, address: UInt160)
    requires |chosen| == |assets| == |dues|
  {
    forall x ::
      CoinSum(AllCoins(chosen), x) == DueIn(assets, dues, x) + AssetSum(AllChange(chosen, assets, dues, address), x)
  }

  /**
   * Value is conserved exactly when the only choice that was not selected by amount covers what is due;
   * with no such choice it always is.
   */
  lemma ConservedIff(chosen: seq<seq<WalletCoin>>, assets: seq<UInt256>, dues: seq<nat>, address: UInt160, v: int)
    requires |chosen| == |assets| == |dues|
    requires forall i | 0 <= i < |chosen| && i != v :: Covers(chosen[i], assets[i], dues[i])
    ensures Conserved(chosen, assets, dues, address) <==> (0 <= v < |chosen| ==> Covers(chosen[v], assets[v], dues[v]))
  {
    hide Covers, CoinSum, AssetSum, AllCoins, AllChange, DueIn, Excess;
    if 0 <= v < |chosen| {
      CoversIff(chosen[v], assets[v], dues[v], address);
      if Conserved(chosen, assets, dues, address) {
        forall x ensures Excess(chosen[v], assets[v], dues[v], address, x) == 0 {
          TotalExcess(chosen, assets, dues, address, v, x);
        }
      }
    }
    if 0 <= v < |chosen| ==> Covers(chosen[v], assets[v], dues[v]) {
      forall x
        ensures CoinSum(AllCoins(chosen), x)
          == DueIn(assets, dues, x) + AssetSum(AllChange(chosen, assets, dues, address), x)
      {
        TotalExcess(chosen, assets, dues, address, v, x);
      }
    }
  }
}
