/** The wallet and the ledger keep separate accounts of the same chain; this is why they agree. */
module WalletLedger {
  import opened ChainHistory
  import opened CoinSelection
  import opened Persist
  import opened WalletIndex
  import PersistBlock
  import Wallets

  /** The ledger's balances of some accounts, added up. */
  function BalanceSum(accounts: Accounts, order: seq<UInt160>, asset: UInt256): int {
    if order == [] then 0
    else BalanceSum(accounts, order[..|order| - 1], asset) + Balance(accounts, order[|order| - 1], asset)
  }

  ghost function UnspentOver(coins: seq<Coin>, h: seq<Entry>, order: seq<UInt160>, asset: UInt256): int {
    if order == [] then 0
    else UnspentOver(coins, h, order[..|order| - 1], asset) + UnspentIn(coins, h, order[|order| - 1], asset)
  }

  ghost predicate DistinctAccounts(order: seq<UInt160>) {
    forall i, j :: 0 <= i < j < |order| ==> order[i] != order[j]
  }

  /** The wallet's own addresses, or the watched ones, once each. */
  ghost predicate ListsAddresses(order: seq<UInt160>, a: Addresses, watchOnly: bool) {
    && DistinctAccounts(order)
    && forall account :: account in order <==>
         CheckAddressState(a, account) == if watchOnly then InWalletWatchOnly else InWallet
  }

  lemma {:induction false} NoCoins(h: seq<Entry>, order: seq<UInt160>, asset: UInt256)
    ensures UnspentOver([], h, order, asset) == 0
  {
    if order != [] { NoCoins(h, order[..|order| - 1], asset); }
  }

  /** One more output counts once, for its owner, if it is one of the accounts. */
  lemma {:induction false} OneCoin(coins: seq<Coin>, c: Coin, h: seq<Entry>, order: seq<UInt160>, asset: UInt256)
    requires DistinctAccounts(order)
    ensures UnspentOver(coins + [c], h, order, asset) == UnspentOver(coins, h, order, asset)
      + if !SpentIn(h, c.ref) && c.output.asset == asset && c.output.account in order then c.output.value else 0
  {
    hide SpentIn;
    if order != [] {
      var front, last := order[..|order| - 1], order[|order| - 1];
      OneCoin(coins, c, h, front, asset);
      assert (coins + [c])[..|coins|] == coins;
      assert c.output.account in order <==> c.output.account in front || c.output.account == last;
      assert last !in front;
    }
  }

  lemma {:induction false} UnspentOfWallet(a: Addresses, share: UInt256, h: seq<Entry>, seen: seq<Coin>,
      order: seq<UInt160>, asset: UInt256, watchOnly: bool)
    requires ListsAddresses(order, a, watchOnly)
    ensures UnspentTo(a, seen, EventsOf(AfterHistory(share, h), h), asset, watchOnly)
      == UnspentOver(seen, h, order, asset)
  {
    hide SpentIn, AfterHistory, UnspentOver;
    if seen == [] {
      NoCoins(h, order, asset);
    } else {
      var front, c := seen[..|seen| - 1], seen[|seen| - 1];
      UnspentOfWallet(a, share, h, front, order, asset, watchOnly);
      OneCoin(front, c, h, order, asset);
      assert seen == front + [c];
      SpentInIff(share, h, c.ref);
    }
  }

  lemma {:induction false} BalancesAddUp(ledger: PersistBlock.Blockchain, coins: seq<Coin>, order: seq<UInt160>,
      asset: UInt256)
    requires coins == AfterHistory(ledger.share, ledger.history).coins && ledger.TellsChain()
    ensures BalanceSum(ledger.accounts, order, asset) == UnspentOver(coins, ledger.history, order, asset)
  {
    hide Balance, UnspentIn, AfterHistory, ClaimableTold;
    if order != [] { BalancesAddUp(ledger, coins, order[..|order| - 1], asset); }
  }

  /**
   * A wallet and a ledger that have followed the same chain: the wallet's balance, own or watched, is the sum
   * of the ledger's balances of its addresses.
   */
  lemma WalletMatchesLedger(wallet: Wallets.Wallet, ledger: PersistBlock.Blockchain, order: seq<UInt160>,
      cs: seq<WalletCoin>, asset: UInt256, watchOnly: bool)
    requires wallet.Valid() && ledger.Valid() && wallet.share == ledger.share
    requires wallet.Follows(ledger.history) && Proper(ledger.share, ledger.history)
    requires ListsAddresses(order, wallet.addresses, watchOnly) && Lists(cs, wallet.coins)
    ensures CountedTotal(cs, asset, watchOnly) == BalanceSum(ledger.accounts, order, asset)
  {
    hide *;
    wallet.FollowingTells(ledger.history);
    ledger.ValidTellsChain();
    var h := ledger.history;
    var coins := AfterHistory(ledger.share, h).coins;
    CountedInChain(wallet, h, cs, asset, watchOnly);
    UnspentOfWallet(wallet.addresses, ledger.share, h, coins, order, asset, watchOnly);
    BalancesAddUp(ledger, coins, order, asset);
  }

  lemma CountedInChain(wallet: Wallets.Wallet, h: seq<Entry>, cs: seq<WalletCoin>, asset: UInt256, watchOnly: bool)
    requires wallet.TellsChain(h) && Lists(cs, wallet.coins)
    ensures var b := AfterHistory(wallet.share, h);
      CountedTotal(cs, asset, watchOnly) == UnspentTo(wallet.addresses, b.coins, EventsOf(b, h), asset, watchOnly)
  {
    hide AfterHistory, UnspentTo, CountedTotal, Lists, Indexed, HasOwned, EventsOf, Wallets.Remains;
  }
}
