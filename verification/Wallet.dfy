/** neo/Wallets/Wallet.py: the coin dictionary, balances and the building of transactions. */
module Wallets {
  import opened ChainHistory
  import opened CoinSelection
  import opened Payments
  import opened Persist
  import opened WalletIndex
  import opened Wrappers

  // ---- blocks --------------------------------------------------------------------------------

  function BlockCoins(txs: seq<Transaction>): seq<Coin> {
    if txs == [] then [] else BlockCoins(txs[..|txs| - 1]) + CoinsOf(txs[|txs| - 1])
  }

  function BlockInputs(txs: seq<Transaction>): set<CoinReference> {
    if txs == [] then {} else BlockInputs(txs[..|txs| - 1]) + Refs(txs[|txs| - 1].inputs)
  }

  function BlockClaims(txs: seq<Transaction>): set<CoinReference> {
    if txs == [] then {} else BlockClaims(txs[..|txs| - 1]) + Refs(txs[|txs| - 1].claims)
  }

  /** The outputs of the block are new: not seen, spent or claimed before. */
  ghost predicate NewCoins(seen: seq<Coin>, e: Events, coins: seq<Coin>) {
    && DistinctRefs(seen + coins)
    && forall c | c in coins :: c.ref !in e.spent && c.ref !in e.claimed
  }

  lemma NewCoin(seen: seq<Coin>, e: Events, coins: seq<Coin>, i: nat)
    requires NewCoins(seen, e, coins) && i < |coins|
    ensures !HasCoin(seen + coins[..i], coins[i].ref) && coins[i].ref !in e.spent && coins[i].ref !in e.claimed
  {
    assert coins[i] in coins;
    forall c | c in seen + coins[..i] ensures c.ref != coins[i].ref {
      var k :| 0 <= k < |seen| + i && (seen + coins[..i])[k] == c;
      assert (seen + coins)[k] == c && (seen + coins)[|seen| + i] == coins[i];
    }
  }

  lemma BlockStep(txs: seq<Transaction>, i: nat)
    requires i < |txs|
    ensures BlockCoins(txs[..i + 1]) == BlockCoins(txs[..i]) + CoinsOf(txs[i])
    ensures BlockInputs(txs[..i + 1]) == BlockInputs(txs[..i]) + Refs(txs[i].inputs)
    ensures BlockClaims(txs[..i + 1]) == BlockClaims(txs[..i]) + Refs(txs[i].claims)
  {
    assert txs[..i + 1][..i] == txs[..i];
  }

  lemma {:induction false} BlockPrefix(txs: seq<Transaction>, i: nat)
    requires i < |txs|
    ensures BlockCoins(txs[..i]) + CoinsOf(txs[i]) <= BlockCoins(txs)
    decreases |txs|
  {
    if i == |txs| - 1 {
    } else {
      BlockPrefix(txs[..|txs| - 1], i);
      assert txs[..|txs| - 1][..i] == txs[..i];
    }
  }

  // ---- spending ------------------------------------------------------------------------------

  /** Which coins a transaction may be built from. */
  datatype Query = Query(fromAddr: Option<UInt160>, useStandard: bool, watchOnly: bool, exclude: seq<CoinReference>)

  datatype Found = Chosen(coins: seq<WalletCoin>) | TooFew | KeyError

  /** `Raised` stands for the exceptions on missing funds and on an address without a contract. */
  datatype MakeResult = Made(tx: Transaction) | NotSynced | Raised

  predicate Spendable(q: Query, c: WalletCoin) {
    && Confirmed in c.state && Flag.Spent !in c.state && Locked !in c.state && Frozen !in c.state
    && (WatchOnly in c.state <==> q.watchOnly)
    && c.ref !in q.exclude
  }

  predicate Eligible(standard: set<UInt160>, q: Query, c: WalletCoin) {
    && Spendable(q, c)
    && (q.fromAddr.Some? ==> c.output.account == q.fromAddr.value)
    && (q.fromAddr.None? && q.useStandard ==> c.output.account in standard)
  }

  ghost predicate DistinctCoins(cs: seq<WalletCoin>) {
    forall i, j :: 0 <= i < j < |cs| ==> cs[i].ref != cs[j].ref
  }

  ghost predicate InDictionary(cs: seq<WalletCoin>, coins: Coins) {
    forall c | c in cs :: c.ref in coins && coins[c.ref] == c
  }

  /** All eligible coins of one asset, once each. */
  ghost predicate ListsEligible(cs: seq<WalletCoin>, coins: Coins, standard: set<UInt160>, q: Query, asset: UInt256) {
    && DistinctCoins(cs) && InDictionary(cs, coins)
    && (forall c | c in cs :: Eligible(standard, q, c) && c.output.asset == asset)
    && (forall ref | ref in coins && Eligible(standard, q, coins[ref]) && coins[ref].output.asset == asset ::
      coins[ref] in cs)
  }

  function Filter(cs: seq<WalletCoin>, f: WalletCoin -> bool): (r: seq<WalletCoin>)
    ensures forall c :: c in r <==> c in cs && f(c)
  {
    if cs == [] then []
    else Filter(cs[..|cs| - 1], f) + (if f(cs[|cs| - 1]) then [cs[|cs| - 1]] else [])
  }

  lemma {:induction false} FilterDistinct(cs: seq<WalletCoin>, f: WalletCoin -> bool)
    requires DistinctCoins(cs)
    ensures DistinctCoins(Filter(cs, f))
  {
    if cs != [] {
      var front, last := cs[..|cs| - 1], cs[|cs| - 1];
      FilterDistinct(front, f);
      var kept := Filter(front, f);
      forall i | 0 <= i < |kept| ensures kept[i].ref != last.ref {
        assert kept[i] in kept && kept[i] in front;
        var k :| 0 <= k < |front| && front[k] == kept[i];
        assert cs[k].ref != cs[|cs| - 1].ref;
      }
    }
  }

  lemma {:induction false} CountedIsTotal(cs: seq<WalletCoin>, asset: UInt256, watchOnly: bool)
    ensures Total(Filter(cs, (c: WalletCoin) => Available(c, asset, watchOnly))) == CountedTotal(cs, asset, watchOnly)
  {
    hide Available;
    if cs != [] {
      var f := (c: WalletCoin) => Available(c, asset, watchOnly);
      var front, last := cs[..|cs| - 1], cs[|cs| - 1];
      CountedIsTotal(front, asset, watchOnly);
      TotalAppend(Filter(front, f), if f(last) then [last] else []);
      TotalOne(last);
    }
  }

  /** Every dictionary can be listed. */
  lemma {:induction false} ListAll(coins: Coins) returns (cs: seq<WalletCoin>)
    requires forall ref | ref in coins :: coins[ref].ref == ref
    ensures Lists(cs, coins)
    decreases |coins|
  {
    if coins == map[] {
      cs := [];
    } else {
      var ref :| ref in coins;
      FewerEntries(coins, ref);
      var rest := ListAll(coins - {ref});
      cs := rest + [coins[ref]];
      forall r | r in coins ensures coins[r] in cs {
        assert r != ref ==> (coins - {ref})[r] in rest;
      }
    }
  }

  lemma FewerEntries(coins: Coins, ref: CoinReference)
    requires ref in coins
    ensures |coins - {ref}| < |coins|
  {
    assert |coins| == |coins.Keys| && |coins - {ref}| == |(coins - {ref}).Keys|;
    assert (coins - {ref}).Keys == coins.Keys - {ref};
  }

  lemma SameRef(seen: seq<Coin>, c: Coin, d: Coin)
    requires DistinctRefs(seen) && c in seen && d in seen && c.ref == d.ref
    ensures c == d
  {
  }

  lemma ChosenDistinct(chosen: seq<WalletCoin>, cs: seq<WalletCoin>)
    requires DistinctCoins(cs) && multiset(chosen) <= multiset(cs)
    ensures DistinctCoins(chosen) && forall c | c in chosen :: c in cs
  {
    forall c | c in chosen ensures c in cs {
      assert c in multiset(chosen);
    }
    forall i, j | 0 <= i < j < |chosen| ensures chosen[i].ref != chosen[j].ref {
      if chosen[i].ref == chosen[j].ref {
        assert chosen[i] == chosen[j] by { SameCoin(cs, chosen[i], chosen[j]); }
        Twice(chosen, i, j);
        Once(cs, chosen[i]);
      }
    }
  }

  lemma SameCoin(cs: seq<WalletCoin>, a: WalletCoin, b: WalletCoin)
    requires DistinctCoins(cs) && a in cs && b in cs && a.ref == b.ref
    ensures a == b
  {
  }

  lemma Twice<T>(s: seq<T>, i: nat, j: nat)
    requires i < j < |s| && s[i] == s[j]
    ensures multiset(s)[s[i]] >= 2
  {
    assert s == s[..i] + [s[i]] + s[i + 1..j] + [s[j]] + s[j + 1..];
  }

  lemma {:induction false} Once(cs: seq<WalletCoin>, c: WalletCoin)
    requires DistinctCoins(cs)
    ensures multiset(cs)[c] <= 1
  {
    if cs != [] {
      var front, last := cs[..|cs| - 1], cs[|cs| - 1];
      Once(front, c);
      assert cs == front + [last];
      if last == c {
        assert c !in front;
        assert c !in multiset(front);
      }
    }
  }

  lemma TotalAround(cs: seq<WalletCoin>, i: nat)
    requires i < |cs|
    ensures Total(cs) == Total(cs[..i] + cs[i + 1..]) + cs[i].output.value
  {
    hide Total;
    assert cs == cs[..i] + [cs[i]] + cs[i + 1..];
    TotalAppend(cs[..i] + [cs[i]], cs[i + 1..]);
    TotalAppend(cs[..i], [cs[i]]);
    TotalAppend(cs[..i], cs[i + 1..]);
    TotalOne(cs[i]);
  }

  /** Two lists of the same coins, once each, are worth the same. */
  lemma {:induction false} SameTotal(a: seq<WalletCoin>, b: seq<WalletCoin>)
    requires DistinctCoins(a) && DistinctCoins(b) && forall c :: c in a <==> c in b
    ensures Total(a) == Total(b)
    decreases |a|
  {
    hide Total;
    if a == [] {
      SomeMember(b);
    } else {
      var front, c := a[..|a| - 1], a[|a| - 1];
      assert c in b;
      var i :| 0 <= i < |b| && b[i] == c;
      var rest := b[..i] + b[i + 1..];
      forall d ensures d in front <==> d in rest {
        assert d in front ==> d in a && d != c;
        if d in rest {
          var k :| 0 <= k < |rest| && rest[k] == d;
          assert d == b[if k < i then k else k + 1];
          assert d in b && d in a;
        }
        if d in front {
          var k :| 0 <= k < |b| && b[k] == d;
          assert k != i && rest[if k < i then k else k - 1] == d;
        }
      }
      assert DistinctCoins(rest);
      SameTotal(front, rest);
      TotalAround(a, |a| - 1);
      assert a[..|a| - 1] + a[|a|..] == front;
      TotalAround(b, i);
    }
  }

  function RefsOf(cs: seq<WalletCoin>): (s: seq<CoinReference>)
    ensures |s| == |cs| && forall i :: 0 <= i < |cs| ==> s[i] == cs[i].ref
  {
    if cs == [] then [] else RefsOf(cs[..|cs| - 1]) + [cs[|cs| - 1].ref]
  }

  // ---- what a transaction owes ---------------------------------------------------------------

  /** An asset among the outputs, or the utility token when there is a fee. */
  predicate Needed(outputs: seq<Output>, systemCoin: UInt256, fee: int, asset: UInt256) {
    (exists o :: o in outputs && o.asset == asset) || (asset == systemCoin && fee > 0)
  }

  function PaidIn(paytotal: map<UInt256, nat>, asset: UInt256): nat {
    if asset in paytotal then paytotal[asset] else 0
  }

  /** The values of a dictionary in the order of its keys. */
  function Values(order: seq<UInt256>, paytotal: map<UInt256, nat>): (s: seq<nat>)
    requires forall a | a in order :: a in paytotal
    ensures |s| == |order| && forall i :: 0 <= i < |s| ==> s[i] == paytotal[order[i]]
  {
    if order == [] then [] else Values(order[..|order| - 1], paytotal) + [paytotal[order[|order| - 1]]]
  }

  ghost predicate KeysInOrder(order: seq<UInt256>, paytotal: map<UInt256, nat>) {
    && (forall i, j :: 0 <= i < j < |order| ==> order[i] != order[j])
    && (forall a :: a in order <==> a in paytotal)
  }

  lemma {:induction false} ValuesSum(order: seq<UInt256>, paytotal: map<UInt256, nat>, asset: UInt256)
    requires (forall a | a in order :: a in paytotal) && forall i, j :: 0 <= i < j < |order| ==> order[i] != order[j]
    ensures DueIn(order, Values(order, paytotal), asset) == if asset in order then paytotal[asset] else 0
  {
    if order != [] {
      var front := order[..|order| - 1];
      ValuesSum(front, paytotal, asset);
      assert Values(order, paytotal)[..|order| - 1] == Values(front, paytotal);
      assert asset in order <==> asset in front || asset == order[|order| - 1];
    }
  }

  /** One run of consecutive outputs of the same asset. */
  method GroupSum(outputs: seq<Output>, start: nat) returns (i: nat, sum: nat)
    requires start < |outputs|
    ensures start < i <= |outputs| && forall k :: start <= k < i ==> outputs[k].asset == outputs[start].asset
    ensures forall x ::
      AssetSum(outputs[..i], x) == AssetSum(outputs[..start], x) + if x == outputs[start].asset then sum else 0
  {
    hide AssetSum;
    i, sum := start, 0;
    while i < |outputs| && outputs[i].asset == outputs[start].asset
      invariant start <= i <= |outputs|
      invariant forall k :: start <= k < i ==> outputs[k].asset == outputs[start].asset
      invariant forall x ::
        AssetSum(outputs[..i], x) == AssetSum(outputs[..start], x) + if x == outputs[start].asset then sum else 0
    {
      OneOutput(outputs, i);
      sum := sum + outputs[i].value;
      i := i + 1;
    }
  }

  /** A new key goes to the end of the order. */
  function WithKey(order: seq<UInt256>, paytotal: map<UInt256, nat>, key: UInt256): seq<UInt256> {
    if key in paytotal then order else order + [key]
  }

  lemma KeyAdded(order: seq<UInt256>, paytotal: map<UInt256, nat>, key: UInt256, value: nat)
    requires KeysInOrder(order, paytotal)
    ensures KeysInOrder(WithKey(order, paytotal, key), paytotal[key := value])
  {
  }

  ghost predicate KeysAre(outputs: seq<Output>, i: nat, paytotal: map<UInt256, nat>)
    requires i <= |outputs|
  {
    forall x :: x in paytotal <==> exists k :: 0 <= k < i && outputs[k].asset == x
  }

  lemma KeysGrow(outputs: seq<Output>, start: nat, i: nat, paytotal: map<UInt256, nat>, value: nat)
    requires start < i <= |outputs| && KeysAre(outputs, start, paytotal)
    requires forall k :: start <= k < i ==> outputs[k].asset == outputs[start].asset
    ensures KeysAre(outputs, i, paytotal[outputs[start].asset := value])
  {
  }

  /** The amounts by asset: consecutive outputs of one asset are added up first, then their totals. */
  method PayTotals(outputs: seq<Output>, systemCoin: UInt256, fee: int) returns (assets: seq<UInt256>, dues: seq<nat>)
    ensures |assets| == |dues| && forall i, j :: 0 <= i < j < |assets| ==> assets[i] != assets[j]
    ensures forall x :: DueIn(assets, dues, x) == Due(outputs, systemCoin, fee, x)
    ensures forall i | 0 <= i < |assets| :: dues[i] == Due(outputs, systemCoin, fee, assets[i])
    ensures forall x :: x in assets <==> Needed(outputs, systemCoin, fee, x)
  {
    hide AssetSum, DueIn, KeysAre, WithKey;
    var paytotal: map<UInt256, nat> := map[];
    assets := [];
    var i := 0;
    assert outputs[..0] == [];
    forall x ensures AssetSum([], x) == 0 { NothingSummed(x); }
    NoKeys(outputs);
    while i < |outputs|
      invariant 0 <= i <= |outputs| && KeysInOrder(assets, paytotal) && KeysAre(outputs, i, paytotal)
      invariant forall x :: PaidIn(paytotal, x) == AssetSum(outputs[..i], x)
    {
      var key, start := outputs[i].asset, i;
      var sum: nat;
      i, sum := GroupSum(outputs, start);
      KeyAdded(assets, paytotal, key, PaidIn(paytotal, key) + sum);
      KeysGrow(outputs, start, i, paytotal, PaidIn(paytotal, key) + sum);
      assets := WithKey(assets, paytotal, key);
      paytotal := paytotal[key := PaidIn(paytotal, key) + sum];
    }
    assert outputs[..i] == outputs;
    ghost var base := paytotal;
    if fee > 0 {
      KeyAdded(assets, paytotal, systemCoin, PaidIn(paytotal, systemCoin) + fee);
      assets := WithKey(assets, paytotal, systemCoin);
      paytotal := paytotal[systemCoin := PaidIn(paytotal, systemCoin) + fee];
    }
    dues := Values(assets, paytotal);
    forall x ensures DueIn(assets, dues, x) == PaidIn(paytotal, x) == Due(outputs, systemCoin, fee, x) {
      ValuesSum(assets, paytotal, x);
    }
    forall i | 0 <= i < |assets| ensures dues[i] == Due(outputs, systemCoin, fee, assets[i]) {
      assert dues[i] == PaidIn(paytotal, assets[i]);
    }
    forall x ensures x in assets <==> Needed(outputs, systemCoin, fee, x) {
      NeededIs(outputs, base, systemCoin, fee, x);
    }
  }

  lemma NoKeys(outputs: seq<Output>)
    ensures KeysAre(outputs, 0, map[])
  {
  }

  lemma NeededIs(outputs: seq<Output>, base: map<UInt256, nat>, systemCoin: UInt256, fee: int, x: UInt256)
    requires KeysAre(outputs, |outputs|, base)
    ensures Needed(outputs, systemCoin, fee, x) <==> x in base || (x == systemCoin && fee > 0)
  {
    if exists o :: o in outputs && o.asset == x {
      var o :| o in outputs && o.asset == x;
      var k :| 0 <= k < |outputs| && outputs[k] == o;
      assert outputs[k].asset == x;
    }
    if x in base {
      var k :| 0 <= k < |outputs| && outputs[k].asset == x;
      assert outputs[k] in outputs;
    }
  }

  lemma OneOutput(outputs: seq<Output>, i: nat)
    requires i < |outputs|
    ensures forall x ::
      AssetSum(outputs[..i + 1], x) == AssetSum(outputs[..i], x) + if x == outputs[i].asset then outputs[i].value else 0
  {
    assert outputs[..i + 1][..i] == outputs[..i];
  }

  /** Coins chosen for different assets are different coins. */
  lemma {:induction false} AllDistinct(lists: seq<seq<WalletCoin>>, assets: seq<UInt256>)
    requires |lists| == |assets| && forall i, j :: 0 <= i < j < |assets| ==> assets[i] != assets[j]
    requires forall i | 0 <= i < |lists| :: DistinctCoins(lists[i]) && OfAsset(lists[i], assets[i])
    requires forall c, d | InSome(lists, c) && InSome(lists, d) && c.ref == d.ref :: c == d
    ensures DistinctCoins(AllCoins(lists))
    ensures forall c | c in AllCoins(lists) :: InSome(lists, c) && c.output.asset in assets
  {
    if lists != [] {
      var n := |lists| - 1;
      var front, last := AllCoins(lists[..n]), lists[n];
      forall c | InSome(lists[..n], c) ensures InSome(lists, c) {
        var i :| 0 <= i < n && c in lists[i];
      }
      AllDistinct(lists[..n], assets[..n]);
      forall c | c in last ensures InSome(lists, c) && c.output.asset == assets[n] {
      }
      forall i, j | 0 <= i < |front| && 0 <= j < |last| ensures front[i].ref != last[j].ref {
        assert front[i] in front && last[j] in last;
      }
    }
  }

  ghost predicate OfAsset(cs: seq<WalletCoin>, asset: UInt256) {
    forall c | c in cs :: c.output.asset == asset
  }

  ghost predicate InSome(lists: seq<seq<WalletCoin>>, c: WalletCoin) {
    exists i :: 0 <= i < |lists| && c in lists[i]
  }

  class Wallet {
    const addresses: Addresses
    const standard: set<UInt160>
    const share: UInt256
    const systemCoin: UInt256
    var coins: Coins
    var currentHeight: nat
    ghost var seen: seq<Coin>
    ghost var events: Events

    ghost predicate Valid()
      reads this
    {
      Holds(addresses, share, seen, events, coins) && DistinctRefs(seen)
    }

    constructor (addresses: Addresses, standard: set<UInt160>, share: UInt256, systemCoin: UInt256)
      ensures Valid() && coins == map[] && currentHeight == 0 && Follows(ChainOf([]))
      ensures this.addresses == addresses && this.share == share && this.systemCoin == systemCoin
    {
      this.addresses, this.standard, this.share, this.systemCoin := addresses, standard, share, systemCoin;
      coins, currentHeight, seen, events := map[], 0, [], Events({}, {});
    }

    /** All outputs of the block, then all inputs, then all claims. */
    method ProcessNewBlock(block: Block)
      requires Valid() && NewCoins(seen, events, BlockCoins(block.transactions))
      modifies this
      ensures Valid() && currentHeight == old(currentHeight) + 1
      ensures seen == old(seen) + BlockCoins(block.transactions)
      ensures events == Events(old(events).spent + BlockInputs(block.transactions),
                               old(events).claimed + BlockClaims(block.transactions))
    {
      AddOutputs(block.transactions);
      SpendInputs(block.transactions);
      RemoveClaims(block.transactions);
      currentHeight := currentHeight + 1;
    }

    /** The blocks processed so far are those of this history. */
    ghost predicate Follows(h: seq<Entry>)
      reads this
    {
      seen == AfterHistory(share, h).coins && events == EventsOf(AfterHistory(share, h), h)
    }

    /**
     * What the chain implies for the wallet: exactly which of its outputs are in the dictionary, with which
     * flags, and that nothing else is; and that the coins that count add up to its unspent outputs.
     */
    ghost predicate TellsChain(h: seq<Entry>)
      reads this
    {
      var b := AfterHistory(share, h);
      && (forall c | c in b.coins && Owned(addresses, c) ::
            Indexed(addresses, b, coins, c) && (c.ref in coins <==> Remains(share, h, c)))
      && (forall ref | ref in coins :: HasOwned(addresses, b.coins, ref))
      && forall cs, asset, watchOnly :: Lists(cs, coins) ==>
           CountedTotal(cs, asset, watchOnly) == UnspentTo(addresses, b.coins, EventsOf(b, h), asset, watchOnly)
    }

    lemma FollowingTells(h: seq<Entry>)
      requires Valid() && Follows(h) && Proper(share, h)
      ensures TellsChain(h)
    {
      hide Remains, Proper, AfterHistory, Indexed, Owned, HasOwned;
      hide Lists, CountedTotal, UnspentTo, DistinctRefs, EntryOf, Lookup;
      var b := AfterHistory(share, h);
      forall c | c in b.coins && Owned(addresses, c)
        ensures Indexed(addresses, b, coins, c) && (c.ref in coins <==> Remains(share, h, c))
      {
        IndexAgreesWithChain(addresses, share, h, coins, c);
        IndexedRemains(addresses, share, h, coins, c);
      }
      ClaimsAreSpends(share, h);
      forall cs, asset, watchOnly | Lists(cs, coins)
        ensures CountedTotal(cs, asset, watchOnly) == UnspentTo(addresses, b.coins, EventsOf(b, h), asset, watchOnly)
      {
        BalanceIsUnspent(addresses, share, seen, events, coins, cs, asset, watchOnly);
      }
    }

    /**
     * Catching up with a chain of the given height: the blocks from the wallet's height on, as far as the limit
     * allows and blocks are found. The block at the chain's height itself is never among them.
     */
    method ProcessBlocks(height: int, getBlock: nat -> Option<Block>, blockLimit: nat, ghost blocks: seq<Block>)
      requires Valid() && height == |blocks| - 1 && currentHeight <= |blocks|
      requires forall k: nat :: k < |blocks| && getBlock(k).Some? ==> getBlock(k).value == blocks[k]
      requires Proper(share, ChainOf(blocks)) && Follows(ChainOf(blocks[..currentHeight]))
      modifies this
      ensures Valid() && old(currentHeight) <= currentHeight <= |blocks|
      ensures Follows(ChainOf(blocks[..currentHeight])) && TellsChain(ChainOf(blocks[..currentHeight]))
      ensures currentHeight > old(currentHeight) ==> currentHeight <= height
      ensures blockLimit > 0 ==> currentHeight - old(currentHeight) <= blockLimit
      ensures currentHeight >= height || getBlock(currentHeight).None?
        || currentHeight - old(currentHeight) == blockLimit > 0
    {
      hide Valid, Proper, AfterHistory, ChainOf, Follows, TellsChain, BlockCoins, BlockInputs, BlockClaims, NewCoins;
      var blockCount := 0;
      while currentHeight < height && (blockLimit == 0 || blockCount < blockLimit)
        invariant old(currentHeight) <= currentHeight <= |blocks| && blockCount == currentHeight - old(currentHeight)
        invariant currentHeight > old(currentHeight) ==> currentHeight <= height
        invariant blockLimit > 0 ==> blockCount <= blockLimit
        invariant Valid() && Follows(ChainOf(blocks[..currentHeight]))
        decreases height - currentHeight
      {
        var block := getBlock(currentHeight);
        if block.None? {
          break;
        }
        ghost var k := currentHeight;
        NextOf(share, blocks, k);
        FollowsBooks(ChainOf(blocks[..k]));
        ProcessNewBlock(block.value);
        FollowsFrom(ChainOf(blocks[..k + 1]));
        blockCount := blockCount + 1;
      }
      ChainPrefix(blocks, currentHeight);
      ProperBefore(share, ChainOf(blocks[..currentHeight]), ChainOf(blocks));
      FollowingTells(ChainOf(blocks[..currentHeight]));
    }

    lemma FollowsBooks(h: seq<Entry>)
      requires Follows(h)
      ensures seen == AfterHistory(share, h).coins && events == EventsOf(AfterHistory(share, h), h)
    {
    }

    lemma FollowsFrom(h: seq<Entry>)
      requires seen == AfterHistory(share, h).coins && events == EventsOf(AfterHistory(share, h), h)
      ensures Follows(h)
    {
    }

    method AddOutputs(txs: seq<Transaction>)
      requires Valid() && NewCoins(seen, events, BlockCoins(txs))
      modifies this`coins, this`seen
      ensures Valid() && seen == old(seen) + BlockCoins(txs)
    {
      hide Holds, Received, DistinctRefs, BlockCoins, CoinsOf;
      ghost var entered := BlockCoins(txs);
      NoTransactions();
      assert txs[..0] == [] && seen + [] == seen;
      for i := 0 to |txs|
        invariant seen == old(seen)
        invariant Holds(addresses, share, old(seen) + BlockCoins(txs[..i]), events, coins)
      {
        BlockPrefix(txs, i);
        BlockStep(txs, i);
        AddTransaction(txs[i], old(seen), BlockCoins(txs[..i]), entered);
      }
      assert txs[..|txs|] == txs;
      seen := seen + entered;
    }

    method AddTransaction(tx: Transaction, ghost before: seq<Coin>, ghost done: seq<Coin>, ghost entered: seq<Coin>)
      requires Holds(addresses, share, before + done, events, coins)
      requires NewCoins(before, events, entered) && done + CoinsOf(tx) <= entered
      modifies this`coins
      ensures Holds(addresses, share, before + (done + CoinsOf(tx)), events, coins)
    {
      hide Holds, Received, NewCoins;
      ghost var more := CoinsOf(tx);
      assert before + (done + more[..0]) == before + done;
      for index := 0 to |tx.outputs|
        invariant Holds(addresses, share, before + (done + more[..index]), events, coins)
      {
        var output := tx.outputs[index];
        var key := CoinReference(tx.hash, index);
        ghost var c, n := more[index], |done| + index;
        assert entered[n] == (done + more)[n] == c && entered[..n] == done + more[..index];
        NewCoin(before, events, entered, n);
        ReceiveHolds(addresses, share, before + (done + more[..index]), events, coins, c);
        AddOutput(key, output);
        assert before + (done + more[..index]) + [c] == before + (done + more[..index + 1]);
      }
      assert more[..|tx.outputs|] == more;
    }

    /** A pending output becomes confirmed; one that is not in the dictionary is added. */
    method AddOutput(key: CoinReference, output: Output)
      modifies this`coins
      ensures key !in old(coins) ==> coins == Received(addresses, old(coins), Coin(key, output))
    {
      var state := CheckAddressState(addresses, output.account);
      if state != NoState {
        if key in coins {
          coins := coins[key := coins[key].(state := coins[key].state + {Confirmed})];
        } else {
          coins := coins[key := WalletCoin(key, output, {Confirmed})];
        }
        if state == InWalletWatchOnly {
          coins := coins[key := coins[key].(state := coins[key].state + {WatchOnly})];
        }
        assert key !in old(coins) ==> coins[key].state == ConfirmedState(addresses, Coin(key, output));
      }
    }

    method SpendInputs(txs: seq<Transaction>)
      requires Valid()
      modifies this`coins, this`events
      ensures Valid() && events == old(events).(spent := old(events).spent + BlockInputs(txs))
    {
      hide Holds, BlockCoins, BlockInputs, BlockClaims;
      NoTransactions();
      for i := 0 to |txs|
        invariant Valid() && events == old(events).(spent := old(events).spent + BlockInputs(txs[..i]))
      {
        BlockStep(txs, i);
        var inputs := txs[i].inputs;
        ghost var before := events;
        for j := 0 to |inputs|
          invariant Valid() && events == before.(spent := before.spent + Refs(inputs[..j]))
        {
          var input := inputs[j];
          PayHolds(addresses, share, seen, events, coins, input);
          if input in coins {
            if coins[input].output.asset == share {
              coins := coins[input := coins[input].(state := coins[input].state + {Flag.Spent, Confirmed})];
            } else {
              coins := coins - {input};
            }
          }
          events := events.(spent := events.spent + {input});
          assert Refs(inputs[..j + 1]) == Refs(inputs[..j]) + {input};
        }
        assert inputs[..|inputs|] == inputs;
      }
      assert txs[..|txs|] == txs;
    }

    method RemoveClaims(txs: seq<Transaction>)
      requires Valid()
      modifies this`coins, this`events
      ensures Valid() && events == old(events).(claimed := old(events).claimed + BlockClaims(txs))
    {
      hide Holds, BlockCoins, BlockInputs, BlockClaims;
      NoTransactions();
      for i := 0 to |txs|
        invariant Valid() && events == old(events).(claimed := old(events).claimed + BlockClaims(txs[..i]))
      {
        BlockStep(txs, i);
        var claims := txs[i].claims;
        ghost var before := events;
        for j := 0 to |claims|
          invariant Valid() && events == before.(claimed := before.claimed + Refs(claims[..j]))
        {
          var ref := claims[j];
          ClaimHolds(addresses, share, seen, events, coins, ref);
          if ref in coins {
            coins := coins - {ref};
          } else {
            assert coins - {ref} == coins;
          }
          events := events.(claimed := events.claimed + {ref});
          assert Refs(claims[..j + 1]) == Refs(claims[..j]) + {ref};
        }
        assert claims[..|claims|] == claims;
      }
      assert txs[..|txs|] == txs;
    }

    method GetCoins() returns (cs: seq<WalletCoin>)
      requires Valid()
      ensures Lists(cs, coins)
    {
      hide Holds;
      Keyed(addresses, share, seen, events, coins);
      cs := [];
      var rest := coins.Keys;
      while rest != {}
        invariant rest <= coins.Keys
        invariant forall i, j :: 0 <= i < j < |cs| ==> cs[i].ref != cs[j].ref
        invariant forall c | c in cs :: c.ref in coins && coins[c.ref] == c && c.ref !in rest
        invariant forall ref | ref in coins :: ref in rest || coins[ref] in cs
        decreases rest
      {
        var ref :| ref in rest;
        rest := rest - {ref};
        ghost var before := cs;
        cs := cs + [coins[ref]];
        assert forall c | c in cs :: c in before || c == coins[ref];
      }
    }

    /** The chain's unspent outputs of the asset to the wallet's own, or to its watched, addresses. */
    method GetBalance(asset: UInt256, watchOnly: bool) returns (total: nat)
      requires Valid()
      ensures events.claimed <= events.spent ==> total == UnspentTo(addresses, seen, events, asset, watchOnly)
    {
      hide Holds, Counted, Lists;
      var cs := GetCoins();
      total := 0;
      for i := 0 to |cs|
        invariant total == CountedTotal(cs[..i], asset, watchOnly)
      {
        assert cs[..i + 1][..i] == cs[..i];
        total := total + Counted(cs[i], asset, watchOnly);
      }
      assert cs[..|cs|] == cs;
      if events.claimed <= events.spent {
        BalanceIsUnspent(addresses, share, seen, events, coins, cs, asset, watchOnly);
      }
    }

    ghost predicate NeedsUnknownContract(q: Query)
      reads this
    {
      exists ref :: ref in coins && Spendable(q, coins[ref]) && coins[ref].output.account !in addresses.contracts
    }

    /** `None` stands for the KeyError when the standard contract of an address is asked for but unknown. */
    method FindUnspentCoins(q: Query) returns (r: Option<seq<WalletCoin>>)
      requires Valid()
      ensures r == None <==> q.fromAddr.None? && q.useStandard && NeedsUnknownContract(q)
      ensures r.Some? ==> DistinctCoins(r.value) && InDictionary(r.value, coins)
      ensures r.Some? ==> forall ref | ref in coins :: Eligible(standard, q, coins[ref]) <==> coins[ref] in r.value
      ensures r.Some? ==> forall c | c in r.value ::
        Confirmed in c.state && c.state !! {Flag.Spent, Locked, Frozen} && c.ref !in q.exclude
    {
      hide Holds;
      var cs := GetCoins();
      Keyed(addresses, share, seen, events, coins);
      var ret: seq<WalletCoin> := [];
      for i := 0 to |cs|
        invariant ret == Filter(cs[..i], (c: WalletCoin) => Eligible(standard, q, c))
        invariant q.fromAddr.None? && q.useStandard ==>
          forall k :: 0 <= k < i && Spendable(q, cs[k]) ==> cs[k].output.account in addresses.contracts
      {
        var coin := cs[i];
        assert cs[..i + 1][..i] == cs[..i];
        if Spendable(q, coin) {
          if q.fromAddr.Some? {
            if coin.output.account == q.fromAddr.value {
              ret := ret + [coin];
            }
          } else if q.useStandard {
            if coin.output.account !in addresses.contracts {
              assert coin in cs;
              return None;
            }
            if coin.output.account in standard {
              ret := ret + [coin];
            }
          } else {
            ret := ret + [coin];
          }
        }
      }
      assert cs[..|cs|] == cs;
      FilterDistinct(cs, (c: WalletCoin) => Eligible(standard, q, c));
      return Some(ret);
    }

    /** None of the coins are enough exactly when what is available falls short of the amount. */
    method FindUnspentCoinsByAssetAndTotal(asset: UInt256, amount: nat, q: Query)
        returns (r: Found, ghost available: seq<WalletCoin>)
      requires Valid()
      ensures r.KeyError? <==> q.fromAddr.None? && q.useStandard && NeedsUnknownContract(q)
      ensures !r.KeyError? ==> ListsEligible(available, coins, standard, q, asset)
      ensures !r.KeyError? ==> (r.TooFew? <==> Total(available) < amount)
      ensures r.Chosen? ==>
        && Covers(r.coins, asset, amount) && DistinctCoins(r.coins)
        && (forall c | c in r.coins :: c in available)
      ensures r.Chosen? && HasExact(available, amount) ==> |r.coins| == 1
      ensures r.Chosen? && !HasExact(available, amount) && amount > 0 ==>
        ShortestPrefix(SortByValue(available), amount, r.coins)
    {
      hide Holds, Total, SortByValue, HasExact, ShortestPrefix, Eligible;
      available := [];
      var unspent := FindUnspentCoins(q);
      if unspent.None? {
        return KeyError, [];
      }
      var ofAsset := Filter(unspent.value, (c: WalletCoin) => c.output.asset == asset);
      FilterDistinct(unspent.value, (c: WalletCoin) => c.output.asset == asset);
      available := ofAsset;
      var chosen := SelectCoins(ofAsset, amount, false);
      if chosen.None? {
        return TooFew, available;
      }
      ChosenDistinct(chosen.value, ofAsset);
      return Chosen(chosen.value), available;
    }

    /** The wallet's coins that the caller names, in whatever state they are. */
    method FindCoinsByVins(vins: seq<CoinReference>) returns (ret: seq<WalletCoin>)
      requires Valid()
      ensures InDictionary(ret, coins) && forall ref :: ref in coins ==> (coins[ref] in ret <==> ref in vins)
      ensures (forall i, j :: 0 <= i < j < |vins| ==> vins[i] != vins[j]) ==> DistinctCoins(ret)
    {
      hide Holds;
      Keyed(addresses, share, seen, events, coins);
      var cs := GetCoins();
      ret := [];
      ghost var distinct := forall i, j :: 0 <= i < j < |vins| ==> vins[i] != vins[j];
      for i := 0 to |cs|
        invariant forall c :: c in ret <==> c in cs[..i] && c.ref in vins
        invariant distinct ==> DistinctCoins(ret)
      {
        ghost var before := ret;
        assert forall c | c in ret :: c.ref != cs[i].ref;
        for j := 0 to |vins|
          invariant forall c :: c in ret <==> c in before || (c == cs[i] && c.ref in vins[..j])
          invariant distinct ==> DistinctCoins(ret)
        {
          assert distinct ==> vins[j] !in vins[..j];
          if cs[i].ref == vins[j] {
            assert distinct ==> forall c | c in ret :: c.ref != cs[i].ref;
            ret := ret + [cs[i]];
          }
        }
        assert vins[..|vins|] == vins && cs[..i + 1] == cs[..i] + [cs[i]];
      }
      assert cs[..|cs|] == cs;
    }

    /**
     * An output of the chain that nobody has spent, at one of the wallet's own or else its watched addresses,
     * and within the restrictions of the query.
     */
    ghost predicate UsableCoin(h: seq<Entry>, q: Query, c: Coin) {
      && !SpentIn(h, c.ref) && c.ref !in q.exclude
      && (if q.watchOnly then c.output.account in addresses.watchOnly && c.output.account !in addresses.contracts
          else c.output.account in addresses.contracts)
      && (match q.fromAddr
          case Some(account) => c.output.account == account
          case None => q.useStandard ==> c.output.account in standard)
    }

    ghost predicate Usable(h: seq<Entry>, q: Query, ref: CoinReference) {
      exists c :: c in AfterHistory(share, h).coins && c.ref == ref && UsableCoin(h, q, c)
    }

    /** For a wallet that has followed a chain the eligible coins are exactly these. */
    lemma EligibleIff(h: seq<Entry>, q: Query, c: Coin)
      requires Valid() && Follows(h) && Proper(share, h) && c in AfterHistory(share, h).coins
      ensures (c.ref in coins && Eligible(standard, q, coins[c.ref])) <==> UsableCoin(h, q, c)
      ensures c.ref in coins ==> coins[c.ref].output == c.output
    {
      hide AfterHistory, Proper, SpentIn, ClaimedIn, DistinctRefs;
      SpentInIff(share, h, c.ref);
      ClaimsAreSpends(share, h);
      if c.ref in coins {
        assert HasOwned(addresses, seen, c.ref);
        var d :| d in seen && d.ref == c.ref && Owned(addresses, d);
        SameRef(seen, c, d);
      }
      if Owned(addresses, c) {
        assert Lookup(coins, c.ref) == EntryOf(addresses, share, events, c);
      }
    }

    lemma InputsUsable(h: seq<Entry>, q: Query, used: seq<WalletCoin>, named: seq<WalletCoin>, names: bool,
        vins: seq<CoinReference>)
      requires Valid() && Follows(h) && Proper(share, h) && InDictionary(used, coins)
      requires forall c | c in used :: Eligible(standard, q, c) || (names && c in named)
      requires names ==> NamedCoins(vins, named)
      ensures forall ref | ref in RefsOf(used) :: Usable(h, q, ref) || (names && ref in vins)
    {
      hide Eligible, AfterHistory, Proper, UsableCoin, Holds, RefsOf;
      forall ref | ref in RefsOf(used) ensures Usable(h, q, ref) || (names && ref in vins) {
        var i :| 0 <= i < |used| && used[i].ref == ref;
        assert used[i] in used;
        if Eligible(standard, q, used[i]) {
          var c := OwnedCoin(ref);
          EligibleIff(h, q, c);
        }
      }
    }

    lemma OwnedCoin(ref: CoinReference) returns (c: Coin)
      requires Valid() && ref in coins
      ensures c in seen && c.ref == ref
    {
      assert HasOwned(addresses, seen, ref);
      c :| c in seen && c.ref == ref;
    }

    /** A query that asks for any coin of the wallet, own or watched. */
    predicate Unrestricted(q: Query) {
      q.fromAddr == None && !q.useStandard && q.exclude == []
    }

    /** Without restrictions what can be selected is what `GetBalance` counts. */
    lemma SelectableIsBalance(q: Query, asset: UInt256, available: seq<WalletCoin>)
      requires Valid() && Unrestricted(q) && events.claimed <= events.spent
      requires ListsEligible(available, coins, standard, q, asset)
      ensures Total(available) == UnspentTo(addresses, seen, events, asset, q.watchOnly)
    {
      hide Holds, UnspentTo, DistinctRefs, Total;
      Keyed(addresses, share, seen, events, coins);
      var cs := ListAll(coins);
      BalanceIsUnspent(addresses, share, seen, events, coins, cs, asset, q.watchOnly);
      CountedIsTotal(cs, asset, q.watchOnly);
      var counted := Filter(cs, (c: WalletCoin) => Available(c, asset, q.watchOnly));
      FilterDistinct(cs, (c: WalletCoin) => Available(c, asset, q.watchOnly));
      SameTotal(available, counted);
    }

    /** So funds fall short exactly when the balance does. */
    lemma SufficesIsBalance(q: Query, asset: UInt256, due: nat)
      requires Valid() && Unrestricted(q) && events.claimed <= events.spent
      ensures Suffices(q, asset, due) <==> UnspentTo(addresses, seen, events, asset, q.watchOnly) >= due
    {
      hide Holds, UnspentTo, DistinctRefs, Total, ListsEligible;
      Keyed(addresses, share, seen, events, coins);
      var cs := ListAll(coins);
      var available := ListEligible(q, asset, cs);
      SelectableIsBalance(q, asset, available);
      SufficesIff(q, asset, due, available);
    }

    lemma ListEligible(q: Query, asset: UInt256, cs: seq<WalletCoin>) returns (available: seq<WalletCoin>)
      requires Lists(cs, coins)
      ensures ListsEligible(available, coins, standard, q, asset)
    {
      hide Eligible;
      available := Filter(cs, (c: WalletCoin) => Eligible(standard, q, c) && c.output.asset == asset);
      FilterDistinct(cs, (c: WalletCoin) => Eligible(standard, q, c) && c.output.asset == asset);
    }

    /** A standard contract is asked for and some spendable coin's address has no contract at all. */
    ghost predicate ContractMissing(q: Query)
      reads this
    {
      q.fromAddr.None? && q.useStandard && NeedsUnknownContract(q)
    }

    /** All listings of what is eligible are worth the same. */
    lemma EligibleTotal(q: Query, asset: UInt256, a: seq<WalletCoin>, b: seq<WalletCoin>)
      requires ListsEligible(a, coins, standard, q, asset) && ListsEligible(b, coins, standard, q, asset)
      ensures Total(a) == Total(b)
    {
      hide Eligible;
      SameTotal(a, b);
    }

    lemma SufficesIff(q: Query, asset: UInt256, due: nat, cs: seq<WalletCoin>)
      requires ListsEligible(cs, coins, standard, q, asset)
      ensures Suffices(q, asset, due) <==> Total(cs) >= due
    {
      hide ListsEligible, Total;
      if Suffices(q, asset, due) {
        var a :| ListsEligible(a, coins, standard, q, asset) && Total(a) >= due;
        EligibleTotal(q, asset, a, cs);
      }
    }

    /** What is eligible is worth as much as is due. */
    ghost predicate Suffices(q: Query, asset: UInt256, due: nat)
      reads this
    {
      exists cs :: ListsEligible(cs, coins, standard, q, asset) && Total(cs) >= due
    }

    /** A selection for one asset that is not named by the caller. */
    ghost predicate Selected(q: Query, asset: UInt256, due: nat, cs: seq<WalletCoin>)
      reads this
    {
      && DistinctCoins(cs) && InDictionary(cs, coins) && OfAsset(cs, asset) && Covers(cs, asset, due)
      && (forall c | c in cs :: Eligible(standard, q, c))
      && Suffices(q, asset, due)
    }

    method SelectFor(q: Query, asset: UInt256, due: nat) returns (r: Found)
      requires Valid()
      ensures r.KeyError? <==> ContractMissing(q)
      ensures r.TooFew? ==> !Suffices(q, asset, due)
      ensures r.Chosen? ==> Selected(q, asset, due, r.coins)
    {
      hide Holds, Total, Covers, Eligible, DistinctCoins, SortByValue, ShortestPrefix, HasExact;
      ghost var available;
      r, available := FindUnspentCoinsByAssetAndTotal(asset, due, q);
      if !r.KeyError? { SufficesIff(q, asset, due, available); }
    }

    /** The coins for every asset; `None` when an address has no contract, inside it when funds fall short. */
    method ChooseAll(q: Query, assets: seq<UInt256>, dues: seq<nat>, vins: Option<(seq<CoinReference>, UInt256)>)
      returns (r: Option<Option<seq<seq<WalletCoin>>>>, ghost byVins: seq<WalletCoin>)
      requires Valid() && |assets| == |dues|
      ensures vins.Some? ==> NamedCoins(vins.value.0, byVins)
      ensures r == None ==> ContractMissing(q) && exists i :: 0 <= i < |assets| && !NamedAsset(vins, assets[i])
      ensures r == Some(None) ==> !ContractMissing(q)
      ensures r == Some(None) ==>
        exists i :: 0 <= i < |assets| && !NamedAsset(vins, assets[i]) && !Suffices(q, assets[i], dues[i])
      ensures r.Some? && ContractMissing(q) ==> forall i | 0 <= i < |assets| :: NamedAsset(vins, assets[i])
      ensures r.Some? && r.value.Some? ==> |r.value.value| == |assets| && forall i | 0 <= i < |assets| ::
        if NamedAsset(vins, assets[i]) then r.value.value[i] == byVins
        else Selected(q, assets[i], dues[i], r.value.value[i])
    {
      hide Holds, ContractMissing, Selected, Suffices;
      byVins := [];
      var named: seq<WalletCoin> := [];
      if vins.Some? {
        named := FindCoinsByVins(vins.value.0);
        byVins := named;
      }
      var lists: seq<seq<WalletCoin>> := [];
      var short := false;
      for i := 0 to |assets|
        invariant |lists| == i
        invariant short ==> !ContractMissing(q)
        invariant short ==> exists k :: 0 <= k < i && !NamedAsset(vins, assets[k]) && !Suffices(q, assets[k], dues[k])
        invariant ContractMissing(q) ==> forall k | 0 <= k < i :: NamedAsset(vins, assets[k])
        invariant !short ==> forall k | 0 <= k < i ::
          if NamedAsset(vins, assets[k]) then lists[k] == byVins else Selected(q, assets[k], dues[k], lists[k])
      {
        if NamedAsset(vins, assets[i]) {
          lists := lists + [named];
        } else {
          var found := SelectFor(q, assets[i], dues[i]);
          match found {
            case KeyError =>
              return None, byVins;
            case TooFew =>
              short := true;
              lists := lists + [[]];
            case Chosen(cs) =>
              lists := lists + [cs];
          }
        }
      }
      r := if short then Some(None) else Some(Some(lists));
    }

    /** The caller has named coins for this asset. */
    predicate NamedAsset(vins: Option<(seq<CoinReference>, UInt256)>, asset: UInt256) {
      vins.Some? && vins.value.1 == asset
    }

    /** Every needed asset is one whose coins are named, or can be paid for. */
    ghost predicate Payable(q: Query, outputs: seq<Output>, fee: int, vins: Option<(seq<CoinReference>, UInt256)>)
      reads this
    {
      forall x | Needed(outputs, systemCoin, fee, x) && !NamedAsset(vins, x) ::
        !ContractMissing(q) && Suffices(q, x, Due(outputs, systemCoin, fee, x))
    }

    lemma NotPayable(outputs: seq<Output>, fee: int, q: Query, vins: Option<(seq<CoinReference>, UInt256)>,
        assets: seq<UInt256>, dues: seq<nat>, i: nat)
      requires |assets| == |dues| && forall k | 0 <= k < |assets| :: dues[k] == Due(outputs, systemCoin, fee, assets[k])
      requires forall x :: x in assets <==> Needed(outputs, systemCoin, fee, x)
      requires i < |assets| && !NamedAsset(vins, assets[i]) && (ContractMissing(q) || !Suffices(q, assets[i], dues[i]))
      ensures !Payable(q, outputs, fee, vins)
    {
      hide ContractMissing, Suffices, Due, Needed;
    }

    /** What the choices for all assets have in common. */
    lemma Settled(outputs: seq<Output>, fee: int, q: Query, vins: Option<(seq<CoinReference>, UInt256)>,
        byVins: seq<WalletCoin>, assets: seq<UInt256>, dues: seq<nat>, lists: seq<seq<WalletCoin>>)
      requires |assets| == |dues| == |lists| && forall i, j :: 0 <= i < j < |assets| ==> assets[i] != assets[j]
      requires forall i | 0 <= i < |assets| :: dues[i] == Due(outputs, systemCoin, fee, assets[i])
      requires forall x :: x in assets <==> Needed(outputs, systemCoin, fee, x)
      requires vins.Some? ==> NamedCoins(vins.value.0, byVins)
      requires ContractMissing(q) ==> forall i | 0 <= i < |assets| :: NamedAsset(vins, assets[i])
      requires forall i | 0 <= i < |assets| ::
        if NamedAsset(vins, assets[i]) then lists[i] == byVins else Selected(q, assets[i], dues[i], lists[i])
      ensures Payable(q, outputs, fee, vins)
      ensures InDictionary(AllCoins(lists), coins)
      ensures !UsesNamed(outputs, fee, vins) ==> DistinctCoins(AllCoins(lists))
      ensures forall c | c in AllCoins(lists) ::
        Eligible(standard, q, c) || (UsesNamed(outputs, fee, vins) && c in byVins)
      ensures var v := NamedAt(assets, vins);
        && (forall i | 0 <= i < |lists| && i != v :: Covers(lists[i], assets[i], dues[i]))
        && (UsesNamed(outputs, fee, vins) <==> v >= 0)
        && (v >= 0 ==> lists[v] == byVins && assets[v] == vins.value.1)
    {
      hide ContractMissing, Suffices, Covers, Eligible, Due, Needed;
      forall c | InSome(lists, c) ensures c.ref in coins && coins[c.ref] == c {
        var i :| 0 <= i < |lists| && c in lists[i];
      }
      InSomeList(lists);
      if !UsesNamed(outputs, fee, vins) {
        AllDistinct(lists, assets);
      }
      forall c | c in AllCoins(lists)
        ensures Eligible(standard, q, c) || (UsesNamed(outputs, fee, vins) && c in byVins)
      {
        assert InSome(lists, c);
        var i :| 0 <= i < |lists| && c in lists[i];
        assert assets[i] in assets;
        assert NamedAsset(vins, assets[i]) || Selected(q, assets[i], dues[i], lists[i]);
      }
    }

    /** The caller names coins for an asset that the transaction needs. */
    predicate UsesNamed(outputs: seq<Output>, fee: int, vins: Option<(seq<CoinReference>, UInt256)>) {
      vins.Some? && Needed(outputs, systemCoin, fee, vins.value.1)
    }

    predicate NamedCover(byVins: seq<WalletCoin>, outputs: seq<Output>, fee: int,
        vins: Option<(seq<CoinReference>, UInt256)>)
    {
      UsesNamed(outputs, fee, vins) ==> Covers(byVins, vins.value.1, Due(outputs, systemCoin, fee, vins.value.1))
    }

    /**
     * `fee` includes the system fee. A transaction is made exactly when every needed asset can be paid for or
     * has its coins named by the caller; it balances exactly when coins named by the caller, if any, cover what
     * their asset owes.
     */
    method MakeTransaction(tx: Transaction, changeAddress: UInt160, fee: int, q: Query,
        vins: Option<(seq<CoinReference>, UInt256)>, isSynced: bool)
      returns (r: MakeResult, ghost used: seq<WalletCoin>, ghost byVins: seq<WalletCoin>)
      requires Valid()
      ensures r.Made? <==> Payable(q, tx.outputs, fee, vins)
      ensures r.NotSynced? <==> !isSynced && !ContractMissing(q) && !Payable(q, tx.outputs, fee, vins)
      ensures vins.Some? ==> NamedCoins(vins.value.0, byVins)
      ensures r.Made? ==> r.tx.inputs == RefsOf(used) && InDictionary(used, coins) && tx.outputs <= r.tx.outputs
      ensures r.Made? ==> r.tx == tx.(inputs := r.tx.inputs, outputs := r.tx.outputs)
      ensures r.Made? ==> forall o | o in r.tx.outputs[|tx.outputs|..] :: o.account == changeAddress && o.value > 0
      ensures r.Made? && !UsesNamed(tx.outputs, fee, vins) ==> DistinctCoins(used)
      ensures r.Made? ==> forall c | c in used ::
        Eligible(standard, q, c) || (UsesNamed(tx.outputs, fee, vins) && c in byVins)
      ensures r.Made? ==> forall h | Follows(h) && Proper(share, h) :: forall ref | ref in r.tx.inputs ::
        Usable(h, q, ref) || (UsesNamed(tx.outputs, fee, vins) && ref in vins.value.0)
      ensures r.Made? ==> (Balances(used, r.tx.outputs, systemCoin, fee) <==> NamedCover(byVins, tx.outputs, fee, vins))
    {
      used := [];
      hide Holds, ContractMissing, Suffices, Covers, Eligible, NamedCoins, CoinSum, Due, DueIn, AllCoins, AllChange;
      hide Conserved, Needed, DistinctCoins, InDictionary, Payable, UsesNamed, NamedAsset;
      var assets, dues := PayTotals(tx.outputs, systemCoin, fee);
      var chosen;
      chosen, byVins := ChooseAll(q, assets, dues, vins);
      if chosen.None? {
        ghost var i :| 0 <= i < |assets| && !NamedAsset(vins, assets[i]);
        NotPayable(tx.outputs, fee, q, vins, assets, dues, i);
        return Raised, used, byVins;
      }
      if chosen.value.None? {
        ghost var i :| 0 <= i < |assets| && !NamedAsset(vins, assets[i]) && !Suffices(q, assets[i], dues[i]);
        NotPayable(tx.outputs, fee, q, vins, assets, dues, i);
        return if isSynced then Raised else NotSynced, used, byVins;
      }
      var lists := chosen.value.value;
      var newOutputs := ChangeOutputs(lists, assets, dues, changeAddress);
      var inputs := Inputs(lists);
      used := AllCoins(lists);
      r := Made(tx.(inputs := inputs, outputs := tx.outputs + newOutputs));
      ChangeGoesTo(lists, assets, dues, changeAddress);
      Settled(tx.outputs, fee, q, vins, byVins, assets, dues, lists);
      SettledBalance(tx.outputs, changeAddress, systemCoin, fee, assets, dues, lists, NamedAt(assets, vins));
      hide Usable, Follows, Proper;
      var names := UsesNamed(tx.outputs, fee, vins);
      forall h | Follows(h) && Proper(share, h)
        ensures forall ref | ref in inputs :: Usable(h, q, ref) || (names && ref in vins.value.0)
      {
        InputsUsable(h, q, used, byVins, names, if vins.Some? then vins.value.0 else []);
      }
    }

    ghost predicate NamedCoins(vins: seq<CoinReference>, cs: seq<WalletCoin>)
      reads this
    {
      InDictionary(cs, coins) && forall ref :: ref in coins ==> (coins[ref] in cs <==> ref in vins)
    }
  }

  /** The position of the asset for which the caller names coins, or -1. */
  ghost function NamedAt(assets: seq<UInt256>, vins: Option<(seq<CoinReference>, UInt256)>): (v: int)
    ensures -1 <= v < |assets|
    ensures v >= 0 ==> vins.Some? && assets[v] == vins.value.1
    ensures vins.Some? && vins.value.1 in assets ==> v >= 0
  {
    if vins.Some? && vins.value.1 in assets then
      var v :| 0 <= v < |assets| && assets[v] == vins.value.1;
      v
    else -1
  }

  lemma {:induction false} InSomeList(lists: seq<seq<WalletCoin>>)
    ensures forall c | c in AllCoins(lists) :: InSome(lists, c)
  {
    if lists != [] {
      var n := |lists| - 1;
      InSomeList(lists[..n]);
      forall c | c in AllCoins(lists) ensures InSome(lists, c) {
        if c in AllCoins(lists[..n]) {
          assert InSome(lists[..n], c);
          var i :| 0 <= i < n && c in lists[..n][i];
          assert c in lists[i];
        } else {
          assert c in lists[n];
        }
      }
    }
  }

  /** Inputs equal outputs in every asset, but for the fee in the utility token. */
  ghost predicate Balances(used: seq<WalletCoin>, outputs: seq<Output>, systemCoin: UInt256, fee: int) {
    forall x :: CoinSum(used, x) - AssetSum(outputs, x) == if x == systemCoin && fee > 0 then fee else 0
  }

  lemma SettledBalance(outputs: seq<Output>, address: UInt160, systemCoin: UInt256, fee: int, assets: seq<UInt256>,
      dues: seq<nat>, lists: seq<seq<WalletCoin>>, v: int)
    requires |assets| == |dues| == |lists|
    requires forall x :: DueIn(assets, dues, x) == Due(outputs, systemCoin, fee, x)
    requires forall i | 0 <= i < |lists| && i != v :: Covers(lists[i], assets[i], dues[i])
    ensures Balances(AllCoins(lists), outputs + AllChange(lists, assets, dues, address), systemCoin, fee)
      <==> (0 <= v < |lists| ==> Covers(lists[v], assets[v], dues[v]))
  {
    hide Covers, CoinSum, AllCoins, AllChange, DueIn, AssetSum;
    ConservedIff(lists, assets, dues, address, v);
    var change := AllChange(lists, assets, dues, address);
    forall x ensures Due(outputs + change, systemCoin, fee, x) == DueIn(assets, dues, x) + AssetSum(change, x) {
      AssetSumAppend(outputs, change, x);
    }
    if Balances(AllCoins(lists), outputs + change, systemCoin, fee) {
      forall x ensures CoinSum(AllCoins(lists), x) == DueIn(assets, dues, x) + AssetSum(change, x) {
        assert CoinSum(AllCoins(lists), x) - AssetSum(outputs + change, x)
          == if x == systemCoin && fee > 0 then fee else 0;
        assert Due(outputs + change, systemCoin, fee, x) == DueIn(assets, dues, x) + AssetSum(change, x);
      }
      assert Conserved(lists, assets, dues, address);
    }
    if Conserved(lists, assets, dues, address) {
      forall x
        ensures CoinSum(AllCoins(lists), x) - AssetSum(outputs + change, x)
          == if x == systemCoin && fee > 0 then fee else 0
      {
        assert CoinSum(AllCoins(lists), x) == DueIn(assets, dues, x) + AssetSum(change, x);
        assert Due(outputs + change, systemCoin, fee, x) == DueIn(assets, dues, x) + AssetSum(change, x);
      }
      assert Balances(AllCoins(lists), outputs + change, systemCoin, fee);
    }
  }

  method ChangeOutputs(lists: seq<seq<WalletCoin>>, assets: seq<UInt256>, dues: seq<nat>, address: UInt160)
      returns (r: seq<Output>)
    requires |lists| == |assets| == |dues|
    ensures r == AllChange(lists, assets, dues, address)
  {
    hide Total;
    r := [];
    for i := 0 to |lists|
      invariant r == AllChange(lists[..i], assets[..i], dues[..i], address)
    {
      assert lists[..i + 1][..i] == lists[..i] && assets[..i + 1][..i] == assets[..i];
      assert dues[..i + 1][..i] == dues[..i];
      var sum := SumOf(lists[i]);
      if sum > dues[i] {
        r := r + [Output(assets[i], sum - dues[i], address)];
      }
    }
    assert lists[..|lists|] == lists && assets[..|lists|] == assets && dues[..|lists|] == dues;
  }

  method Inputs(lists: seq<seq<WalletCoin>>) returns (r: seq<CoinReference>)
    ensures r == RefsOf(AllCoins(lists))
  {
    r := [];
    for i := 0 to |lists|
      invariant r == RefsOf(AllCoins(lists[..i]))
    {
      assert lists[..i + 1][..i] == lists[..i];
      var list := lists[i];
      for j := 0 to |list|
        invariant r == RefsOf(AllCoins(lists[..i]) + list[..j])
      {
        r := r + [list[j].ref];
        assert AllCoins(lists[..i]) + list[..j + 1] == AllCoins(lists[..i]) + list[..j] + [list[j]];
      }
      assert list[..|list|] == list;
    }
    assert lists[..|lists|] == lists;
  }

  lemma Keyed(a: Addresses, share: UInt256, seen: seq<Coin>, e: Events, coins: Coins)
    requires Holds(a, share, seen, e, coins)
    ensures forall ref | ref in coins :: coins[ref].ref == ref
  {
    forall ref | ref in coins ensures coins[ref].ref == ref {
      assert HasOwned(a, seen, ref);
      var c :| c in seen && c.ref == ref && Owned(a, c);
      assert Lookup(coins, c.ref) == EntryOf(a, share, e, c);
    }
  }

  lemma NoTransactions()
    ensures BlockCoins([]) == [] && BlockInputs([]) == {} && BlockClaims([]) == {}
  {
  }

  // ---- following the chain -------------------------------------------------------------------

  lemma {:induction false} BlockEvents(share: UInt256, h: seq<Entry>, txs: seq<Transaction>, height: nat)
    ensures AfterHistory(share, h + Entries(txs, height)).coins == AfterHistory(share, h).coins + BlockCoins(txs)
    ensures ClaimedIn(h + Entries(txs, height)) == ClaimedIn(h) + BlockClaims(txs)
    ensures forall ref :: ref in AfterHistory(share, h + Entries(txs, height)).spent <==>
      ref in AfterHistory(share, h).spent || ref in BlockInputs(txs)
  {
    hide AfterHistory, ClaimedIn, CoinsOf, Refs, BlockCoins, BlockInputs, BlockClaims;
    var all := h + Entries(txs, height);
    if txs == [] {
      NoTransactions();
      assert all == h;
    } else {
      BlockEvents(share, h, txs[..|txs| - 1], height);
      assert all[..|all| - 1] == h + Entries(txs[..|txs| - 1], height);
      LastEvents(share, all);
      LastBlockEvents(txs, height);
      assert all[|all| - 1].tx == txs[|txs| - 1];
    }
  }

  lemma LastBlockEvents(txs: seq<Transaction>, height: nat)
    requires txs != []
    ensures var most, last := txs[..|txs| - 1], txs[|txs| - 1];
      && BlockCoins(txs) == BlockCoins(most) + CoinsOf(last)
      && BlockClaims(txs) == BlockClaims(most) + Refs(last.claims)
      && BlockInputs(txs) == BlockInputs(most) + Refs(last.inputs)
  {
    hide CoinsOf, Refs;
  }

  lemma LastEvents(share: UInt256, h: seq<Entry>)
    requires h != []
    ensures var last := h[|h| - 1].tx;
      var b, b' := AfterHistory(share, h[..|h| - 1]), AfterHistory(share, h);
      && b'.coins == b.coins + CoinsOf(last)
      && ClaimedIn(h) == ClaimedIn(h[..|h| - 1]) + Refs(last.claims)
      && forall ref :: ref in b'.spent <==> ref in b.spent || ref in Refs(last.inputs)
  {
    hide MarkSpent, CoinsOf;
    var last := h[|h| - 1].tx;
    forall ref ensures ref in multiset(last.inputs) <==> ref in Refs(last.inputs) {
      assert ref in Refs(last.inputs) <==> ref in last.inputs;
    }
  }

  lemma {:induction false} ProperPrefix(share: UInt256, h: seq<Entry>, more: seq<Entry>)
    requires Proper(share, h + more)
    ensures Proper(share, h)
  {
    if more == [] {
      assert h + more == h;
    } else {
      assert (h + more)[..|h + more| - 1] == h + more[..|more| - 1];
      ProperPrefix(share, h, more[..|more| - 1]);
    }
  }

  /**
   * A wallet whose books are those of the history `h` may process any next block of a proper chain, and
   * then its books are those of the longer history.
   */
  lemma NextBlock(share: UInt256, h: seq<Entry>, block: Block)
    requires Proper(share, h + Entries(block.transactions, block.index))
    ensures var txs, h' := block.transactions, h + Entries(block.transactions, block.index);
      var b, b' := AfterHistory(share, h), AfterHistory(share, h');
      && NewCoins(b.coins, EventsOf(b, h), BlockCoins(txs))
      && b'.coins == b.coins + BlockCoins(txs)
      && EventsOf(b', h') == Events(EventsOf(b, h).spent + BlockInputs(txs), EventsOf(b, h).claimed + BlockClaims(txs))
      && EventsOf(b', h').claimed <= EventsOf(b', h').spent
  {
    hide NoDoubleSpend, BlockCoins, BlockInputs, BlockClaims, Entries, AfterHistory, HasCoin;
    var txs, h' := block.transactions, h + Entries(block.transactions, block.index);
    var b, b' := AfterHistory(share, h), AfterHistory(share, h');
    BlockEvents(share, h, txs, block.index);
    ProperPrefix(share, h, Entries(txs, block.index));
    forall c | c in BlockCoins(txs) ensures c.ref !in EventsOf(b, h).spent && c.ref !in EventsOf(b, h).claimed {
      ProperRefs(share, h, c.ref);
      NotSeen(b.coins, BlockCoins(txs), c);
    }
    forall ref | ref in ClaimedIn(h') ensures ref in b'.spent {
      ProperRefs(share, h', ref);
    }
  }

  /** The same along a chain of blocks. */
  lemma NextOf(share: UInt256, blocks: seq<Block>, k: nat)
    requires k < |blocks| && Proper(share, ChainOf(blocks))
    ensures var txs, h, h' := blocks[k].transactions, ChainOf(blocks[..k]), ChainOf(blocks[..k + 1]);
      var b, b' := AfterHistory(share, h), AfterHistory(share, h');
      && NewCoins(b.coins, EventsOf(b, h), BlockCoins(txs))
      && b'.coins == b.coins + BlockCoins(txs)
      && EventsOf(b', h') == Events(EventsOf(b, h).spent + BlockInputs(txs), EventsOf(b, h).claimed + BlockClaims(txs))
  {
    hide *;
    ChainStep(blocks, k);
    ChainPrefix(blocks, k + 1);
    ProperBefore(share, ChainOf(blocks[..k + 1]), ChainOf(blocks));
    NextBlock(share, ChainOf(blocks[..k]), blocks[k]);
  }

  lemma ProperBefore(share: UInt256, h: seq<Entry>, all: seq<Entry>)
    requires Proper(share, all) && h <= all
    ensures Proper(share, h)
  {
    hide Proper;
    assert all == h + all[|h|..];
    ProperPrefix(share, h, all[|h|..]);
  }

  /** Nobody has spent the output, or it is one of the governing token with a spend that no claim followed. */
  ghost predicate Remains(share: UInt256, h: seq<Entry>, c: Coin) {
    !SpentIn(h, c.ref) || (c.output.asset == share && exists i :: UnclaimedSpend(h, c.ref, i))
  }

  /** A proper history is one that the ledger can have persisted, so its claims are those of the ledger. */
  lemma IndexedRemains(a: Addresses, share: UInt256, h: seq<Entry>, coins: Coins, c: Coin)
    requires Proper(share, h) && c in AfterHistory(share, h).coins && Indexed(a, AfterHistory(share, h), coins, c)
    ensures c.ref in coins <==> Remains(share, h, c)
  {
    hide AfterHistory, SpentIn, UnclaimedSpend, NoDoubleSpend, InputsWereThere;
    var b := AfterHistory(share, h);
    ProperBooks(share, h);
    ProperInputs(share, h);
    ClaimableIff(share, h, c.ref);
    SpentInIff(share, h, c.ref);
    assert IsShare(share, b.coins, c.ref) <==> c.output.asset == share;
  }

  lemma ProperBooks(share: UInt256, h: seq<Entry>)
    requires Proper(share, h)
    ensures DistinctRefs(AfterHistory(share, h).coins) && NoDoubleSpend(AfterHistory(share, h).spent)
  {
    hide AfterHistory, DistinctRefs, NoDoubleSpend;
  }

  lemma ClaimsAreSpends(share: UInt256, h: seq<Entry>)
    requires Proper(share, h)
    ensures EventsOf(AfterHistory(share, h), h).claimed <= EventsOf(AfterHistory(share, h), h).spent
  {
    hide Proper, AfterHistory;
    forall ref | ref in ClaimedIn(h) ensures ref in AfterHistory(share, h).spent {
      ProperRefs(share, h, ref);
    }
  }

  lemma NotSeen(seen: seq<Coin>, coins: seq<Coin>, c: Coin)
    requires DistinctRefs(seen + coins) && c in coins
    ensures !HasCoin(seen, c.ref)
  {
    var i :| 0 <= i < |coins| && coins[i] == c;
    forall d | d in seen ensures d.ref != c.ref {
      var k :| 0 <= k < |seen| && seen[k] == d;
      assert (seen + coins)[k] == d && (seen + coins)[|seen| + i] == c;
    }
  }
}
