/** neo/Wallets/Wallet.py: what the wallet's coin dictionary says about the chain. */
module WalletIndex {
  import opened CoinSelection
  import opened Persist
  import opened Wrappers

  type Coins = map<CoinReference, WalletCoin>

  /** The wallet's own and watched addresses. */
  datatype Addresses = Addresses(contracts: set<UInt160>, watchOnly: set<UInt160>)

  datatype AddressState = NoState | InWallet | InWalletWatchOnly

  function CheckAddressState(a: Addresses, account: UInt160): AddressState {
    if account in a.contracts then InWallet
    else if account in a.watchOnly then InWalletWatchOnly
    else NoState
  }

  predicate Owned(a: Addresses, c: Coin) {
    CheckAddressState(a, c.output.account) != NoState
  }

  function ConfirmedState(a: Addresses, c: Coin): set<Flag> {
    {Confirmed} + if CheckAddressState(a, c.output.account) == InWalletWatchOnly then {WatchOnly} else {}
  }

  /** The inputs and claims of the chain, as sets. */
  datatype Events = Events(spent: set<CoinReference>, claimed: set<CoinReference>)

  /**
   * What the dictionary holds for an output of one of the wallet's addresses: nothing once it is claimed,
   * and nothing once it is spent unless it is a governing-token output.
   */
  function EntryOf(a: Addresses, share: UInt256, e: Events, c: Coin): Option<WalletCoin> {
    if c.ref in e.claimed then None
    else if c.ref !in e.spent then Some(WalletCoin(c.ref, c.output, ConfirmedState(a, c)))
    else if c.output.asset == share then Some(WalletCoin(c.ref, c.output, ConfirmedState(a, c) + {Flag.Spent}))
    else None
  }

  function Lookup(coins: Coins, ref: CoinReference): Option<WalletCoin> {
    if ref in coins then Some(coins[ref]) else None
  }

  ghost predicate HasOwned(a: Addresses, seen: seq<Coin>, ref: CoinReference) {
    exists c :: c in seen && c.ref == ref && Owned(a, c)
  }

  ghost predicate Holds(a: Addresses, share: UInt256, seen: seq<Coin>, e: Events, coins: Coins) {
    && (forall c | c in seen && Owned(a, c) :: Lookup(coins, c.ref) == EntryOf(a, share, e, c))
    && (forall ref | ref in coins :: HasOwned(a, seen, ref))
  }

  // ---- one event at a time -------------------------------------------------------------------

  /** An output of the block, new to the dictionary. */
  function Received(a: Addresses, coins: Coins, c: Coin): Coins {
    if Owned(a, c) then coins[c.ref := WalletCoin(c.ref, c.output, ConfirmedState(a, c))] else coins
  }

  lemma ReceiveHolds(a: Addresses, share: UInt256, seen: seq<Coin>, e: Events, coins: Coins, c: Coin)
    requires Holds(a, share, seen, e, coins)
    requires !HasCoin(seen, c.ref) && c.ref !in e.spent && c.ref !in e.claimed
    ensures c.ref !in coins
    ensures Holds(a, share, seen + [c], e, Received(a, coins, c))
  {
    var after := Received(a, coins, c);
    forall ref | ref in after ensures HasOwned(a, seen + [c], ref) {
      if ref in coins {
        assert HasOwned(a, seen, ref);
        var d :| d in seen && d.ref == ref && Owned(a, d);
        assert d in seen + [c];
      } else {
        assert c in seen + [c];
      }
    }
    assert c.ref in coins ==> HasOwned(a, seen, c.ref);
    forall d | d in seen + [c] && Owned(a, d) ensures Lookup(after, d.ref) == EntryOf(a, share, e, d) {
      if d in seen {
        assert d.ref != c.ref;
      }
    }
  }

  /** An input of the block. */
  function Paid(share: UInt256, coins: Coins, ref: CoinReference): Coins {
    if ref !in coins then coins
    else if coins[ref].output.asset == share then
      coins[ref := coins[ref].(state := coins[ref].state + {Flag.Spent, Confirmed})]
    else coins - {ref}
  }

  lemma PayHolds(a: Addresses, share: UInt256, seen: seq<Coin>, e: Events, coins: Coins, ref: CoinReference)
    requires Holds(a, share, seen, e, coins)
    ensures Holds(a, share, seen, e.(spent := e.spent + {ref}), Paid(share, coins, ref))
  {
    var after, e' := Paid(share, coins, ref), e.(spent := e.spent + {ref});
    forall c | c in seen && Owned(a, c) ensures Lookup(after, c.ref) == EntryOf(a, share, e', c) {
      assert Lookup(coins, c.ref) == EntryOf(a, share, e, c);
      if c.ref == ref && ref in coins {
        FlagsOnce(a, c);
      }
    }
    forall r | r in after ensures HasOwned(a, seen, r) {
      assert r in coins;
    }
  }

  lemma FlagsOnce(a: Addresses, c: Coin)
    ensures ConfirmedState(a, c) + {Flag.Spent, Confirmed} == ConfirmedState(a, c) + {Flag.Spent}
    ensures ConfirmedState(a, c) + {Flag.Spent} + {Flag.Spent, Confirmed} == ConfirmedState(a, c) + {Flag.Spent}
  {
  }

  lemma ClaimHolds(a: Addresses, share: UInt256, seen: seq<Coin>, e: Events, coins: Coins, ref: CoinReference)
    requires Holds(a, share, seen, e, coins)
    ensures Holds(a, share, seen, e.(claimed := e.claimed + {ref}), coins - {ref})
  {
    var after, e' := coins - {ref}, e.(claimed := e.claimed + {ref});
    forall c | c in seen && Owned(a, c) ensures Lookup(after, c.ref) == EntryOf(a, share, e', c) {
      assert Lookup(coins, c.ref) == EntryOf(a, share, e, c);
    }
    forall r | r in after ensures HasOwned(a, seen, r) {
      assert r in coins;
    }
  }

  // ---- agreement with the chain --------------------------------------------------------------

  ghost function EventsOf(b: Books, h: seq<Entry>): Events {
    var spent := set ref | ref in b.spent;
    Events(spent, ClaimedIn(h))
  }

  ghost function ClaimedIn(h: seq<Entry>): (s: set<CoinReference>)
    ensures forall ref :: ref in s <==> Persist.Claimed(h, ref)
  {
    if h == [] then {}
    else
      var s := ClaimedIn(h[..|h| - 1]) + Refs(h[|h| - 1].tx.claims);
      assert forall ref :: Persist.Claimed(h, ref) <==> ref in s by {
        forall ref ensures Persist.Claimed(h, ref) <==> ref in s { ClaimedStep(h, ref); }
      }
      s
  }

  /** What the books say about the dictionary's entry for one of the wallet's outputs. */
  ghost predicate Indexed(a: Addresses, b: Books, coins: Coins, c: Coin) {
    && (c.ref in coins <==> c.ref !in b.spent || c.ref in b.claimable)
    && (c.ref in coins ==>
          && coins[c.ref].output == c.output
          && (Flag.Spent in coins[c.ref].state <==> c.ref in b.spent)
          && Confirmed in coins[c.ref].state
          && (WatchOnly in coins[c.ref].state <==> CheckAddressState(a, c.output.account) == InWalletWatchOnly))
  }

  /**
   * On a proper history the dictionary is exactly the wallet's unspent outputs together with its
   * governing-token outputs that are spent and can still be claimed, each flagged accordingly.
   */
  lemma IndexAgreesWithChain(a: Addresses, share: UInt256, h: seq<Entry>, coins: Coins, c: Coin)
    requires Proper(share, h)
    requires Holds(a, share, AfterHistory(share, h).coins, EventsOf(AfterHistory(share, h), h), coins)
    requires c in AfterHistory(share, h).coins && Owned(a, c)
    ensures Indexed(a, AfterHistory(share, h), coins, c)
  {
    hide MarkSpent, NoDoubleSpend, CoinsOf;
    var b := AfterHistory(share, h);
    ClaimableIsSpentUnclaimed(share, h, c.ref);
    ProperRefs(share, h, c.ref);
    assert IsShare(share, b.coins, c.ref) <==> c.output.asset == share by {
      assert Proper(share, h) && DistinctRefs(b.coins);
    }
    assert Lookup(coins, c.ref) == EntryOf(a, share, EventsOf(b, h), c);
  }

  // ---- balances ------------------------------------------------------------------------------

  /** The coins that `GetBalance` counts and that may be selected for spending. */
  predicate Available(c: WalletCoin, asset: UInt256, watchOnly: bool) {
    && c.output.asset == asset
    && Confirmed in c.state && Flag.Spent !in c.state && Locked !in c.state && Frozen !in c.state
    && (WatchOnly in c.state <==> watchOnly)
  }

  function Counted(c: WalletCoin, asset: UInt256, watchOnly: bool): nat {
    if Available(c, asset, watchOnly) then c.output.value else 0
  }

  function CountedTotal(cs: seq<WalletCoin>, asset: UInt256, watchOnly: bool): nat {
    if cs == [] then 0 else CountedTotal(cs[..|cs| - 1], asset, watchOnly) + Counted(cs[|cs| - 1], asset, watchOnly)
  }

  /** Every entry of the dictionary, once. */
  ghost predicate Lists(cs: seq<WalletCoin>, coins: Coins) {
    && (forall i, j :: 0 <= i < j < |cs| ==> cs[i].ref != cs[j].ref)
    && (forall c | c in cs :: c.ref in coins && coins[c.ref] == c)
    && (forall ref | ref in coins :: coins[ref] in cs && coins[ref].ref == ref)
  }

  /** The chain's sum of unspent outputs of one asset to the wallet's own, or watched, addresses. */
  function UnspentTo(a: Addresses, seen: seq<Coin>, e: Events, asset: UInt256, watchOnly: bool): nat {
    if seen == [] then 0
    else
      var c := seen[|seen| - 1];
      UnspentTo(a, seen[..|seen| - 1], e, asset, watchOnly)
      + (if c.ref !in e.spent && c.output.asset == asset
            && CheckAddressState(a, c.output.account) == (if watchOnly then InWalletWatchOnly else InWallet)
         then c.output.value else 0)
  }

  lemma {:induction false} CountedWithout(cs: seq<WalletCoin>, i: nat, asset: UInt256, watchOnly: bool)
    requires i < |cs|
    ensures CountedTotal(cs, asset, watchOnly)
         == CountedTotal(cs[..i] + cs[i + 1..], asset, watchOnly) + Counted(cs[i], asset, watchOnly)
  {
    hide Counted;
    if i == |cs| - 1 {
      assert cs[..i] + cs[i + 1..] == cs[..i];
    } else {
      var front, rest := cs[..|cs| - 1], cs[..i] + cs[i + 1..];
      CountedWithout(front, i, asset, watchOnly);
      assert rest[..|rest| - 1] == front[..i] + front[i + 1..];
    }
  }

  lemma {:induction false} BalanceIsUnspent(a: Addresses, share: UInt256, seen: seq<Coin>, e: Events, coins: Coins,
      cs: seq<WalletCoin>, asset: UInt256, watchOnly: bool)
    requires Holds(a, share, seen, e, coins) && DistinctRefs(seen) && Lists(cs, coins) && e.claimed <= e.spent
    ensures CountedTotal(cs, asset, watchOnly) == UnspentTo(a, seen, e, asset, watchOnly)
    decreases |seen|
  {
    hide Counted;
    if seen == [] {
      NothingListed(a, seen, coins, cs);
    } else {
      var front, c := seen[..|seen| - 1], seen[|seen| - 1];
      if Owned(a, c) && c.ref in coins {
        var i := ListedAt(cs, coins, c.ref);
        CountedWithout(cs, i, asset, watchOnly);
        CountedIs(a, share, e, c, coins[c.ref], asset, watchOnly);
        HoldsWithout(a, share, seen, e, coins);
        ListsWithout(cs, coins, i);
        BalanceIsUnspent(a, share, front, e, coins - {c.ref}, cs[..i] + cs[i + 1..], asset, watchOnly);
      } else {
        HoldsWithout(a, share, seen, e, coins);
        assert coins - {c.ref} == coins by { NotListed(a, share, seen, e, coins); }
        BalanceIsUnspent(a, share, front, e, coins, cs, asset, watchOnly);
      }
    }
  }

  lemma SomeMember<T>(s: seq<T>)
    ensures s != [] ==> exists x :: x in s
  {
    if s != [] {
      assert s[0] in s;
    }
  }

  lemma NothingListed(a: Addresses, seen: seq<Coin>, coins: Coins, cs: seq<WalletCoin>)
    requires seen == [] && Lists(cs, coins) && forall ref | ref in coins :: HasOwned(a, seen, ref)
    ensures cs == []
  {
    SomeMember(cs);
  }

  lemma ListedAt(cs: seq<WalletCoin>, coins: Coins, ref: CoinReference) returns (i: nat)
    requires Lists(cs, coins) && ref in coins
    ensures i < |cs| && cs[i] == coins[ref] && cs[i].ref == ref
  {
    assert coins[ref] in cs;
    i :| 0 <= i < |cs| && cs[i] == coins[ref];
    assert cs[i] in cs;
  }

  lemma CountedIs(a: Addresses, share: UInt256, e: Events, c: Coin, w: WalletCoin, asset: UInt256, watchOnly: bool)
    requires EntryOf(a, share, e, c) == Some(w) && Owned(a, c)
    ensures Counted(w, asset, watchOnly)
         == if c.ref !in e.spent && c.output.asset == asset
              && CheckAddressState(a, c.output.account) == (if watchOnly then InWalletWatchOnly else InWallet)
            then c.output.value else 0
  {
  }

  lemma HoldsWithout(a: Addresses, share: UInt256, seen: seq<Coin>, e: Events, coins: Coins)
    requires seen != [] && Holds(a, share, seen, e, coins) && DistinctRefs(seen)
    ensures Holds(a, share, seen[..|seen| - 1], e, coins - {seen[|seen| - 1].ref})
  {
    hide EntryOf, Owned;
    var front, c := seen[..|seen| - 1], seen[|seen| - 1];
    var after := coins - {c.ref};
    forall ref | ref in after ensures HasOwned(a, front, ref) {
      assert HasOwned(a, seen, ref);
      var d :| d in seen && d.ref == ref && Owned(a, d);
      assert d in front;
    }
    forall d | d in front && Owned(a, d) ensures Lookup(after, d.ref) == EntryOf(a, share, e, d) {
      assert Lookup(coins, d.ref) == EntryOf(a, share, e, d);
      var i :| 0 <= i < |front| && front[i] == d;
      assert seen[i].ref != seen[|seen| - 1].ref;
    }
  }

  lemma ListsWithout(cs: seq<WalletCoin>, coins: Coins, i: nat)
    requires Lists(cs, coins) && i < |cs|
    ensures Lists(cs[..i] + cs[i + 1..], coins - {cs[i].ref})
  {
    var rest, after := cs[..i] + cs[i + 1..], coins - {cs[i].ref};
    forall c | c in rest ensures c.ref in after && after[c.ref] == c {
      var k :| 0 <= k < |rest| && rest[k] == c;
      assert c == cs[if k < i then k else k + 1];
      assert c in cs;
    }
    forall ref | ref in after ensures after[ref] in rest {
      KeptListed(cs, i, after[ref]);
    }
  }

  lemma KeptListed(cs: seq<WalletCoin>, i: nat, c: WalletCoin)
    requires i < |cs| && c in cs && c.ref != cs[i].ref
    ensures c in cs[..i] + cs[i + 1..]
  {
    var rest := cs[..i] + cs[i + 1..];
    var k :| 0 <= k < |cs| && cs[k] == c;
    assert rest[if k < i then k else k - 1] == c;
  }

  lemma NotListed(a: Addresses, share: UInt256, seen: seq<Coin>, e: Events, coins: Coins)
    requires seen != [] && Holds(a, share, seen, e, coins) && DistinctRefs(seen)
    requires var c := seen[|seen| - 1]; !(Owned(a, c) && c.ref in coins)
    ensures seen[|seen| - 1].ref !in coins
  {
    var c := seen[|seen| - 1];
    forall d | d in seen && d.ref == c.ref ensures d == c {
    }
    assert c.ref in coins ==> HasOwned(a, seen, c.ref);
  }
}
