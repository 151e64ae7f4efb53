/** neo/Core/Blockchain.py and neo/Core/State: how persisting a block updates coins, balances and claims. */
module Persist {
  import opened Wrappers

  type UInt160 = nat
  type UInt256 = nat

  const CONFIRMED: nat := 1
  const SPENT: nat := 2

  datatype Output = Output(asset: UInt256, value: nat, account: UInt160)
  datatype CoinReference = CoinReference(prevHash: UInt256, prevIndex: nat)
  datatype Transaction =
    Transaction(hash: UInt256, outputs: seq<Output>, inputs: seq<CoinReference>, claims: seq<CoinReference>)
  datatype Block = Block(index: nat, transactions: seq<Transaction>)
  datatype SpentCoinItem = SpentCoinItem(index: nat, height: nat)

  type Unspent = map<UInt256, seq<nat>>
  type Accounts = map<UInt160, map<UInt256, int>>
  type Spent = map<UInt256, seq<SpentCoinItem>>

  // ---- the books: what the chain says --------------------------------------------------------

  datatype Coin = Coin(ref: CoinReference, output: Output)

  /**
   * Every output so far, how often each was spent, and the governing-token outputs whose last event is a
   * spend rather than a claim, with the height of that spend.
   */
  datatype Books = Books(coins: seq<Coin>, spent: multiset<CoinReference>, claimable: map<CoinReference, nat>)

  function CoinsOf(tx: Transaction): (s: seq<Coin>)
    ensures |s| == |tx.outputs|
  {
    seq(|tx.outputs|, i requires 0 <= i < |tx.outputs| => Coin(CoinReference(tx.hash, i), tx.outputs[i]))
  }

  function Refs(s: seq<CoinReference>): set<CoinReference> {
    set ref | ref in s
  }

  ghost predicate HasCoin(coins: seq<Coin>, ref: CoinReference) {
    exists c :: c in coins && c.ref == ref
  }

  ghost predicate IsShare(share: UInt256, coins: seq<Coin>, ref: CoinReference) {
    exists c :: c in coins && c.ref == ref && c.output.asset == share
  }

  ghost predicate DistinctRefs(coins: seq<Coin>) {
    forall i, j :: 0 <= i < j < |coins| ==> coins[i].ref != coins[j].ref
  }

  ghost predicate NoDoubleSpend(spent: multiset<CoinReference>) {
    forall ref :: spent[ref] <= 1
  }

  ghost function MarkSpent(share: UInt256, coins: seq<Coin>, claimable: map<CoinReference, nat>,
      refs: set<CoinReference>, height: nat): map<CoinReference, nat> {
    claimable + map ref | ref in refs && IsShare(share, coins, ref) :: height
  }

  ghost function AfterTransaction(share: UInt256, b: Books, tx: Transaction, height: nat): Books {
    var coins := b.coins + CoinsOf(tx);
    Books(
      coins,
      b.spent + multiset(tx.inputs),
      MarkSpent(share, coins, b.claimable, Refs(tx.inputs), height) - Refs(tx.claims))
  }

  ghost function AfterTransactions(share: UInt256, b: Books, txs: seq<Transaction>, height: nat): Books {
    if txs == [] then b
    else AfterTransaction(share, AfterTransactions(share, b, txs[..|txs| - 1], height), txs[|txs| - 1], height)
  }

  /** What an output is worth to one account in one asset. */
  function Worth(c: Coin, account: UInt160, asset: UInt256): nat {
    if c.output.account == account && c.output.asset == asset then c.output.value else 0
  }

  /** Credits less debits: an output spent twice is debited twice. */
  ghost function NetSum(coins: seq<Coin>, spent: multiset<CoinReference>, account: UInt160, asset: UInt256): int {
    if coins == [] then 0
    else
      var c := coins[|coins| - 1];
      NetSum(coins[..|coins| - 1], spent, account, asset) + Worth(c, account, asset) * (1 - spent[c.ref] as int)
  }

  // ---- the stores ----------------------------------------------------------------------------

  predicate Clear(unspent: Unspent, ref: CoinReference) {
    && ref.prevHash in unspent && ref.prevIndex < |unspent[ref.prevHash]|
    && unspent[ref.prevHash][ref.prevIndex] == CONFIRMED
  }

  /** The sum of an account's outputs whose Spent flag is clear. */
  function UnspentSum(coins: seq<Coin>, unspent: Unspent, account: UInt160, asset: UInt256): nat {
    if coins == [] then 0
    else
      var c := coins[|coins| - 1];
      UnspentSum(coins[..|coins| - 1], unspent, account, asset)
        + if Clear(unspent, c.ref) then Worth(c, account, asset) else 0
  }

  function BalanceFor(balances: map<UInt256, int>, asset: UInt256): int {
    if asset in balances then balances[asset] else 0
  }

  function BalancesOf(accounts: Accounts, account: UInt160): map<UInt256, int> {
    if account in accounts then accounts[account] else map[]
  }

  function Balance(accounts: Accounts, account: UInt160, asset: UInt256): int {
    BalanceFor(BalancesOf(accounts, account), asset)
  }

  function ItemsOf(spentCoins: Spent, hash: UInt256): seq<SpentCoinItem> {
    if hash in spentCoins then spentCoins[hash] else []
  }

  /** The height of the last item with this index. */
  function Find(items: seq<SpentCoinItem>, index: nat): Option<nat> {
    if items == [] then None
    else if items[|items| - 1].index == index then Some(items[|items| - 1].height)
    else Find(items[..|items| - 1], index)
  }

  predicate DistinctIndices(items: seq<SpentCoinItem>) {
    items == [] || (Find(items[..|items| - 1], items[|items| - 1].index).None? && DistinctIndices(items[..|items| - 1]))
  }

  ghost predicate RefsKnown(b: Books) {
    && DistinctRefs(b.coins)
    && (forall ref | ref in b.spent :: HasCoin(b.coins, ref))
    && (forall ref | ref in b.claimable :: ref in b.spent)
  }

  ghost predicate EntryKnown(coins: seq<Coin>, hash: UInt256, flags: seq<nat>) {
    forall i :: 0 <= i < |flags| ==> HasCoin(coins, CoinReference(hash, i)) && (flags[i] == 1 || flags[i] == 3)
  }

  /** A flag is clear exactly when its output was never spent; entries of spent outputs may be gone. */
  ghost predicate FlagsAgree(coins: seq<Coin>, spent: multiset<CoinReference>, unspent: Unspent) {
    && (forall c | c in coins :: Clear(unspent, c.ref) <==> c.ref !in spent)
    && (forall h | h in unspent :: EntryKnown(coins, h, unspent[h]))
  }

  ghost predicate BalancesAgree(coins: seq<Coin>, spent: multiset<CoinReference>, accounts: Accounts) {
    forall account, asset :: Balance(accounts, account, asset) == NetSum(coins, spent, account, asset)
  }

  ghost predicate ClaimsAgree(claimable: map<CoinReference, nat>, spentCoins: Spent) {
    && (forall h | h in spentCoins :: DistinctIndices(spentCoins[h]))
    && (forall ref: CoinReference ::
          Find(ItemsOf(spentCoins, ref.prevHash), ref.prevIndex) == HeightIn(claimable, ref))
  }

  function HeightIn(claimable: map<CoinReference, nat>, ref: CoinReference): Option<nat> {
    if ref in claimable then Some(claimable[ref]) else None
  }

  // ---- balances ------------------------------------------------------------------------------

  lemma {:induction false} NetSumUnspentCoin(coins: seq<Coin>, c: Coin, spent: multiset<CoinReference>,
      account: UInt160, asset: UInt256)
    requires c.ref !in spent
    ensures NetSum(coins + [c], spent, account, asset)
      == NetSum(coins, spent, account, asset) + Worth(c, account, asset)
  {
    assert (coins + [c])[..|coins|] == coins;
  }

  lemma {:induction false} NetSumOther(coins: seq<Coin>, spent: multiset<CoinReference>, ref: CoinReference,
      account: UInt160, asset: UInt256)
    requires !HasCoin(coins, ref)
    ensures NetSum(coins, spent + multiset{ref}, account, asset) == NetSum(coins, spent, account, asset)
  {
    if coins != [] {
      var front := coins[..|coins| - 1];
      assert coins[|coins| - 1].ref != ref;
      assert !HasCoin(front, ref);
      NetSumOther(front, spent, ref, account, asset);
    }
  }

  lemma {:induction false} NetSumSpend(coins: seq<Coin>, spent: multiset<CoinReference>, c: Coin,
      account: UInt160, asset: UInt256)
    requires DistinctRefs(coins) && c in coins
    ensures NetSum(coins, spent + multiset{c.ref}, account, asset)
         == NetSum(coins, spent, account, asset) - Worth(c, account, asset)
  {
    var front, last := coins[..|coins| - 1], coins[|coins| - 1];
    if last.ref == c.ref {
      assert !HasCoin(front, c.ref);
      NetSumOther(front, spent, c.ref, account, asset);
      OneMore(Worth(c, account, asset), spent[c.ref]);
    } else {
      NetSumSpend(front, spent, c, account, asset);
    }
  }

  lemma OneMore(w: int, n: int)
    ensures w * (1 - (n + 1)) == w * (1 - n) - w
  {
  }

  /** Without double spends, and with exact flags, credits less debits is the sum of unspent outputs. */
  lemma {:induction false} NetIsUnspent(b: Books, coins: seq<Coin>, unspent: Unspent, account: UInt160, asset: UInt256)
    requires forall c | c in coins :: Clear(unspent, c.ref) <==> c.ref !in b.spent
    requires NoDoubleSpend(b.spent)
    ensures NetSum(coins, b.spent, account, asset) == UnspentSum(coins, unspent, account, asset)
  {
    hide Clear;
    if coins != [] {
      NetIsUnspent(b, coins[..|coins| - 1], unspent, account, asset);
    }
  }

  lemma {:induction false} NetAtMostUnspent(coins: seq<Coin>, spent: multiset<CoinReference>, unspent: Unspent,
      account: UInt160, asset: UInt256)
    requires forall c | c in coins :: Clear(unspent, c.ref) <==> c.ref !in spent
    ensures NetSum(coins, spent, account, asset) <= UnspentSum(coins, unspent, account, asset)
    ensures NetSum(coins, spent, account, asset) == UnspentSum(coins, unspent, account, asset)
      <==> forall c | c in coins && Worth(c, account, asset) > 0 :: spent[c.ref] <= 1
  {
    hide Clear, Worth;
    if coins != [] {
      var front, c := coins[..|coins| - 1], coins[|coins| - 1];
      NetAtMostUnspent(front, spent, unspent, account, asset);
      OverspentTerm(Worth(c, account, asset), spent[c.ref]);
      assert forall d | d in coins :: d in front || d == c;
    }
  }

  lemma OverspentTerm(w: nat, n: nat)
    ensures w * (1 - n) <= if n == 0 then w else 0
    ensures w * (1 - n) == (if n == 0 then w else 0) <==> w == 0 || n <= 1
  {
  }

  /** All balances are sums of unspent outputs exactly when no output of positive value was spent twice. */
  lemma BalancesAreUnspentIff(b: Books, unspent: Unspent, accounts: Accounts)
    requires FlagsAgree(b.coins, b.spent, unspent) && BalancesAgree(b.coins, b.spent, accounts)
    ensures (forall account, asset :: Balance(accounts, account, asset) == UnspentSum(b.coins, unspent, account, asset))
      <==> forall c | c in b.coins && c.output.value > 0 :: b.spent[c.ref] <= 1
  {
    hide Balance, NetSum, UnspentSum, Clear, HasCoin, Worth;
    forall account, asset
      ensures Balance(accounts, account, asset) == UnspentSum(b.coins, unspent, account, asset)
        <==> forall c | c in b.coins && Worth(c, account, asset) > 0 :: b.spent[c.ref] <= 1
    {
      NetAtMostUnspent(b.coins, b.spent, unspent, account, asset);
    }
    forall c | c in b.coins ensures Worth(c, c.output.account, c.output.asset) == c.output.value {
      WorthToOwner(c, c.output.account, c.output.asset);
    }
    forall c, account, asset ensures Worth(c, account, asset) <= c.output.value {
      WorthToOwner(c, account, asset);
    }
    if forall account, asset :: Balance(accounts, account, asset) == UnspentSum(b.coins, unspent, account, asset) {
      forall c | c in b.coins && c.output.value > 0 ensures b.spent[c.ref] <= 1 {
        assert Balance(accounts, c.output.account, c.output.asset)
            == UnspentSum(b.coins, unspent, c.output.account, c.output.asset);
      }
    }
  }

  lemma WorthToOwner(c: Coin, account: UInt160, asset: UInt256)
    ensures Worth(c, account, asset) <= c.output.value
    ensures account == c.output.account && asset == c.output.asset ==> Worth(c, account, asset) == c.output.value
  {
  }

  ghost predicate BalancesAreUnspent(coins: seq<Coin>, unspent: Unspent, accounts: Accounts) {
    forall account, asset :: Balance(accounts, account, asset) == UnspentSum(coins, unspent, account, asset)
  }

  lemma AgreementIsUnspent(b: Books, unspent: Unspent, accounts: Accounts)
    requires NoDoubleSpend(b.spent) && FlagsAgree(b.coins, b.spent, unspent)
    requires BalancesAgree(b.coins, b.spent, accounts)
    ensures BalancesAreUnspent(b.coins, unspent, accounts)
  {
    hide Balance, NetSum, UnspentSum, EntryKnown, NoDoubleSpend;
    forall account, asset ensures Balance(accounts, account, asset) == UnspentSum(b.coins, unspent, account, asset) {
      NetIsUnspent(b, b.coins, unspent, account, asset);
    }
  }

  // ---- claims over a whole history -----------------------------------------------------------

  /** A transaction and the height of its block. */
  datatype Entry = Entry(tx: Transaction, height: nat)

  ghost function AfterHistory(share: UInt256, h: seq<Entry>): Books {
    if h == [] then Books([], multiset{}, map[])
    else AfterTransaction(share, AfterHistory(share, h[..|h| - 1]), h[|h| - 1].tx, h[|h| - 1].height)
  }

  ghost predicate Claimed(h: seq<Entry>, ref: CoinReference) {
    exists i :: 0 <= i < |h| && ref in h[i].tx.claims
  }

  ghost predicate SpentAt(h: seq<Entry>, ref: CoinReference, height: nat) {
    exists i :: 0 <= i < |h| && ref in h[i].tx.inputs && h[i].height == height
  }

  /** Inputs exist, nothing is spent twice and only spent outputs are claimed, perhaps repeatedly. */
  ghost predicate Proper(share: UInt256, h: seq<Entry>) {
    var b := AfterHistory(share, h);
    && DistinctRefs(b.coins)
    && NoDoubleSpend(b.spent)
    && (h != [] ==>
          && (forall ref | ref in h[|h| - 1].tx.inputs :: HasCoin(b.coins, ref))
          && (forall ref | ref in h[|h| - 1].tx.claims :: ref in b.spent)
          && Proper(share, h[..|h| - 1]))
  }

  lemma {:induction false} ProperRefs(share: UInt256, h: seq<Entry>, ref: CoinReference)
    requires Proper(share, h)
    ensures var b := AfterHistory(share, h);
      && (ref in b.spent ==> HasCoin(b.coins, ref))
      && (Claimed(h, ref) ==> ref in b.spent)
  {
    hide MarkSpent, DistinctRefs, NoDoubleSpend, CoinsOf;
    if h != [] {
      var g, last := h[..|h| - 1], h[|h| - 1];
      ProperRefs(share, g, ref);
      var b := AfterHistory(share, h);
      if HasCoin(AfterHistory(share, g).coins, ref) {
        var c :| c in AfterHistory(share, g).coins && c.ref == ref;
        assert c in b.coins;
      }
      if Claimed(h, ref) && ref !in last.tx.claims {
        var i :| 0 <= i < |h| && ref in h[i].tx.claims;
        assert g[i] == h[i];
        assert Claimed(g, ref);
      }
    }
  }

  /** What is left to claim: the governing-token outputs that were spent and never claimed, with their heights. */
  lemma {:induction false} ClaimableIsSpentUnclaimed(share: UInt256, h: seq<Entry>, ref: CoinReference)
    requires Proper(share, h)
    ensures var b := AfterHistory(share, h);
      && (ref in b.claimable <==> ref in b.spent && IsShare(share, b.coins, ref) && !Claimed(h, ref))
      && (ref in b.claimable ==> SpentAt(h, ref, b.claimable[ref]))
  {
    hide DistinctRefs, NoDoubleSpend, CoinsOf, IsShare, HasCoin;
    if h != [] {
      var g, last := h[..|h| - 1], h[|h| - 1];
      var a, b := AfterHistory(share, g), AfterHistory(share, h);
      ClaimableIsSpentUnclaimed(share, g, ref);
      ProperRefs(share, g, ref);
      SameShare(share, a.coins, b.coins, ref);
      SpentOnce(a.spent, last.tx.inputs, ref);
      ClaimedStep(h, ref);
      SpentStep(h, ref);
      assert ref in Refs(last.tx.inputs) <==> ref in last.tx.inputs;
      assert ref in Refs(last.tx.claims) <==> ref in last.tx.claims;
    }
  }

  lemma SameShare(share: UInt256, coins: seq<Coin>, more: seq<Coin>, ref: CoinReference)
    requires DistinctRefs(more) && coins <= more
    ensures HasCoin(coins, ref) ==> (IsShare(share, coins, ref) <==> IsShare(share, more, ref))
    ensures IsShare(share, coins, ref) ==> IsShare(share, more, ref)
  {
    forall c | c in coins ensures c in more {
      var i :| 0 <= i < |coins| && coins[i] == c;
      assert more[i] == c;
    }
    if HasCoin(coins, ref) && IsShare(share, more, ref) {
      var c :| c in coins && c.ref == ref;
      var d :| d in more && d.ref == ref && d.output.asset == share;
      assert c == d;
    }
  }

  lemma SpentOnce(spent: multiset<CoinReference>, inputs: seq<CoinReference>, ref: CoinReference)
    requires NoDoubleSpend(spent + multiset(inputs))
    ensures !(ref in spent && ref in inputs)
  {
    assert (spent + multiset(inputs))[ref] <= 1;
    assert ref in inputs ==> ref in multiset(inputs);
  }

  lemma ClaimedStep(h: seq<Entry>, ref: CoinReference)
    requires h != []
    ensures Claimed(h, ref) <==> Claimed(h[..|h| - 1], ref) || ref in h[|h| - 1].tx.claims
  {
    var g := h[..|h| - 1];
    assert forall i :: 0 <= i < |g| ==> g[i] == h[i];
    if Claimed(g, ref) {
      var i :| 0 <= i < |g| && ref in g[i].tx.claims;
      assert ref in h[i].tx.claims;
    }
    if Claimed(h, ref) && ref !in h[|h| - 1].tx.claims {
      var i :| 0 <= i < |h| && ref in h[i].tx.claims;
      assert ref in g[i].tx.claims;
    }
  }

  lemma SpentStep(h: seq<Entry>, ref: CoinReference)
    requires h != []
    ensures forall height :: SpentAt(h[..|h| - 1], ref, height) ==> SpentAt(h, ref, height)
    ensures ref in h[|h| - 1].tx.inputs ==> SpentAt(h, ref, h[|h| - 1].height)
  {
    var g := h[..|h| - 1];
    forall height | SpentAt(g, ref, height) ensures SpentAt(h, ref, height) {
      var i :| 0 <= i < |g| && ref in g[i].tx.inputs && g[i].height == height;
      assert h[i] == g[i];
    }
  }
}
