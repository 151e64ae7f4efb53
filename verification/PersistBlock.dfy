/** neo/Core/Blockchain.py: `Persist`, working on a snapshot of the stores that is committed at the end. */
module PersistBlock {
  import opened Bytes
  import opened ChainHistory
  import opened Persist
  import opened Wrappers

  // ---- one store at a time -------------------------------------------------------------------

  function Credited(accounts: Accounts, o: Output, amount: int): Accounts {
    var balances := BalancesOf(accounts, o.account);
    accounts[o.account := balances[o.asset := BalanceFor(balances, o.asset) + amount]]
  }

  lemma CreditedBalance(accounts: Accounts, c: Coin, amount: int, account: UInt160, asset: UInt256)
    requires amount == c.output.value || amount == -(c.output.value as int)
    ensures Balance(Credited(accounts, c.output, amount), account, asset)
         == Balance(accounts, account, asset)
          + if amount == c.output.value then Worth(c, account, asset) else -(Worth(c, account, asset) as int)
  {
  }

  lemma CreditAgrees(coins: seq<Coin>, spent: multiset<CoinReference>, accounts: Accounts, c: Coin)
    requires BalancesAgree(coins, spent, accounts) && c.ref !in spent
    ensures BalancesAgree(coins + [c], spent, Credited(accounts, c.output, c.output.value))
  {
    hide Balance, NetSum, Credited, Worth;
    forall account, asset
      ensures Balance(Credited(accounts, c.output, c.output.value), account, asset)
        == NetSum(coins + [c], spent, account, asset)
    {
      CreditedBalance(accounts, c, c.output.value, account, asset);
      NetSumUnspentCoin(coins, c, spent, account, asset);
    }
  }

  lemma DebitAgrees(coins: seq<Coin>, spent: multiset<CoinReference>, accounts: Accounts, c: Coin)
    requires BalancesAgree(coins, spent, accounts) && DistinctRefs(coins) && c in coins
    ensures BalancesAgree(coins, spent + multiset{c.ref}, Credited(accounts, c.output, -(c.output.value as int)))
  {
    hide Balance, NetSum, Credited, Worth, DistinctRefs;
    forall account, asset
      ensures Balance(Credited(accounts, c.output, -(c.output.value as int)), account, asset)
           == NetSum(coins, spent + multiset{c.ref}, account, asset)
    {
      CreditedBalance(accounts, c, -(c.output.value as int), account, asset);
      NetSumSpend(coins, spent, c, account, asset);
      ZeroWorth(c, account, asset);
    }
  }

  lemma ZeroWorth(c: Coin, account: UInt160, asset: UInt256)
    ensures c.output.value == 0 ==> Worth(c, account, asset) == 0
  {
  }

  ghost predicate FreshHash(coins: seq<Coin>, hash: UInt256) {
    forall c | c in coins :: c.ref.prevHash != hash
  }

  lemma EnterRefs(b: Books, tx: Transaction)
    requires RefsKnown(b) && FreshHash(b.coins, tx.hash)
    ensures RefsKnown(b.(coins := b.coins + CoinsOf(tx)))
    ensures forall c | c in CoinsOf(tx) :: c.ref !in b.spent
  {
    var entered := CoinsOf(tx);
    var coins := b.coins + entered;
    forall i, j | 0 <= i < j < |coins| ensures coins[i].ref != coins[j].ref {
      if i < |b.coins| <= j {
        assert b.coins[i] in b.coins;
        assert coins[j] == entered[j - |b.coins|];
      } else if |b.coins| <= i {
        assert coins[i] == entered[i - |b.coins|] && coins[j] == entered[j - |b.coins|];
      }
    }
    forall ref | ref in b.spent ensures HasCoin(coins, ref) && ref.prevHash != tx.hash {
      var c :| c in b.coins && c.ref == ref;
      assert c in coins;
    }
  }

  lemma EnterFlags(b: Books, unspent: Unspent, tx: Transaction, flags: seq<nat>)
    requires RefsKnown(b) && FlagsAgree(b.coins, b.spent, unspent) && FreshHash(b.coins, tx.hash)
    requires |flags| == |tx.outputs| && forall i :: 0 <= i < |flags| ==> flags[i] == CONFIRMED
    ensures FlagsAgree(b.coins + CoinsOf(tx), b.spent, unspent[tx.hash := flags])
  {
    hide RefsKnown;
    EnterRefs(b, tx);
    var coins, after := b.coins + CoinsOf(tx), unspent[tx.hash := flags];
    forall h | h in after ensures EntryKnown(coins, h, after[h]) {
      forall i | 0 <= i < |after[h]|
        ensures HasCoin(coins, CoinReference(h, i)) && (after[h][i] == 1 || after[h][i] == 3)
      {
        if h == tx.hash {
          assert CoinsOf(tx)[i] in coins;
        } else {
          assert EntryKnown(b.coins, h, unspent[h]);
          var c :| c in b.coins && c.ref == CoinReference(h, i);
          assert c in coins;
        }
      }
    }
  }

  /** `|= CoinState.Spent`. */
  function OrSpent(flag: nat): nat {
    if flag / SPENT % 2 == 1 then flag else flag + SPENT
  }

  predicate HasEntry(unspent: Unspent, ref: CoinReference) {
    ref.prevHash in unspent && ref.prevIndex < |unspent[ref.prevHash]|
  }

  function Flagged(unspent: Unspent, ref: CoinReference): Unspent
    requires HasEntry(unspent, ref)
  {
    var flags: seq<nat> := unspent[ref.prevHash];
    unspent[ref.prevHash := flags[ref.prevIndex := OrSpent(flags[ref.prevIndex])]]
  }

  lemma SpendFlags(b: Books, unspent: Unspent, ref: CoinReference)
    requires FlagsAgree(b.coins, b.spent, unspent) && HasEntry(unspent, ref)
    ensures HasCoin(b.coins, ref)
    ensures FlagsAgree(b.coins, b.spent + multiset{ref}, Flagged(unspent, ref))
  {
    assert EntryKnown(b.coins, ref.prevHash, unspent[ref.prevHash]);
    var after := Flagged(unspent, ref);
    forall c | c in b.coins ensures Clear(after, c.ref) <==> c.ref !in b.spent + multiset{ref} {
      assert Clear(unspent, c.ref) <==> c.ref !in b.spent;
    }
    forall h | h in after ensures EntryKnown(b.coins, h, after[h]) {
      assert EntryKnown(b.coins, h, unspent[h]);
    }
  }

  /** Removes the last item with this index. */
  function Without(items: seq<SpentCoinItem>, index: nat): seq<SpentCoinItem> {
    if items == [] then []
    else if items[|items| - 1].index == index then items[..|items| - 1]
    else Without(items[..|items| - 1], index) + [items[|items| - 1]]
  }

  lemma WithoutStep(items: seq<SpentCoinItem>, i: nat, index: nat)
    requires i < |items|
    ensures Without(items[..i + 1], index)
         == if items[i].index == index then items[..i] else Without(items[..i], index) + [items[i]]
  {
    assert items[..i + 1][..i] == items[..i];
  }

  lemma NothingWithout(index: nat)
    ensures Without([], index) == []
  {
  }

  lemma GapGrows<T>(s: seq<T>, r: nat, i: nat)
    requires r < i < |s|
    ensures s[..r] + s[r + 1..i] + [s[i]] == s[..r] + s[r + 1..i + 1]
  {
    assert s[r + 1..i] + [s[i]] == s[r + 1..i + 1];
  }

  lemma {:induction false} FindWithout(items: seq<SpentCoinItem>, index: nat, other: nat)
    requires DistinctIndices(items)
    ensures Find(Without(items, index), other) == if other == index then None else Find(items, other)
  {
    if items != [] {
      var front, last := items[..|items| - 1], items[|items| - 1];
      FindWithout(front, index, other);
      if last.index != index {
        assert Without(items, index)[..|Without(front, index)|] == Without(front, index);
      }
    }
  }

  lemma {:induction false} WithoutDistinct(items: seq<SpentCoinItem>, index: nat)
    requires DistinctIndices(items)
    ensures DistinctIndices(Without(items, index))
  {
    if items != [] {
      var front, last := items[..|items| - 1], items[|items| - 1];
      if last.index != index {
        WithoutDistinct(front, index);
        FindWithout(front, index, last.index);
        assert Without(items, index)[..|Without(front, index)|] == Without(front, index);
      }
    }
  }

  function Listed(spentCoins: Spent, ref: CoinReference, height: nat): Spent {
    spentCoins[ref.prevHash := ItemsOf(spentCoins, ref.prevHash) + [SpentCoinItem(ref.prevIndex, height)]]
  }

  lemma ListAgrees(claimable: map<CoinReference, nat>, spentCoins: Spent, ref: CoinReference, height: nat)
    requires ClaimsAgree(claimable, spentCoins) && ref !in claimable
    ensures ClaimsAgree(claimable[ref := height], Listed(spentCoins, ref, height))
  {
    var items := ItemsOf(spentCoins, ref.prevHash);
    var item := SpentCoinItem(ref.prevIndex, height);
    var after := Listed(spentCoins, ref, height);
    assert (items + [item])[..|items|] == items;
    assert DistinctIndices(items + [item]) by {
      assert DistinctIndices(items);
      assert Find(items, ref.prevIndex) == HeightIn(claimable, ref);
    }
    assert Find(items, ref.prevIndex) == HeightIn(claimable, ref);
    forall r: CoinReference
      ensures Find(ItemsOf(after, r.prevHash), r.prevIndex) == HeightIn(claimable[ref := height], r)
    {
      assert Find(ItemsOf(spentCoins, r.prevHash), r.prevIndex) == HeightIn(claimable, r);
    }
  }

  function Unlisted(spentCoins: Spent, ref: CoinReference): Spent {
    if Find(ItemsOf(spentCoins, ref.prevHash), ref.prevIndex).None? then spentCoins
    else spentCoins[ref.prevHash := Without(ItemsOf(spentCoins, ref.prevHash), ref.prevIndex)]
  }

  lemma UnlistAgrees(claimable: map<CoinReference, nat>, spentCoins: Spent, ref: CoinReference)
    requires ClaimsAgree(claimable, spentCoins)
    ensures ClaimsAgree(claimable - {ref}, Unlisted(spentCoins, ref))
  {
    hide Find, Without, DistinctIndices;
    var items := ItemsOf(spentCoins, ref.prevHash);
    var after := Unlisted(spentCoins, ref);
    EmptyItems(ref.prevIndex);
    if Find(items, ref.prevIndex).Some? {
      WithoutDistinct(items, ref.prevIndex);
    }
    forall r: CoinReference
      ensures Find(ItemsOf(after, r.prevHash), r.prevIndex) == HeightIn(claimable - {ref}, r)
    {
      assert Find(ItemsOf(spentCoins, r.prevHash), r.prevIndex) == HeightIn(claimable, r);
      if r.prevHash == ref.prevHash && Find(items, ref.prevIndex).Some? {
        FindWithout(items, ref.prevIndex, r.prevIndex);
      }
    }
  }

  lemma EmptyItems(index: nat)
    ensures Find([], index).None? && DistinctIndices([])
  {
  }

  // ---- state objects -------------------------------------------------------------------------

  class AccountState {
    var balances: map<UInt256, int>

    constructor (balances: map<UInt256, int>)
      ensures this.balances == balances
    {
      this.balances := balances;
    }

    predicate HasBalance(asset: UInt256)
      reads this
    {
      asset in balances
    }

    method SetBalanceFor(asset: UInt256, amount: int)
      modifies this
      ensures balances == old(balances)[asset := amount]
    {
      balances := balances[asset := amount];
    }

    method AddToBalance(asset: UInt256, amount: int)
      modifies this
      ensures balances == old(balances)[asset := BalanceFor(old(balances), asset) + amount]
    {
      if asset in balances {
        balances := balances[asset := balances[asset] + amount];
      } else {
        balances := balances[asset := amount];
      }
    }

    method SubtractFromBalance(asset: UInt256, amount: int)
      modifies this
      ensures balances == old(balances)[asset := BalanceFor(old(balances), asset) - amount]
    {
      if asset in balances {
        balances := balances[asset := balances[asset] - amount];
      } else {
        balances := balances[asset := amount * -1];
      }
    }
  }

  class SpentCoinState {
    var items: seq<SpentCoinItem>

    constructor (items: seq<SpentCoinItem>)
      ensures this.items == items
    {
      this.items := items;
    }

    method HasIndex(index: nat) returns (found: bool)
      ensures found <==> Find(items, index).Some?
    {
      for i := 0 to |items|
        invariant Find(items[..i], index).None?
      {
        if items[i].index == index {
          FoundLater(items, i, index);
          return true;
        }
        assert items[..i + 1][..i] == items[..i];
      }
      assert items[..|items|] == items;
      return false;
    }

    method DeleteIndex(index: nat)
      modifies this
      ensures items == Without(old(items), index)
    {
      hide Without;
      NothingWithout(index);
      var toRemove: Option<nat> := None;
      for i := 0 to |items|
        invariant items == old(items)
        invariant toRemove.Some? ==> toRemove.value < i
        invariant Without(items[..i], index)
               == if toRemove.None? then items[..i] else items[..toRemove.value] + items[toRemove.value + 1..i]
      {
        WithoutStep(items, i, index);
        if items[i].index == index {
          toRemove := Some(i);
          assert items[i + 1..i + 1] == [];
        } else if toRemove.Some? {
          GapGrows(items, toRemove.value, i);
        } else {
          assert items[..i + 1] == items[..i] + [items[i]];
        }
      }
      assert items[..|items|] == items;
      if toRemove.Some? {
        items := items[..toRemove.value] + items[toRemove.value + 1..];
      }
    }
  }

  lemma {:induction false} FoundLater(items: seq<SpentCoinItem>, i: nat, index: nat)
    requires i < |items| && items[i].index == index
    ensures Find(items, index).Some?
  {
    if i < |items| - 1 { FoundLater(items[..|items| - 1], i, index); }
  }

  method FromTXOutputsConfirmed(outputs: seq<Output>) returns (items: seq<nat>)
    ensures |items| == |outputs| && forall i :: 0 <= i < |items| ==> items[i] == CONFIRMED
  {
    items := seq(|outputs|, _ => 0);
    for i := 0 to |outputs|
      invariant |items| == |outputs| && forall k :: 0 <= k < i ==> items[k] == CONFIRMED
    {
      items := items[i := CONFIRMED];
    }
  }

  // ---- grouping by transaction ---------------------------------------------------------------

  /** The list comprehension over the inputs of some previous transactions. */
  function WithHashes(inputs: seq<CoinReference>, hashes: set<UInt256>): seq<CoinReference> {
    if inputs == [] then []
    else
      var front, last := inputs[..|inputs| - 1], inputs[|inputs| - 1];
      WithHashes(front, hashes) + (if last.prevHash in hashes then [last] else [])
  }

  lemma {:induction false} WithHashesAdd(inputs: seq<CoinReference>, hashes: set<UInt256>, hash: UInt256)
    requires hash !in hashes
    ensures multiset(WithHashes(inputs, hashes + {hash}))
         == multiset(WithHashes(inputs, hashes)) + multiset(WithHashes(inputs, {hash}))
  {
    if inputs != [] {
      WithHashesAdd(inputs[..|inputs| - 1], hashes, hash);
    }
  }

  lemma {:induction false} WithHashesWithin(inputs: seq<CoinReference>, hashes: set<UInt256>)
    ensures multiset(WithHashes(inputs, hashes)) <= multiset(inputs)
  {
    if inputs != [] {
      var front, last := inputs[..|inputs| - 1], inputs[|inputs| - 1];
      WithHashesWithin(front, hashes);
      assert inputs == front + [last];
      assert multiset(inputs) == multiset(front) + multiset{last};
    }
  }

  lemma {:induction false} WithAllHashes(inputs: seq<CoinReference>, hashes: set<UInt256>)
    requires forall ref | ref in inputs :: ref.prevHash in hashes
    ensures WithHashes(inputs, hashes) == inputs
  {
    if inputs != [] {
      var front, last := inputs[..|inputs| - 1], inputs[|inputs| - 1];
      assert inputs == front + [last];
      assert last in inputs && forall ref | ref in front :: ref in inputs;
      WithAllHashes(front, hashes);
    }
  }

  lemma {:induction false} WithHashesHave(inputs: seq<CoinReference>, hashes: set<UInt256>)
    ensures forall ref | ref in WithHashes(inputs, hashes) :: ref.prevHash in hashes
  {
    if inputs != [] {
      WithHashesHave(inputs[..|inputs| - 1], hashes);
    }
  }

  method UniqueHashes(inputs: seq<CoinReference>) returns (hashes: seq<UInt256>)
    ensures forall i, j :: 0 <= i < j < |hashes| ==> hashes[i] != hashes[j]
    ensures forall ref | ref in inputs :: ref.prevHash in hashes
  {
    hashes := [];
    for i := 0 to |inputs|
      invariant forall i, j :: 0 <= i < j < |hashes| ==> hashes[i] != hashes[j]
      invariant forall k :: 0 <= k < i ==> inputs[k].prevHash in hashes
    {
      if inputs[i].prevHash !in hashes {
        hashes := hashes + [inputs[i].prevHash];
      }
    }
  }

  // ---- the snapshot --------------------------------------------------------------------------

  type Transactions = map<UInt256, Transaction>

  ghost predicate OutputsAgree(coins: seq<Coin>, hash: UInt256, tx: Transaction) {
    forall c | c in coins && c.ref.prevHash == hash ::
      c.ref.prevIndex < |tx.outputs| && tx.outputs[c.ref.prevIndex] == c.output
  }

  ghost predicate TransactionsAgree(coins: seq<Coin>, transactions: Transactions) {
    forall hash | hash in transactions :: OutputsAgree(coins, hash, transactions[hash])
  }

  ghost function SpendIn(share: UInt256, b: Books, refs: seq<CoinReference>, height: nat): Books {
    Books(b.coins, b.spent + multiset(refs), MarkSpent(share, b.coins, b.claimable, Refs(refs), height))
  }

  lemma SpendInNothing(share: UInt256, b: Books, height: nat)
    ensures SpendIn(share, b, [], height) == b
  {
  }

  lemma SpendInOne(share: UInt256, b: Books, refs: seq<CoinReference>, ref: CoinReference, height: nat)
    ensures SpendIn(share, b, refs + [ref], height) == SpendIn(share, SpendIn(share, b, refs, height), [ref], height)
  {
    hide MarkSpent;
    assert Refs(refs + [ref]) == Refs(refs) + {ref} && Refs([ref]) == {ref};
    MarkSpentTwice(share, b.coins, b.claimable, Refs(refs), {ref}, height);
    assert multiset(refs + [ref]) == multiset(refs) + multiset([ref]);
  }

  lemma MarkSpentTwice(share: UInt256, coins: seq<Coin>, claimable: map<CoinReference, nat>, a: set<CoinReference>,
      b: set<CoinReference>, height: nat)
    ensures MarkSpent(share, coins, MarkSpent(share, coins, claimable, a, height), b, height)
         == MarkSpent(share, coins, claimable, a + b, height)
  {
    hide IsShare;
    var once := MarkSpent(share, coins, claimable, a, height);
    var twice, both := MarkSpent(share, coins, once, b, height), MarkSpent(share, coins, claimable, a + b, height);
    forall ref ensures ref in twice <==> ref in both {
      InMark(share, coins, claimable, a, height, ref);
      InMark(share, coins, once, b, height, ref);
      InMark(share, coins, claimable, a + b, height, ref);
    }
    forall ref | ref in both ensures twice[ref] == both[ref] {
      InMark(share, coins, claimable, a, height, ref);
      InMark(share, coins, once, b, height, ref);
      InMark(share, coins, claimable, a + b, height, ref);
    }
  }

  lemma InMark(share: UInt256, coins: seq<Coin>, claimable: map<CoinReference, nat>, refs: set<CoinReference>,
      height: nat, ref: CoinReference)
    ensures HeightIn(MarkSpent(share, coins, claimable, refs, height), ref)
         == if ref in refs && IsShare(share, coins, ref) then Some(height) else HeightIn(claimable, ref)
  {
    hide IsShare;
  }

  lemma CoinAt(coins: seq<Coin>, ref: CoinReference, prevTx: Transaction) returns (c: Coin)
    requires DistinctRefs(coins) && HasCoin(coins, ref) && OutputsAgree(coins, ref.prevHash, prevTx)
    ensures c in coins && c.ref == ref
    ensures ref.prevIndex < |prevTx.outputs| && prevTx.outputs[ref.prevIndex] == c.output
    ensures forall share :: IsShare(share, coins, ref) <==> c.output.asset == share
  {
    c :| c in coins && c.ref == ref;
  }

  lemma SpendRefs(share: UInt256, b: Books, ref: CoinReference, height: nat)
    requires RefsKnown(b) && HasCoin(b.coins, ref)
    ensures RefsKnown(SpendIn(share, b, [ref], height)) && SpendIn(share, b, [ref], height).coins == b.coins
    ensures SpendIn(share, b, [ref], height).spent == b.spent + multiset{ref}
    ensures NoDoubleSpend(b.spent + multiset{ref}) ==> NoDoubleSpend(b.spent) && ref !in b.claimable
    ensures SpendIn(share, b, [ref], height).claimable
      == if IsShare(share, b.coins, ref) then b.claimable[ref := height] else b.claimable
  {
    hide HasCoin, IsShare;
    var spent := b.spent + multiset{ref};
    if NoDoubleSpend(spent) {
      forall r ensures b.spent[r] <= 1 { assert spent[r] <= 1; }
      assert spent[ref] <= 1;
    }
    assert Refs([ref]) == {ref};
  }

  ghost predicate GroupKnown(b: Books, refs: seq<CoinReference>, prevTx: Option<Transaction>) {
    && (refs != [] ==> prevTx.Some?)
    && (forall ref | ref in refs :: HasCoin(b.coins, ref))
    && NoDoubleSpend(b.spent + multiset(refs))
  }

  lemma EntryExists(b: Books, unspent: Unspent, ref: CoinReference)
    requires FlagsAgree(b.coins, b.spent, unspent) && HasCoin(b.coins, ref)
    ensures HasEntry(unspent, ref) || ref in b.spent
  {
    var c :| c in b.coins && c.ref == ref;
  }

  lemma CountsTwice(spent: multiset<CoinReference>, refs: seq<CoinReference>, j: nat)
    requires j < |refs| && NoDoubleSpend(spent + multiset(refs))
    ensures refs[j] !in spent + multiset(refs[..j])
  {
    assert refs == refs[..j] + ([refs[j]] + refs[j + 1..]);
    assert (spent + multiset(refs))[refs[j]] <= 1;
  }

  ghost predicate InputsKnown(coins: seq<Coin>, transactions: Transactions, inputs: seq<CoinReference>) {
    forall ref | ref in inputs :: HasCoin(coins, ref) && ref.prevHash in transactions
  }

  function HashSet(hashes: seq<UInt256>): set<UInt256> {
    set h | h in hashes
  }

  lemma AllIn(inputs: seq<CoinReference>, hashes: seq<UInt256>)
    requires forall ref | ref in inputs :: ref.prevHash in hashes
    ensures forall ref | ref in inputs :: ref.prevHash in HashSet(hashes)
  {
  }

  lemma {:induction false} NoHashes(inputs: seq<CoinReference>)
    ensures WithHashes(inputs, HashSet([])) == []
  {
    if inputs != [] { NoHashes(inputs[..|inputs| - 1]); }
  }

  lemma GroupCounts(inputs: seq<CoinReference>, hashes: seq<UInt256>, k: nat, done: seq<CoinReference>,
      spent: multiset<CoinReference>)
    requires k < |hashes| && forall i, j :: 0 <= i < j < |hashes| ==> hashes[i] != hashes[j]
    requires multiset(done) == multiset(WithHashes(inputs, HashSet(hashes[..k])))
    ensures multiset(done + WithHashes(inputs, {hashes[k]})) == multiset(WithHashes(inputs, HashSet(hashes[..k + 1])))
    ensures NoDoubleSpend(spent + multiset(inputs)) ==>
      NoDoubleSpend(spent + multiset(done) + multiset(WithHashes(inputs, {hashes[k]})))
    ensures forall ref | ref in WithHashes(inputs, {hashes[k]}) :: ref in inputs && ref.prevHash == hashes[k]
  {
    var refs := WithHashes(inputs, {hashes[k]});
    assert HashSet(hashes[..k + 1]) == HashSet(hashes[..k]) + {hashes[k]};
    WithHashesAdd(inputs, HashSet(hashes[..k]), hashes[k]);
    WithHashesWithin(inputs, HashSet(hashes[..k + 1]));
    WithHashesWithin(inputs, {hashes[k]});
    WithHashesHave(inputs, {hashes[k]});
    forall ref | ref in refs ensures ref in inputs {
      assert ref in multiset(refs);
    }
    if NoDoubleSpend(spent + multiset(inputs)) {
      var all := spent + multiset(done) + multiset(refs);
      forall ref ensures all[ref] <= 1 {
        assert (spent + multiset(inputs))[ref] <= 1;
      }
    }
  }

  lemma {:induction false} SpendInMore(share: UInt256, b: Books, done: seq<CoinReference>, refs: seq<CoinReference>,
      height: nat)
    ensures SpendIn(share, SpendIn(share, b, done, height), refs, height) == SpendIn(share, b, done + refs, height)
  {
    hide MarkSpent;
    assert Refs(done + refs) == Refs(done) + Refs(refs);
    MarkSpentTwice(share, b.coins, b.claimable, Refs(done), Refs(refs), height);
    assert multiset(done + refs) == multiset(done) + multiset(refs);
  }

  lemma SpendInSame(share: UInt256, b: Books, a: seq<CoinReference>, c: seq<CoinReference>, height: nat)
    requires multiset(a) == multiset(c)
    ensures SpendIn(share, b, a, height) == SpendIn(share, b, c, height)
  {
    hide MarkSpent;
    forall ref ensures ref in a <==> ref in c {
      assert ref in multiset(a) <==> ref in multiset(c);
    }
    assert Refs(a) == Refs(c);
  }

  // ---- transactions and hashes ---------------------------------------------------------------

  /** A hash names one transaction, and no transaction is persisted twice. */
  ghost predicate FreshTransactions(coins: seq<Coin>, transactions: Transactions, txs: seq<Transaction>) {
    && (forall i :: 0 <= i < |txs| ==> FreshHash(coins, txs[i].hash))
    && (forall i, j :: 0 <= i < j < |txs| ==> txs[i].hash != txs[j].hash)
    && (forall i :: 0 <= i < |txs| && txs[i].hash in transactions ==>
      transactions[txs[i].hash].outputs == txs[i].outputs)
  }

  /** Every input refers to an output of an earlier transaction. */
  ghost predicate InputsExist(share: UInt256, b: Books, txs: seq<Transaction>, height: nat) {
    forall i | 0 <= i < |txs| :: RefsExist(AfterTransactions(share, b, txs[..i], height).coins, txs[i].inputs)
  }

  ghost predicate RefsExist(coins: seq<Coin>, refs: seq<CoinReference>) {
    forall ref | ref in refs :: HasCoin(coins, ref)
  }

  ghost predicate Stored(coins: seq<Coin>, transactions: Transactions) {
    forall c | c in coins :: c.ref.prevHash in transactions
  }

  lemma AfterNext(share: UInt256, b: Books, txs: seq<Transaction>, i: nat, height: nat)
    requires i < |txs|
    ensures AfterTransactions(share, b, txs[..i + 1], height)
         == AfterTransaction(share, AfterTransactions(share, b, txs[..i], height), txs[i], height)
  {
    hide AfterTransaction;
    assert txs[..i + 1][..i] == txs[..i];
  }

  lemma {:induction false} SpentGrows(share: UInt256, b: Books, txs: seq<Transaction>, i: nat, height: nat)
    requires i <= |txs|
    ensures AfterTransactions(share, b, txs[..i], height).spent <= AfterTransactions(share, b, txs, height).spent
    decreases |txs|
  {
    hide MarkSpent;
    if i < |txs| {
      SpentGrows(share, b, txs[..|txs| - 1], i, height);
      assert txs[..|txs| - 1][..i] == txs[..i];
    } else {
      assert txs[..i] == txs;
    }
  }

  lemma FewerSpends(few: multiset<CoinReference>, many: multiset<CoinReference>)
    requires few <= many && NoDoubleSpend(many)
    ensures NoDoubleSpend(few)
  {
    forall ref ensures few[ref] <= 1 {
      assert many[ref] <= 1;
    }
  }

  lemma EnterTransaction(coins: seq<Coin>, transactions: Transactions, tx: Transaction)
    requires TransactionsAgree(coins, transactions) && FreshHash(coins, tx.hash)
    requires tx.hash in transactions ==> transactions[tx.hash].outputs == tx.outputs
    ensures TransactionsAgree(coins + CoinsOf(tx), transactions)
    ensures TransactionsAgree(coins + CoinsOf(tx), transactions[tx.hash := tx])
    ensures Stored(coins, transactions) ==> Stored(coins + CoinsOf(tx), transactions[tx.hash := tx])
  {
    var all, after := coins + CoinsOf(tx), transactions[tx.hash := tx];
    forall hash | hash in after ensures OutputsAgree(all, hash, after[hash]) {
      if hash != tx.hash {
        assert OutputsAgree(coins, hash, transactions[hash]);
      }
    }
    forall hash | hash in transactions ensures OutputsAgree(all, hash, transactions[hash]) {
      assert OutputsAgree(coins, hash, transactions[hash]);
      assert OutputsAgree(all, hash, after[hash]);
    }
  }

  lemma ExistingAreKnown(coins: seq<Coin>, transactions: Transactions, tx: Transaction)
    requires RefsExist(coins, tx.inputs) && Stored(coins, transactions)
    ensures InputsKnown(coins + CoinsOf(tx), transactions, tx.inputs)
  {
    forall ref | ref in tx.inputs ensures HasCoin(coins + CoinsOf(tx), ref) && ref.prevHash in transactions {
      assert HasCoin(coins, ref);
      var c :| c in coins && c.ref == ref;
      assert c in coins + CoinsOf(tx);
    }
  }

  lemma FreshNext(coins: seq<Coin>, transactions: Transactions, txs: seq<Transaction>, i: nat)
    requires i < |txs| && FreshTransactions(coins, transactions, txs[i..])
    ensures FreshHash(coins, txs[i].hash)
    ensures txs[i].hash in transactions ==> transactions[txs[i].hash].outputs == txs[i].outputs
    ensures FreshTransactions(coins, transactions[txs[i].hash := txs[i]], txs[i + 1..])
    ensures FreshTransactions(coins + CoinsOf(txs[i]), transactions[txs[i].hash := txs[i]], txs[i + 1..])
  {
    assert txs[i..][0] == txs[i];
    var rest, coins' := txs[i + 1..], coins + CoinsOf(txs[i]);
    assert forall k :: 0 <= k < |rest| ==> rest[k] == txs[i..][k + 1];
    forall k | 0 <= k < |rest| ensures FreshHash(coins', rest[k].hash) {
      assert FreshHash(coins, txs[i..][k + 1].hash);
    }
  }

  lemma OldTransactionsAgree(coins: seq<Coin>, transactions: Transactions, tx: Transaction)
    requires TransactionsAgree(coins, transactions) && FreshHash(coins, tx.hash)
    ensures TransactionsAgree(coins, transactions[tx.hash := tx])
    ensures Stored(coins, transactions) ==> Stored(coins, transactions[tx.hash := tx])
  {
    var after := transactions[tx.hash := tx];
    forall hash | hash in after ensures OutputsAgree(coins, hash, after[hash]) {
      if hash != tx.hash {
        assert OutputsAgree(coins, hash, transactions[hash]);
      }
    }
  }

  /** A block that exists and spends nothing twice passes every one of its transactions. */
  lemma StepIsFine(share: UInt256, b: Books, txs: seq<Transaction>, i: nat, height: nat)
    requires i < |txs| && InputsExist(share, b, txs, height)
    requires NoDoubleSpend(AfterTransactions(share, b, txs, height).spent)
    ensures var before := AfterTransactions(share, b, txs[..i], height);
      RefsExist(before.coins, txs[i].inputs) && NoDoubleSpend(before.spent + multiset(txs[i].inputs))
  {
    hide MarkSpent, NoDoubleSpend, RefsExist;
    AfterNext(share, b, txs, i, height);
    SpentGrows(share, b, txs, i + 1, height);
    FewerSpends(AfterTransactions(share, b, txs[..i + 1], height).spent,
      AfterTransactions(share, b, txs, height).spent);
  }

  datatype Stores = Stores(unspentCoins: Unspent, accounts: Accounts, spentCoins: Spent)

  /** The keys that a snapshot has in its caches. */
  datatype Keys = Keys(unspentCoins: set<UInt256>, accounts: set<UInt160>, spentCoins: set<UInt256>)

  /** Entries that are not in the cache are those of the store. */
  ghost predicate Untouched<V>(stored: map<nat, V>, now: map<nat, V>, touched: set<nat>) {
    forall k: nat | k !in touched :: (k in now <==> k in stored) && (k in stored ==> now[k] == stored[k])
  }

  lemma TouchOne<V>(stored: map<nat, V>, now: map<nat, V>, touched: set<nat>, key: nat, value: V)
    requires Untouched(stored, now, touched)
    ensures Untouched(stored, now[key := value], touched + {key})
  {
  }

  ghost predicate CacheAgrees(stored: Stores, now: Stores, touched: Keys) {
    && Untouched(stored.unspentCoins, now.unspentCoins, touched.unspentCoins)
    && Untouched(stored.accounts, now.accounts, touched.accounts)
    && Untouched(stored.spentCoins, now.spentCoins, touched.spentCoins)
  }

  lemma TouchFlag(stored: Unspent, now: Unspent, touched: set<UInt256>, ref: CoinReference)
    requires HasEntry(now, ref) && Untouched(stored, now, touched)
    ensures Untouched(stored, Flagged(now, ref), touched + {ref.prevHash})
  {
  }

  lemma TouchList(stored: Spent, now: Spent, touched: set<UInt256>, ref: CoinReference, height: nat)
    requires Untouched(stored, now, touched)
    ensures Untouched(stored, Listed(now, ref, height), touched + {ref.prevHash})
  {
  }

  class Snapshot {
    const share: UInt256
    const stored: Stores
    var touched: Keys
    var unspentCoins: Unspent
    var accounts: Accounts
    var spentCoins: Spent
    ghost var books: Books

    ghost predicate Valid()
      reads this
    {
      && RefsKnown(books)
      && FlagsAgree(books.coins, books.spent, unspentCoins)
      && BalancesAgree(books.coins, books.spent, accounts)
      && (NoDoubleSpend(books.spent) ==> ClaimsAgree(books.claimable, spentCoins))
      && CacheAgrees(stored, Now(), touched)
    }

    ghost function Now(): Stores
      reads this
    {
      Stores(unspentCoins, accounts, spentCoins)
    }

    constructor (share: UInt256, unspentCoins: Unspent, accounts: Accounts, spentCoins: Spent, ghost books: Books)
      ensures this.share == share && this.unspentCoins == unspentCoins && this.accounts == accounts
      ensures this.spentCoins == spentCoins && this.books == books
      ensures stored == Now() && touched == Keys({}, {}, {})
    {
      this.share, this.unspentCoins, this.accounts, this.spentCoins := share, unspentCoins, accounts, spentCoins;
      this.books, stored, touched := books, Stores(unspentCoins, accounts, spentCoins), Keys({}, {}, {});
    }

    // What follows works on one entry, which then is in its cache.

    method Enter(hash: UInt256, flags: seq<nat>)
      requires CacheAgrees(stored, Now(), touched)
      modifies this`unspentCoins, this`touched
      ensures CacheAgrees(stored, Now(), touched) && unspentCoins == old(unspentCoins)[hash := flags]
    {
      hide Untouched;
      TouchOne(stored.unspentCoins, unspentCoins, touched.unspentCoins, hash, flags);
      unspentCoins := unspentCoins[hash := flags];
      touched := touched.(unspentCoins := touched.unspentCoins + {hash});
    }

    method Flag(ref: CoinReference)
      requires HasEntry(unspentCoins, ref) && CacheAgrees(stored, Now(), touched)
      modifies this`unspentCoins, this`touched
      ensures CacheAgrees(stored, Now(), touched) && unspentCoins == Flagged(old(unspentCoins), ref)
    {
      hide Untouched, Flagged;
      TouchFlag(stored.unspentCoins, unspentCoins, touched.unspentCoins, ref);
      unspentCoins := Flagged(unspentCoins, ref);
      touched := touched.(unspentCoins := touched.unspentCoins + {ref.prevHash});
    }

    method List(ref: CoinReference, height: nat)
      requires CacheAgrees(stored, Now(), touched)
      modifies this`spentCoins, this`touched
      ensures CacheAgrees(stored, Now(), touched) && spentCoins == Listed(old(spentCoins), ref, height)
    {
      hide Untouched, Listed;
      TouchList(stored.spentCoins, spentCoins, touched.spentCoins, ref, height);
      spentCoins := Listed(spentCoins, ref, height);
      touched := touched.(spentCoins := touched.spentCoins + {ref.prevHash});
    }

    method Update(hash: UInt256, items: seq<SpentCoinItem>)
      requires CacheAgrees(stored, Now(), touched)
      modifies this`spentCoins, this`touched
      ensures CacheAgrees(stored, Now(), touched) && spentCoins == old(spentCoins)[hash := items]
    {
      hide Untouched;
      TouchOne(stored.spentCoins, spentCoins, touched.spentCoins, hash, items);
      spentCoins := spentCoins[hash := items];
      touched := touched.(spentCoins := touched.spentCoins + {hash});
    }

    method Credit(output: Output)
      requires CacheAgrees(stored, Now(), touched)
      modifies this`accounts, this`touched
      ensures CacheAgrees(stored, Now(), touched) && accounts == Credited(old(accounts), output, output.value)
    {
      hide Untouched;
      var account := new AccountState(BalancesOf(accounts, output.account));
      if account.HasBalance(output.asset) {
        account.AddToBalance(output.asset, output.value);
      } else {
        account.SetBalanceFor(output.asset, output.value);
      }
      TouchOne(stored.accounts, accounts, touched.accounts, output.account, account.balances);
      accounts := accounts[output.account := account.balances];
      touched := touched.(accounts := touched.accounts + {output.account});
    }

    method Debit(output: Output)
      requires CacheAgrees(stored, Now(), touched)
      modifies this`accounts, this`touched
      ensures CacheAgrees(stored, Now(), touched)
      ensures accounts == Credited(old(accounts), output, -(output.value as int))
    {
      hide Untouched;
      var account := new AccountState(BalancesOf(accounts, output.account));
      account.SubtractFromBalance(output.asset, output.value);
      TouchOne(stored.accounts, accounts, touched.accounts, output.account, account.balances);
      accounts := accounts[output.account := account.balances];
      touched := touched.(accounts := touched.accounts + {output.account});
    }

    method AddOutputs(tx: Transaction)
      requires Valid() && FreshHash(books.coins, tx.hash)
      modifies this
      ensures Valid()
      ensures books == old(books).(coins := old(books).coins + CoinsOf(tx))
    {
      hide CacheAgrees, RefsKnown, FlagsAgree, BalancesAgree, ClaimsAgree, NoDoubleSpend;
      var flags := FromTXOutputsConfirmed(tx.outputs);
      Enter(tx.hash, flags);
      ghost var entered := CoinsOf(tx);
      EnterRefs(books, tx);
      EnterFlags(books, old(unspentCoins), tx, flags);
      assert old(books).coins + entered[..0] == old(books).coins;
      for i := 0 to |tx.outputs|
        invariant unspentCoins == old(unspentCoins)[tx.hash := flags] && spentCoins == old(spentCoins)
        invariant books == old(books)
        invariant BalancesAgree(books.coins + entered[..i], books.spent, accounts)
        invariant CacheAgrees(stored, Now(), touched)
      {
        var output := tx.outputs[i];
        ghost var before := accounts;
        Credit(output);
        assert entered[i] in entered;
        CreditAgrees(books.coins + entered[..i], books.spent, before, entered[i]);
        assert books.coins + entered[..i] + [entered[i]] == books.coins + entered[..i + 1];
      }
      assert entered[..|tx.outputs|] == entered;
      books := books.(coins := books.coins + entered);
    }

    /** False stands for the exceptions on an entry, an output index or a transaction that does not exist. */
    method SpendInput(ref: CoinReference, prevTx: Option<Transaction>, height: nat) returns (ok: bool)
      requires Valid()
      requires prevTx.Some? ==> OutputsAgree(books.coins, ref.prevHash, prevTx.value)
      modifies this
      ensures ok <==> HasEntry(old(unspentCoins), ref) && prevTx.Some?
      ensures ok ==> Valid() && books == SpendIn(share, old(books), [ref], height)
    {
      hide CacheAgrees, RefsKnown, FlagsAgree, BalancesAgree, ClaimsAgree;
      hide NoDoubleSpend, HasCoin, OutputsAgree, IsShare, SpendIn;
      if !HasEntry(unspentCoins, ref) {
        return false;
      }
      SpendFlags(books, unspentCoins, ref);
      Flag(ref);
      if prevTx.None? {
        return false;
      }
      ghost var c := CoinAt(books.coins, ref, prevTx.value) by { Distinct(books); }
      SpendRefs(share, books, ref, height);
      var output := prevTx.value.outputs[ref.prevIndex];
      if output.asset == share {
        List(ref, height);
        if NoDoubleSpend(books.spent + multiset{ref}) {
          ListAgrees(books.claimable, old(spentCoins), ref, height);
        }
      }
      Debit(output);
      DebitAgrees(books.coins, books.spent, old(accounts), c) by { Distinct(books); }
      books := SpendIn(share, books, [ref], height);
      ok := true;
    }

    /** The inputs that refer to one previous transaction. */
    method SpendGroup(refs: seq<CoinReference>, prevTx: Option<Transaction>, height: nat) returns (ok: bool)
      requires Valid()
      requires prevTx.Some? ==> forall ref | ref in refs :: OutputsAgree(books.coins, ref.prevHash, prevTx.value)
      modifies this
      ensures ok ==> Valid() && books == SpendIn(share, old(books), refs, height)
      ensures GroupKnown(old(books), refs, prevTx) ==> ok
    {
      hide CacheAgrees, RefsKnown, FlagsAgree, BalancesAgree, ClaimsAgree;
      hide NoDoubleSpend, HasCoin, OutputsAgree, HasEntry, MarkSpent;
      SpendInNothing(share, books, height);
      for j := 0 to |refs|
        invariant Valid() && books == SpendIn(share, old(books), refs[..j], height)
      {
        if GroupKnown(old(books), refs, prevTx) {
          EntryExists(books, unspentCoins, refs[j]);
          CountsTwice(old(books).spent, refs, j);
        }
        ok := SpendInput(refs[j], prevTx, height);
        if !ok {
          return;
        }
        SpendInOne(share, old(books), refs[..j], refs[j], height);
        assert refs[..j + 1] == refs[..j] + [refs[j]];
      }
      assert refs[..|refs|] == refs;
      ok := true;
    }

    method SpendInputs(inputs: seq<CoinReference>, transactions: Transactions, height: nat) returns (ok: bool)
      requires Valid() && TransactionsAgree(books.coins, transactions)
      modifies this
      ensures ok ==> Valid() && books == SpendIn(share, old(books), inputs, height)
      ensures InputsKnown(old(books).coins, transactions, inputs) ==>
        NoDoubleSpend(old(books).spent + multiset(inputs)) ==> ok
    {
      hide CacheAgrees, RefsKnown, FlagsAgree, BalancesAgree, ClaimsAgree, NoDoubleSpend;
      hide HasCoin, OutputsAgree, MarkSpent, WithHashes, HashSet;
      var hashes := UniqueHashes(inputs);
      ghost var done := [];
      SpendInNothing(share, books, height);
      NoHashes(inputs);
      for k := 0 to |hashes|
        invariant Valid() && books == SpendIn(share, old(books), done, height)
        invariant multiset(done) == multiset(WithHashes(inputs, HashSet(hashes[..k])))
      {
        var hash := hashes[k];
        var prevTx := if hash in transactions then Some(transactions[hash]) else None;
        var refs := WithHashes(inputs, {hash});
        GroupCounts(inputs, hashes, k, done, old(books).spent);
        assert InputsKnown(old(books).coins, transactions, inputs) && refs != [] ==> refs[0] in inputs;
        ok := SpendGroup(refs, prevTx, height);
        if !ok {
          return;
        }
        SpendInMore(share, old(books), done, refs, height);
        done := done + refs;
      }
      assert hashes[..|hashes|] == hashes;
      WithAllHashes(inputs, HashSet(hashes)) by { AllIn(inputs, hashes); }
      SpendInSame(share, old(books), done, inputs, height);
      ok := true;
    }

    method RemoveClaims(claims: seq<CoinReference>)
      requires Valid()
      modifies this
      ensures Valid()
      ensures books == old(books).(claimable := old(books).claimable - Refs(claims))
    {
      hide CacheAgrees, RefsKnown, FlagsAgree, BalancesAgree, ClaimsAgree, NoDoubleSpend, Find, Without;
      assert books.claimable - Refs(claims[..0]) == books.claimable;
      for i := 0 to |claims|
        invariant Valid()
        invariant books == old(books).(claimable := old(books).claimable - Refs(claims[..i]))
      {
        var ref := claims[i];
        ghost var before := spentCoins;
        if ref.prevHash in spentCoins {
          var sc := new SpentCoinState(spentCoins[ref.prevHash]);
          var found := sc.HasIndex(ref.prevIndex);
          if found {
            sc.DeleteIndex(ref.prevIndex);
            Update(ref.prevHash, sc.items);
          }
        }
        UnlistedIs(before, ref);
        if NoDoubleSpend(books.spent) {
          UnlistAgrees(books.claimable, before, ref);
        }
        RefsKnownWithout(books, ref);
        books := books.(claimable := books.claimable - {ref});
        assert Refs(claims[..i + 1]) == Refs(claims[..i]) + {ref};
      }
      assert claims[..|claims|] == claims;
    }

    /** One transaction: its outputs first, then its inputs by previous transaction, then its claims. */
    method PersistTransaction(tx: Transaction, transactions: Transactions, height: nat) returns (ok: bool)
      requires Valid() && FreshHash(books.coins, tx.hash)
      requires TransactionsAgree(books.coins, transactions) && Stored(books.coins, transactions)
      requires tx.hash in transactions ==> transactions[tx.hash].outputs == tx.outputs
      modifies this
      ensures ok ==> Valid() && books == AfterTransaction(share, old(books), tx, height)
      ensures RefsExist(old(books).coins, tx.inputs) && NoDoubleSpend(old(books).spent + multiset(tx.inputs)) ==> ok
    {
      hide CacheAgrees, RefsKnown, FlagsAgree, BalancesAgree, ClaimsAgree;
      hide NoDoubleSpend, TransactionsAgree, FreshHash, MarkSpent, InputsKnown;
      EnterTransaction(books.coins, transactions, tx);
      if RefsExist(books.coins, tx.inputs) {
        ExistingAreKnown(books.coins, transactions, tx);
      }
      AddOutputs(tx);
      ok := SpendInputs(tx.inputs, transactions, height);
      if ok {
        RemoveClaims(tx.claims);
      }
    }

    /**
     * What is written back: no account without a positive balance, no spent-out entry, no empty list. Only what
     * is in the caches is looked at, which makes no difference where the stores had nothing to drop.
     */
    method Commit()
      requires Valid() && NothingToDrop(stored.accounts, stored.unspentCoins, stored.spentCoins)
      modifies this
      ensures books == old(books)
      ensures accounts == KeptAccounts(old(accounts)) && unspentCoins == KeptEntries(old(unspentCoins))
      ensures spentCoins == KeptItems(old(spentCoins))
      ensures NoDoubleSpend(books.spent) ==> RefsKnown(books) && FlagsAgree(books.coins, books.spent, unspentCoins)
      ensures NoDoubleSpend(books.spent) ==>
        BalancesAgree(books.coins, books.spent, accounts) && ClaimsAgree(books.claimable, spentCoins)
      ensures BalancesAreUnspent(books.coins, unspentCoins, accounts)
        <==> forall account :: !(Overspent(books, account) && HasUnspent(books, account))
    {
      hide CacheAgrees, RefsKnown, FlagsAgree, BalancesAgree, ClaimsAgree, NoDoubleSpend;
      KeptFlagsAgree(books.coins, books.spent, unspentCoins);
      CommitAgreesIff(books, unspentCoins, accounts);
      if NoDoubleSpend(books.spent) {
        KeptBalancesAgree(books, unspentCoins, accounts);
        KeptClaimsAgree(books.claimable, spentCoins);
      }
      UntouchedKept(stored, Now(), touched);
      accounts := AccountsLeft(accounts, touched.accounts);
      unspentCoins := EntriesLeft(unspentCoins, touched.unspentCoins);
      spentCoins := ItemsLeft(spentCoins, touched.spentCoins);
    }
  }

  lemma Distinct(b: Books)
    requires RefsKnown(b)
    ensures DistinctRefs(b.coins)
  {
  }

  lemma UnlistedIs(spentCoins: Spent, ref: CoinReference)
    ensures ref.prevHash !in spentCoins ==> Unlisted(spentCoins, ref) == spentCoins
  {
  }

  predicate AllBalancesZeroOrLess(balances: map<UInt256, int>) {
    forall asset | asset in balances :: balances[asset] <= 0
  }

  predicate IsAllSpent(flags: seq<nat>) {
    CONFIRMED !in flags
  }

  function KeptAccounts(accounts: Accounts): Accounts {
    map a | a in accounts && !AllBalancesZeroOrLess(accounts[a]) :: accounts[a]
  }

  function KeptEntries(unspent: Unspent): Unspent {
    map h | h in unspent && !IsAllSpent(unspent[h]) :: unspent[h]
  }

  function KeptItems(spentCoins: Spent): Spent {
    map h | h in spentCoins && spentCoins[h] != [] :: spentCoins[h]
  }

  /** Nothing in the stores would be dropped by a commit. */
  ghost predicate NothingToDrop(accounts: Accounts, unspent: Unspent, spentCoins: Spent) {
    && (forall a | a in accounts :: !AllBalancesZeroOrLess(accounts[a]))
    && (forall h | h in unspent :: !IsAllSpent(unspent[h]))
    && (forall h | h in spentCoins :: spentCoins[h] != [])
  }

  /** `DeleteWhere` deletes from the cache only. */
  function AccountsLeft(accounts: Accounts, touched: set<UInt160>): Accounts {
    map a | a in accounts && !(a in touched && AllBalancesZeroOrLess(accounts[a])) :: accounts[a]
  }

  function EntriesLeft(unspent: Unspent, touched: set<UInt256>): Unspent {
    map h | h in unspent && !(h in touched && IsAllSpent(unspent[h])) :: unspent[h]
  }

  function ItemsLeft(spentCoins: Spent, touched: set<UInt256>): Spent {
    map h | h in spentCoins && !(h in touched && spentCoins[h] == []) :: spentCoins[h]
  }

  /** That is enough: what is not in the cache passed an earlier commit. */
  lemma UntouchedKept(stored: Stores, now: Stores, touched: Keys)
    requires CacheAgrees(stored, now, touched)
    requires NothingToDrop(stored.accounts, stored.unspentCoins, stored.spentCoins)
    ensures AccountsLeft(now.accounts, touched.accounts) == KeptAccounts(now.accounts)
    ensures EntriesLeft(now.unspentCoins, touched.unspentCoins) == KeptEntries(now.unspentCoins)
    ensures ItemsLeft(now.spentCoins, touched.spentCoins) == KeptItems(now.spentCoins)
  {
    hide AllBalancesZeroOrLess, IsAllSpent;
  }

  lemma NothingTouched(stored: Stores)
    ensures CacheAgrees(stored, stored, Keys({}, {}, {}))
  {
  }

  lemma NothingLeftToDrop(accounts: Accounts, unspent: Unspent, spentCoins: Spent)
    ensures NothingToDrop(KeptAccounts(accounts), KeptEntries(unspent), KeptItems(spentCoins))
  {
  }

  lemma KeptFlagsAgree(coins: seq<Coin>, spent: multiset<CoinReference>, unspent: Unspent)
    requires FlagsAgree(coins, spent, unspent)
    ensures FlagsAgree(coins, spent, KeptEntries(unspent))
  {
    hide EntryKnown;
    var kept := KeptEntries(unspent);
    forall c | c in coins ensures Clear(kept, c.ref) <==> c.ref !in spent {
      assert Clear(unspent, c.ref) <==> c.ref !in spent;
    }
  }

  /** Dropping an account loses nothing only because none is overdrawn. */
  lemma KeptBalancesAgree(b: Books, unspent: Unspent, accounts: Accounts)
    requires FlagsAgree(b.coins, b.spent, unspent) && BalancesAgree(b.coins, b.spent, accounts)
    requires NoDoubleSpend(b.spent)
    ensures BalancesAgree(b.coins, b.spent, KeptAccounts(accounts))
  {
    hide NetSum, UnspentSum, EntryKnown, NoDoubleSpend;
    forall account, asset
      ensures Balance(KeptAccounts(accounts), account, asset) == NetSum(b.coins, b.spent, account, asset)
    {
      NetIsUnspent(b, b.coins, unspent, account, asset);
      assert Balance(accounts, account, asset) == NetSum(b.coins, b.spent, account, asset);
    }
  }

  // ---- what a commit makes of double spends ---------------------------------------------------

  lemma KeptClear(unspent: Unspent, ref: CoinReference)
    ensures Clear(KeptEntries(unspent), ref) <==> Clear(unspent, ref)
  {
  }

  lemma {:induction false} KeptUnspentSum(coins: seq<Coin>, unspent: Unspent, account: UInt160, asset: UInt256)
    ensures UnspentSum(coins, KeptEntries(unspent), account, asset) == UnspentSum(coins, unspent, account, asset)
  {
    hide Clear, KeptEntries, Worth;
    if coins != [] {
      KeptUnspentSum(coins[..|coins| - 1], unspent, account, asset);
      KeptClear(unspent, coins[|coins| - 1].ref);
    }
  }

  lemma {:induction false} UnspentSumPositive(coins: seq<Coin>, unspent: Unspent, account: UInt160, asset: UInt256)
    ensures UnspentSum(coins, unspent, account, asset) > 0
      <==> exists c :: c in coins && Worth(c, account, asset) > 0 && Clear(unspent, c.ref)
  {
    hide Clear, Worth;
    if coins != [] {
      var front, last := coins[..|coins| - 1], coins[|coins| - 1];
      UnspentSumPositive(front, unspent, account, asset);
      assert forall c :: c in coins <==> c in front || c == last;
    }
  }

  /** The account owns an output of positive value that was spent more than once. */
  ghost predicate Overspent(b: Books, account: UInt160) {
    exists c :: c in b.coins && c.output.account == account && c.output.value > 0 && b.spent[c.ref] > 1
  }

  /** The account owns an output of positive value that was never spent. */
  ghost predicate HasUnspent(b: Books, account: UInt160) {
    exists c :: c in b.coins && c.output.account == account && c.output.value > 0 && c.ref !in b.spent
  }

  ghost predicate AccountAgrees(coins: seq<Coin>, unspent: Unspent, accounts: Accounts, account: UInt160) {
    forall asset :: Balance(accounts, account, asset) == UnspentSum(coins, unspent, account, asset)
  }

  lemma OverspentIff(b: Books, unspent: Unspent, accounts: Accounts, account: UInt160)
    requires FlagsAgree(b.coins, b.spent, unspent) && BalancesAgree(b.coins, b.spent, accounts)
    ensures AccountAgrees(b.coins, unspent, accounts, account) <==> !Overspent(b, account)
  {
    hide Balance, NetSum, UnspentSum, Clear, EntryKnown, Worth;
    forall asset
      ensures Balance(accounts, account, asset) == UnspentSum(b.coins, unspent, account, asset)
        <==> forall c | c in b.coins && Worth(c, account, asset) > 0 :: b.spent[c.ref] <= 1
    {
      NetAtMostUnspent(b.coins, b.spent, unspent, account, asset);
    }
    forall c, asset ensures Worth(c, account, asset) > 0 <==>
      c.output.account == account && c.output.asset == asset && c.output.value > 0
    {
      WorthIs(c, account, asset);
    }
    if Overspent(b, account) {
      var c :| c in b.coins && c.output.account == account && c.output.value > 0 && b.spent[c.ref] > 1;
      assert Worth(c, account, c.output.asset) > 0;
      assert Balance(accounts, account, c.output.asset) != UnspentSum(b.coins, unspent, account, c.output.asset);
    }
  }

  lemma WorthIs(c: Coin, account: UInt160, asset: UInt256)
    ensures Worth(c, account, asset) > 0 <==>
      c.output.account == account && c.output.asset == asset && c.output.value > 0
  {
  }

  lemma UnspentIsOwned(b: Books, unspent: Unspent, account: UInt160, asset: UInt256)
    requires FlagsAgree(b.coins, b.spent, unspent) && UnspentSum(b.coins, unspent, account, asset) > 0
    ensures HasUnspent(b, account)
  {
    hide Clear, EntryKnown, Worth;
    UnspentSumPositive(b.coins, unspent, account, asset);
    var c :| c in b.coins && Worth(c, account, asset) > 0 && Clear(unspent, c.ref);
    WorthIs(c, account, asset);
  }

  lemma HasUnspentIff(b: Books, unspent: Unspent, account: UInt160)
    requires FlagsAgree(b.coins, b.spent, unspent)
    ensures HasUnspent(b, account) <==> exists asset :: UnspentSum(b.coins, unspent, account, asset) > 0
  {
    hide Clear, EntryKnown, Worth;
    if HasUnspent(b, account) {
      var c :| c in b.coins && c.output.account == account && c.output.value > 0 && c.ref !in b.spent;
      WorthIs(c, account, c.output.asset);
      UnspentSumPositive(b.coins, unspent, account, c.output.asset);
    }
    if exists asset :: UnspentSum(b.coins, unspent, account, asset) > 0 {
      var asset :| UnspentSum(b.coins, unspent, account, asset) > 0;
      UnspentIsOwned(b, unspent, account, asset);
    }
  }

  /** A dropped account has no balance; a kept one keeps all of them. */
  lemma KeptBalance(accounts: Accounts, account: UInt160, asset: UInt256)
    ensures account in KeptAccounts(accounts) ==>
      Balance(KeptAccounts(accounts), account, asset) == Balance(accounts, account, asset)
    ensures account !in KeptAccounts(accounts) ==>
      Balance(KeptAccounts(accounts), account, asset) == 0 >= Balance(accounts, account, asset)
  {
  }

  lemma KeptHasPositive(accounts: Accounts, account: UInt160)
    requires account in KeptAccounts(accounts)
    ensures exists asset :: Balance(accounts, account, asset) > 0
  {
    var asset :| asset in accounts[account] && accounts[account][asset] > 0;
    assert Balance(accounts, account, asset) > 0;
  }

  lemma AccountAfterCommit(b: Books, unspent: Unspent, accounts: Accounts, account: UInt160)
    requires FlagsAgree(b.coins, b.spent, unspent) && BalancesAgree(b.coins, b.spent, accounts)
    ensures AccountAgrees(b.coins, unspent, KeptAccounts(accounts), account)
      <==> !(Overspent(b, account) && HasUnspent(b, account))
  {
    hide Balance, NetSum, UnspentSum, Clear, EntryKnown, KeptAccounts, Overspent, HasUnspent, AccountAgrees;
    OverspentIff(b, unspent, accounts, account);
    HasUnspentIff(b, unspent, account);
    forall asset ensures Balance(accounts, account, asset) <= UnspentSum(b.coins, unspent, account, asset) {
      NetAtMostUnspent(b.coins, b.spent, unspent, account, asset);
      assert Balance(accounts, account, asset) == NetSum(b.coins, b.spent, account, asset);
    }
    if account in KeptAccounts(accounts) {
      KeptHasPositive(accounts, account);
      var asset :| Balance(accounts, account, asset) > 0;
      UnspentIsOwned(b, unspent, account, asset);
      SameBalances(b.coins, unspent, accounts, account);
    } else {
      DroppedAgrees(b.coins, unspent, accounts, account);
    }
  }

  lemma SameBalances(coins: seq<Coin>, unspent: Unspent, accounts: Accounts, account: UInt160)
    requires account in KeptAccounts(accounts)
    ensures AccountAgrees(coins, unspent, KeptAccounts(accounts), account)
      <==> AccountAgrees(coins, unspent, accounts, account)
  {
    hide Balance, UnspentSum, KeptAccounts;
    forall asset ensures Balance(KeptAccounts(accounts), account, asset) == Balance(accounts, account, asset) {
      KeptBalance(accounts, account, asset);
    }
  }

  /** For a dropped account agreement means that nothing is unspent; and without overspending that is so. */
  lemma DroppedAgrees(coins: seq<Coin>, unspent: Unspent, accounts: Accounts, account: UInt160)
    requires account !in KeptAccounts(accounts)
    ensures AccountAgrees(coins, unspent, KeptAccounts(accounts), account)
      <==> !exists asset :: UnspentSum(coins, unspent, account, asset) > 0
    ensures AccountAgrees(coins, unspent, accounts, account) ==>
      !exists asset :: UnspentSum(coins, unspent, account, asset) > 0
  {
    hide Balance, UnspentSum, KeptAccounts;
    forall asset
      ensures Balance(KeptAccounts(accounts), account, asset) == 0 >= Balance(accounts, account, asset)
    {
      KeptBalance(accounts, account, asset);
    }
    if exists asset :: UnspentSum(coins, unspent, account, asset) > 0 {
      var asset :| UnspentSum(coins, unspent, account, asset) > 0;
      assert Balance(KeptAccounts(accounts), account, asset) != UnspentSum(coins, unspent, account, asset);
      assert Balance(accounts, account, asset) != UnspentSum(coins, unspent, account, asset);
    } else {
      forall asset
        ensures Balance(KeptAccounts(accounts), account, asset) == UnspentSum(coins, unspent, account, asset)
      {
        assert !(UnspentSum(coins, unspent, account, asset) > 0);
      }
    }
  }

  /**
   * After a commit all balances are sums of unspent outputs exactly when nobody who owns something unspent
   * also owns an output that was spent twice: the debts of the others are forgotten with their accounts.
   */
  lemma CommitAgreesIff(b: Books, unspent: Unspent, accounts: Accounts)
    requires FlagsAgree(b.coins, b.spent, unspent) && BalancesAgree(b.coins, b.spent, accounts)
    ensures BalancesAreUnspent(b.coins, KeptEntries(unspent), KeptAccounts(accounts))
      <==> forall account :: !(Overspent(b, account) && HasUnspent(b, account))
  {
    hide Balance, NetSum, UnspentSum, Clear, EntryKnown, KeptAccounts;
    hide KeptEntries, Overspent, HasUnspent, FlagsAgree, BalancesAgree;
    forall account, asset
      ensures UnspentSum(b.coins, KeptEntries(unspent), account, asset) == UnspentSum(b.coins, unspent, account, asset)
    {
      KeptUnspentSum(b.coins, unspent, account, asset);
    }
    forall account
      ensures AccountAgrees(b.coins, unspent, KeptAccounts(accounts), account)
        <==> !(Overspent(b, account) && HasUnspent(b, account))
    {
      AccountAfterCommit(b, unspent, accounts, account);
    }
    if BalancesAreUnspent(b.coins, KeptEntries(unspent), KeptAccounts(accounts)) {
      forall account ensures AccountAgrees(b.coins, unspent, KeptAccounts(accounts), account) {
        forall asset
          ensures Balance(KeptAccounts(accounts), account, asset) == UnspentSum(b.coins, unspent, account, asset)
        {
          assert UnspentSum(b.coins, KeptEntries(unspent), account, asset)
            == UnspentSum(b.coins, unspent, account, asset);
        }
      }
    } else {
      var account, asset :| Balance(KeptAccounts(accounts), account, asset)
        != UnspentSum(b.coins, KeptEntries(unspent), account, asset);
      assert !AccountAgrees(b.coins, unspent, KeptAccounts(accounts), account);
    }
  }

  lemma KeptClaimsAgree(claimable: map<CoinReference, nat>, spentCoins: Spent)
    requires ClaimsAgree(claimable, spentCoins)
    ensures ClaimsAgree(claimable, KeptItems(spentCoins))
  {
    hide Find, DistinctIndices, HeightIn;
    forall ref: CoinReference
      ensures Find(ItemsOf(KeptItems(spentCoins), ref.prevHash), ref.prevIndex) == HeightIn(claimable, ref)
    {
      assert ItemsOf(KeptItems(spentCoins), ref.prevHash) == ItemsOf(spentCoins, ref.prevHash);
    }
  }

  lemma RefsKnownWithout(b: Books, ref: CoinReference)
    requires RefsKnown(b)
    ensures RefsKnown(b.(claimable := b.claimable - {ref}))
  {
    hide HasCoin;
  }

  // ---- the chain -----------------------------------------------------------------------------

  class Blockchain {
    const share: UInt256
    var transactions: Transactions
    var unspentCoins: Unspent
    var accounts: Accounts
    var spentCoins: Spent
    var currentBlockHeight: int
    ghost var books: Books
    ghost var history: seq<Entry>

    /** Without double spends the stores say exactly what the chain says. */
    ghost predicate Valid()
      reads this
    {
      && books == AfterHistory(share, history) && InputsWereThere(share, history)
      && NoDoubleSpend(books.spent)
      && RefsKnown(books)
      && FlagsAgree(books.coins, books.spent, unspentCoins)
      && BalancesAgree(books.coins, books.spent, accounts)
      && ClaimsAgree(books.claimable, spentCoins)
      && TransactionsAgree(books.coins, transactions)
      && Stored(books.coins, transactions)
      && NothingToDrop(accounts, unspentCoins, spentCoins)
    }

    constructor (share: UInt256)
      ensures Valid() && this.share == share && currentBlockHeight == -1
      ensures history == []
    {
      this.share, transactions, unspentCoins, accounts, spentCoins := share, map[], map[], map[], map[];
      currentBlockHeight := -1;
      books, history := Books([], multiset{}, map[]), [];
    }

    /** The balances are the sums of what nobody has spent; the spent coins are what can be claimed. */
    ghost predicate TellsChain()
      reads this
    {
      && (forall account, asset ::
            Balance(accounts, account, asset) == UnspentIn(AfterHistory(share, history).coins, history, account, asset))
      && forall ref: CoinReference ::
            ClaimableTold(share, history, ref, Find(ItemsOf(spentCoins, ref.prevHash), ref.prevIndex))
    }

    /** So after any number of blocks the stores follow from the transactions persisted so far. */
    lemma ValidTellsChain()
      requires Valid()
      ensures TellsChain()
    {
      hide Balance, UnspentIn, NetSum, InputsWereThere, FlagsAgree;
      hide TransactionsAgree, Stored, AfterHistory, NoDoubleSpend;
      hide ClaimableTold, Find, ItemsOf, DistinctRefs, DistinctIndices;
      forall account, asset
        ensures Balance(accounts, account, asset)
          == UnspentIn(AfterHistory(share, history).coins, history, account, asset)
      {
        NetIsUnspentIn(share, history, books.coins, account, asset);
      }
      forall ref: CoinReference
        ensures ClaimableTold(share, history, ref, Find(ItemsOf(spentCoins, ref.prevHash), ref.prevIndex))
      {
        ClaimableIff(share, history, ref);
      }
    }

    /**
     * False stands for an exception: then only transactions written before it stay behind. A block whose
     * inputs all exist and which spends nothing twice is persisted and keeps the stores exact.
     */
    method Persist(block: Block) returns (ok: bool)
      requires Valid() && FreshTransactions(books.coins, transactions, block.transactions)
      modifies this
      ensures ok ==> currentBlockHeight == block.index
      ensures ok ==> books == AfterTransactions(share, old(books), block.transactions, block.index)
      ensures ok ==> history == old(history) + Entries(block.transactions, block.index)
      ensures OnlyAdds(old(transactions), transactions, block.transactions)
      ensures ok && NoDoubleSpend(books.spent) ==> Valid() && BalancesAreUnspent(books.coins, unspentCoins, accounts)
      ensures ok ==> (BalancesAreUnspent(books.coins, unspentCoins, accounts)
        <==> forall account :: !(Overspent(books, account) && HasUnspent(books, account)))
      ensures !ok ==> Valid() && unchanged(`unspentCoins, `accounts, `spentCoins, `currentBlockHeight, `books, `history)
      ensures Persistable(share, old(books), block) ==> ok && Valid()
    {
      hide CacheAgrees, RefsKnown, FlagsAgree, BalancesAgree, ClaimsAgree;
      hide NoDoubleSpend, TransactionsAgree, Stored, FreshTransactions;
      hide FreshHash, AfterTransaction, RefsExist, InputsExist, BalancesAreUnspent, Overspent, HasUnspent;
      hide AfterHistory, InputsWereThere, Entries, OnlyAdds, NothingToDrop, KeptAccounts, KeptEntries, KeptItems;
      var txs := block.transactions;
      assert txs[0..] == txs;
      NothingYet(share, history, transactions, txs, block.index);
      var snapshot := new Snapshot(share, unspentCoins, accounts, spentCoins, books);
      ghost var stored := snapshot.stored;
      NothingTouched(stored);
      for i := 0 to |txs|
        invariant fresh(snapshot) && snapshot.share == share && snapshot.Valid() && snapshot.stored == stored
        invariant unchanged(`unspentCoins, `accounts, `spentCoins, `currentBlockHeight, `books, `history)
        invariant snapshot.books == AfterTransactions(share, books, txs[..i], block.index)
        invariant InputsWereThere(share, history + Entries(txs[..i], block.index))
        invariant OnlyAdds(old(transactions), transactions, txs[..i])
        invariant TransactionsAgree(snapshot.books.coins, transactions) && Stored(snapshot.books.coins, transactions)
        invariant TransactionsAgree(books.coins, transactions) && Stored(books.coins, transactions)
        invariant FreshTransactions(snapshot.books.coins, transactions, txs[i..])
        invariant FreshTransactions(books.coins, transactions, txs[i..])
      {
        FreshNext(snapshot.books.coins, transactions, txs, i);
        FreshNext(books.coins, transactions, txs, i);
        EnterTransaction(snapshot.books.coins, transactions, txs[i]);
        OldTransactionsAgree(books.coins, transactions, txs[i]);
        AfterNext(share, books, txs, i, block.index);
        if Persistable(share, books, block) {
          StepIsFine(share, books, txs, i, block.index);
        }
        AfterCoins(share, snapshot.books, txs[i], block.index);
        ok := snapshot.PersistTransaction(txs[i], transactions, block.index);
        if !ok {
          FewAdded(old(transactions), transactions, txs, i);
          return;
        }
        OneAdded(old(transactions), transactions, txs, i);
        transactions := transactions[txs[i].hash := txs[i]];
        InputsNow(share, history, txs, i, block.index, snapshot.books);
      }
      assert txs[..|txs|] == txs;
      NothingLeftToDrop(snapshot.accounts, snapshot.unspentCoins, snapshot.spentCoins);
      snapshot.Commit();
      unspentCoins, accounts, spentCoins := snapshot.unspentCoins, snapshot.accounts, snapshot.spentCoins;
      books := snapshot.books;
      HistoryContinues(share, history, txs, block.index);
      history := history + Entries(txs, block.index);
      if NoDoubleSpend(books.spent) {
        AgreementIsUnspent(books, unspentCoins, accounts);
      }
      currentBlockHeight := block.index;
      ok := true;
    }

    /** Only the block after the current one is persisted. */
    method TryPersist(block: Block) returns (ok: bool)
      requires Valid() && FreshTransactions(books.coins, transactions, block.transactions)
      modifies this
      ensures ok ==> block.index == old(currentBlockHeight) + 1 && currentBlockHeight == block.index
      ensures ok ==> books == AfterTransactions(share, old(books), block.transactions, block.index)
      ensures ok ==> history == old(history) + Entries(block.transactions, block.index)
      ensures OnlyAdds(old(transactions), transactions, block.transactions)
      ensures ok && NoDoubleSpend(books.spent) ==> Valid() && BalancesAreUnspent(books.coins, unspentCoins, accounts)
      ensures !ok ==> Valid() && unchanged(`unspentCoins, `accounts, `spentCoins, `currentBlockHeight, `books, `history)
      ensures block.index == old(currentBlockHeight) + 1 && Persistable(share, old(books), block) ==> ok
    {
      var distance := currentBlockHeight - block.index;
      if distance >= 0 || distance < -1 {
        NothingAdded(transactions, block.transactions);
        return false;
      }
      ok := Persist(block);
    }

    /**
     * Importing a file of blocks: each is tried in turn, and failures are passed over. Those before the first
     * that fails have been persisted, and none after it; and if all their inputs exist, none fails.
     */
    method ImportBlocks(blocks: seq<Block>)
      requires Valid() && FreshTransactions(books.coins, transactions, TransactionsOf(blocks))
      requires forall i :: 0 <= i < |blocks| ==> blocks[i].index == currentBlockHeight + 1 + i
      requires NoDoubleSpend(AfterHistory(share, history + ChainOf(blocks)).spent)
      modifies this
      ensures old(currentBlockHeight) <= currentBlockHeight <= old(currentBlockHeight) + |blocks|
      ensures history == old(history) + ChainOf(blocks[..currentBlockHeight - old(currentBlockHeight)])
      ensures BlocksExist(share, old(history), blocks) ==> history == old(history) + ChainOf(blocks)
      ensures Valid() && TellsChain()
    {
      hide *;
      ghost var past, start := history, currentBlockHeight;
      assert blocks[0..] == blocks;
      NoBlocks(blocks, past);
      for i := 0 to |blocks|
        invariant Valid() && start <= currentBlockHeight <= start + i
        invariant FreshTransactions(books.coins, transactions, TransactionsOf(blocks[i..]))
        invariant history == past + ChainOf(blocks[..currentBlockHeight - start])
        invariant BlocksExist(share, past, blocks) ==> currentBlockHeight == start + i
      {
        ghost var before, told := transactions, books;
        FreshBlock(books.coins, transactions, blocks, i);
        ValidBooks();
        PersistableNext(share, past, blocks, i);
        var ok := TryPersist(blocks[i]);
        CoinsAdded(share, told, blocks[i].transactions, blocks[i].index);
        SameCoins(told.coins, blocks[i].transactions);
        FreshAfter(told.coins, books.coins, before, transactions, blocks, i);
        LongerBy(share, past, blocks, i);
      }
      assert blocks[..|blocks|] == blocks;
      ValidTellsChain();
    }

    lemma ValidBooks()
      requires Valid()
      ensures books == AfterHistory(share, history)
    {
    }
  }

  // ---- sequences of blocks -------------------------------------------------------------------

  function TransactionsOf(blocks: seq<Block>): seq<Transaction> {
    if blocks == [] then [] else blocks[0].transactions + TransactionsOf(blocks[1..])
  }

  /** Nothing but these transactions has been written. */
  ghost predicate OnlyAdds(before: Transactions, after: Transactions, txs: seq<Transaction>) {
    forall hash | hash in after ::
      (hash in before && after[hash] == before[hash]) || exists i :: 0 <= i < |txs| && txs[i].hash == hash
  }

  lemma NothingAdded(transactions: Transactions, txs: seq<Transaction>)
    ensures OnlyAdds(transactions, transactions, txs)
  {
  }

  lemma OneAdded(before: Transactions, now: Transactions, txs: seq<Transaction>, i: nat)
    requires i < |txs| && OnlyAdds(before, now, txs[..i])
    ensures OnlyAdds(before, now[txs[i].hash := txs[i]], txs[..i + 1])
  {
    FewAdded(before, now, txs[..i + 1], i);
    assert txs[..i + 1][..i] == txs[..i] && txs[..i + 1][i] == txs[i];
  }

  lemma FewAdded(before: Transactions, now: Transactions, txs: seq<Transaction>, i: nat)
    requires i <= |txs| && OnlyAdds(before, now, txs[..i])
    ensures OnlyAdds(before, now, txs)
  {
    forall hash | hash in now && !(hash in before && now[hash] == before[hash])
      ensures exists k :: 0 <= k < |txs| && txs[k].hash == hash
    {
      var k :| 0 <= k < i && txs[..i][k].hash == hash;
      assert txs[k].hash == hash;
    }
  }

  lemma NothingYet(share: UInt256, h: seq<Entry>, transactions: Transactions, txs: seq<Transaction>, height: nat)
    requires InputsWereThere(share, h)
    ensures InputsWereThere(share, h + Entries(txs[..0], height)) && OnlyAdds(transactions, transactions, txs[..0])
  {
    hide InputsWereThere;
    assert h + Entries(txs[..0], height) == h;
  }

  lemma InputIsSpent(share: UInt256, b: Books, tx: Transaction, height: nat, ref: CoinReference)
    requires ref in tx.inputs
    ensures ref in AfterTransaction(share, b, tx, height).spent
  {
    hide MarkSpent;
    assert ref in multiset(tx.inputs);
  }

  lemma InputsNow(share: UInt256, h: seq<Entry>, txs: seq<Transaction>, i: nat, height: nat, b: Books)
    requires i < |txs| && InputsWereThere(share, h + Entries(txs[..i], height)) && RefsKnown(b)
    requires b == AfterTransactions(share, AfterHistory(share, h), txs[..i + 1], height)
    ensures InputsWereThere(share, h + Entries(txs[..i + 1], height))
  {
    hide HasCoin, AfterHistory, AfterTransaction, AfterTransactions, DistinctRefs;
    var all := h + Entries(txs[..i + 1], height);
    HistoryContinues(share, h, txs[..i + 1], height);
    AfterNext(share, AfterHistory(share, h), txs, i, height);
    assert txs[..i + 1][..i] == txs[..i];
    assert all[..|all| - 1] == h + Entries(txs[..i], height) && all[|all| - 1].tx == txs[i];
    forall ref | ref in txs[i].inputs ensures HasCoin(AfterHistory(share, all).coins, ref) {
      InputIsSpent(share, AfterTransactions(share, AfterHistory(share, h), txs[..i], height), txs[i], height, ref);
    }
  }

  /** Every input of every block refers to an output of an earlier transaction. */
  ghost predicate BlocksExist(share: UInt256, h: seq<Entry>, blocks: seq<Block>) {
    forall i | 0 <= i < |blocks| ::
      InputsExist(share, AfterHistory(share, h + ChainOf(blocks[..i])), blocks[i].transactions, blocks[i].index)
  }

  lemma NoBlocks(blocks: seq<Block>, h: seq<Entry>)
    ensures h + ChainOf(blocks[..0]) == h
  {
  }

  /** A block more. */
  lemma LongerBy(share: UInt256, h: seq<Entry>, blocks: seq<Block>, i: nat)
    requires i < |blocks| && NoDoubleSpend(AfterHistory(share, h + ChainOf(blocks)).spent)
    ensures var g := h + ChainOf(blocks[..i]);
      && h + ChainOf(blocks[..i + 1]) == g + Entries(blocks[i].transactions, blocks[i].index)
      && AfterTransactions(share, AfterHistory(share, g), blocks[i].transactions, blocks[i].index)
           == AfterHistory(share, h + ChainOf(blocks[..i + 1]))
      && NoDoubleSpend(AfterHistory(share, h + ChainOf(blocks[..i + 1])).spent)
  {
    hide *;
    ChainStep(blocks, i);
    HistoryContinues(share, h + ChainOf(blocks[..i]), blocks[i].transactions, blocks[i].index);
    ChainPrefix(blocks, i + 1);
    var now := h + ChainOf(blocks[..i + 1]);
    var rest := ChainOf(blocks)[|ChainOf(blocks[..i + 1])|..];
    assert h + ChainOf(blocks) == now + rest;
    SpentStays(share, now, rest);
    FewerSpends(AfterHistory(share, now).spent, AfterHistory(share, now + rest).spent);
    Associate(h, ChainOf(blocks[..i]), Entries(blocks[i].transactions, blocks[i].index));
  }

  lemma PersistableNext(share: UInt256, h: seq<Entry>, blocks: seq<Block>, i: nat)
    requires i < |blocks| && NoDoubleSpend(AfterHistory(share, h + ChainOf(blocks)).spent)
    ensures BlocksExist(share, h, blocks) ==>
      Persistable(share, AfterHistory(share, h + ChainOf(blocks[..i])), blocks[i])
  {
    hide AfterHistory, AfterTransactions, NoDoubleSpend, ChainOf, InputsExist;
    LongerBy(share, h, blocks, i);
  }

  /** Every new coin is an output of one of these transactions. */
  ghost predicate OnlyCoins(before: seq<Coin>, after: seq<Coin>, txs: seq<Transaction>) {
    forall c | c in after :: c in before || exists i :: 0 <= i < |txs| && txs[i].hash == c.ref.prevHash
  }

  lemma SameCoins(coins: seq<Coin>, txs: seq<Transaction>)
    ensures OnlyCoins(coins, coins, txs)
  {
  }

  lemma {:induction false} CoinsAdded(share: UInt256, b: Books, txs: seq<Transaction>, height: nat)
    ensures OnlyCoins(b.coins, AfterTransactions(share, b, txs, height).coins, txs)
  {
    hide MarkSpent;
    if txs != [] {
      var front, last := txs[..|txs| - 1], txs[|txs| - 1];
      CoinsAdded(share, b, front, height);
      var before := AfterTransactions(share, b, front, height).coins;
      forall c | c in before + CoinsOf(last) && c !in b.coins
        ensures exists i :: 0 <= i < |txs| && txs[i].hash == c.ref.prevHash
      {
        if c in before {
          var i :| 0 <= i < |front| && front[i].hash == c.ref.prevHash;
          assert txs[i].hash == c.ref.prevHash;
        } else {
          assert txs[|txs| - 1].hash == c.ref.prevHash;
        }
      }
    }
  }

  lemma FreshAfter(coins: seq<Coin>, coins': seq<Coin>, before: Transactions, after: Transactions, blocks: seq<Block>,
      i: nat)
    requires i < |blocks| && FreshTransactions(coins, before, TransactionsOf(blocks[i..]))
    requires OnlyCoins(coins, coins', blocks[i].transactions) && OnlyAdds(before, after, blocks[i].transactions)
    ensures FreshTransactions(coins', after, TransactionsOf(blocks[i + 1..]))
  {
    var all, txs, rest := TransactionsOf(blocks[i..]), blocks[i].transactions, TransactionsOf(blocks[i + 1..]);
    assert blocks[i..][1..] == blocks[i + 1..];
    assert all == txs + rest;
    forall k | 0 <= k < |rest|
      ensures FreshHash(coins', rest[k].hash)
      ensures rest[k].hash in after ==> after[rest[k].hash].outputs == rest[k].outputs
    {
      assert rest[k] == all[|txs| + k] && FreshHash(coins, all[|txs| + k].hash);
      assert forall j :: 0 <= j < |txs| ==> txs[j] == all[j];
    }
    forall j, k | 0 <= j < k < |rest| ensures rest[j].hash != rest[k].hash {
      assert rest[j] == all[|txs| + j] && rest[k] == all[|txs| + k];
    }
  }

  lemma FreshBlock(coins: seq<Coin>, transactions: Transactions, blocks: seq<Block>, i: nat)
    requires i < |blocks| && FreshTransactions(coins, transactions, TransactionsOf(blocks[i..]))
    ensures FreshTransactions(coins, transactions, blocks[i].transactions)
  {
    hide FreshHash;
    var all, txs := TransactionsOf(blocks[i..]), blocks[i].transactions;
    assert all == txs + TransactionsOf(blocks[i..][1..]);
    assert forall k :: 0 <= k < |txs| ==> txs[k] == all[k];
  }

  ghost predicate Persistable(share: UInt256, b: Books, block: Block) {
    && InputsExist(share, b, block.transactions, block.index)
    && NoDoubleSpend(AfterTransactions(share, b, block.transactions, block.index).spent)
  }

  lemma AfterCoins(share: UInt256, b: Books, tx: Transaction, height: nat)
    ensures AfterTransaction(share, b, tx, height).coins == b.coins + CoinsOf(tx)
  {
  }
}
