/** The chain as a list of transactions with heights: what its blocks add up to, whoever follows them. */
module ChainHistory {
  import opened Persist
  import opened Wrappers

  // ---- blocks --------------------------------------------------------------------------------

  function Entries(txs: seq<Transaction>, height: nat): (s: seq<Entry>)
    ensures |s| == |txs|
  {
    if txs == [] then [] else Entries(txs[..|txs| - 1], height) + [Entry(txs[|txs| - 1], height)]
  }

  function ChainOf(blocks: seq<Block>): seq<Entry> {
    if blocks == [] then []
    else ChainOf(blocks[..|blocks| - 1]) + Entries(blocks[|blocks| - 1].transactions, blocks[|blocks| - 1].index)
  }

  lemma ChainStep(blocks: seq<Block>, i: nat)
    requires i < |blocks|
    ensures ChainOf(blocks[..i + 1]) == ChainOf(blocks[..i]) + Entries(blocks[i].transactions, blocks[i].index)
  {
    hide Entries;
    assert blocks[..i + 1][..i] == blocks[..i];
  }

  lemma {:induction false} ChainPrefix(blocks: seq<Block>, i: nat)
    requires i <= |blocks|
    ensures ChainOf(blocks[..i]) <= ChainOf(blocks)
    decreases |blocks|
  {
    hide Entries;
    if i < |blocks| {
      ChainPrefix(blocks[..|blocks| - 1], i);
      assert blocks[..|blocks| - 1][..i] == blocks[..i];
    } else {
      assert blocks[..i] == blocks;
    }
  }

  /** Persisting the transactions of a block one by one lengthens the history by the block. */
  lemma {:induction false} HistoryContinues(share: UInt256, h: seq<Entry>, txs: seq<Transaction>, height: nat)
    ensures AfterTransactions(share, AfterHistory(share, h), txs, height)
      == AfterHistory(share, h + Entries(txs, height))
  {
    hide AfterTransaction;
    var all := h + Entries(txs, height);
    if txs == [] {
      assert all == h;
    } else {
      HistoryContinues(share, h, txs[..|txs| - 1], height);
      assert all[..|all| - 1] == h + Entries(txs[..|txs| - 1], height);
    }
  }

  // ---- spends --------------------------------------------------------------------------------

  ghost predicate SpentIn(h: seq<Entry>, ref: CoinReference) {
    exists i :: 0 <= i < |h| && ref in h[i].tx.inputs
  }

  lemma {:induction false} SpentInIff(share: UInt256, h: seq<Entry>, ref: CoinReference)
    ensures SpentIn(h, ref) <==> ref in AfterHistory(share, h).spent
  {
    hide MarkSpent;
    if h != [] {
      var g := h[..|h| - 1];
      SpentInIff(share, g, ref);
      SpentInStep(h, ref);
      assert ref in multiset(h[|h| - 1].tx.inputs) <==> ref in h[|h| - 1].tx.inputs;
    }
  }

  lemma SpentInStep(h: seq<Entry>, ref: CoinReference)
    requires h != []
    ensures SpentIn(h, ref) <==> SpentIn(h[..|h| - 1], ref) || ref in h[|h| - 1].tx.inputs
  {
    var g := h[..|h| - 1];
    assert forall i :: 0 <= i < |g| ==> g[i] == h[i];
    if SpentIn(g, ref) {
      var i :| 0 <= i < |g| && ref in g[i].tx.inputs;
      assert ref in h[i].tx.inputs;
    }
    if SpentIn(h, ref) && ref !in h[|h| - 1].tx.inputs {
      var i :| 0 <= i < |h| && ref in h[i].tx.inputs;
      assert ref in g[i].tx.inputs;
    }
  }

  /** Every transaction spends outputs that exist, if only since itself. */
  ghost predicate InputsWereThere(share: UInt256, h: seq<Entry>) {
    h != [] ==>
      && (forall ref | ref in h[|h| - 1].tx.inputs :: HasCoin(AfterHistory(share, h).coins, ref))
      && InputsWereThere(share, h[..|h| - 1])
  }

  lemma {:induction false} ProperInputs(share: UInt256, h: seq<Entry>)
    requires Proper(share, h)
    ensures InputsWereThere(share, h)
  {
    hide AfterHistory, HasCoin, DistinctRefs, NoDoubleSpend;
    if h != [] { ProperInputs(share, h[..|h| - 1]); }
  }

  lemma {:induction false} SpentWasThere(share: UInt256, h: seq<Entry>, ref: CoinReference)
    requires InputsWereThere(share, h) && SpentIn(h, ref)
    ensures HasCoin(AfterHistory(share, h).coins, ref)
  {
    hide MarkSpent, CoinsOf;
    var g, b := h[..|h| - 1], AfterHistory(share, h);
    SpentInStep(h, ref);
    if ref !in h[|h| - 1].tx.inputs {
      SpentWasThere(share, g, ref);
      var c :| c in AfterHistory(share, g).coins && c.ref == ref;
      assert c in b.coins;
    }
  }

  /** The sum of an account's outputs that no transaction of the history spends. */
  ghost function UnspentIn(coins: seq<Coin>, h: seq<Entry>, account: UInt160, asset: UInt256): nat {
    if coins == [] then 0
    else
      var c := coins[|coins| - 1];
      UnspentIn(coins[..|coins| - 1], h, account, asset) + if SpentIn(h, c.ref) then 0 else Worth(c, account, asset)
  }

  lemma {:induction false} NetIsUnspentIn(share: UInt256, h: seq<Entry>, coins: seq<Coin>, account: UInt160,
      asset: UInt256)
    requires NoDoubleSpend(AfterHistory(share, h).spent)
    ensures NetSum(coins, AfterHistory(share, h).spent, account, asset) == UnspentIn(coins, h, account, asset)
  {
    hide SpentIn, AfterHistory, Worth;
    if coins != [] {
      var c, spent := coins[|coins| - 1], AfterHistory(share, h).spent;
      NetIsUnspentIn(share, h, coins[..|coins| - 1], account, asset);
      SpentInIff(share, h, c.ref);
      assert spent[c.ref] == if SpentIn(h, c.ref) then 1 else 0;
    }
  }

  // ---- claims --------------------------------------------------------------------------------

  /** Transaction i of the history spends the output, and neither it nor a later one claims it. */
  ghost predicate UnclaimedSpend(h: seq<Entry>, ref: CoinReference, i: int) {
    && 0 <= i < |h| && ref in h[i].tx.inputs
    && forall j :: i <= j < |h| ==> ref !in h[j].tx.claims
  }

  /** The outputs that can be claimed are the governing-token outputs with an unclaimed spend, at its height. */
  ghost predicate ClaimableTold(share: UInt256, h: seq<Entry>, ref: CoinReference, height: Option<nat>) {
    && (height.Some? <==> IsShare(share, AfterHistory(share, h).coins, ref) && exists i :: UnclaimedSpend(h, ref, i))
    && forall i :: UnclaimedSpend(h, ref, i) && height.Some? ==> height.value == h[i].height
  }

  lemma SpendsBefore(h: seq<Entry>, ref: CoinReference)
    requires h != [] && ref !in h[|h| - 1].tx.inputs && ref !in h[|h| - 1].tx.claims
    ensures forall i :: UnclaimedSpend(h, ref, i) ==> UnclaimedSpend(h[..|h| - 1], ref, i) && h[i] == h[..|h| - 1][i]
    ensures forall i :: UnclaimedSpend(h[..|h| - 1], ref, i) ==> UnclaimedSpend(h, ref, i)
  {
    var g := h[..|h| - 1];
    assert forall i :: 0 <= i < |g| ==> g[i] == h[i];
    forall i | UnclaimedSpend(g, ref, i) ensures UnclaimedSpend(h, ref, i) {
      assert h[i] == g[i];
      forall j | i <= j < |h| ensures ref !in h[j].tx.claims {
        assert j < |g| ==> ref !in g[j].tx.claims;
      }
    }
  }

  lemma ClaimableStep(share: UInt256, h: seq<Entry>, ref: CoinReference)
    requires h != []
    ensures var last, b := h[|h| - 1], AfterHistory(share, h);
      HeightIn(b.claimable, ref)
        == if ref in last.tx.claims then None
           else if ref in last.tx.inputs && IsShare(share, b.coins, ref) then Some(last.height)
           else HeightIn(AfterHistory(share, h[..|h| - 1]).claimable, ref)
  {
    hide CoinsOf, IsShare;
    var last := h[|h| - 1];
    assert ref in Refs(last.tx.inputs) <==> ref in last.tx.inputs;
    assert ref in Refs(last.tx.claims) <==> ref in last.tx.claims;
  }

  lemma {:induction false} ClaimableIff(share: UInt256, h: seq<Entry>, ref: CoinReference)
    requires InputsWereThere(share, h)
    requires DistinctRefs(AfterHistory(share, h).coins) && NoDoubleSpend(AfterHistory(share, h).spent)
    ensures ClaimableTold(share, h, ref, HeightIn(AfterHistory(share, h).claimable, ref))
  {
    hide DistinctRefs, NoDoubleSpend, IsShare, HasCoin, UnclaimedSpend, SpentIn, AfterTransaction, HeightIn;
    if h == [] {
      NoSpends(ref);
      assert HeightIn(map[], ref) == None by { NothingClaimable(ref); }
    } else {
      var g, last := h[..|h| - 1], h[|h| - 1];
      var a, b := AfterHistory(share, g), AfterHistory(share, h);
      EarlierBooks(share, h);
      ClaimableIff(share, g, ref);
      hide AfterHistory;
      ClaimableStep(share, h, ref);
      LastSpend(share, h, ref);
      if ref in last.tx.inputs && ref !in last.tx.claims {
        assert UnclaimedSpend(h, ref, |h| - 1);
      } else if ref !in last.tx.claims {
        SpendsBefore(h, ref);
        if SpentIn(g, ref) {
          SpentWasThere(share, g, ref);
          SameShare(share, a.coins, b.coins, ref);
        }
        forall i | UnclaimedSpend(g, ref, i) ensures UnclaimedSpend(h, ref, i) {
        }
      }
    }
  }

  lemma NothingClaimable(ref: CoinReference)
    ensures HeightIn(map[], ref) == None
  {
  }

  lemma NoSpends(ref: CoinReference)
    ensures forall i :: !UnclaimedSpend([], ref, i)
  {
  }

  lemma EarlierBooks(share: UInt256, h: seq<Entry>)
    requires h != []
    requires DistinctRefs(AfterHistory(share, h).coins) && NoDoubleSpend(AfterHistory(share, h).spent)
    ensures var a, b := AfterHistory(share, h[..|h| - 1]), AfterHistory(share, h);
      && a.coins <= b.coins && DistinctRefs(a.coins) && NoDoubleSpend(a.spent)
  {
    hide MarkSpent, CoinsOf;
    var a, b := AfterHistory(share, h[..|h| - 1]), AfterHistory(share, h);
    forall i, j | 0 <= i < j < |a.coins| ensures a.coins[i].ref != a.coins[j].ref {
      assert b.coins[i] == a.coins[i] && b.coins[j] == a.coins[j];
    }
    forall ref ensures a.spent[ref] <= 1 {
      assert b.spent[ref] <= 1;
    }
  }

  lemma SpendIsEarlier(h: seq<Entry>, ref: CoinReference, i: int)
    requires UnclaimedSpend(h, ref, i)
    ensures i == |h| - 1 || SpentIn(h[..|h| - 1], ref)
  {
    assert i < |h| - 1 ==> h[..|h| - 1][i] == h[i];
  }

  /** How the last transaction of a history without double spends bears on one output. */
  lemma LastSpend(share: UInt256, h: seq<Entry>, ref: CoinReference)
    requires h != [] && NoDoubleSpend(AfterHistory(share, h).spent)
    ensures var g, last := h[..|h| - 1], h[|h| - 1];
      && (ref in last.tx.inputs ==> !SpentIn(g, ref))
      && (ref in last.tx.claims ==> forall i :: !UnclaimedSpend(h, ref, i))
      && (ref in last.tx.inputs && ref !in last.tx.claims ==> forall i :: UnclaimedSpend(h, ref, i) <==> i == |h| - 1)
      && (forall i :: UnclaimedSpend(g, ref, i) ==> SpentIn(g, ref))
  {
    hide MarkSpent, CoinsOf;
    var g, last := h[..|h| - 1], h[|h| - 1];
    SpentInIff(share, g, ref);
    if ref in last.tx.inputs {
      assert ref in multiset(last.tx.inputs);
      assert AfterHistory(share, h).spent[ref] <= 1;
      assert !SpentIn(g, ref);
      forall i | UnclaimedSpend(h, ref, i) ensures i == |h| - 1 {
        assert SpentIn(g, ref) || i == |h| - 1 by { SpendIsEarlier(h, ref, i); }
      }
    }
  }

  // ---- longer histories ----------------------------------------------------------------------

  lemma {:induction false} SpentStays(share: UInt256, h: seq<Entry>, more: seq<Entry>)
    ensures AfterHistory(share, h).spent <= AfterHistory(share, h + more).spent
    decreases |more|
  {
    hide MarkSpent;
    if more == [] {
      assert h + more == h;
    } else {
      SpentStays(share, h, more[..|more| - 1]);
      assert (h + more)[..|h + more| - 1] == h + more[..|more| - 1];
    }
  }
}
