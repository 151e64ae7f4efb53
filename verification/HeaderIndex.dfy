/** neo/Core/Blockchain.py: the list of header hashes, its stored batches of 2000 and its recovery at start-up. */
module HeaderIndex {
  import opened Wrappers

  type Hash = nat

  const BATCH := 2000

  datatype Header = Header(hash: Hash, prevHash: Hash, index: nat)

  /** What survives a restart: header hash lists by first position, headers by hash, the last header seen. */
  datatype Store = Store(lists: map<nat, seq<Hash>>, headers: map<Hash, Header>, currentHeader: Option<(Hash, nat)>)

  // ---- which headers are taken ---------------------------------------------------------------

  /** The headers a call adds to an index of length `n`. */
  function Accepted(verify: Header -> bool, hs: seq<Header>, n: nat): seq<Header> {
    if hs == [] || hs[0].index - 1 >= n then []
    else if hs[0].index < n then Accepted(verify, hs[1..], n)
    else if !verify(hs[0]) then []
    else [hs[0]] + Accepted(verify, hs[1..], n + 1)
  }

  lemma {:induction false} AcceptedConsecutive(verify: Header -> bool, hs: seq<Header>, n: nat, k: nat)
    requires k < |Accepted(verify, hs, n)|
    ensures Accepted(verify, hs, n)[k].index == n + k && Accepted(verify, hs, n)[k] in hs
    ensures verify(Accepted(verify, hs, n)[k])
  {
    if hs[0].index < n {
      AcceptedConsecutive(verify, hs[1..], n, k);
    } else if k > 0 {
      AcceptedConsecutive(verify, hs[1..], n + 1, k - 1);
    }
  }

  /** A run of headers that overlaps or continues the index is taken exactly from the index's end on. */
  lemma {:induction false} RunIsAccepted(verify: Header -> bool, hs: seq<Header>, n: nat)
    requires forall i :: 0 <= i < |hs| ==> verify(hs[i]) && hs[i].index == hs[0].index + i
    requires hs != [] ==> hs[0].index <= n
    ensures Accepted(verify, hs, n) == if |hs| == 0 || n >= hs[0].index + |hs| then [] else hs[n - hs[0].index..]
  {
    if hs != [] {
      RunIsAccepted(verify, hs[1..], if hs[0].index < n then n else n + 1);
    }
  }

  function Hashes(hs: seq<Header>): (s: seq<Hash>)
    ensures |s| == |hs|
    ensures forall i :: 0 <= i < |hs| ==> s[i] == hs[i].hash
  {
    if hs == [] then [] else Hashes(hs[..|hs| - 1]) + [hs[|hs| - 1].hash]
  }

  // ---- the running index ---------------------------------------------------------------------

  ghost predicate ListsAgree(lists: map<nat, seq<Hash>>, index: seq<Hash>, stored: nat) {
    && stored % 2000 == 0 && stored <= |index|
    && (forall k: nat :: k in lists <==> k % 2000 == 0 && k < stored)
    && (forall k | k in lists :: k + 2000 <= stored && lists[k] == index[k..k + 2000])
  }

  lemma ListsExtend(lists: map<nat, seq<Hash>>, index: seq<Hash>, more: seq<Hash>, stored: nat)
    requires ListsAgree(lists, index, stored)
    ensures ListsAgree(lists, index + more, stored)
  {
    forall k | k in lists ensures lists[k] == (index + more)[k..k + 2000] {
      assert k + 2000 <= stored && lists[k] == index[k..k + 2000];
    }
  }

  lemma ListsStep(lists: map<nat, seq<Hash>>, index: seq<Hash>, stored: nat)
    requires ListsAgree(lists, index, stored) && stored + 2000 <= |index|
    ensures ListsAgree(lists[stored := index[stored..stored + 2000]], index, stored + 2000)
  {
  }

  lemma HashesAppend(a: seq<Header>, b: seq<Header>)
    ensures Hashes(a + b) == Hashes(a) + Hashes(b)
  {
  }

  /** A header that is stored already is left as it is. */
  function WithHeader(headers: map<Hash, Header>, header: Header): map<Hash, Header> {
    if header.hash in headers then headers else headers[header.hash := header]
  }

  /** The loop of `AddHeaders`: stop at a gap or a bad header, pass over what is known. */
  method NewHeaders(verify: Header -> bool, hs: seq<Header>, n: nat) returns (newheaders: seq<Header>)
    ensures newheaders == Accepted(verify, hs, n)
  {
    newheaders := [];
    var count, i := 0, 0;
    while i < |hs|
      invariant 0 <= i <= |hs| && count == |newheaders|
      invariant newheaders + Accepted(verify, hs[i..], n + count) == Accepted(verify, hs, n)
    {
      var header := hs[i];
      assert hs[i..][0] == header && hs[i..][1..] == hs[i + 1..];
      if header.index - 1 >= n + count {
        break;
      }
      i := i + 1;
      if header.index < count + n {
        continue;
      }
      if !verify(header) {
        return;
      }
      count := count + 1;
      newheaders := newheaders + [header];
    }
  }

  // ---- recovery ------------------------------------------------------------------------------

  /** The keys of the stored lists in increasing order. */
  method SortedKeys(lists: map<nat, seq<Hash>>) returns (keys: seq<nat>)
    ensures forall i, j :: 0 <= i < j < |keys| ==> keys[i] < keys[j]
    ensures forall k: nat :: k in keys <==> k in lists
  {
    keys := [];
    var rest := lists.Keys;
    while rest != {}
      invariant forall i, j :: 0 <= i < j < |keys| ==> keys[i] < keys[j]
      invariant rest <= lists.Keys && forall k: nat :: k in lists <==> k in keys || k in rest
      invariant forall i, k :: 0 <= i < |keys| && k in rest ==> keys[i] < k
      decreases rest
    {
      var least := Least(rest);
      keys := keys + [least];
      rest := rest - {least};
    }
  }

  method Least(s: set<nat>) returns (least: nat)
    requires s != {}
    ensures least in s && forall k | k in s :: least <= k
  {
    least :| least in s;
    var rest := s - {least};
    while rest != {}
      invariant least in s && rest <= s && forall k | k in s :: k in rest || least <= k
      decreases rest
    {
      var k :| k in rest;
      if k < least {
        least := k;
      }
      rest := rest - {k};
    }
  }

  /** The keys of agreeing lists are the multiples of the batch size, in order. */
  lemma {:induction false} KeysAre(lists: map<nat, seq<Hash>>, index: seq<Hash>, stored: nat, keys: seq<nat>, i: nat)
    requires ListsAgree(lists, index, stored)
    requires forall i, j :: 0 <= i < j < |keys| ==> keys[i] < keys[j]
    requires forall k: nat :: k in keys <==> k in lists
    requires i <= |keys|
    ensures forall j :: 0 <= j < i ==> keys[j] == j * 2000
  {
    if i > 0 {
      KeysAre(lists, index, stored, keys, i - 1);
      var k := keys[i - 1];
      var m := k / 2000;
      assert k in lists && k == m * 2000;
      assert i > 1 ==> keys[i - 2] == (i - 2) * 2000 && m > i - 2;
      if m > i - 1 {
        assert (i - 1) * 2000 in lists;
      }
    }
  }

  lemma StoredIs(lists: map<nat, seq<Hash>>, index: seq<Hash>, stored: nat, keys: seq<nat>)
    requires ListsAgree(lists, index, stored)
    requires forall i, j :: 0 <= i < j < |keys| ==> keys[i] < keys[j]
    requires forall k: nat :: k in keys <==> k in lists
    ensures stored == |keys| * 2000
  {
    KeysAre(lists, index, stored, keys, |keys|);
    assert |keys| * 2000 !in keys;
    if keys != [] {
      assert keys[|keys| - 1] in lists;
    }
  }

  /** A store left by a valid run, above whose lists the headers form a hash chain without collisions. */
  ghost predicate LeftBy(verify: Header -> bool, store: Store, before: seq<Header>, stored: nat)
    requires 0 < stored < |before|
  {
    && (forall h :: 0 <= h < |before| ==> before[h].index == h && (h > 0 ==> verify(before[h])))
    && ListsAgree(store.lists, Hashes(before), stored)
    && store.currentHeader == Some((before[|before| - 1].hash, |before| - 1))
    && (forall i, j :: 0 <= i < j < |before| ==> before[i].hash != before[j].hash)
    && (forall i :: 0 <= i < |before| && before[i].hash in store.headers ==> store.headers[before[i].hash] == before[i])
    && (forall i :: stored <= i < |before| ==> before[i].prevHash == before[i - 1].hash)
  }

  /** The last header is above the first unlisted position and no header above the lists is missing. */
  ghost predicate WalkSucceeds(store: Store, before: seq<Header>, stored: nat) {
    && |before| - 1 > stored
    && forall i :: stored <= i < |before| ==> before[i].hash in store.headers
  }

  /** Reads the lists back in order; the genesis hash is in the index already. */
  method LoadLists(lists: map<nat, seq<Hash>>, genesis: Hash, ghost all: seq<Hash>, ghost stored: nat)
    returns (index: seq<Hash>, count: nat)
    requires ListsAgree(lists, all, stored) && stored > 0
    requires all[0] == genesis && forall i, j :: 0 <= i < j < |all| ==> all[i] != all[j]
    ensures index == all[..stored] && count == stored
  {
    index, count := [genesis], 0;
    var keys := SortedKeys(lists);
    KeysAre(lists, all, stored, keys, |keys|);
    StoredIs(lists, all, stored, keys);
    for k := 0 to |keys|
      invariant count == k * 2000
      invariant index == if count == 0 then [genesis] else all[..count]
    {
      assert keys[k] in lists;
      var list := lists[keys[k]];
      ghost var start := count;
      for j := 0 to |list|
        invariant count == start + j
        invariant index == if count == 0 then [genesis] else all[..count]
      {
        assert list[j] == all[start + j];
        if list[j] != genesis {
          index := index + [list[j]];
        }
        count := count + 1;
      }
    }
  }

  /** Follows previous hashes down to `target`; `None` stands for the exception on a missing header. */
  method Walk(store: Store, start: Hash, target: Hash, ghost before: seq<Header>, ghost stored: nat)
    returns (newhashes: Option<seq<Header>>)
    requires 0 < stored < |before| && target == before[stored - 1].hash && start == before[|before| - 1].hash
    requires forall i, j :: 0 <= i < j < |before| ==> before[i].hash != before[j].hash
    requires forall i :: 0 <= i < |before| && before[i].hash in store.headers ==>
      store.headers[before[i].hash] == before[i]
    requires forall i :: stored <= i < |before| ==> before[i].prevHash == before[i - 1].hash
    ensures newhashes.Some? <==> forall i :: stored <= i < |before| ==> before[i].hash in store.headers
    ensures newhashes.Some? ==> newhashes.value == before[stored..]
  {
    var hash := start;
    var walked: seq<Header> := [];
    ghost var i := |before| - 1;
    while hash != target
      invariant stored - 1 <= i < |before| && hash == before[i].hash
      invariant walked == before[i + 1..]
      invariant forall j :: i < j < |before| ==> before[j].hash in store.headers
      decreases i
    {
      if hash !in store.headers {
        return None;
      }
      var header := store.headers[hash];
      walked := [header] + walked;
      hash := header.prevHash;
      i := i - 1;
    }
    return Some(walked);
  }

  lemma HashesPrefix(hs: seq<Header>, n: nat)
    requires n <= |hs|
    ensures Hashes(hs[..n]) == Hashes(hs)[..n]
  {
  }

  lemma ListsShorten(lists: map<nat, seq<Hash>>, index: seq<Hash>, stored: nat)
    requires ListsAgree(lists, index, stored)
    ensures ListsAgree(lists, index[..stored], stored)
  {
    forall k | k in lists ensures lists[k] == index[..stored][k..k + 2000] {
      assert k + 2000 <= stored && lists[k] == index[k..k + 2000];
    }
  }

  class Blockchain {
    const verify: Header -> bool
    var headerIndex: seq<Hash>
    var storedHeaderCount: nat
    var store: Store
    ghost var headers: seq<Header>

    /** Position h holds the hash of a header with index h, and the stored lists are its beginning. */
    ghost predicate Valid()
      reads this
    {
      && 1 <= |headers| && headerIndex == Hashes(headers)
      && (forall h :: 0 <= h < |headers| ==> headers[h].index == h && (h > 0 ==> verify(headers[h])))
      && ListsAgree(store.lists, headerIndex, storedHeaderCount)
      && |headerIndex| <= storedHeaderCount + 2000
    }

    /** The store names the last header and holds it. */
    ghost predicate LastKnown()
      requires headers != []
      reads this
    {
      var last := headers[|headers| - 1];
      store.currentHeader == Some((last.hash, last.index)) && last.hash in store.headers
    }

    constructor (verify: Header -> bool, genesis: Header)
      requires genesis.index == 0
      ensures Valid() && headers == [genesis] && storedHeaderCount == 0 && this.verify == verify
      ensures store == Store(map[], map[], None)
    {
      this.verify := verify;
      headerIndex, storedHeaderCount, headers := [genesis.hash], 0, [genesis];
      store := Store(map[], map[], None);
      assert Hashes([genesis]) == [genesis.hash];
    }

    /**
     * Start-up from a store that a run with the headers `before` has left. The positions covered by lists
     * always come back; the ones above come back, all or none, by walking from the last header seen.
     */
    constructor Recover(verify: Header -> bool, genesis: Header, store: Store, ghost before: seq<Header>,
        ghost stored: nat)
      requires before != [] && before[0] == genesis && 0 < stored < |before| <= stored + 2000
      requires LeftBy(verify, store, before, stored)
      ensures Valid() && this.verify == verify
      ensures headers == if WalkSucceeds(store, before, stored) then before else before[..stored]
    {
      hide ListsAgree, Hashes;
      this.verify := verify;
      this.store := store;
      headerIndex, storedHeaderCount := [genesis.hash], 0;
      new;
      headerIndex, storedHeaderCount := LoadLists(store.lists, genesis.hash, Hashes(before), stored);
      headers := before[..stored];
      HashesPrefix(before, stored);
      ListsShorten(store.lists, Hashes(before), stored);
      CatchUp(before, stored);
    }

    /** The headers above the lists: nothing is done when the last one stands just above them. */
    method CatchUp(ghost before: seq<Header>, ghost stored: nat)
      requires 0 < stored < |before| <= stored + 2000 && LeftBy(verify, store, before, stored)
      requires Valid() && headers == before[..stored] && storedHeaderCount == stored
      modifies this
      ensures Valid()
      ensures headers == if WalkSucceeds(old(store), before, stored) then before else before[..stored]
    {
      hide ListsAgree, Hashes, Accepted;
      assert headerIndex[stored - 1] == before[stored - 1].hash;
      var (currentHash, currentHeight) := store.currentHeader.value;
      if currentHeight > storedHeaderCount {
        var walked := Walk(store, currentHash, headerIndex[|headerIndex| - 1], before, stored);
        if walked.Some? {
          RunIsAccepted(verify, before[stored..], stored);
          assert before[..stored] + before[stored..] == before;
          var count := AddHeaders(walked.value);
        }
      }
    }

    function HeaderHeight(): int
      reads this
    {
      |headerIndex| - 1
    }

    method AddHeaders(hs: seq<Header>) returns (count: nat)
      requires Valid()
      modifies this
      ensures Valid() && headers == old(headers) + Accepted(verify, hs, |old(headers)|)
      ensures count == |headers| - |old(headers)|
      ensures count == 0 ==> store == old(store) && storedHeaderCount == old(storedHeaderCount)
      ensures count > 0 ==> LastKnown() && 0 <= HeaderHeight() - storedHeaderCount < 2000
      ensures store.headers
        == if count == 0 then old(store).headers else WithHeader(old(store).headers, headers[|headers| - 1])
    {
      var newheaders := NewHeaders(verify, hs, |headerIndex|);
      count := |newheaders|;
      assert |headerIndex| == |headers| && headers + [] == headers;
      if |newheaders| > 0 {
        forall k | 0 <= k < |newheaders| ensures newheaders[k].index == |headers| + k && verify(newheaders[k]) {
          AcceptedConsecutive(verify, hs, |headers|, k);
        }
        ProcessNewHeaders(newheaders);
      }
    }

    method ProcessNewHeaders(newheaders: seq<Header>)
      requires Valid() && newheaders != []
      requires forall k :: 0 <= k < |newheaders| ==> newheaders[k].index == |headers| + k && verify(newheaders[k])
      modifies this
      ensures Valid() && headers == old(headers) + newheaders
      ensures LastKnown() && 0 <= HeaderHeight() - storedHeaderCount < 2000
      ensures store.headers == WithHeader(old(store).headers, headers[|headers| - 1])
    {
      hide Hashes;
      ListsExtend(store.lists, headerIndex, Hashes(newheaders), storedHeaderCount);
      HashesAppend(headers, newheaders);
      headerIndex := headerIndex + Hashes(newheaders);
      headers := headers + newheaders;
      OnAddHeader(newheaders[|newheaders| - 1]);
    }

    /** Stores whole batches while the new last header is at least one batch past them. */
    method OnAddHeader(header: Header)
      requires header.index == |headerIndex| - 1
      requires ListsAgree(store.lists, headerIndex, storedHeaderCount)
      modifies this`store, this`storedHeaderCount
      ensures ListsAgree(store.lists, headerIndex, storedHeaderCount)
      ensures storedHeaderCount >= old(storedHeaderCount)
      ensures header.index - 2000 < storedHeaderCount
      ensures old(storedHeaderCount) < |headerIndex| ==> storedHeaderCount <= header.index
      ensures store.headers == WithHeader(old(store).headers, header)
      ensures store.currentHeader == Some((header.hash, header.index))
    {
      hide ListsAgree;
      while header.index - BATCH >= storedHeaderCount
        invariant ListsAgree(store.lists, headerIndex, storedHeaderCount)
        invariant storedHeaderCount >= old(storedHeaderCount) && store.headers == old(store).headers
        invariant old(storedHeaderCount) < |headerIndex| ==> storedHeaderCount <= header.index
      {
        ListsStep(store.lists, headerIndex, storedHeaderCount);
        var headersToWrite := headerIndex[storedHeaderCount..storedHeaderCount + BATCH];
        store := store.(lists := store.lists[storedHeaderCount := headersToWrite]);
        storedHeaderCount := storedHeaderCount + BATCH;
      }
      if header.hash !in store.headers {
        store := store.(headers := store.headers[header.hash := header]);
      }
      store := store.(currentHeader := Some((header.hash, header.index)));
    }
  }

  /**
   * What recovery needs and a run of `AddHeaders` that stored a list provides: batches, indexes and current
   * header agree with the list. That hashes differ and headers above the batches are linked is taken over.
   */
  lemma RunsLeave(c: Blockchain)
    requires c.Valid() && c.LastKnown() && 0 < c.storedHeaderCount <= c.HeaderHeight()
    requires forall i, j :: 0 <= i < j < |c.headers| ==> c.headers[i].hash != c.headers[j].hash
    requires forall i :: 0 <= i < |c.headers| && c.headers[i].hash in c.store.headers ==>
      c.store.headers[c.headers[i].hash] == c.headers[i]
    requires forall i :: c.storedHeaderCount <= i < |c.headers| ==> c.headers[i].prevHash == c.headers[i - 1].hash
    ensures |c.headers| <= c.storedHeaderCount + 2000
    ensures LeftBy(c.verify, c.store, c.headers, c.storedHeaderCount)
  {
  }
}
