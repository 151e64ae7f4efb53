/** neo/Network/syncmanager.py, ledger.py and requestinfo.py: requesting, caching and persisting blocks. */
module Sync {
  import opened HeaderIndex
  import opened Wrappers

  datatype FlightInfo = FlightInfo(nodeId: nat, height: int, startTime: int)

  /** A block from the network, and its raw bytes, which may fail to parse as a block. */
  datatype NetworkBlock = NetworkBlock(header: Header)
  datatype RawBlock = RawBlock(header: Header, parses: bool)

  class RequestInfo {
    const height: int
    var failedNodes: map<nat, nat>
    var failedTotal: nat
    var flights: map<nat, FlightInfo>
    var lastUsedNode: Option<nat>

    /** `most_recent_flight` finds its flight. */
    predicate Ready()
      reads this
    {
      lastUsedNode.Some? && lastUsedNode.value in flights
    }

    constructor (height: int)
      ensures this.height == height && flights == map[] && failedNodes == map[]
      ensures failedTotal == 0 && lastUsedNode == None
    {
      this.height, failedNodes, failedTotal, flights, lastUsedNode := height, map[], 0, map[], None;
    }

    method AddNewFlight(f: FlightInfo)
      modifies this
      ensures flights == old(flights)[f.nodeId := f] && lastUsedNode == Some(f.nodeId) && Ready()
      ensures failedNodes == old(failedNodes) && failedTotal == old(failedTotal)
    {
      flights := flights[f.nodeId := f];
      lastUsedNode := Some(f.nodeId);
    }

    function MostRecentFlight(): FlightInfo
      requires Ready()
      reads this
    {
      flights[lastUsedNode.value]
    }

    method MarkFailedNode(nodeId: nat)
      modifies this
      ensures flights == old(flights) && lastUsedNode == old(lastUsedNode)
      ensures failedNodes
        == old(failedNodes)[nodeId := (if nodeId in old(failedNodes) then old(failedNodes)[nodeId] else 0) + 1]
      ensures failedTotal == old(failedTotal) + 1
    {
      failedNodes := failedNodes[nodeId := (if nodeId in failedNodes then failedNodes[nodeId] else 0) + 1];
      failedTotal := failedTotal + 1;
    }
  }

  // ---- the ledger ----------------------------------------------------------------------------

  class Ledger {
    const chain: Blockchain
    var height: int
    /** The block that `Persist` is working on across its suspensions. */
    var persisting: Option<int>

    ghost predicate Valid()
      reads this, chain
    {
      && chain.Valid()
      && height <= chain.HeaderHeight()
      && (persisting.Some? ==> persisting.value == height + 1 <= chain.HeaderHeight())
    }

    constructor (chain: Blockchain)
      requires chain.Valid()
      ensures Valid() && this.chain == chain && height == 0 && persisting == None
    {
      this.chain, height, persisting := chain, 0, None;
    }

    method AddHeaders(hs: seq<Header>)
      requires Valid()
      modifies chain
      ensures Valid() && old(chain.headerIndex) <= chain.headerIndex
    {
      var count := chain.AddHeaders(hs);
      HashesGrow(old(chain.headers), chain.headers);
    }

    /**
     * `add_block` up to the first suspension: the header is added if it is the next one, and only the
     * block after the current one goes on to be persisted. It goes on even if its header is refused, and
     * then, and only then, the block will stand above the header height.
     */
    method StartAddBlock(raw: RawBlock) returns (started: bool)
      requires Valid() && persisting.None?
      modifies this`persisting, chain
      ensures chain.Valid() && old(chain.headerIndex) <= chain.headerIndex
      ensures started <==> raw.parses && raw.header.index == height + 1
      ensures persisting == if started then Some(raw.header.index) else None
      ensures Valid() <==> !started || raw.header.index < |old(chain.headerIndex)| || chain.verify(raw.header)
    {
      if !raw.parses {
        return false;
      }
      var count := chain.AddHeaders([raw.header]);
      HashesGrow(old(chain.headers), chain.headers);
      var distance := height - raw.header.index;
      if distance >= 0 || distance < -1 {
        return false;
      }
      HeaderTakenIff(chain.verify, raw.header, |old(chain.headers)|);
      persisting := Some(raw.header.index);
      return true;
    }

    /** The rest of `add_block`: `persisted` is whether `Persist` ended without an exception. */
    method EndAddBlock(persisted: bool) returns (success: bool)
      requires Valid() && persisting.Some?
      modifies this
      ensures Valid() && persisting == None && success == persisted
      ensures height == old(height) + if success then 1 else 0
    {
      if persisted {
        height := persisting.value;
      }
      persisting := None;
      return persisted;
    }
  }

  lemma HashesGrow(a: seq<Header>, b: seq<Header>)
    requires a <= b
    ensures Hashes(a) <= Hashes(b)
  {
    assert b == a + b[|a|..];
    HashesAppend(a, b[|a|..]);
  }

  /** A header that is next in line is taken if it verifies; an earlier one is known already. */
  lemma HeaderTakenIff(verify: Header -> bool, header: Header, n: nat)
    requires header.index <= n
    ensures header.index < n + |Accepted(verify, [header], n)| <==> header.index < n || verify(header)
  {
    assert [header][1..] == [];
  }

  // ---- the sync manager ----------------------------------------------------------------------

  const HEADER_MAX_LOOK_AHEAD := 6000
  const REQUEST_TIMEOUT := 5
  const BLOCK_MAX_CACHE_SIZE := 500
  const BLOCK_NETWORK_REQ_LIMIT := 500

  /** A timed-out request as `check_block_timeout` carries it across its suspension. */
  datatype Retry = Retry(hash: Hash, height: int, request: RequestInfo, failedNode: nat)

  predicate InCache(cache: seq<NetworkBlock>, height: int) {
    exists i :: 0 <= i < |cache| && cache[i].header.index == height
  }

  predicate DistinctHeights(cache: seq<NetworkBlock>) {
    forall i, j :: 0 <= i < j < |cache| ==> cache[i].header.index != cache[j].header.index
  }

  predicate Aligned(cache: seq<NetworkBlock>, raw: seq<RawBlock>) {
    |cache| == |raw| && forall i :: 0 <= i < |cache| ==> cache[i].header == raw[i].header
  }

  /** The heights from `first` to `last` whose blocks are not cached, in ascending order. */
  ghost function MissingHeights(cache: seq<NetworkBlock>, first: int, last: int): (s: seq<int>)
    ensures forall i, j :: 0 <= i < j < |s| ==> s[i] < s[j]
    ensures forall i :: 0 <= i < |s| ==> first <= s[i] <= last && !InCache(cache, s[i])
    ensures forall k :: first <= k <= last && !InCache(cache, k) ==> k in s
    decreases last - first
  {
    if last < first then []
    else MissingHeights(cache, first, last - 1) + (if InCache(cache, last) then [] else [last])
  }

  ghost function HashesAt(index: seq<Hash>, heights: seq<int>): (s: seq<Hash>)
    requires forall i :: 0 <= i < |heights| ==> 0 <= heights[i] < |index|
    ensures |s| == |heights| && forall i :: 0 <= i < |s| ==> s[i] == index[heights[i]]
  {
    seq(|heights|, i requires 0 <= i < |heights| => index[heights[i]])
  }

  function Min(a: int, b: int): int {
    if a <= b then a else b
  }

  /** The last height to ask for: at most 500 blocks, for a cache of 500, of those that node and header list have. */
  function LastWanted(best: int, cached: nat, nodeHeight: int, headerHeight: int): int {
    Min(Min(best + Min(500 - cached, 500), nodeHeight), headerHeight)
  }

  /** The hashes of all heights above the best one up to the last wanted one that are not cached, ascending. */
  ghost function WantedHashes(index: seq<Hash>, cache: seq<NetworkBlock>, best: nat, nodeHeight: int): seq<Hash> {
    HashesAt(index, MissingHeights(cache, best + 1, LastWanted(best, |cache|, nodeHeight, |index| - 1)))
  }

  /** The same up to any height. */
  ghost function HashesUpTo(index: seq<Hash>, cache: seq<NetworkBlock>, best: nat, nodeHeight: int, k: int): seq<Hash> {
    HashesAt(index, MissingHeights(cache, best + 1, Min(Min(k, nodeHeight), |index| - 1)))
  }

  lemma HashesUpToStep(index: seq<Hash>, cache: seq<NetworkBlock>, best: nat, nodeHeight: int, k: int)
    requires k > best
    ensures HashesUpTo(index, cache, best, nodeHeight, k)
      == HashesUpTo(index, cache, best, nodeHeight, k - 1)
       + if InCache(cache, k) || k > nodeHeight || k >= |index| then [] else [index[k]]
  {
    hide InCache, MissingHeights;
    var b := Min(nodeHeight, |index| - 1);
    MissingStep(cache, best + 1, Min(k, b));
    assert Min(Min(k, nodeHeight), |index| - 1) == Min(k, b);
    assert Min(Min(k - 1, nodeHeight), |index| - 1) == Min(k - 1, b);
  }

  lemma MissingStep(cache: seq<NetworkBlock>, first: int, last: int)
    ensures MissingHeights(cache, first, last) == if last < first then [] else
      MissingHeights(cache, first, last - 1) + (if InCache(cache, last) then [] else [last])
  {
    hide InCache;
  }

  lemma NothingUpTo(index: seq<Hash>, cache: seq<NetworkBlock>, best: nat, nodeHeight: int)
    ensures HashesUpTo(index, cache, best, nodeHeight, best) == []
  {
  }

  lemma SameUpTo(index: seq<Hash>, cache: seq<NetworkBlock>, best: nat, nodeHeight: int, k: int, further: int)
    requires k <= further && (k > nodeHeight || k >= |index|)
    ensures HashesUpTo(index, cache, best, nodeHeight, further) == HashesUpTo(index, cache, best, nodeHeight, k)
  {
  }

  lemma WantedUpTo(index: seq<Hash>, cache: seq<NetworkBlock>, best: nat, nodeHeight: int, toFetch: int)
    requires toFetch == Min(|index| - 1 - best, Min(500 - |cache|, 500))
    ensures WantedHashes(index, cache, best, nodeHeight)
      == HashesUpTo(index, cache, best, nodeHeight, best + toFetch)
    ensures toFetch <= 0 ==> WantedHashes(index, cache, best, nodeHeight) == []
  {
  }

  /** The next block is asked for first if node and header list have it, it is not cached and there is room. */
  lemma NextIsWanted(index: seq<Hash>, cache: seq<NetworkBlock>, best: nat, nodeHeight: int)
    requires best + 1 <= nodeHeight && best + 1 < |index| && |cache| < 500 && !InCache(cache, best + 1)
    ensures var hashes := WantedHashes(index, cache, best, nodeHeight); hashes != [] && hashes[0] == index[best + 1]
  {
    var heights := MissingHeights(cache, best + 1, LastWanted(best, |cache|, nodeHeight, |index| - 1));
    assert best + 1 in heights;
    var i :| 0 <= i < |heights| && heights[i] == best + 1;
  }

  class SyncManager {
    const ledger: Ledger
    var blockRequests: map<Hash, RequestInfo>
    var headerRequest: RequestInfo?
    var headerCache: seq<seq<Header>>
    var blockCache: seq<NetworkBlock>
    var rawBlockCache: seq<RawBlock>
    var isPersistingBlocks: bool

    ghost function Requests(): set<RequestInfo>
      reads this`blockRequests
    {
      set h | h in blockRequests :: blockRequests[h]
    }

    ghost function HeaderRequests(): set<RequestInfo>
      reads this`headerRequest
    {
      if headerRequest == null then {} else {headerRequest}
    }

    /** The request objects the manager can change. */
    ghost function Objects(): set<object>
      reads this
    {
      Requests() + HeaderRequests()
    }

    /** Every outstanding block request asks for the hash of its height and can tell its latest flight. */
    ghost predicate RequestsValid()
      reads this`blockRequests, ledger.chain, Requests()
    {
      forall h | h in blockRequests ::
        && blockRequests[h].Ready()
        && 0 <= blockRequests[h].height < |ledger.chain.headerIndex|
        && ledger.chain.headerIndex[blockRequests[h].height] == h
    }

    /** Block headers are not verified here, as in the program: its flag for it is never set. */
    ghost predicate LedgerReady()
      reads this`isPersistingBlocks, ledger, ledger.chain
    {
      ledger.Valid() && (forall h :: ledger.chain.verify(h)) && (ledger.persisting.Some? ==> isPersistingBlocks)
    }

    ghost predicate HeaderRequestValid()
      reads this`headerRequest, HeaderRequests()
    {
      headerRequest != null ==> headerRequest.Ready()
    }

    ghost predicate CachesValid()
      reads this`blockCache, this`rawBlockCache
    {
      DistinctHeights(blockCache) && Aligned(blockCache, rawBlockCache)
    }

    ghost predicate Valid()
      reads this, ledger, ledger.chain, Requests(), HeaderRequests()
    {
      LedgerReady() && RequestsValid() && HeaderRequestValid() && CachesValid() && HeaderRequests() !! Requests()
    }

    constructor (ledger: Ledger)
      requires ledger.Valid() && ledger.persisting.None? && forall h :: ledger.chain.verify(h)
      ensures Valid() && this.ledger == ledger && blockRequests == map[] && headerRequest == null
      ensures blockCache == [] && rawBlockCache == [] && headerCache == [] && !isPersistingBlocks
    {
      this.ledger, blockRequests, headerRequest, headerCache := ledger, map[], null, [];
      blockCache, rawBlockCache, isPersistingBlocks := [], [], false;
    }

    // ---- headers -----------------------------------------------------------------------------

    /** One header request at a time, and not too far ahead of the blocks. */
    method SyncHeader(node: Option<nat>, now: int) returns (asked: bool)
      requires Valid()
      modifies this`headerRequest
      ensures fresh(Objects() - old(Objects()))
      ensures Valid()
      ensures asked <==>
        old(headerRequest) == null && node.Some? && ledger.chain.HeaderHeight() - ledger.height < 6000
      ensures asked ==>
        headerRequest != null && fresh(headerRequest) && headerRequest.height == ledger.chain.HeaderHeight() + 1
      ensures asked ==> headerRequest.lastUsedNode == node
      ensures !asked ==> headerRequest == old(headerRequest)
    {
      if headerRequest != null {
        return false;
      }
      var headerHeight := ledger.chain.HeaderHeight();
      if headerHeight - ledger.height >= HEADER_MAX_LOOK_AHEAD || node.None? {
        return false;
      }
      var request := new RequestInfo(headerHeight + 1);
      request.AddNewFlight(FlightInfo(node.value, headerHeight + 1, now));
      headerRequest := request;
      return true;
    }

    /** Headers that start where the outstanding request asks and where the index ends. */
    predicate IsAskedFor(hs: seq<Header>)
      reads this, ledger.chain, HeaderRequests()
    {
      && hs != [] && headerRequest != null && hs[0].index == headerRequest.height
      && hs[0].index > ledger.chain.HeaderHeight()
    }

    /** The codes of `on_headers_received`; only 1 keeps the headers. */
    method OnHeadersReceived(hs: seq<Header>) returns (code: int)
      requires Valid()
      modifies this`headerCache
      ensures fresh(Objects() - old(Objects()))
      ensures Valid()
      ensures code == 1 ==> headerCache == old(headerCache) + [hs]
      ensures code != 1 ==> headerCache == old(headerCache)
      ensures code == 1 <==> hs !in old(headerCache) && IsAskedFor(hs)
    {
      if |hs| == 0 {
        return -1;
      }
      if headerRequest == null {
        return -2;
      }
      var height := hs[0].index;
      if height != headerRequest.height {
        return -3;
      }
      if hs in headerCache {
        return -4;
      }
      if height <= ledger.chain.HeaderHeight() {
        return -5;
      }
      headerCache := headerCache + [hs];
      return 1;
    }

    /** `persist_headers` takes one list, adds it after a suspension, and ends when there is none. */
    method TakeHeaders() returns (hs: Option<seq<Header>>)
      requires Valid()
      modifies this`headerCache
      ensures fresh(Objects() - old(Objects()))
      ensures Valid()
      ensures if old(headerCache) == [] then hs == None && headerCache == []
        else hs == Some(old(headerCache)[0]) && headerCache == old(headerCache)[1..]
    {
      if headerCache == [] {
        return None;
      }
      hs := Some(headerCache[0]);
      headerCache := headerCache[1..];
    }

    method AddHeaders(hs: seq<Header>)
      requires Valid()
      modifies ledger.chain
      ensures fresh(Objects() - old(Objects()))
      ensures Valid() && old(ledger.chain.headerIndex) <= ledger.chain.headerIndex
    {
      ledger.AddHeaders(hs);
    }

    method FinishHeaders()
      requires Valid()
      modifies this`headerRequest
      ensures fresh(Objects() - old(Objects()))
      ensures Valid() && headerRequest == null
    {
      headerRequest := null;
    }

    ghost predicate HeaderIsLate(now: int)
      reads this`headerRequest, HeaderRequests()
    {
      headerRequest != null && headerRequest.Ready()
        && now - headerRequest.MostRecentFlight().startTime >= 5
    }

    /** Up to the suspension that counts the timeout; the flight to retry, if any. */
    method CheckHeaderTimeout(now: int) returns (retry: Option<FlightInfo>)
      requires Valid()
      modifies this`headerRequest, HeaderRequests()
      ensures fresh(Objects() - old(Objects()))
      ensures Valid() && headerRequest in {old(headerRequest), null}
      ensures retry.Some?
        <==> old(HeaderIsLate(now)) && old(headerRequest.MostRecentFlight().height) > ledger.chain.HeaderHeight()
      ensures retry.Some? ==>
        headerRequest == old(headerRequest) && retry.value == old(headerRequest.MostRecentFlight())
      ensures retry.Some? ==> headerRequest.failedTotal == old(headerRequest.failedTotal) + 1
      ensures retry.None? ==> (headerRequest == null <==> old(headerRequest) == null || old(HeaderIsLate(now)))
    {
      if headerRequest == null {
        return None;
      }
      var last := headerRequest.MostRecentFlight();
      if now - last.startTime < REQUEST_TIMEOUT {
        return None;
      }
      if last.height <= ledger.chain.HeaderHeight() {
        headerRequest := null;
        return None;
      }
      headerRequest.MarkFailedNode(last.nodeId);
      return Some(last);
    }

    /** The rest of it: without a header request the exception of the missing object ends the check. */
    method RetryHeader(last: FlightInfo, node: Option<nat>, now: int)
      requires Valid()
      modifies this`headerRequest, HeaderRequests()
      ensures fresh(Objects() - old(Objects()))
      ensures Valid() && headerRequest == if node.Some? then old(headerRequest) else null
      ensures headerRequest != null ==> headerRequest.lastUsedNode == node
    {
      if headerRequest == null {
        return;
      }
      if node.None? {
        headerRequest := null;
        return;
      }
      headerRequest.AddNewFlight(FlightInfo(node.value, last.height, now));
    }

    // ---- blocks ------------------------------------------------------------------------------

    method IsInBlockCache(height: int) returns (found: bool)
      ensures found <==> InCache(blockCache, height)
    {
      for i := 0 to |blockCache|
        invariant forall k :: 0 <= k < i ==> blockCache[k].header.index != height
      {
        if blockCache[i].header.index == height {
          return true;
        }
      }
      return false;
    }

    function BestStoredBlockHeight(): (best: int)
      reads this`blockCache, ledger
      ensures best >= ledger.height && best >= 0
      ensures if blockCache == [] then best == ledger.height || best == 0 > ledger.height
        else best >= LastCached() && (best == ledger.height || best == LastCached())
    {
      var cached := if |blockCache| > 0 then blockCache[|blockCache| - 1].header.index else 0;
      if ledger.height >= cached then ledger.height else cached
    }

    function LastCached(): int
      requires blockCache != []
      reads this`blockCache
    {
      blockCache[|blockCache| - 1].header.index
    }

    /** A height above what is stored, known to the header index and not cached. */
    ghost predicate IsMissing(height: int, best: int)
      reads this`blockCache, ledger.chain
    {
      best < height <= ledger.chain.HeaderHeight() && !InCache(blockCache, height)
    }

    /** The block after the best one can be had: node and header list have it, it is not cached and there is room. */
    ghost predicate NextAvailable(nodeHeight: int)
      reads this`blockCache, ledger, ledger.chain
    {
      var next := BestStoredBlockHeight() + 1;
      next <= nodeHeight && next < |ledger.chain.headerIndex| && |blockCache| < 500 && !InCache(blockCache, next)
    }

    method AddBlockFlightInfo(nodeId: nat, height: nat, hash: Hash, now: int)
      requires Valid() && height < |ledger.chain.headerIndex| && ledger.chain.headerIndex[height] == hash
      modifies this`blockRequests, Requests()
      ensures fresh(Objects() - old(Objects()))
      ensures Valid() && blockRequests.Keys == old(blockRequests.Keys) + {hash}
      ensures fresh(Requests() - old(Requests()))
      ensures forall h | h in old(blockRequests) :: blockRequests[h] == old(blockRequests)[h]
      ensures hash !in old(blockRequests) ==> blockRequests[hash].height == height
      ensures nodeId in blockRequests[hash].flights
      ensures forall h | h in old(blockRequests) :: old(blockRequests[h].flights.Keys) <= blockRequests[h].flights.Keys
    {
      hide LedgerReady, HeaderRequestValid, CachesValid;
      hide RequestsValid;
      if hash !in blockRequests {
        FirstFlight(hash, height, FlightInfo(nodeId, height, now));
      } else {
        ExtendFlights(hash, FlightInfo(nodeId, height, now));
      }
    }

    method FirstFlight(hash: Hash, height: nat, f: FlightInfo)
      requires Valid() && height < |ledger.chain.headerIndex| && ledger.chain.headerIndex[height] == hash
      requires hash !in blockRequests
      modifies this`blockRequests
      ensures Valid() && hash in blockRequests && blockRequests == old(blockRequests)[hash := blockRequests[hash]]
      ensures fresh(blockRequests[hash]) && blockRequests[hash].height == height
      ensures blockRequests[hash].flights == map[f.nodeId := f]
    {
      hide LedgerReady, HeaderRequestValid, CachesValid;
      var request := new RequestInfo(height);
      request.AddNewFlight(f);
      blockRequests := blockRequests[hash := request];
    }

    /** A further flight of an outstanding request does not become its latest one. */
    method ExtendFlights(hash: Hash, f: FlightInfo)
      requires Valid() && hash in blockRequests
      modifies blockRequests[hash]
      ensures Valid() && blockRequests[hash].flights == old(blockRequests[hash].flights)[f.nodeId := f]
    {
      hide LedgerReady, HeaderRequestValid, CachesValid;
      var request := blockRequests[hash];
      request.flights := request.flights[f.nodeId := f];
    }

    /**
     * Asks one node for the blocks after the best one stored, up to its height, to the end of the header
     * index and to the space left. Nothing is asked while requests are outstanding.
     */
    method SyncBlock(bestNodeHeight: Option<int>, node: Option<nat>, now: int) returns (hashes: seq<Hash>)
      requires Valid()
      modifies this`blockRequests
      ensures fresh(Objects() - old(Objects()))
      ensures Valid()
      ensures old(blockRequests) != map[] || node.None? ==> hashes == [] && blockRequests == old(blockRequests)
      ensures old(blockRequests) == map[] && node.Some? ==> AreAsked(hashes, node.value, BestStoredBlockHeight())
      ensures hashes != [] ==> |hashes| <= 500 && |hashes| + |blockCache| <= 500
      ensures hashes == if old(blockRequests) != map[] || bestNodeHeight.None? || node.None? then []
        else WantedHashes(ledger.chain.headerIndex, blockCache, BestStoredBlockHeight(), bestNodeHeight.value)
      ensures old(blockRequests) == map[] && node.Some? && bestNodeHeight.Some? ==>
        NextAvailable(bestNodeHeight.value) ==> ledger.chain.headerIndex[BestStoredBlockHeight() + 1] in blockRequests
    {
      hide LedgerReady, RequestsValid, HeaderRequestValid, CachesValid, IsMissing, WantedHashes, HashesUpTo, InCache;
      hashes := [];
      if blockRequests != map[] {
        return;
      }
      var best := BestStoredBlockHeight();
      var toFetch := ledger.chain.HeaderHeight() - best;
      if bestNodeHeight.Some? {
        ghost var index := ledger.chain.headerIndex;
        WantedUpTo(index, blockCache, best, bestNodeHeight.value, Min(toFetch, Min(500 - |blockCache|, 500)));
        if NextAvailable(bestNodeHeight.value) {
          NextIsWanted(index, blockCache, best, bestNodeHeight.value);
        }
      }
      if toFetch <= 0 {
        return;
      }
      var space := BLOCK_MAX_CACHE_SIZE - |blockCache|;
      if space <= 0 {
        return;
      }
      if toFetch > space || toFetch > BLOCK_NETWORK_REQ_LIMIT {
        toFetch := if space <= BLOCK_NETWORK_REQ_LIMIT then space else BLOCK_NETWORK_REQ_LIMIT;
      }
      if bestNodeHeight.None? || node.None? {
        return;
      }
      hashes := Ask(best, toFetch, bestNodeHeight.value, node.value, now);
    }

    /** The outstanding requests are those for these hashes, each for a missing height and with a flight of the node. */
    ghost predicate AreAsked(hashes: seq<Hash>, nodeId: nat, best: int)
      reads this, ledger.chain, Requests()
    {
      && (forall h :: h in hashes <==> h in blockRequests)
      && forall h | h in blockRequests ::
        IsMissing(blockRequests[h].height, best) && nodeId in blockRequests[h].flights
    }

    method Ask(best: int, toFetch: int, bestNodeHeight: int, nodeId: nat, now: int) returns (hashes: seq<Hash>)
      requires Valid() && blockRequests == map[] && best == BestStoredBlockHeight() && toFetch >= 0
      modifies this`blockRequests
      ensures fresh(Objects() - old(Objects()))
      ensures Valid() && |hashes| <= toFetch && AreAsked(hashes, nodeId, best)
      ensures hashes == HashesUpTo(ledger.chain.headerIndex, blockCache, best, bestNodeHeight, best + toFetch)
    {
      hide LedgerReady, HeaderRequestValid, CachesValid, RequestsValid, InCache, HashesUpTo, IsMissing;
      hashes := [];
      var i := 1;
      ghost var index, cache := ledger.chain.headerIndex, blockCache;
      NothingUpTo(index, cache, best, bestNodeHeight);
      assert AreAsked([], nodeId, best);
      hide AreAsked;
      while i <= toFetch
        invariant 1 <= i <= toFetch + 1 && |hashes| < i && |hashes| <= toFetch
        invariant Valid() && fresh(Requests()) && AreAsked(hashes, nodeId, best)
        invariant hashes == HashesUpTo(index, cache, best, bestNodeHeight, best + i - 1)
      {
        var height := best + i;
        HashesUpToStep(index, cache, best, bestNodeHeight, height);
        i := i + 1;
        var cached := IsInBlockCache(height);
        if cached {
          continue;
        }
        if height > bestNodeHeight || height >= |ledger.chain.headerIndex| {
          SameUpTo(index, cache, best, bestNodeHeight, height, best + toFetch);
          break;
        }
        hashes := AskFor(hashes, nodeId, height, best, now);
      }
    }

    method AskFor(hashes: seq<Hash>, nodeId: nat, height: int, best: int, now: int) returns (more: seq<Hash>)
      requires Valid() && AreAsked(hashes, nodeId, best)
      requires 0 <= best < height < |ledger.chain.headerIndex| && !InCache(blockCache, height)
      modifies this`blockRequests, Requests()
      ensures fresh(Requests() - old(Requests()))
      ensures more == hashes + [ledger.chain.headerIndex[height]]
      ensures Valid() && AreAsked(more, nodeId, best)
    {
      hide LedgerReady, HeaderRequestValid, CachesValid, RequestsValid, InCache;
      var hash := ledger.chain.headerIndex[height];
      more := hashes + [hash];
      assert IsMissing(height, best);
      hide IsMissing, SyncManager.Valid, Ledger.Valid, RequestInfo.Ready;
      AddBlockFlightInfo(nodeId, height, hash, now);
      forall h | h in blockRequests
        ensures IsMissing(blockRequests[h].height, best) && nodeId in blockRequests[h].flights
      {
        if h in old(blockRequests) {
          assert blockRequests[h] == old(blockRequests)[h];
          assert old(blockRequests[h].flights.Keys) <= blockRequests[h].flights.Keys;
        } else {
          assert h == hash;
        }
      }
    }

    /** One persisting task at a time. */
    method StartPersisting() returns (started: bool)
      requires Valid()
      modifies this`isPersistingBlocks
      ensures fresh(Objects() - old(Objects()))
      ensures Valid() && isPersistingBlocks && started == !old(isPersistingBlocks)
    {
      started := !isPersistingBlocks;
      isPersistingBlocks := true;
    }

    /** Takes the oldest block from both caches into `add_block`; persisting ends when there is none. */
    method PersistNext() returns (started: bool)
      requires Valid() && isPersistingBlocks && ledger.persisting.None?
      modifies this`blockCache, this`rawBlockCache, this`isPersistingBlocks, ledger`persisting, ledger.chain
      ensures fresh(Objects() - old(Objects()))
      ensures Valid() && old(ledger.chain.headerIndex) <= ledger.chain.headerIndex
      ensures started == ledger.persisting.Some?
      ensures if old(blockCache) == [] then !started && !isPersistingBlocks && blockCache == []
        else blockCache == old(blockCache)[1..] && rawBlockCache == old(rawBlockCache)[1..] && isPersistingBlocks
      ensures started ==> ledger.persisting == Some(old(blockCache)[0].header.index) && old(rawBlockCache)[0].parses
    {
      hide Ledger.Valid, HeaderRequestValid, DistinctHeights, Aligned;
      if blockCache == [] {
        isPersistingBlocks := false;
        return false;
      }
      CacheShrinks(blockCache, rawBlockCache);
      var raw := rawBlockCache[0];
      blockCache, rawBlockCache := blockCache[1..], rawBlockCache[1..];
      started := ledger.StartAddBlock(raw);
    }

    method EndPersist(persisted: bool) returns (success: bool)
      requires Valid() && ledger.persisting.Some?
      modifies ledger
      ensures fresh(Objects() - old(Objects()))
      ensures Valid() && ledger.persisting == None && isPersistingBlocks
      ensures ledger.height == old(ledger.height) + if success then 1 else 0
    {
      success := ledger.EndAddBlock(persisted);
    }

    /** The sender answers a request of ours, and not in the very instant of it. */
    predicate Answers(fromNode: nat, block: NetworkBlock)
      reads this, Requests()
    {
      block.header.hash in blockRequests && fromNode in blockRequests[block.header.hash].flights
    }

    /** A block in the window above the current one that is not cached yet. */
    predicate Wanted(block: NetworkBlock)
      reads this, ledger, ledger.chain
    {
      && ledger.height < block.header.index <= ledger.chain.HeaderHeight() + 1
      && !InCache(blockCache, block.header.index)
    }

    /**
     * A block is cached if it is wanted and either was asked of this node or is the next one. Its request
     * is dropped whether or not this node was asked. A reply in the same instant divides by zero and is lost.
     */
    method OnBlockReceived(fromNode: nat, block: NetworkBlock, raw: RawBlock, now: int) returns (cached: bool)
      requires Valid() && raw.header == block.header
      modifies this`blockRequests, this`blockCache, this`rawBlockCache, Requests()
      ensures fresh(Objects() - old(Objects()))
      ensures Valid()
      ensures blockCache == old(blockCache) + if cached then [block] else []
      ensures rawBlockCache == old(rawBlockCache) + if cached then [raw] else []
      ensures cached ==>
        old(Wanted(block)) && (old(Answers(fromNode, block)) || block.header.index == ledger.height + 1)
      ensures old(Wanted(block)) && old(Answers(fromNode, block)) ==>
        (cached <==> old(blockRequests[block.header.hash].flights[fromNode].startTime) != now)
      ensures old(Wanted(block)) && !old(Answers(fromNode, block)) ==>
        (cached <==> block.header.index == ledger.height + 1)
      ensures blockRequests.Keys <= old(blockRequests.Keys)
    {
      hide LedgerReady, HeaderRequestValid, CachesValid, RequestsValid;
      cached := false;
      if block.header.index > ledger.chain.HeaderHeight() + 1 || block.header.index <= ledger.height {
        return;
      }
      var asked, instant := Drop(block.header.hash, fromNode, now);
      if instant {
        return;
      }
      if !asked && block.header.index - ledger.height != 1 {
        return;
      }
      cached := CacheBlock(block, raw);
    }

    method CacheBlock(block: NetworkBlock, raw: RawBlock) returns (cached: bool)
      requires CachesValid() && raw.header == block.header
      modifies this`blockCache, this`rawBlockCache
      ensures CachesValid() && cached == !InCache(old(blockCache), block.header.index)
      ensures blockCache == old(blockCache) + if cached then [block] else []
      ensures rawBlockCache == old(rawBlockCache) + if cached then [raw] else []
    {
      var known := IsInBlockCache(block.header.index);
      cached := !known;
      if cached {
        CacheGrows(blockCache, rawBlockCache, block, raw);
        blockCache, rawBlockCache := blockCache + [block], rawBlockCache + [raw];
      }
    }

    /** The request leaves the table first, then the flight leaves the request. */
    method Drop(hash: Hash, fromNode: nat, now: int) returns (asked: bool, instant: bool)
      requires Valid()
      modifies this`blockRequests, Requests()
      ensures Valid() && blockRequests == old(blockRequests) - {hash}
      ensures asked == old(hash in blockRequests && fromNode in blockRequests[hash].flights)
      ensures instant == (asked && old(hash in blockRequests && fromNode in blockRequests[hash].flights &&
        blockRequests[hash].flights[fromNode].startTime == now))
      ensures fresh(Objects() - old(Objects()))
    {
      hide LedgerReady, HeaderRequestValid, CachesValid;
      asked, instant := false, false;
      if hash in blockRequests {
        var request := blockRequests[hash];
        blockRequests := blockRequests - {hash};
        if fromNode in request.flights {
          asked, instant := true, request.flights[fromNode].startTime == now;
          request.flights := request.flights - {fromNode};
        }
      } else {
        assert blockRequests - {hash} == blockRequests;
      }
    }

    ghost predicate IsOverdue(h: Hash, now: int)
      reads this, Requests()
    {
      h in blockRequests && blockRequests[h].Ready()
        && now - blockRequests[h].MostRecentFlight().startTime > 5
    }

    ghost predicate IsLate(r: Retry, late: set<nat>, best: int)
      reads this
    {
      r.hash in blockRequests && blockRequests[r.hash] == r.request && r.failedNode in late && r.height > best
    }

    /**
     * Requests whose latest flight is too old: those at stored heights are dropped, the others are handed
     * on, with their nodes, to be retried after a suspension.
     */
    method CheckBlockTimeout(now: int) returns (remaining: seq<Retry>, late: set<nat>)
      requires Valid()
      modifies this`blockRequests
      ensures Valid() && blockRequests.Keys <= old(blockRequests.Keys)
      ensures fresh(Objects() - old(Objects()))
      ensures forall r | r in remaining :: IsLate(r, late, BestStoredBlockHeight()) && r.request in Objects()
      ensures forall h | h in old(blockRequests) && h !in blockRequests ::
        old(IsOverdue(h, now)) && old(blockRequests[h].MostRecentFlight().height <= BestStoredBlockHeight())
      ensures forall h | old(IsOverdue(h, now)) :: h !in blockRequests || Retries(remaining, h)
    {
      hide LedgerReady, HeaderRequestValid, CachesValid;
      var best := BestStoredBlockHeight();
      var stale;
      remaining, late, stale := TimedOut(now, best);
      blockRequests := blockRequests - stale;
      forall r | r in remaining ensures IsLate(r, late, BestStoredBlockHeight()) && r.request in Objects() {
        assert r.hash in blockRequests;
      }
      forall h | h in old(blockRequests) && h !in blockRequests
        ensures old(IsOverdue(h, now)) && old(blockRequests[h].MostRecentFlight().height <= BestStoredBlockHeight())
      {
        assert h in stale;
      }
    }

    /** The loops over the outstanding requests: what to retry, which nodes were late, what to drop. */
    method TimedOut(now: int, best: int) returns (remaining: seq<Retry>, late: set<nat>, stale: set<Hash>)
      requires forall h | h in blockRequests :: blockRequests[h].Ready()
      ensures forall r | r in remaining :: IsLate(r, late, best) && r.hash !in stale
      ensures forall h | h in stale :: IsOverdue(h, now) && blockRequests[h].MostRecentFlight().height <= best
      ensures forall h | IsOverdue(h, now) :: h in stale || Retries(remaining, h)
    {
      remaining, late, stale := [], {}, {};
      var rest := blockRequests.Keys;
      while rest != {}
        invariant rest <= blockRequests.Keys && rest !! stale
        invariant forall r | r in remaining :: IsLate(r, late, best) && r.hash !in stale && r.hash !in rest
        invariant forall h | h in stale :: IsOverdue(h, now) && blockRequests[h].MostRecentFlight().height <= best
        invariant forall h | IsOverdue(h, now) :: h in rest || h in stale || Retries(remaining, h)
        decreases rest
      {
        var hash :| hash in rest;
        rest := rest - {hash};
        var last := blockRequests[hash].MostRecentFlight();
        if now - last.startTime > REQUEST_TIMEOUT {
          late := late + {last.nodeId};
          if last.height <= best {
            stale := stale + {hash};
          } else {
            ghost var before := remaining;
            remaining := remaining + [Retry(hash, last.height, blockRequests[hash], last.nodeId)];
            MoreRetries(before, remaining[|before|]);
          }
        }
      }
    }

    /** The requests may have been answered meanwhile: they still get their marks and flights. */
    method RetryBlocks(remaining: seq<Retry>, node: Option<nat>, now: int)
      requires Valid()
      modifies set r | r in remaining :: r.request
      ensures Valid()
      ensures fresh(Objects() - old(Objects()))
      ensures node.Some? ==> forall r | r in remaining :: r.request.lastUsedNode == node && r.request.Ready()
    {
      hide LedgerReady, CachesValid;
      MarkFailed(remaining);
      if node.Some? {
        AddFlights(remaining, node.value, now);
      }
    }

    method MarkFailed(remaining: seq<Retry>)
      modifies set r | r in remaining :: r.request
      ensures forall o: RequestInfo | old(allocated(o)) && old(o.Ready()) :: o.Ready()
    {
      for i := 0 to |remaining|
        invariant forall o: RequestInfo | old(allocated(o)) && old(o.Ready()) :: o.Ready()
      {
        remaining[i].request.MarkFailedNode(remaining[i].failedNode);
      }
    }

    method AddFlights(remaining: seq<Retry>, nodeId: nat, now: int)
      modifies set r | r in remaining :: r.request
      ensures forall o: RequestInfo | old(allocated(o)) && old(o.Ready()) :: o.Ready()
      ensures forall r | r in remaining :: r.request.lastUsedNode == Some(nodeId) && r.request.Ready()
    {
      for i := 0 to |remaining|
        invariant forall o: RequestInfo | old(allocated(o)) && old(o.Ready()) :: o.Ready()
        invariant forall k :: 0 <= k < i ==>
          remaining[k].request.lastUsedNode == Some(nodeId) && remaining[k].request.Ready()
      {
        remaining[i].request.AddNewFlight(FlightInfo(nodeId, remaining[i].height, now));
      }
    }

    /** A step of a task or handler of headers. */
    method HeaderStep(event: Event, hand: Option<seq<Header>>, lastFlight: Option<FlightInfo>)
        returns (taken: Option<seq<Header>>, late: Option<FlightInfo>)
      requires Valid() && event.OfHeaders()
      modifies this`headerRequest, this`headerCache, ledger.chain, HeaderRequests()
      ensures Valid() && old(ledger.chain.headerIndex) <= ledger.chain.headerIndex
      ensures fresh(Objects() - old(Objects()))
    {
      hide SyncManager.Valid, HeaderIsLate, IsAskedFor, RequestInfo.Ready, RequestInfo.MostRecentFlight;
      taken, late := hand, lastFlight;
      match event {
        case SyncHeader(node, now) =>
          var asked := SyncHeader(node, now);
        case HeadersReceived(hs) =>
          var code := OnHeadersReceived(hs);
        case TakeHeaders =>
          taken := TakeHeaders();
        case AddHeaders =>
          if hand.Some? {
            AddHeaders(hand.value);
          }
        case FinishHeaders =>
          FinishHeaders();
        case CheckHeaderTimeout(now) =>
          late := CheckHeaderTimeout(now);
        case RetryHeader(node, now) =>
          if lastFlight.Some? {
            RetryHeader(lastFlight.value, node, now);
          }
      }
    }

    /** A step of a task or handler of blocks, and whether it persisted one. */
    method BlockStep(event: Event, remaining: seq<Retry>) returns (retries: seq<Retry>, success: bool)
      requires Valid() && !event.OfHeaders()
      modifies this, ledger, ledger.chain, Requests(), set r | r in remaining :: r.request
      ensures Valid() && old(ledger.chain.headerIndex) <= ledger.chain.headerIndex
      ensures fresh(Objects() - old(Objects()))
      ensures ledger.height == old(ledger.height) + if success then 1 else 0
      ensures forall r | r in retries :: r in remaining || r.request in Objects()
    {
      hide SyncManager.Valid, IsLate, Wanted, Answers, IsMissing, InCache, AreAsked, WantedHashes, NextAvailable;
      hide BestStoredBlockHeight, IsOverdue, Retries, RequestInfo.Ready, RequestInfo.MostRecentFlight;
      retries, success := remaining, false;
      match event {
        case SyncBlock(bestNodeHeight, node, now) =>
          var hashes := SyncBlock(bestNodeHeight, node, now);
        case StartPersisting =>
          var started := StartPersisting();
        case PersistNext =>
          if isPersistingBlocks && ledger.persisting.None? {
            var started := PersistNext();
          }
        case EndPersist(persisted) =>
          if ledger.persisting.Some? {
            success := EndPersist(persisted);
          }
        case BlockReceived(fromNode, block, parses, now) =>
          var cached := OnBlockReceived(fromNode, block, RawBlock(block.header, parses), now);
        case CheckBlockTimeout(now) =>
          var late;
          retries, late := CheckBlockTimeout(now);
        case RetryBlocks(node, now) =>
          RetryBlocks(remaining, node, now);
      }
    }

    /**
     * Any interleaving of the steps of the tasks and handlers, each running up to its next suspension.
     * What a task carries across one is kept here; a step that is not due does nothing.
     */
    method Run(events: seq<Event>) returns (successes: nat)
      requires Valid()
      modifies this, ledger, ledger.chain, Objects()
      ensures Valid()
      ensures ledger.height == old(ledger.height) + successes <= ledger.chain.HeaderHeight()
      ensures old(ledger.chain.headerIndex) <= ledger.chain.headerIndex
    {
      hide SyncManager.Valid, Blockchain.HeaderHeight;
      var hand: Option<seq<Header>> := None;
      var lastFlight: Option<FlightInfo> := None;
      var remaining: seq<Retry> := [];
      successes := 0;
      for i := 0 to |events|
        invariant Valid() && ledger.height == old(ledger.height) + successes
        invariant old(ledger.chain.headerIndex) <= ledger.chain.headerIndex
        invariant fresh(Objects() - old(Objects()))
        invariant forall r | r in remaining :: r.request in old(Objects()) || fresh(r.request)
      {
        if events[i].OfHeaders() {
          hand, lastFlight := HeaderStep(events[i], hand, lastFlight);
        } else {
          var success;
          remaining, success := BlockStep(events[i], remaining);
          successes := successes + if success then 1 else 0;
        }
      }
      HeightCovered();
    }

    lemma HeightCovered()
      requires Valid()
      ensures ledger.height <= ledger.chain.HeaderHeight()
    {
    }
  }

  datatype Event =
    | SyncHeader(node: Option<nat>, now: int)
    | HeadersReceived(hs: seq<Header>)
    | TakeHeaders
    | AddHeaders
    | FinishHeaders
    | CheckHeaderTimeout(now: int)
    | RetryHeader(node: Option<nat>, now: int)
    | SyncBlock(bestNodeHeight: Option<int>, node: Option<nat>, now: int)
    | StartPersisting
    | PersistNext
    | EndPersist(persisted: bool)
    | BlockReceived(fromNode: nat, block: NetworkBlock, parses: bool, now: int)
    | CheckBlockTimeout(now: int)
    | RetryBlocks(node: Option<nat>, now: int)
  {
    predicate OfHeaders() {
      || SyncHeader? || HeadersReceived? || TakeHeaders? || AddHeaders? || FinishHeaders? || CheckHeaderTimeout?
      || RetryHeader?
    }
  }

  ghost predicate Retries(remaining: seq<Retry>, h: Hash) {
    exists r :: r in remaining && r.hash == h
  }

  lemma MoreRetries(remaining: seq<Retry>, r: Retry)
    ensures forall h | Retries(remaining, h) :: Retries(remaining + [r], h)
    ensures Retries(remaining + [r], r.hash)
  {
    assert r in remaining + [r];
    forall h | Retries(remaining, h) ensures Retries(remaining + [r], h) {
      var q :| q in remaining && q.hash == h;
      assert q in remaining + [r];
    }
  }

  lemma CacheShrinks(cache: seq<NetworkBlock>, raw: seq<RawBlock>)
    requires DistinctHeights(cache) && Aligned(cache, raw) && cache != []
    ensures |raw| == |cache| && raw[0].header == cache[0].header
    ensures DistinctHeights(cache[1..]) && Aligned(cache[1..], raw[1..])
  {
  }

  lemma CacheGrows(cache: seq<NetworkBlock>, raw: seq<RawBlock>, block: NetworkBlock, r: RawBlock)
    requires DistinctHeights(cache) && Aligned(cache, raw)
    requires r.header == block.header && !InCache(cache, block.header.index)
    ensures DistinctHeights(cache + [block]) && Aligned(cache + [block], raw + [r])
  {
  }
}