/** FromAll of zcncore/transaction_query.go end to end: the vote handlers run inside Wait of the parallel
    engine, so what they see is the log of one of its runs. The verdicts do not depend on the schedule,
    and every vote comes from a different sharder. */
module FromAll {
  import opened Support
  import opened Cardinality
  import opened Tally
  import opened Confirmations
  import opened TransactionQuery
  import Resty

  type Key = nat -> Option<string>

  /** The ballots of a list of sharders. */
  function BallotsOf<K>(urls: seq<nat>, key: nat -> Option<K>): (b: Ballots<K>)
    ensures |b| == |urls|
    ensures forall i :: 0 <= i < |urls| ==> b[i] == key(urls[i])
  {
    seq(|urls|, i requires 0 <= i < |urls| => key(urls[i]))
  }

  function Voters<K(==)>(urls: seq<nat>, key: nat -> Option<K>, k: K): set<nat> {
    set u | u in urls && key(u) == Some(k)
  }

  /** Among distinct sharders, a key's count is the number of sharders that vote for it. */
  lemma {:induction false} CountIsVoters<K>(urls: seq<nat>, key: nat -> Option<K>, k: K)
    requires Distinct(urls)
    ensures Count(BallotsOf(urls, key), k) == |Voters(urls, key, k)|
  {
    if urls == [] {
      assert Voters(urls, key, k) == {};
    } else {
      var m := |urls| - 1;
      var rest, last := urls[..m], urls[m];
      CountIsVoters(rest, key, k);
      assert BallotsOf(urls, key) == BallotsOf(rest, key) + [key(last)];
      assert urls == rest + [last];
      if key(last) == Some(k) {
        assert Voters(urls, key, k) == Voters(rest, key, k) + {last};
      } else {
        assert Voters(urls, key, k) == Voters(rest, key, k);
      }
    }
  }

  /** Fewer sharders cast no more votes; all of them cast the same votes in any order. */
  lemma FewerVoters<K>(some: seq<nat>, all: seq<nat>, key: nat -> Option<K>, k: K)
    requires Distinct(some) && Distinct(all)
    requires forall u :: u in some ==> u in all
    ensures Count(BallotsOf(some, key), k) <= Count(BallotsOf(all, key), k)
    ensures (forall u :: u in all ==> u in some) ==> Count(BallotsOf(some, key), k) == Count(BallotsOf(all, key), k)
  {
    CountIsVoters(some, key, k);
    CountIsVoters(all, key, k);
    SubsetCard(Voters(some, key, k), Voters(all, key, k));
    if forall u :: u in all ==> u in some {
      assert Voters(some, key, k) == Voters(all, key, k);
    }
  }

  // ----- the log of a run -----

  function ResultOf(c: Resty.Call, url: nat): QueryResult {
    if url < |c.results| then
      var r := c.results[url];
      ToQueryResult(r.statusCode, r.body, r.err)
    else QueryResult("", 0, None)
  }

  /** What the handler has seen, in order of arrival. */
  function Delivered(c: Resty.Call, urls: seq<nat>): (d: seq<QueryResult>)
    ensures |d| == |urls|
    ensures forall i :: 0 <= i < |urls| ==> d[i] == ResultOf(c, urls[i])
  {
    seq(|urls|, i requires 0 <= i < |urls| => ResultOf(c, urls[i]))
  }

  function Everyone(n: nat): (urls: seq<nat>)
    ensures Distinct(urls)
    ensures forall u: nat :: u in urls <==> u < n
  {
    if n == 0 then []
    else
      var rest := Everyone(n - 1);
      assert forall a :: 0 <= a < |rest| ==> rest[a] in rest;
      rest + [n - 1]
  }

  function VouchKey(c: Resty.Call, w: World, txnHash: string): Key {
    (url: nat) => KeyOf(ConfirmationVote(w, txnHash, ResultOf(c, url)))
  }

  function StatusKey(c: Resty.Call): nat -> Option<int> {
    (url: nat) => VotedStatus(ResultOf(c, url))
  }

  lemma VouchBallots(c: Resty.Call, w: World, txnHash: string, urls: seq<nat>)
    ensures Keys(ConfirmationVotes(w, txnHash, Delivered(c, urls))) == BallotsOf(urls, VouchKey(c, w, txnHash))
  {
  }

  lemma StatusBallotsOf(c: Resty.Call, urls: seq<nat>)
    ensures StatusBallots(Delivered(c, urls)) == BallotsOf(urls, StatusKey(c))
  {
  }

  lemma HandledExist(c: Resty.Call, run: seq<Resty.State>, k: nat)
    requires Resty.Run(c, run) && k < |run|
    ensures forall u :: u in Resty.Urls(run[k].log) ==> u < |c.results|
  {
    Resty.RunKeepsInv(c, run, k);
  }

  // ----- the verdicts, in terms of the sharders -----

  /** The sharder's response has status 200 and proves the transaction in this block. */
  ghost predicate Backs(w: World, txnHash: string, result: Resty.Result, hash: string) {
    result.statusCode == Some(200) && VouchesFor(w, txnHash, QueryResult(result.body, 200, None), hash)
  }

  ghost function Backers(c: Resty.Call, w: World, txnHash: string, hash: string): set<nat> {
    set u: nat | u < |c.results| && Backs(w, txnHash, c.results[u], hash)
  }

  ghost predicate BackedBy(c: Resty.Call, w: World, txnHash: string, numSharders: int, hash: string) {
    |Backers(c, w, txnHash, hash)| > 0 && |Backers(c, w, txnHash, hash)| >= numSharders
  }

  /** Some block is backed by that many of all sharders. */
  ghost predicate SharderQuorum(c: Resty.Call, w: World, txnHash: string, numSharders: int) {
    exists hash :: BackedBy(c, w, txnHash, numSharders, hash)
  }

  /** The sharders with this status; one that gave no response counts as 400. */
  ghost function WithStatus(c: Resty.Call, status: int): set<nat> {
    set u: nat | u < |c.results| && (c.results[u].statusCode == Some(status)
                                     || (c.results[u].statusCode == None && status == 400))
  }

  /** Status 200 prevails among all sharders. */
  ghost predicate SharderOk(c: Resty.Call) {
    && c.results != [] && |WithStatus(c, 200)| > 0
    && (forall s :: s < 500 ==> |WithStatus(c, s)| <= |WithStatus(c, 200)|)
    && 4 * |WithStatus(c, 200)| >= |c.results|
  }

  lemma VouchKeyIff(c: Resty.Call, w: World, txnHash: string, u: nat, hash: string)
    requires u < |c.results|
    ensures VouchKey(c, w, txnHash)(u) == Some(hash) <==> Backs(w, txnHash, c.results[u], hash)
  {
    var qr := ResultOf(c, u);
    VoteKeyIff(w, txnHash, qr, hash);
    SameVouching(w, txnHash, qr, QueryResult(c.results[u].body, 200, None), hash);
  }

  lemma SameVouching(w: World, txnHash: string, a: QueryResult, b: QueryResult, hash: string)
    requires a.content == b.content
    ensures a.statusCode == b.statusCode ==> (VouchesFor(w, txnHash, a, hash) <==> VouchesFor(w, txnHash, b, hash))
    ensures a.statusCode != 200 ==> !VouchesFor(w, txnHash, a, hash)
  {
    if a.statusCode == b.statusCode {
      if header, block :| Vouches(w, txnHash, a, header, block) && header.hash == hash {
        assert Vouches(w, txnHash, b, header, block);
      }
      if header, block :| Vouches(w, txnHash, b, header, block) && header.hash == hash {
        assert Vouches(w, txnHash, a, header, block);
      }
    }
  }

  /** Counting the votes of all sharders. */
  lemma EveryoneVouches(c: Resty.Call, w: World, txnHash: string, hash: string)
    ensures Count(Keys(ConfirmationVotes(w, txnHash, Delivered(c, Everyone(|c.results|)))), hash)
         == |Backers(c, w, txnHash, hash)|
  {
    var all, key := Everyone(|c.results|), VouchKey(c, w, txnHash);
    VouchBallots(c, w, txnHash, all);
    CountIsVoters(all, key, hash);
    forall u: nat | u < |c.results| ensures key(u) == Some(hash) <==> Backs(w, txnHash, c.results[u], hash) {
      VouchKeyIff(c, w, txnHash, u, hash);
    }
    assert Voters(all, key, hash) == Backers(c, w, txnHash, hash);
  }

  lemma EveryoneQuorum(c: Resty.Call, w: World, txnHash: string, numSharders: int)
    ensures HasQuorum(ConfirmationVotes(w, txnHash, Delivered(c, Everyone(|c.results|))), numSharders)
       <==> SharderQuorum(c, w, txnHash, numSharders)
  {
    var keys := Keys(ConfirmationVotes(w, txnHash, Delivered(c, Everyone(|c.results|))));
    if hash :| Count(keys, hash) > 0 && Count(keys, hash) >= numSharders {
      EveryoneVouches(c, w, txnHash, hash);
      assert BackedBy(c, w, txnHash, numSharders, hash);
    }
    if hash :| BackedBy(c, w, txnHash, numSharders, hash) {
      EveryoneVouches(c, w, txnHash, hash);
    }
  }

  lemma EveryoneReplies(c: Resty.Call, status: int)
    requires status < 500
    ensures Count(StatusBallots(Delivered(c, Everyone(|c.results|))), status) == |WithStatus(c, status)|
  {
    var all, key := Everyone(|c.results|), StatusKey(c);
    StatusBallotsOf(c, all);
    CountIsVoters(all, key, status);
    assert Voters(all, key, status) == WithStatus(c, status);
  }

  /** A confirmation quorum of n replies is a quorum of n different sharders, each of which proves the
      transaction in the same block. */
  lemma QuorumOfDistinctSharders(c: Resty.Call, run: seq<Resty.State>, k: nat,
                                 w: World, txnHash: string, numSharders: int)
    returns (block: string, sharders: set<nat>)
    requires Resty.Run(c, run) && k < |run|
    requires Quorum(w, txnHash, Delivered(c, Resty.Urls(run[k].log)), numSharders)
    ensures |sharders| >= numSharders && |sharders| > 0
    ensures forall u :: u in sharders ==> u < |c.results| && Backs(w, txnHash, c.results[u], block)
  {
    QuorumIff(w, txnHash, Delivered(c, Resty.Urls(run[k].log)), numSharders);
    Resty.EachUrlHandledOnce(c, run, k);
    HandledExist(c, run, k);
    var urls := Resty.Urls(run[k].log);
    VouchBallots(c, w, txnHash, urls);
    var votes := ConfirmationVotes(w, txnHash, Delivered(c, urls));
    block :| Count(Keys(votes), block) > 0 && Count(Keys(votes), block) >= numSharders;
    CountIsVoters(urls, VouchKey(c, w, txnHash), block);
    sharders := Voters(urls, VouchKey(c, w, txnHash), block);
    forall u | u in sharders ensures u < |c.results| && Backs(w, txnHash, c.results[u], block) {
      VouchKeyIff(c, w, txnHash, u, block);
    }
  }

  // ----- runs cancelled by the handler alone -----

  /** Whether the handler asks to cancel the other requests, given the replies handled so far. */
  type Asks = seq<QueryResult> -> bool

  /** getConsensusConfirmation's handler, which is ConfirmationHandler.Handle. */
  ghost function ConfirmationAsks(w: World, txnHash: string, numSharders: int): Asks {
    delivered => CompletesQuorum(ConfirmationVotes(w, txnHash, delivered), numSharders)
  }

  /** GetInfo's handler. */
  ghost function NeverAsks(): Asks {
    delivered => false
  }

  /** The context is cancelled by nobody but the handler, which returns no error. */
  ghost predicate Step(c: Resty.Call, asks: Asks, s: Resty.State, s': Resty.State) {
    || (exists i: nat :: Resty.Send(c, s, s', i))
    || Resty.ReturnCancelled(c, s, s')
    || (s.done != [] && Resty.Handle(c, s, s', None, asks(Delivered(c, Resty.Urls(s.log) + [s.done[0]]))))
  }

  ghost predicate Run(c: Resty.Call, asks: Asks, run: seq<Resty.State>) {
    && c.hasHandler && c.mode == Resty.Wait
    && run != [] && run[0] == Resty.Init(c)
    && forall k :: 0 < k < |run| ==> Step(c, asks, run[k - 1], run[k])
  }

  lemma RunOfEngine(c: Resty.Call, asks: Asks, run: seq<Resty.State>)
    requires Run(c, asks, run)
    ensures Resty.Run(c, run)
  {
  }

  /** The handler asked for it at some reply. */
  ghost predicate Asked(c: Resty.Call, asks: Asks, urls: seq<nat>) {
    exists n: nat :: 0 < n <= |urls| && asks(Delivered(c, urls[..n]))
  }

  /** When only the handler cancels, the context is cancelled exactly when the handler asked for it. */
  lemma {:induction false} CancelledIffAsked(c: Resty.Call, asks: Asks, run: seq<Resty.State>, k: nat)
    requires Run(c, asks, run) && k < |run|
    ensures run[k].ctx != Resty.Live <==> Asked(c, asks, Resty.Urls(run[k].log))
  {
    if k > 0 {
      CancelledIffAsked(c, asks, run, k - 1);
      var s, s' := run[k - 1], run[k];
      if s'.log != s.log {
        AskedBefore(c, asks, s, s');
      }
    }
  }

  lemma AskedBefore(c: Resty.Call, asks: Asks, s: Resty.State, s': Resty.State)
    requires s.done != [] && Resty.Handle(c, s, s', None, asks(Delivered(c, Resty.Urls(s.log) + [s.done[0]])))
    requires s.ctx != Resty.Live <==> Asked(c, asks, Resty.Urls(s.log))
    ensures s'.ctx != Resty.Live <==> Asked(c, asks, Resty.Urls(s'.log))
  {
    var urls, urls' := Resty.Urls(s.log), Resty.Urls(s'.log);
    assert urls' == urls + [s.done[0]];
    assert urls'[..|urls'|] == urls';
    if s.ctx != Resty.Live {
      var n: nat :| 0 < n <= |urls| && asks(Delivered(c, urls[..n]));
      assert urls'[..n] == urls[..n];
    }
    if n: nat :| 0 < n <= |urls'| && asks(Delivered(c, urls'[..n])) {
      if n <= |urls| {
        assert urls'[..n] == urls[..n];
      } else {
        assert urls'[..n] == urls';
      }
    }
  }

  lemma CompletedIsQuorum<T>(votes: Votes<T>, numSharders: int)
    requires CompletesQuorum(votes, numSharders)
    ensures HasQuorum(votes, numSharders)
  {
    var m := |votes| - 1;
    var block := votes[m].value.key;
    assert Count(Keys(votes[..m]), block) < Count(Keys(votes), block);
  }

  lemma QuorumStays<T>(some: Votes<T>, more: Votes<T>, numSharders: int)
    requires HasQuorum(some, numSharders)
    ensures HasQuorum(some + more, numSharders)
  {
    var block :| Count(Keys(some), block) > 0 && Count(Keys(some), block) >= numSharders;
    assert Keys(some + more) == Keys(some) + Keys(more);
    CountAppend(Keys(some), Keys(more), block);
  }

  /** A quorum completed by some reply is a quorum among the replies handled in the end. */
  lemma CompletedQuorumStays(c: Resty.Call, w: World, txnHash: string, numSharders: int, urls: seq<nat>, n: nat)
    requires n <= |urls|
    requires CompletesQuorum(ConfirmationVotes(w, txnHash, Delivered(c, urls[..n])), numSharders)
    ensures HasQuorum(ConfirmationVotes(w, txnHash, Delivered(c, urls)), numSharders)
  {
    var some := ConfirmationVotes(w, txnHash, Delivered(c, urls[..n]));
    var more := ConfirmationVotes(w, txnHash, Delivered(c, urls[n..]));
    CompletedIsQuorum(some, numSharders);
    QuorumStays(some, more, numSharders);
    VotesSplit(c, w, txnHash, urls, n);
  }

  lemma VotesSplit(c: Resty.Call, w: World, txnHash: string, urls: seq<nat>, n: nat)
    requires n <= |urls|
    ensures ConfirmationVotes(w, txnHash, Delivered(c, urls))
         == ConfirmationVotes(w, txnHash, Delivered(c, urls[..n]))
            + ConfirmationVotes(w, txnHash, Delivered(c, urls[n..]))
  {
  }

  /** Whether a confirmation is found does not depend on the schedule: the context is cancelled by the
      handler alone, and when the query returns, the replies handled have a quorum exactly when the
      replies of all sharders do. */
  lemma ConfirmationIsScheduleIndependent(c: Resty.Call, run: seq<Resty.State>, k: nat,
                                          w: World, txnHash: string, numSharders: int)
    requires Run(c, ConfirmationAsks(w, txnHash, numSharders), run) && k < |run|
    requires run[k].consumer != Resty.Collecting
    ensures Quorum(w, txnHash, Delivered(c, Resty.Urls(run[k].log)), numSharders)
       <==> SharderQuorum(c, w, txnHash, numSharders)
  {
    QuorumIff(w, txnHash, Delivered(c, Resty.Urls(run[k].log)), numSharders);
    EveryoneQuorum(c, w, txnHash, numSharders);
    var asks := ConfirmationAsks(w, txnHash, numSharders);
    RunOfEngine(c, asks, run);
    Resty.EachUrlHandledOnce(c, run, k);
    HandledExist(c, run, k);
    var urls, all := Resty.Urls(run[k].log), Everyone(|c.results|);
    var key := VouchKey(c, w, txnHash);
    VouchBallots(c, w, txnHash, urls);
    VouchBallots(c, w, txnHash, all);
    assert forall u :: u in urls ==> u in all;
    CancelledIffAsked(c, asks, run, k);
    if run[k].ctx == Resty.Live {
      var _, _, _ := Resty.UncancelledWaitHandlesAll(c, run, k);
    } else {
      var n: nat :| 0 < n <= |urls| && asks(Delivered(c, urls[..n]));
      CompletedQuorumStays(c, w, txnHash, numSharders, urls, n);
    }
    forall hash
      ensures Count(BallotsOf(urls, key), hash) <= Count(BallotsOf(all, key), hash)
      ensures run[k].ctx == Resty.Live ==> Count(BallotsOf(urls, key), hash) == Count(BallotsOf(all, key), hash)
    {
      FewerVoters(urls, all, key, hash);
    }
    QuorumByCounts(ConfirmationVotes(w, txnHash, Delivered(c, urls)),
                   ConfirmationVotes(w, txnHash, Delivered(c, all)), numSharders);
  }

  lemma QuorumByCounts<T>(some: Votes<T>, all: Votes<T>, numSharders: int)
    requires forall h :: Count(Keys(some), h) <= Count(Keys(all), h)
    requires (forall h :: Count(Keys(some), h) == Count(Keys(all), h)) || HasQuorum(some, numSharders)
    ensures HasQuorum(some, numSharders) <==> HasQuorum(all, numSharders)
  {
    if h :| Count(Keys(some), h) > 0 && Count(Keys(some), h) >= numSharders {
      assert Count(Keys(all), h) > 0 && Count(Keys(all), h) >= numSharders;
    }
  }

  /** GetInfo never cancels, so when it returns it succeeds exactly when 200 prevails among the replies of
      all sharders. */
  lemma InfoIsScheduleIndependent(c: Resty.Call, run: seq<Resty.State>, k: nat)
    requires Run(c, NeverAsks(), run) && k < |run|
    requires run[k].consumer != Resty.Collecting
    ensures OkWins(Delivered(c, Resty.Urls(run[k].log)), |c.results|) <==> SharderOk(c)
  {
    RunOfEngine(c, NeverAsks(), run);
    CancelledIffAsked(c, NeverAsks(), run, k);
    var _, _, _ := Resty.UncancelledWaitHandlesAll(c, run, k);
    var urls, all := Resty.Urls(run[k].log), Everyone(|c.results|);
    StatusBallotsOf(c, urls);
    StatusBallotsOf(c, all);
    forall s | s < 500 ensures |Replied(Delivered(c, urls), s)| == |WithStatus(c, s)| {
      FewerVoters(urls, all, StatusKey(c), s);
      CountIsReplied(Delivered(c, urls), s);
      EveryoneReplies(c, s);
    }
  }
}
