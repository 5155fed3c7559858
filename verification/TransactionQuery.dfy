/** The sharder queries of zcncore/transaction_query.go: every reply handled by FromAll's closure is one
    element of `delivered`, in order of arrival, including replies handled after an early cancel. */
module TransactionQuery {
  import opened Support
  import opened BlockChain
  import opened Tally
  import opened RoundVote
  import opened Confirmations

  const STATUS_BAD_REQUEST := 400
  const STATUS_SERVER_ERROR := 500

  datatype QueryResult = QueryResult(content: string, statusCode: int, error: Option<string>)

  /** FromAll's view of a finished request: without a response it counts as status 400. */
  function ToQueryResult(statusCode: Option<int>, body: string, error: Option<string>): QueryResult {
    QueryResult(body, if statusCode.Some? then statusCode.value else STATUS_BAD_REQUEST, error)
  }

  // ----- GetInfo -----

  datatype InfoResult =
    | Info(reply: QueryResult) | NoAvailableSharders | QueryNotFound | InvalidConsensus | Rejected(content: string)

  /** The replies with this status. */
  ghost function Replied(delivered: seq<QueryResult>, status: int): set<nat> {
    set i: nat | i < |delivered| && delivered[i].statusCode == status
  }

  /** Status 200 occurs, is matched or beaten by no other status below 500, and comes from a quarter of
      the sharders. */
  ghost predicate OkWins(delivered: seq<QueryResult>, max: nat) {
    && max > 0 && |Replied(delivered, 200)| > 0
    && (forall s :: s < 500 ==> |Replied(delivered, s)| <= |Replied(delivered, 200)|)
    && 4 * |Replied(delivered, 200)| >= max
  }

  ghost predicate IsLastOk(delivered: seq<QueryResult>, i: nat) {
    && i < |delivered| && delivered[i].statusCode == 200
    && forall j :: i < j < |delivered| ==> delivered[j].statusCode != 200
  }

  /** The i-th reply has a status below 500 that no other one outnumbers, that beats 200, and that comes
      from a quarter of the sharders. */
  ghost predicate OtherWins(delivered: seq<QueryResult>, i: nat, max: nat) {
    && i < |delivered| && delivered[i].statusCode < 500
    && (forall s :: s < 500 ==> |Replied(delivered, s)| <= |Replied(delivered, delivered[i].statusCode)|)
    && |Replied(delivered, 200)| < |Replied(delivered, delivered[i].statusCode)|
    && 4 * |Replied(delivered, delivered[i].statusCode)| >= max
  }

  /** No status below 500 comes from a quarter of the sharders, but some reply has one. */
  ghost predicate NobodyWins(delivered: seq<QueryResult>, max: nat) {
    && (exists i :: 0 <= i < |delivered| && delivered[i].statusCode < 500)
    && forall s :: s < 500 ==> 4 * |Replied(delivered, s)| < max
  }

  // ----- GetInfo, as it counts -----

  /** Server errors are ignored, every other status is a vote for itself. */
  function VotedStatus(qr: QueryResult): Option<int> {
    if qr.statusCode >= STATUS_SERVER_ERROR then None else Some(qr.statusCode)
  }

  function StatusBallots(delivered: seq<QueryResult>): (b: Ballots<int>)
    ensures |b| == |delivered|
  {
    seq(|delivered|, i requires 0 <= i < |delivered| => VotedStatus(delivered[i]))
  }

  ghost predicate LastVoteFor(ballots: Ballots<int>, i: nat, status: int) {
    && i < |ballots| && ballots[i] == Some(status)
    && forall j :: i < j < |ballots| ==> ballots[j] != Some(status)
  }

  /** What the closure's captured variables mean: the response held is the last 200 as long as 200 is
      not strictly beaten. */
  ghost predicate Leads(delivered: seq<QueryResult>, n: nat, leader: nat, most: nat)
    requires n <= |delivered|
  {
    var ballots := StatusBallots(delivered)[..n];
    && leader < n && ballots[leader].Some?
    && Count(ballots, ballots[leader].value) == most
    && (if ballots[leader] == Some(STATUS_OK) then LastVoteFor(ballots, leader, STATUS_OK)
        else Count(ballots, STATUS_OK) < most)
  }

  /** GetInfo after FromAll has handled these replies. */
  method GetInfo(max: nat, delivered: seq<QueryResult>) returns (r: InfoResult)
    ensures r.Info? <==> OkWins(delivered, max)
    ensures r.Info? ==> exists i: nat :: IsLastOk(delivered, i) && r.reply == delivered[i]
    ensures r.NoAvailableSharders? <==> max == 0
    ensures r.QueryNotFound? <==> max > 0 && forall i :: 0 <= i < |delivered| ==> delivered[i].statusCode >= 500
    ensures r.Rejected? <==> max > 0 && exists i: nat :: OtherWins(delivered, i, max)
    ensures r.Rejected? ==> exists i: nat :: OtherWins(delivered, i, max) && r.content == delivered[i].content
    ensures r.InvalidConsensus? <==> max > 0 && NobodyWins(delivered, max)
  {
    if max == 0 {
      return NoAvailableSharders;
    }
    var maxConsensus, consensusesResp, leader := TallyInfo(delivered);
    if maxConsensus == 0 {
      NobodyReplied(delivered);
      return QueryNotFound;
    }
    TallyDecides(delivered, max, maxConsensus, leader);
    if maxConsensus * 100 / max < CONSENSUS_THRESH {
      return InvalidConsensus;
    }
    if consensusesResp.statusCode != STATUS_OK {
      return Rejected(consensusesResp.content);
    }
    return Info(consensusesResp);
  }

  /** What the tally says of the outcome: which of the three it is, and that it is no other. */
  lemma TallyDecides(delivered: seq<QueryResult>, max: nat, most: nat, leader: nat)
    requires max > 0 && most > 0
    requires forall s :: Count(StatusBallots(delivered), s) <= most
    requires Leads(delivered, |delivered|, leader, most)
    ensures delivered[leader].statusCode < 500
    ensures most * 100 / max < CONSENSUS_THRESH <==> NobodyWins(delivered, max)
    ensures most * 100 / max >= CONSENSUS_THRESH && delivered[leader].statusCode == 200 <==> OkWins(delivered, max)
    ensures OkWins(delivered, max) ==> IsLastOk(delivered, leader)
    ensures (exists i: nat :: OtherWins(delivered, i, max)) <==> OtherWins(delivered, leader, max)
    ensures OtherWins(delivered, leader, max) <==>
              most * 100 / max >= CONSENSUS_THRESH && delivered[leader].statusCode != 200
  {
    var ballots := StatusBallots(delivered);
    assert ballots[..|delivered|] == ballots;
    assert VotedStatus(delivered[leader]) == ballots[leader] == Some(delivered[leader].statusCode);
    CountsAreReplied(delivered);
    DivAtLeast(most * 100, max, CONSENSUS_THRESH);
    var top := |Replied(delivered, delivered[leader].statusCode)|;
    var ok := |Replied(delivered, 200)|;
    assert top == most && ok == Count(ballots, STATUS_OK);
    assert forall s :: s < 500 ==> |Replied(delivered, s)| <= top;
    if delivered[leader].statusCode == 200 {
      LastOkIff(delivered, leader);
    }
  }

  lemma LastOkIff(delivered: seq<QueryResult>, i: nat)
    ensures LastVoteFor(StatusBallots(delivered), i, STATUS_OK) <==> IsLastOk(delivered, i)
  {
    forall j | 0 <= j < |delivered|
      ensures StatusBallots(delivered)[j] == Some(STATUS_OK) <==> delivered[j].statusCode == 200
    {
      assert StatusBallots(delivered)[j] == VotedStatus(delivered[j]);
    }
  }

  lemma CountIsReplied(delivered: seq<QueryResult>, status: int)
    requires status < 500
    ensures Count(StatusBallots(delivered), status) == |Replied(delivered, status)|
  {
    CountIsIndices(StatusBallots(delivered), status);
    assert Indices(StatusBallots(delivered), status) == Replied(delivered, status);
  }

  lemma CountsAreReplied(delivered: seq<QueryResult>)
    ensures forall s :: s < 500 ==> Count(StatusBallots(delivered), s) == |Replied(delivered, s)|
  {
    forall s | s < 500 ensures Count(StatusBallots(delivered), s) == |Replied(delivered, s)| {
      CountIsReplied(delivered, s);
    }
  }

  lemma NobodyReplied(delivered: seq<QueryResult>)
    requires forall i :: 0 <= i < |delivered| ==> StatusBallots(delivered)[i] == None
    ensures forall i :: 0 <= i < |delivered| ==> delivered[i].statusCode >= 500
    ensures forall s :: s < 500 ==> Replied(delivered, s) == {}
  {
    forall i | 0 <= i < |delivered| ensures delivered[i].statusCode >= 500 {
      assert StatusBallots(delivered)[i] == VotedStatus(delivered[i]);
    }
  }

  /** The closure GetInfo passes to FromAll, over all handled replies. */
  method TallyInfo(delivered: seq<QueryResult>)
    returns (maxConsensus: nat, consensusesResp: QueryResult, ghost leader: nat)
    ensures forall s :: Count(StatusBallots(delivered), s) <= maxConsensus
    ensures maxConsensus == 0 ==> forall j :: 0 <= j < |delivered| ==> StatusBallots(delivered)[j] == None
    ensures maxConsensus > 0 ==>
              Leads(delivered, |delivered|, leader, maxConsensus) && consensusesResp == delivered[leader]
  {
    var consensuses: map<int, nat> := map[];
    maxConsensus, consensusesResp, leader := 0, QueryResult("", 0, None), 0;
    for i := 0 to |delivered|
      invariant InfoSoFar(delivered, i, consensuses, maxConsensus, leader, consensusesResp)
    {
      var qr := delivered[i];
      if qr.statusCode >= STATUS_SERVER_ERROR {
        InfoSkipped(delivered, i, consensuses, maxConsensus, leader, consensusesResp);
      } else {
        InfoVoted(delivered, i, consensuses, maxConsensus, leader, consensusesResp);
        consensuses := consensuses[qr.statusCode := Bumped(consensuses, qr.statusCode)];
        if consensuses[qr.statusCode] > maxConsensus {
          maxConsensus := consensuses[qr.statusCode];
          consensusesResp := qr;
          leader := i;
        }
        // at a tie, status 200 is preferred
        if qr.statusCode == STATUS_OK && consensuses[qr.statusCode] == maxConsensus {
          maxConsensus := consensuses[qr.statusCode];
          consensusesResp := qr;
          leader := i;
        }
      }
    }
    assert StatusBallots(delivered)[..|delivered|] == StatusBallots(delivered);
  }

  /** What the captured variables mean after the first n replies. */
  ghost predicate InfoSoFar(
    delivered: seq<QueryResult>, n: nat, table: map<int, nat>, most: nat, leader: nat, resp: QueryResult)
  {
    && n <= |delivered|
    && Tallied(StatusBallots(delivered)[..n], table, most)
    && (most == 0 ==> forall j :: 0 <= j < n ==> StatusBallots(delivered)[j] == None)
    && (most > 0 ==> Leads(delivered, n, leader, most) && resp == delivered[leader])
  }

  lemma InfoSkipped(
    delivered: seq<QueryResult>, i: nat, table: map<int, nat>, most: nat, leader: nat, resp: QueryResult)
    requires InfoSoFar(delivered, i, table, most, leader, resp)
    requires i < |delivered| && delivered[i].statusCode >= STATUS_SERVER_ERROR
    ensures InfoSoFar(delivered, i + 1, table, most, leader, resp)
  {
    TallySkip(StatusBallots(delivered), table, most, i);
    if most > 0 {
      LeaderStays(delivered, i, leader, most);
    }
  }

  lemma InfoVoted(
    delivered: seq<QueryResult>, i: nat, table: map<int, nat>, most: nat, leader: nat, resp: QueryResult)
    requires InfoSoFar(delivered, i, table, most, leader, resp)
    requires i < |delivered| && delivered[i].statusCode < STATUS_SERVER_ERROR
    ensures var code := delivered[i].statusCode;
            var n := Bumped(table, code);
            var leads := n > most || (code == STATUS_OK && n == most);
            InfoSoFar(delivered, i + 1, table[code := n], if n > most then n else most,
                      if leads then i else leader, if leads then delivered[i] else resp)
  {
    var code := delivered[i].statusCode;
    var n := Bumped(table, code);
    TallyVote(StatusBallots(delivered), table, most, i, code);
    if n > most || (code == STATUS_OK && n == most) {
      NewLeader(delivered, i, most, n);
    } else {
      LeaderStays(delivered, i, leader, most);
    }
  }

  /** A reply that is ignored, or does not overtake, leaves the leader in place. */
  lemma LeaderStays(delivered: seq<QueryResult>, i: nat, leader: nat, most: nat)
    requires i < |delivered|
    requires Leads(delivered, i, leader, most)
    requires VotedStatus(delivered[i]).Some? ==>
               Count(StatusBallots(delivered)[..i + 1], delivered[i].statusCode) <= most
               && (delivered[i].statusCode == STATUS_OK ==> Count(StatusBallots(delivered)[..i + 1], STATUS_OK) < most)
    ensures Leads(delivered, i + 1, leader, most)
  {
    var ballots := StatusBallots(delivered);
    CountStep(ballots, i, ballots[leader].value);
    CountStep(ballots, i, STATUS_OK);
    assert forall j :: 0 <= j < i ==> ballots[..i + 1][j] == ballots[..i][j];
  }

  /** A reply that overtakes, or is a 200 drawing level, becomes the leader. */
  lemma NewLeader(delivered: seq<QueryResult>, i: nat, was: nat, most: nat)
    requires i < |delivered| && VotedStatus(delivered[i]).Some?
    requires Count(StatusBallots(delivered)[..i + 1], delivered[i].statusCode) == most
    requires most > was || delivered[i].statusCode == STATUS_OK
    requires forall s :: Count(StatusBallots(delivered)[..i], s) <= was
    ensures Leads(delivered, i + 1, i, most)
  {
    var ballots := StatusBallots(delivered);
    CountStep(ballots, i, STATUS_OK);
  }

  /** Whether GetInfo succeeds does not depend on the order of arrival. */
  lemma InfoIgnoresOrder(a: seq<QueryResult>, b: seq<QueryResult>, max: nat)
    requires multiset(a) == multiset(b)
    ensures OkWins(a, max) <==> OkWins(b, max)
  {
    PermutedBallots(a, b, VotedStatus, StatusBallots(a), StatusBallots(b));
    CountsAreReplied(a);
    CountsAreReplied(b);
    assert forall s :: s < 500 ==> |Replied(a, s)| == Count(StatusBallots(a), s) == |Replied(b, s)|;
  }

  // ----- confirmations -----

  datatype QueryError = TransactionNotFound | TransactionNotConfirmed | NoQuorum | BadReply | NetworkError

  /** What a confirmation query hands back; `error` is None exactly when there is a confirmation. */
  datatype Lookup = Lookup(
    header: Option<BlockHeader>,
    block: RawObject,
    lfb: Option<BlockHeader>,
    error: Option<QueryError>)

  // ----- the votes, in terms of the replies -----

  /** The reply has status 200 and a body that parses to this raw block, whose confirmation proves the
      transaction with this header. */
  ghost predicate Vouches(w: World, txnHash: string, qr: QueryResult, header: BlockHeader, block: RawObject) {
    && qr.statusCode == 200 && w.parseObject(qr.content) == Some(block)
    && "confirmation" in block && w.parseConfirmation(block["confirmation"]).Some?
    && Proves(w, txnHash, w.parseConfirmation(block["confirmation"]).value, header)
  }

  ghost predicate VouchesFor(w: World, txnHash: string, qr: QueryResult, hash: string) {
    exists header, block :: Vouches(w, txnHash, qr, header, block) && header.hash == hash
  }

  /** The reply has status 200, proves nothing, and names this latest finalized block. */
  ghost predicate Reports(w: World, txnHash: string, qr: QueryResult, lfb: BlockHeader) {
    && qr.statusCode == 200 && w.parseObject(qr.content).Some?
    && (forall header, block :: !Vouches(w, txnHash, qr, header, block))
    && "latest_finalized_block" in w.parseObject(qr.content).value
    && w.parseHeader(w.parseObject(qr.content).value["latest_finalized_block"]) == Some(lfb)
  }

  ghost predicate ReportsHash(w: World, txnHash: string, qr: QueryResult, hash: string) {
    exists lfb :: Reports(w, txnHash, qr, lfb) && lfb.hash == hash
  }

  /** The replies that vouch for a block hash, and those that report it as finalized. */
  ghost function Vouchers(w: World, txnHash: string, delivered: seq<QueryResult>, hash: string): set<nat> {
    set i: nat | i < |delivered| && VouchesFor(w, txnHash, delivered[i], hash)
  }

  ghost function Reporters(w: World, txnHash: string, delivered: seq<QueryResult>, hash: string): set<nat> {
    set i: nat | i < |delivered| && ReportsHash(w, txnHash, delivered[i], hash)
  }

  /** Some block was vouched for, and by at least this many replies. */
  ghost predicate Quorum(w: World, txnHash: string, delivered: seq<QueryResult>, numSharders: int) {
    exists hash :: QuorumFor(w, txnHash, delivered, numSharders, hash)
  }

  ghost predicate QuorumFor(
    w: World, txnHash: string, delivered: seq<QueryResult>, numSharders: int, hash: string)
  {
    var n := |Vouchers(w, txnHash, delivered, hash)|;
    n > 0 && n >= numSharders
  }

  // ----- the votes, as they are counted -----

  /** A reply's vote for a block: status 200, a body that parses and proves the transaction. */
  function ConfirmationVote(w: World, txnHash: string, qr: QueryResult): Option<Vote<(BlockHeader, RawObject)>> {
    if qr.statusCode != STATUS_OK then None
    else match w.parseObject(qr.content)
      case None => None
      case Some(cfmBlock) =>
        match GetBlockHeader(w, txnHash, cfmBlock)
        case Ok(header) => Some(Vote(header.hash, (header, cfmBlock)))
        case Err(_) => None
  }

  /** A reply's vote for the latest finalized block: the body parses but proves nothing. */
  function LfbVote(w: World, txnHash: string, qr: QueryResult): Option<Vote<BlockHeader>> {
    if qr.statusCode != STATUS_OK then None
    else match w.parseObject(qr.content)
      case None => None
      case Some(cfmBlock) =>
        if GetBlockHeader(w, txnHash, cfmBlock).Ok? || "latest_finalized_block" !in cfmBlock then None
        else match w.parseHeader(cfmBlock["latest_finalized_block"])
          case None => None
          case Some(lfb) => Some(Vote(lfb.hash, lfb))
  }

  function ConfirmationVotes(w: World, txnHash: string, delivered: seq<QueryResult>):
    (v: Votes<(BlockHeader, RawObject)>)
    ensures |v| == |delivered|
  {
    seq(|delivered|, i requires 0 <= i < |delivered| => ConfirmationVote(w, txnHash, delivered[i]))
  }

  function LfbVotes(w: World, txnHash: string, delivered: seq<QueryResult>): (v: Votes<BlockHeader>)
    ensures |v| == |delivered|
  {
    seq(|delivered|, i requires 0 <= i < |delivered| => LfbVote(w, txnHash, delivered[i]))
  }

  /** Some block was vouched for, and by at least this many replies. */
  ghost predicate HasQuorum<T>(votes: Votes<T>, numSharders: int) {
    exists hash :: Count(Keys(votes), hash) > 0 && Count(Keys(votes), hash) >= numSharders
  }

  /** The last reply gives its block more votes than any block had before it, and enough for the quorum. */
  ghost predicate CompletesQuorum<T>(votes: Votes<T>, numSharders: int) {
    && votes != [] && votes[|votes| - 1].Some?
    && var m := |votes| - 1;
       var n := Count(Keys(votes), votes[m].value.key);
       n >= numSharders && forall hash :: Count(Keys(votes[..m]), hash) < n
  }

  /** The header and the raw block come from one reply that proves the transaction, and no other block
      hash was vouched for more often. */
  ghost predicate ConfirmedBy(w: World, txnHash: string, delivered: seq<QueryResult>, i: nat,
                              header: BlockHeader, block: RawObject) {
    && i < |delivered| && Vouches(w, txnHash, delivered[i], header, block)
    && forall hash :: |Vouchers(w, txnHash, delivered, hash)| <= |Vouchers(w, txnHash, delivered, header.hash)|
  }

  ghost predicate LfbFrom(w: World, txnHash: string, delivered: seq<QueryResult>, i: nat, lfb: BlockHeader) {
    && i < |delivered| && Reports(w, txnHash, delivered[i], lfb)
    && forall hash :: |Reporters(w, txnHash, delivered, hash)| <= |Reporters(w, txnHash, delivered, lfb.hash)|
  }

  lemma VoteIff(w: World, txnHash: string, qr: QueryResult, header: BlockHeader, block: RawObject)
    ensures ConfirmationVote(w, txnHash, qr) == Some(Vote(header.hash, (header, block)))
       <==> Vouches(w, txnHash, qr, header, block)
  {
    CheckedMeansProved(w, txnHash, block, header);
  }

  lemma NoVoteIff(w: World, txnHash: string, qr: QueryResult)
    ensures ConfirmationVote(w, txnHash, qr).None? <==> forall header, block :: !Vouches(w, txnHash, qr, header, block)
    ensures ConfirmationVote(w, txnHash, qr).Some? ==>
              var v := ConfirmationVote(w, txnHash, qr).value; v == Vote(v.value.0.hash, v.value)
  {
    var vote := ConfirmationVote(w, txnHash, qr);
    if vote.Some? {
      VoteIff(w, txnHash, qr, vote.value.value.0, vote.value.value.1);
    }
    if header, block :| Vouches(w, txnHash, qr, header, block) {
      VoteIff(w, txnHash, qr, header, block);
    }
  }

  lemma ReportIff(w: World, txnHash: string, qr: QueryResult, lfb: BlockHeader)
    ensures LfbVote(w, txnHash, qr) == Some(Vote(lfb.hash, lfb)) <==> Reports(w, txnHash, qr, lfb)
  {
    NoVoteIff(w, txnHash, qr);
    ReportsNothingProved(w, txnHash, qr);
  }

  lemma ReportsNothingProved(w: World, txnHash: string, qr: QueryResult)
    ensures qr.statusCode == 200 && w.parseObject(qr.content).Some?
            && GetBlockHeader(w, txnHash, w.parseObject(qr.content).value).Ok?
       <==> ConfirmationVote(w, txnHash, qr).Some?
  {
  }

  lemma VoteKeyIff(w: World, txnHash: string, qr: QueryResult, hash: string)
    ensures KeyOf(ConfirmationVote(w, txnHash, qr)) == Some(hash) <==> VouchesFor(w, txnHash, qr, hash)
  {
    NoVoteIff(w, txnHash, qr);
    var vote := ConfirmationVote(w, txnHash, qr);
    if vote.Some? {
      VoteIff(w, txnHash, qr, vote.value.value.0, vote.value.value.1);
    }
    if header, block :| Vouches(w, txnHash, qr, header, block) && header.hash == hash {
      VoteIff(w, txnHash, qr, header, block);
    }
  }

  lemma ReportKeyIff(w: World, txnHash: string, qr: QueryResult, hash: string)
    ensures KeyOf(LfbVote(w, txnHash, qr)) == Some(hash) <==> ReportsHash(w, txnHash, qr, hash)
  {
    var vote := LfbVote(w, txnHash, qr);
    if vote.Some? {
      ReportIff(w, txnHash, qr, vote.value.value);
    }
    if lfb :| Reports(w, txnHash, qr, lfb) && lfb.hash == hash {
      ReportIff(w, txnHash, qr, lfb);
    }
  }

  lemma CountIsVouchers(w: World, txnHash: string, delivered: seq<QueryResult>, hash: string)
    ensures Count(Keys(ConfirmationVotes(w, txnHash, delivered)), hash) == |Vouchers(w, txnHash, delivered, hash)|
  {
    var keys := Keys(ConfirmationVotes(w, txnHash, delivered));
    CountIsIndices(keys, hash);
    forall i: nat | i < |delivered| ensures keys[i] == Some(hash) <==> VouchesFor(w, txnHash, delivered[i], hash) {
      VoteKeyIff(w, txnHash, delivered[i], hash);
    }
    assert Indices(keys, hash) == Vouchers(w, txnHash, delivered, hash);
  }

  lemma CountIsReporters(w: World, txnHash: string, delivered: seq<QueryResult>, hash: string)
    ensures Count(Keys(LfbVotes(w, txnHash, delivered)), hash) == |Reporters(w, txnHash, delivered, hash)|
  {
    var keys := Keys(LfbVotes(w, txnHash, delivered));
    CountIsIndices(keys, hash);
    forall i: nat | i < |delivered| ensures keys[i] == Some(hash) <==> ReportsHash(w, txnHash, delivered[i], hash) {
      ReportKeyIff(w, txnHash, delivered[i], hash);
    }
    assert Indices(keys, hash) == Reporters(w, txnHash, delivered, hash);
  }

  /** The counted quorum is the quorum of the replies. */
  lemma QuorumIff(w: World, txnHash: string, delivered: seq<QueryResult>, numSharders: int)
    ensures HasQuorum(ConfirmationVotes(w, txnHash, delivered), numSharders)
       <==> Quorum(w, txnHash, delivered, numSharders)
  {
    var keys := Keys(ConfirmationVotes(w, txnHash, delivered));
    if hash :| Count(keys, hash) > 0 && Count(keys, hash) >= numSharders {
      CountIsVouchers(w, txnHash, delivered, hash);
      assert QuorumFor(w, txnHash, delivered, numSharders, hash);
    }
    if hash :| QuorumFor(w, txnHash, delivered, numSharders, hash) {
      CountIsVouchers(w, txnHash, delivered, hash);
    }
  }

  /** The closure of getConsensusConfirmation with its captured variables. A confirmed header is kept
      once its count reaches numSharders, the latest finalized block from its first vote on. */
  class ConfirmationHandler {
    const w: World
    const numSharders: int
    const txnHash: string
    var confirmations: Poll<(BlockHeader, RawObject)>
    var lfbs: Poll<BlockHeader>
    ghost var handled: seq<QueryResult>

    ghost predicate Valid()
      reads this
    {
      && Polled(ConfirmationVotes(w, txnHash, handled), confirmations, numSharders)
      && Polled(LfbVotes(w, txnHash, handled), lfbs, 1)
    }

    constructor (w: World, numSharders: int, txnHash: string)
      ensures Valid() && handled == []
      ensures this.w == w && this.numSharders == numSharders && this.txnHash == txnHash
    {
      this.w, this.numSharders, this.txnHash := w, numSharders, txnHash;
      confirmations, lfbs, handled := EmptyPoll(), EmptyPoll(), [];
    }

    /** Handles one reply; true asks FromAll to cancel the other requests. */
    method Handle(qr: QueryResult) returns (cancel: bool)
      requires Valid()
      modifies this
      ensures Valid() && handled == old(handled) + [qr]
      ensures cancel <==> confirmations.most > old(confirmations.most) && confirmations.most >= numSharders
      ensures cancel <==> CompletesQuorum(ConfirmationVotes(w, txnHash, handled), numSharders)
    {
      var confirmed, reported := ConfirmationVote(w, txnHash, qr), LfbVote(w, txnHash, qr);
      ConfirmationsExtend(w, txnHash, handled, qr, confirmations, numSharders);
      LfbsExtend(w, txnHash, handled, qr, lfbs, 1);
      var before := confirmations.most;
      confirmations := CastVote(confirmations, confirmed, numSharders);
      lfbs := CastVote(lfbs, reported, 1);
      handled := handled + [qr];
      cancel := confirmations.most > before && confirmations.most >= numSharders;
    }

    /** The part of getConsensusConfirmation after FromAll returns. */
    method Answer() returns (r: Lookup)
      requires Valid()
      ensures Answers(w, numSharders, txnHash, handled, r)
    {
      ghost var cv, lv := ConfirmationVotes(w, txnHash, handled), LfbVotes(w, txnHash, handled);
      HeldLfb(w, txnHash, handled, lfbs);
      HeldConfirmation(w, txnHash, handled, confirmations, numSharders);
      PollDecides(cv, confirmations, numSharders);
      PollDecides(lv, lfbs, 1);
      QuorumIff(w, txnHash, handled, numSharders);
      NoneVotedIff(w, txnHash, handled);
      NoneReportedIff(w, txnHash, handled);
      if confirmations.most == 0 {
        return Lookup(None, map[], lfbs.held, Some(TransactionNotFound));
      }
      if confirmations.most < numSharders {
        return Lookup(None, map[], lfbs.held, Some(NoQuorum));
      }
      var (header, block) := confirmations.held.value;
      return Lookup(Some(header), block, lfbs.held, None);
    }
  }

  /** A vote raises the maximum of a poll exactly when its key overtakes every count before it. */
  lemma RaisesMost<T>(votes: Votes<T>, p: Poll<T>, vote: Option<Vote<T>>, threshold: int)
    requires Polled(votes, p, threshold)
    ensures var after := CastVote(p, vote, threshold);
            after.most > p.most && after.most >= threshold <==> CompletesQuorum(votes + [vote], threshold)
  {
    var all := votes + [vote];
    assert all[..|votes|] == votes;
    CountStep(Keys(all), |votes|, if vote.Some? then vote.value.key else "");
    assert Keys(all)[..|votes|] == Keys(votes) && Keys(all)[..|votes| + 1] == Keys(all);
  }

  lemma ConfirmationsExtend(w: World, txnHash: string, handled: seq<QueryResult>, qr: QueryResult,
                            p: Poll<(BlockHeader, RawObject)>, threshold: int)
    requires Polled(ConfirmationVotes(w, txnHash, handled), p, threshold)
    ensures var after := CastVote(p, ConfirmationVote(w, txnHash, qr), threshold);
            && Polled(ConfirmationVotes(w, txnHash, handled + [qr]), after, threshold)
            && (after.most > p.most && after.most >= threshold
                <==> CompletesQuorum(ConfirmationVotes(w, txnHash, handled + [qr]), threshold))
  {
    RaisesMost(ConfirmationVotes(w, txnHash, handled), p, ConfirmationVote(w, txnHash, qr), threshold);
    CastKeepsPolled(ConfirmationVotes(w, txnHash, handled), p, ConfirmationVote(w, txnHash, qr), threshold);
    assert ConfirmationVotes(w, txnHash, handled + [qr])
        == ConfirmationVotes(w, txnHash, handled) + [ConfirmationVote(w, txnHash, qr)];
  }

  lemma LfbsExtend(w: World, txnHash: string, handled: seq<QueryResult>, qr: QueryResult,
                   p: Poll<BlockHeader>, threshold: int)
    requires Polled(LfbVotes(w, txnHash, handled), p, threshold)
    ensures Polled(LfbVotes(w, txnHash, handled + [qr]), CastVote(p, LfbVote(w, txnHash, qr), threshold), threshold)
  {
    CastKeepsPolled(LfbVotes(w, txnHash, handled), p, LfbVote(w, txnHash, qr), threshold);
    assert LfbVotes(w, txnHash, handled + [qr]) == LfbVotes(w, txnHash, handled) + [LfbVote(w, txnHash, qr)];
  }

  lemma HeldConfirmation(w: World, txnHash: string, handled: seq<QueryResult>,
                         p: Poll<(BlockHeader, RawObject)>, threshold: int)
    requires Polled(ConfirmationVotes(w, txnHash, handled), p, threshold)
    ensures p.held.Some? ==> exists i: nat :: ConfirmedBy(w, txnHash, handled, i, p.held.value.0, p.held.value.1)
  {
    if p.held.Some? {
      var votes := ConfirmationVotes(w, txnHash, handled);
      var i: nat :| Front(votes, i, p.most, p.held.value);
      var (header, block) := p.held.value;
      NoVoteIff(w, txnHash, handled[i]);
      assert votes[i] == ConfirmationVote(w, txnHash, handled[i]) == Some(Vote(header.hash, (header, block)));
      VoteIff(w, txnHash, handled[i], header, block);
      CountIsVouchers(w, txnHash, handled, header.hash);
      forall hash ensures |Vouchers(w, txnHash, handled, hash)| <= |Vouchers(w, txnHash, handled, header.hash)| {
        CountIsVouchers(w, txnHash, handled, hash);
      }
      assert ConfirmedBy(w, txnHash, handled, i, header, block);
    }
  }

  lemma HeldLfb(w: World, txnHash: string, handled: seq<QueryResult>, p: Poll<BlockHeader>)
    requires Polled(LfbVotes(w, txnHash, handled), p, 1)
    ensures p.held.Some? ==> exists i: nat :: LfbFrom(w, txnHash, handled, i, p.held.value)
  {
    if p.held.Some? {
      var votes := LfbVotes(w, txnHash, handled);
      var i: nat :| Front(votes, i, p.most, p.held.value);
      var lfb := p.held.value;
      assert votes[i] == LfbVote(w, txnHash, handled[i]) == Some(Vote(lfb.hash, lfb));
      ReportIff(w, txnHash, handled[i], lfb);
      CountIsReporters(w, txnHash, handled, lfb.hash);
      forall hash ensures |Reporters(w, txnHash, handled, hash)| <= |Reporters(w, txnHash, handled, lfb.hash)| {
        CountIsReporters(w, txnHash, handled, hash);
      }
      assert LfbFrom(w, txnHash, handled, i, lfb);
    }
  }

  lemma PollDecides<T>(votes: Votes<T>, p: Poll<T>, threshold: int)
    requires Polled(votes, p, threshold)
    ensures p.held.Some? <==> HasQuorum(votes, threshold)
    ensures p.most == 0 <==> forall i :: 0 <= i < |votes| ==> votes[i].None?
  {
    if p.held.Some? {
      var i: nat :| Front(votes, i, p.most, p.held.value);
      assert Count(Keys(votes), votes[i].value.key) == p.most;
    }
  }

  ghost predicate Answers(w: World, numSharders: int, txnHash: string, delivered: seq<QueryResult>, r: Lookup) {
    && (r.error.None? <==> Quorum(w, txnHash, delivered, numSharders))
    && (r.error.None? ==>
            r.header.Some? && exists i: nat :: ConfirmedBy(w, txnHash, delivered, i, r.header.value, r.block))
    && (r.error == Some(TransactionNotFound) <==> NobodyVouches(w, txnHash, delivered))
    && (r.lfb.None? <==> NobodyReports(w, txnHash, delivered))
    && (r.lfb.Some? ==> exists i: nat :: LfbFrom(w, txnHash, delivered, i, r.lfb.value))
  }

  ghost predicate NobodyVouches(w: World, txnHash: string, delivered: seq<QueryResult>) {
    forall i, header, block :: 0 <= i < |delivered| ==> !Vouches(w, txnHash, delivered[i], header, block)
  }

  ghost predicate NobodyReports(w: World, txnHash: string, delivered: seq<QueryResult>) {
    forall i, lfb :: 0 <= i < |delivered| ==> !Reports(w, txnHash, delivered[i], lfb)
  }

  lemma NoneVotedIff(w: World, txnHash: string, delivered: seq<QueryResult>)
    ensures NoneVoted(ConfirmationVotes(w, txnHash, delivered)) <==> NobodyVouches(w, txnHash, delivered)
  {
    var votes := ConfirmationVotes(w, txnHash, delivered);
    forall i | 0 <= i < |delivered|
      ensures votes[i].None? <==> forall header, block :: !Vouches(w, txnHash, delivered[i], header, block)
    {
      NoVoteIff(w, txnHash, delivered[i]);
    }
  }

  lemma NoneReportedIff(w: World, txnHash: string, delivered: seq<QueryResult>)
    ensures NoneVoted(LfbVotes(w, txnHash, delivered)) <==> NobodyReports(w, txnHash, delivered)
  {
    var votes := LfbVotes(w, txnHash, delivered);
    forall i | 0 <= i < |delivered| ensures votes[i].None? <==> forall lfb :: !Reports(w, txnHash, delivered[i], lfb) {
      if votes[i].Some? {
        ReportIff(w, txnHash, delivered[i], votes[i].value.value);
      }
      if lfb :| Reports(w, txnHash, delivered[i], lfb) {
        ReportIff(w, txnHash, delivered[i], lfb);
      }
    }
  }

  ghost predicate NoneVoted<T>(votes: Votes<T>) {
    forall i :: 0 <= i < |votes| ==> votes[i].None?
  }

  /** getConsensusConfirmation after FromAll has handled these replies. It answers exactly when some
      block hash was vouched for by numSharders validated replies, and then with a hash no other one
      outnumbers; replies handled after the early cancel are part of `delivered`. */
  method GetConsensusConfirmation(w: World, numSharders: int, txnHash: string, delivered: seq<QueryResult>)
    returns (r: Lookup)
    ensures Answers(w, numSharders, txnHash, delivered, r)
  {
    var handler := new ConfirmationHandler(w, numSharders, txnHash);
    for i := 0 to |delivered|
      invariant handler.Valid() && handler.handled == delivered[..i]
    {
      var cancel := handler.Handle(delivered[i]);
      assert delivered[..i + 1] == delivered[..i] + [delivered[i]];
    }
    assert delivered[..|delivered|] == delivered;
    r := handler.Answer();
  }

  /** Whether a confirmation reaches its quorum does not depend on the order of arrival. */
  lemma QuorumIgnoresOrder(w: World, txnHash: string, numSharders: int, a: seq<QueryResult>, b: seq<QueryResult>)
    requires multiset(a) == multiset(b)
    ensures Quorum(w, txnHash, a, numSharders) <==> Quorum(w, txnHash, b, numSharders)
  {
    var x, y := Keys(ConfirmationVotes(w, txnHash, a)), Keys(ConfirmationVotes(w, txnHash, b));
    PermutedBallots(a, b, qr => KeyOf(ConfirmationVote(w, txnHash, qr)), x, y);
    QuorumIff(w, txnHash, a, numSharders);
    QuorumIff(w, txnHash, b, numSharders);
    assert forall h :: Count(x, h) == Count(y, h);
  }

  // ----- the fast query -----

  /** FromAny's answer: a network error, or a status and a body. */
  datatype FastReply = Failed | Answered(statusCode: int, content: string)

  /** getFastConfirmation on the reply of one random sharder. */
  function GetFastConfirmation(w: World, txnHash: string, reply: FastReply): Lookup {
    match reply
    case Failed => Lookup(None, map[], None, Some(NetworkError))
    case Answered(statusCode, content) =>
      if statusCode != STATUS_OK then Lookup(None, map[], None, Some(TransactionNotFound))
      else match w.parseObject(content)
        case None => Lookup(None, map[], None, Some(BadReply))
        case Some(block) =>
          match GetBlockHeader(w, txnHash, block)
          case Ok(header) => Lookup(Some(header), block, None, None)
          case Err(_) =>
            if "latest_finalized_block" !in block then Lookup(None, block, None, Some(BadReply))
            else match w.parseHeader(block["latest_finalized_block"])
              case Some(lfb) => Lookup(None, block, Some(lfb), Some(TransactionNotConfirmed))
              case None => Lookup(None, map[], None, Some(BadReply))
  }

  ghost predicate FastVouches(w: World, txnHash: string, reply: FastReply, header: BlockHeader, block: RawObject) {
    reply.Answered? && Vouches(w, txnHash, QueryResult(reply.content, reply.statusCode, None), header, block)
  }

  ghost predicate FastProves(w: World, txnHash: string, reply: FastReply) {
    exists header, block :: FastVouches(w, txnHash, reply, header, block)
  }

  ghost predicate FastReports(w: World, txnHash: string, reply: FastReply, lfb: BlockHeader) {
    reply.Answered? && Reports(w, txnHash, QueryResult(reply.content, reply.statusCode, None), lfb)
  }

  /** What the fast query makes of the reply: exactly the header and block the reply vouches for, or no
      header, and then the finalized block it reports, if any. */
  ghost predicate FastAnswers(w: World, txnHash: string, reply: FastReply, r: Lookup) {
    if FastProves(w, txnHash, reply) then
      && r.error.None? && r.header.Some? && r.lfb.None?
      && FastVouches(w, txnHash, reply, r.header.value, r.block)
    else
      && r.error.Some? && r.header.None?
      && forall lfb :: r.lfb == Some(lfb) <==> FastReports(w, txnHash, reply, lfb)
  }

  lemma FastQueryAnswers(w: World, txnHash: string, reply: FastReply)
    ensures FastAnswers(w, txnHash, reply, GetFastConfirmation(w, txnHash, reply))
    ensures forall header, block :: FastVouches(w, txnHash, reply, header, block) ==>
              GetFastConfirmation(w, txnHash, reply) == Lookup(Some(header), block, None, None)
  {
    if reply.Answered? && reply.statusCode == 200 && w.parseObject(reply.content).Some? {
      var block := w.parseObject(reply.content).value;
      forall header
        ensures GetBlockHeader(w, txnHash, block) == Ok(header) <==> FastVouches(w, txnHash, reply, header, block)
      {
        CheckedMeansProved(w, txnHash, block, header);
      }
      if GetBlockHeader(w, txnHash, block).Ok? {
        assert FastVouches(w, txnHash, reply, GetBlockHeader(w, txnHash, block).header, block);
      }
    }
  }
}
