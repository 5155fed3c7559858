/** getBlockInfoByRound of zcncore/transaction_base.go: the header of a round, chosen by a streaming
    vote over the sharders' replies with early accept and early abort. */
module RoundVote {
  import opened Support
  import opened BlockChain
  import opened Tally

  const CONSENSUS_THRESH := 25

  /** A reply as read from the channel; `header` is None when the body does not parse. */
  datatype Reply = NilReply | Reply(statusCode: int, header: Option<BlockHeader>)

  datatype RoundInfo = Found(header: BlockHeader) | TimedOut | TooManyFailures | NoConsensus

  // ----- the vote, in terms of the replies -----

  /** The replies that carry, with status 200, a header of this hash. */
  ghost function VotersFor(replies: seq<Reply>, hash: string): set<nat> {
    set i: nat | i < |replies| && IsVoteFor(replies[i], hash)
  }

  ghost predicate IsVoteFor(r: Reply, hash: string) {
    r.Reply? && r.statusCode == 200 && r.header.Some? && r.header.value.hash == hash
  }

  /** The replies that are not nil and carry no header with a hash, or not with status 200. */
  ghost function FailedReplies(replies: seq<Reply>): set<nat> {
    set i: nat | i < |replies| && IsFailure(replies[i])
  }

  ghost predicate IsFailure(r: Reply) {
    r.Reply? && (r.statusCode != 200 || r.header.None? || r.header.value.hash == "")
  }

  /** A hash that a quarter of the queried sharders voted for. */
  ghost predicate Won(replies: seq<Reply>, hash: string, numSharders: nat) {
    numSharders > 0 && hash != "" && 4 * |VotersFor(replies, hash)| >= numSharders
  }

  ghost predicate AnyWon(replies: seq<Reply>, numSharders: nat) {
    exists hash :: Won(replies, hash, numSharders)
  }

  /** The i-th reply carries this header and is the first one to complete a quarter vote. */
  ghost predicate DecidedBy(replies: seq<Reply>, i: nat, header: BlockHeader, numSharders: nat) {
    && i < |replies| && replies[i] == Reply(200, Some(header))
    && Won(replies[..i + 1], header.hash, numSharders)
    && !AnyWon(replies[..i], numSharders)
  }

  /** The i-th reply finds that more than 75 percent of the queried sharders have failed before it. */
  ghost predicate AbortsAt(replies: seq<Reply>, i: nat, numSharders: nat) {
    && i < |replies| && replies[i].Reply? && numSharders > 0
    && 100 * |FailedReplies(replies[..i])| >= 76 * numSharders
  }

  ghost predicate Aborts(replies: seq<Reply>, numSharders: nat) {
    exists i: nat :: AbortsAt(replies, i, numSharders)
  }

  // ----- the vote, as it is counted -----

  /** The block hash a reply votes for: status 200, a parsed header, a nonempty hash. */
  function VotedHash(r: Reply): Option<string> {
    if r.Reply? && r.statusCode == STATUS_OK && r.header.Some? && r.header.value.hash != "" then
      Some(r.header.value.hash)
    else None
  }

  function HashBallots(replies: seq<Reply>): (b: Ballots<string>)
    ensures |b| == |replies|
  {
    seq(|replies|, i requires 0 <= i < |replies| => VotedHash(replies[i]))
  }

  /** Replies that count as failures: they are not nil and vote for nothing. */
  function Failures(replies: seq<Reply>): nat {
    if replies == [] then 0
    else
      var m := |replies| - 1;
      Failures(replies[..m]) + (if replies[m].Reply? && VotedHash(replies[m]).None? then 1 else 0)
  }

  /** A hash wins when its share of the queried sharders, in whole percent, is at least 25. */
  predicate Reaches(ballots: Ballots<string>, hash: string, numSharders: nat) {
    numSharders > 0 && Count(ballots, hash) * 100 / numSharders >= CONSENSUS_THRESH
  }

  ghost predicate HasWinner(ballots: Ballots<string>, numSharders: nat) {
    exists hash :: Reaches(ballots, hash, numSharders)
  }

  lemma QuarterVote(ballots: Ballots<string>, hash: string, numSharders: nat)
    ensures Reaches(ballots, hash, numSharders) <==> numSharders > 0 && 4 * Count(ballots, hash) >= numSharders
  {
    if numSharders > 0 {
      DivAtLeast(Count(ballots, hash) * 100, numSharders, CONSENSUS_THRESH);
    }
  }

  lemma DivAtLeast(a: nat, n: nat, k: nat)
    requires n > 0
    ensures a / n >= k <==> a >= k * n
  {
    var q, r := a / n, a % n;
    assert a == q * n + r && r < n;
    if q >= k {
      assert q * n >= k * n;
    } else {
      assert (q + 1) * n <= k * n;
      assert (q + 1) * n == q * n + n;
    }
  }

  lemma FailuresStep(replies: seq<Reply>, i: nat)
    requires i < |replies|
    ensures Failures(replies[..i + 1])
         == Failures(replies[..i]) + (if replies[i].Reply? && VotedHash(replies[i]).None? then 1 else 0)
  {
    assert replies[..i + 1][..i] == replies[..i];
  }

  /** Failures and votes for one hash are cast by different replies. */
  lemma {:induction false} FailuresBound(replies: seq<Reply>, hash: string)
    ensures Count(HashBallots(replies), hash) + Failures(replies) <= |replies|
  {
    if replies != [] {
      var m := |replies| - 1;
      FailuresBound(replies[..m], hash);
      CountStep(HashBallots(replies), m, hash);
      assert HashBallots(replies)[..m] == HashBallots(replies[..m]);
      assert HashBallots(replies)[..m + 1] == HashBallots(replies);
    }
  }

  lemma CountAtMostLength(ballots: Ballots<string>, hash: string)
    ensures Count(ballots, hash) <= |ballots|
  {
    assert multiset(ballots)[Some(hash)] <= |multiset(ballots)|;
  }

  /** No completion of the run, with at most one reply per queried sharder, has a winner. */
  ghost predicate Hopeless(seen: seq<Reply>, numSharders: nat) {
    forall more: seq<Reply> :: |seen| + |more| <= numSharders ==> !AnyWon(seen + more, numSharders)
  }

  lemma FailuresAreFinal(delivered: seq<Reply>, i: nat, numSharders: nat)
    requires i <= |delivered| <= numSharders && numSharders > 0
    requires Failures(delivered[..i]) * 100 / numSharders > 100 - CONSENSUS_THRESH
    ensures Hopeless(delivered, numSharders)
    ensures !HasWinner(HashBallots(delivered), numSharders)
  {
    DivAtLeast(Failures(delivered[..i]) * 100, numSharders, 76);
    forall more: seq<Reply> | |delivered| + |more| <= numSharders
      ensures !AnyWon(delivered + more, numSharders)
    {
      HasWinnerIff(delivered + more, numSharders);
      var rest := delivered[i..] + more;
      assert HashBallots(delivered + more) == HashBallots(delivered[..i]) + HashBallots(rest);
      forall hash ensures !Reaches(HashBallots(delivered + more), hash, numSharders) {
        FailuresBound(delivered[..i], hash);
        CountAppend(HashBallots(delivered[..i]), HashBallots(rest), hash);
        CountAtMostLength(HashBallots(rest), hash);
        QuarterVote(HashBallots(delivered + more), hash, numSharders);
      }
    }
    assert delivered + [] == delivered;
    HasWinnerIff(delivered, numSharders);
  }

  lemma WinnersStay(ballots: Ballots<string>, i: nat, numSharders: nat)
    requires i <= |ballots|
    ensures HasWinner(ballots[..i], numSharders) ==> HasWinner(ballots, numSharders)
  {
    if hash :| Reaches(ballots[..i], hash, numSharders) {
      assert ballots == ballots[..i] + ballots[i..];
      CountAppend(ballots[..i], ballots[i..], hash);
      QuarterVote(ballots[..i], hash, numSharders);
      QuarterVote(ballots, hash, numSharders);
    }
  }

  lemma NoWinnerBelow(ballots: Ballots<string>, table: map<string, nat>, most: nat, numSharders: nat)
    requires Tallied(ballots, table, most)
    requires numSharders > 0 ==> most * 100 / numSharders < CONSENSUS_THRESH
    ensures !HasWinner(ballots, numSharders)
  {
    forall h ensures !Reaches(ballots, h, numSharders) {
      if numSharders > 0 {
        DivAtLeast(most * 100, numSharders, CONSENSUS_THRESH);
        QuarterVote(ballots, h, numSharders);
      }
    }
  }

  // ----- the count is right -----

  lemma CountIsVotersFor(replies: seq<Reply>, hash: string)
    requires hash != ""
    ensures Count(HashBallots(replies), hash) == |VotersFor(replies, hash)|
  {
    CountIsIndices(HashBallots(replies), hash);
    assert Indices(HashBallots(replies), hash) == VotersFor(replies, hash);
  }

  lemma NoVotesForNothing(replies: seq<Reply>)
    ensures Count(HashBallots(replies), "") == 0
  {
    if Count(HashBallots(replies), "") > 0 {
      var i := Voter(HashBallots(replies), "");
    }
  }

  lemma FailedGrow(replies: seq<Reply>)
    requires replies != []
    ensures var m := |replies| - 1;
            |FailedReplies(replies)| == |FailedReplies(replies[..m])| + if IsFailure(replies[m]) then 1 else 0
  {
    var m := |replies| - 1;
    if IsFailure(replies[m]) {
      assert FailedReplies(replies) == FailedReplies(replies[..m]) + {m};
    } else {
      assert FailedReplies(replies) == FailedReplies(replies[..m]);
    }
  }

  lemma {:induction false} FailuresAreFailed(replies: seq<Reply>)
    ensures Failures(replies) == |FailedReplies(replies)|
  {
    if replies == [] {
      assert FailedReplies(replies) == {};
    } else {
      FailuresAreFailed(replies[..|replies| - 1]);
      FailedGrow(replies);
    }
  }

  /** The whole-percent test on the counters is exactly the quarter vote. */
  lemma ReachesIffWon(replies: seq<Reply>, hash: string, numSharders: nat)
    ensures Reaches(HashBallots(replies), hash, numSharders) <==> Won(replies, hash, numSharders)
  {
    QuarterVote(HashBallots(replies), hash, numSharders);
    if hash == "" {
      NoVotesForNothing(replies);
    } else {
      CountIsVotersFor(replies, hash);
    }
  }

  lemma HasWinnerIff(replies: seq<Reply>, numSharders: nat)
    ensures HasWinner(HashBallots(replies), numSharders) <==> AnyWon(replies, numSharders)
  {
    if hash :| Reaches(HashBallots(replies), hash, numSharders) {
      ReachesIffWon(replies, hash, numSharders);
    }
    if hash :| Won(replies, hash, numSharders) {
      ReachesIffWon(replies, hash, numSharders);
    }
  }

  /** The abort test on the counter. */
  lemma AbortTest(replies: seq<Reply>, i: nat, numSharders: nat)
    requires i < |replies| && replies[i].Reply? && numSharders > 0
    ensures Failures(replies[..i]) * 100 / numSharders > 100 - CONSENSUS_THRESH
       <==> AbortsAt(replies, i, numSharders)
  {
    FailuresAreFailed(replies[..i]);
    DivAtLeast(Failures(replies[..i]) * 100, numSharders, 76);
  }

  /** The abort is final: once more than 75 percent have failed, no completion has a winner. */
  lemma AbortIsFinal(replies: seq<Reply>, numSharders: nat)
    requires |replies| <= numSharders && Aborts(replies, numSharders)
    ensures Hopeless(replies, numSharders) && !AnyWon(replies, numSharders)
  {
    var i: nat :| AbortsAt(replies, i, numSharders);
    AbortTest(replies, i, numSharders);
    FailuresAreFinal(replies, i, numSharders);
    HasWinnerIff(replies, numSharders);
  }

  /** More replies never take a win away. */
  lemma WinsStay(replies: seq<Reply>, i: nat, numSharders: nat)
    requires i <= |replies|
    ensures AnyWon(replies[..i], numSharders) ==> AnyWon(replies, numSharders)
  {
    HasWinnerIff(replies[..i], numSharders);
    HasWinnerIff(replies, numSharders);
    assert HashBallots(replies)[..i] == HashBallots(replies[..i]);
    WinnersStay(HashBallots(replies), i, numSharders);
  }

  lemma DecisionIsUnique(replies: seq<Reply>, i: nat, b: BlockHeader, j: nat, c: BlockHeader, numSharders: nat)
    requires DecidedBy(replies, i, b, numSharders) && DecidedBy(replies, j, c, numSharders)
    ensures i == j && b == c
  {
    if i < j {
      assert replies[..j][..i + 1] == replies[..i + 1];
      WinsStay(replies[..j], i + 1, numSharders);
    } else if j < i {
      assert replies[..i][..j + 1] == replies[..j + 1];
      WinsStay(replies[..i], j + 1, numSharders);
    }
  }

  /** The header the vote settles on: the one that first completes a quarter vote. */
  ghost function Winner(replies: seq<Reply>, numSharders: nat): Option<BlockHeader> {
    if exists i: nat, b :: DecidedBy(replies, i, b, numSharders) then
      var i: nat, b :| DecidedBy(replies, i, b, numSharders);
      Some(b)
    else None
  }

  /** `delivered` are the replies received before the timer fires, at most one per queried sharder. A
      header is returned exactly when some hash reaches the threshold over them: the gate on the
      running maximum misses no winner, and neither abort nor timeout gives up a reachable one. */
  method GetBlockInfoByRound(numSharders: nat, delivered: seq<Reply>) returns (info: RoundInfo)
    requires |delivered| <= numSharders
    ensures info.Found? <==> AnyWon(delivered, numSharders)
    ensures info.Found? ==> exists i: nat :: DecidedBy(delivered, i, info.header, numSharders)
    ensures Winner(delivered, numSharders) == if info.Found? then Some(info.header) else None
    ensures info.TooManyFailures? <==> Aborts(delivered, numSharders)
    ensures info.TooManyFailures? ==> Hopeless(delivered, numSharders)
    ensures info.TimedOut? <==> !info.Found? && !info.TooManyFailures? && |delivered| < numSharders
  {
    var maxConsensus: nat, failedCount: nat := 0, 0;
    var roundConsensus: map<string, nat> := map[];
    ghost var ballots := HashBallots(delivered);
    var i := 0;
    while i < numSharders
      invariant 0 <= i <= |delivered|
      invariant Tallied(ballots[..i], roundConsensus, maxConsensus)
      invariant numSharders > 0 ==> maxConsensus * 100 / numSharders < CONSENSUS_THRESH
      invariant failedCount == Failures(delivered[..i])
      invariant forall j: nat :: j < i ==> !AbortsAt(delivered, j, numSharders)
    {
      if i == |delivered| {
        NoDecision(delivered, i, roundConsensus, maxConsensus, numSharders);
        return TimedOut;
      }
      var rsp := delivered[i];
      FailuresStep(delivered, i);
      if rsp.NilReply? {
        TallySkip(ballots, roundConsensus, maxConsensus, i);
      } else {
        AbortTest(delivered, i, numSharders);
        if failedCount * 100 / numSharders > 100 - CONSENSUS_THRESH {
          AbortIsFinal(delivered, numSharders);
          NoWinner(delivered, numSharders);
          return TooManyFailures;
        }
        if VotedHash(rsp).None? {
          failedCount := failedCount + 1;
          TallySkip(ballots, roundConsensus, maxConsensus, i);
        } else {
          var h := rsp.header.value.hash;
          ghost var before, was := roundConsensus, maxConsensus;
          TallyVote(ballots, roundConsensus, maxConsensus, i, h);
          roundConsensus := roundConsensus[h := Bumped(roundConsensus, h)];
          if roundConsensus[h] > maxConsensus {
            maxConsensus := roundConsensus[h];
            if maxConsensus * 100 / numSharders >= CONSENSUS_THRESH {
              Decision(delivered, i, before, was, numSharders);
              return Found(rsp.header.value);
            }
          }
        }
      }
      i := i + 1;
    }
    NoDecision(delivered, i, roundConsensus, maxConsensus, numSharders);
    return NoConsensus;
  }

  /** The reply that brings the maximum to the threshold decides the round. */
  lemma Decision(delivered: seq<Reply>, i: nat, table: map<string, nat>, most: nat, numSharders: nat)
    requires i < |delivered| <= numSharders && VotedHash(delivered[i]).Some?
    requires Tallied(HashBallots(delivered)[..i], table, most)
    requires most * 100 / numSharders < CONSENSUS_THRESH
    requires Bumped(table, VotedHash(delivered[i]).value) * 100 / numSharders >= CONSENSUS_THRESH
    ensures DecidedBy(delivered, i, delivered[i].header.value, numSharders)
    ensures Winner(delivered, numSharders) == Some(delivered[i].header.value)
    ensures AnyWon(delivered, numSharders) && !Aborts(delivered, numSharders)
  {
    var h := delivered[i].header.value.hash;
    var ballots := HashBallots(delivered);
    assert ballots[..i] == HashBallots(delivered[..i]) && ballots[..i + 1] == HashBallots(delivered[..i + 1]);
    NoWinnerBelow(ballots[..i], table, most, numSharders);
    HasWinnerIff(delivered[..i], numSharders);
    CountStep(ballots, i, h);
    ReachesIffWon(delivered[..i + 1], h, numSharders);
    WinnerFound(delivered, i, delivered[i].header.value, numSharders);
    if Aborts(delivered, numSharders) {
      AbortIsFinal(delivered, numSharders);
    }
  }

  lemma NoDecision(delivered: seq<Reply>, i: nat, table: map<string, nat>, most: nat, numSharders: nat)
    requires i == |delivered| <= numSharders
    requires Tallied(HashBallots(delivered)[..i], table, most)
    requires numSharders > 0 ==> most * 100 / numSharders < CONSENSUS_THRESH
    requires forall j: nat :: j < i ==> !AbortsAt(delivered, j, numSharders)
    ensures !AnyWon(delivered, numSharders) && !Aborts(delivered, numSharders)
    ensures Winner(delivered, numSharders) == None
  {
    assert HashBallots(delivered)[..i] == HashBallots(delivered);
    NoWinnerBelow(HashBallots(delivered), table, most, numSharders);
    HasWinnerIff(delivered, numSharders);
    NoWinner(delivered, numSharders);
  }

  lemma WinnerFound(replies: seq<Reply>, i: nat, b: BlockHeader, numSharders: nat)
    requires DecidedBy(replies, i, b, numSharders)
    ensures Winner(replies, numSharders) == Some(b)
    ensures AnyWon(replies, numSharders)
  {
    var j: nat, c :| DecidedBy(replies, j, c, numSharders) && Winner(replies, numSharders) == Some(c);
    DecisionIsUnique(replies, i, b, j, c, numSharders);
    WinsStay(replies, i + 1, numSharders);
  }

  lemma NoWinner(replies: seq<Reply>, numSharders: nat)
    requires !AnyWon(replies, numSharders)
    ensures Winner(replies, numSharders) == None
  {
    if i: nat, b :| DecidedBy(replies, i, b, numSharders) {
      WinsStay(replies, i + 1, numSharders);
    }
  }

  /** Which header wins may depend on the order of arrival, whether one wins does not. */
  lemma WinningIgnoresOrder(a: seq<Reply>, b: seq<Reply>, numSharders: nat)
    requires multiset(a) == multiset(b)
    ensures AnyWon(a, numSharders) <==> AnyWon(b, numSharders)
  {
    PermutedBallots(a, b, VotedHash, HashBallots(a), HashBallots(b));
    HasWinnerIff(a, numSharders);
    HasWinnerIff(b, numSharders);
    if hash :| Reaches(HashBallots(a), hash, numSharders) {
      assert Reaches(HashBallots(b), hash, numSharders);
    }
    if hash :| Reaches(HashBallots(b), hash, numSharders) {
      assert Reaches(HashBallots(a), hash, numSharders);
    }
  }
}
