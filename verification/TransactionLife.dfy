/** The life of a transaction object: nonce, submission and verification, as in
    zcncore/transaction_base.go and (*Transaction).Verify of zcncore/transaction.go. */
module TransactionLife {
  import opened Support
  import opened BlockChain
  import opened RoundVote
  import opened Confirmations
  import opened TransactionQuery
  import NonceCache
  import SubmitRace

  const STATUS_SUCCESS := 0
  const STATUS_ERROR := 2
  const STATUS_UNKNOWN := -1

  const CONFIRMED_SUCCESS := 1
  const CHARGEABLE_ERROR := 2

  const TXN_EXPIRATION_SECONDS := 60

  /** Configuration read during a verification. */
  datatype Config = Config(numSharders: nat, minShardersVerify: int, chainLength: int)

  /** The replies to one call of getBlockInfoByRound. */
  type Round = seq<Reply>

  /** What the environment does during one turn of Verify's loop. */
  datatype Turn = Turn(fast: FastReply, now: int, delivered: seq<QueryResult>, rounds: seq<Round>)

  // ----- validating the chain -----

  /** Some call of getBlockInfoByRound returned this header: a quarter of the queried sharders sent its
      hash, and the header is the one that completed that quarter. */
  ghost predicate VotedFor(rounds: seq<Round>, numSharders: nat, b: BlockHeader) {
    exists k, i: nat :: 0 <= k < |rounds| && DecidedBy(rounds[k], i, b, numSharders)
  }

  ghost predicate AllVotedFor(rounds: seq<Round>, numSharders: nat, chain: seq<BlockHeader>) {
    forall j :: 0 <= j < |chain| ==> VotedFor(rounds, numSharders, chain[j])
  }

  ghost predicate Bounded(rounds: seq<Round>, numSharders: nat) {
    forall k :: 0 <= k < |rounds| ==> |rounds[k]| <= numSharders
  }

  /** A walk along the chain, and whether it is long enough. */
  datatype Walk = Walk(chain: seq<BlockHeader>, done: bool)

  /** One more settled round: a header that extends the walk lengthens it, any other changes nothing. */
  ghost function Advance(w: World, cfg: Config, start: string, walk: Walk, next: Option<BlockHeader>): Walk {
    if walk.done || next.None? then walk
    else
      var chain := if IsBlockExtends(w.hash, Tip(start, walk.chain), next.value)
                   then walk.chain + [next.value] else walk.chain;
      Walk(chain, |chain| + 1 >= cfg.chainLength)
  }

  /** The walk without retries, round by round, until chainLength - 1 blocks are linked. */
  ghost function WalkChain(w: World, cfg: Config, start: string, rounds: seq<Round>): Walk {
    if rounds == [] then Walk([], false)
    else
      var m := |rounds| - 1;
      Advance(w, cfg, start, WalkChain(w, cfg, start, rounds[..m]), Winner(rounds[m], cfg.numSharders))
  }

  lemma WalkStep(w: World, cfg: Config, start: string, rounds: seq<Round>, k: nat)
    requires k < |rounds|
    ensures WalkChain(w, cfg, start, rounds[..k + 1])
         == Advance(w, cfg, start, WalkChain(w, cfg, start, rounds[..k]), Winner(rounds[k], cfg.numSharders))
  {
    assert rounds[..k + 1][..k] == rounds[..k];
  }

  lemma {:induction false} DoneStaysDone(w: World, cfg: Config, start: string, rounds: seq<Round>, k: nat)
    requires k <= |rounds|
    requires WalkChain(w, cfg, start, rounds[..k]).done
    ensures WalkChain(w, cfg, start, rounds) == WalkChain(w, cfg, start, rounds[..k])
  {
    if k < |rounds| {
      var m := |rounds| - 1;
      assert rounds[..m][..k] == rounds[..k];
      DoneStaysDone(w, cfg, start, rounds[..m], k);
    } else {
      assert rounds[..k] == rounds;
    }
  }

  ghost predicate SoundWalk(w: World, cfg: Config, start: string, rounds: seq<Round>, walk: Walk) {
    && Linked(w.hash, start, walk.chain)
    && AllVotedFor(rounds, cfg.numSharders, walk.chain)
    && (walk.done ==> |walk.chain| >= cfg.chainLength - 1)
    && (cfg.chainLength >= 2 ==> |walk.chain| < cfg.chainLength && (walk.done <==> |walk.chain| == cfg.chainLength - 1))
  }

  /** Every walk is a hash-linked path from its start, of headers a quarter of the sharders sent; with
      chainLength at least 2 it stops exactly at chainLength - 1 headers. */
  lemma {:induction false} WalkIsSound(w: World, cfg: Config, start: string, rounds: seq<Round>)
    ensures SoundWalk(w, cfg, start, rounds, WalkChain(w, cfg, start, rounds))
  {
    if rounds != [] {
      var m := |rounds| - 1;
      WalkIsSound(w, cfg, start, rounds[..m]);
      var before := WalkChain(w, cfg, start, rounds[..m]);
      MoreRounds(rounds, cfg.numSharders, before.chain);
      assert SoundWalk(w, cfg, start, rounds, before);
      var next := Winner(rounds[m], cfg.numSharders);
      if next.Some? {
        WinnerIsVotedFor(rounds, m, cfg.numSharders);
        AdvanceIsSound(w, cfg, start, rounds, before, next.value);
      }
    }
  }

  lemma AdvanceIsSound(w: World, cfg: Config, start: string, rounds: seq<Round>, walk: Walk, b: BlockHeader)
    requires SoundWalk(w, cfg, start, rounds, walk)
    requires VotedFor(rounds, cfg.numSharders, b)
    ensures SoundWalk(w, cfg, start, rounds, Advance(w, cfg, start, walk, Some(b)))
  {
    if IsBlockExtends(w.hash, Tip(start, walk.chain), b) {
      LinkedExtend(w.hash, start, walk.chain, b);
    }
  }

  lemma WinnerIsVotedFor(rounds: seq<Round>, k: nat, numSharders: nat)
    requires k < |rounds| && Winner(rounds[k], numSharders).Some?
    ensures VotedFor(rounds, numSharders, Winner(rounds[k], numSharders).value)
  {
  }

  lemma MoreRounds(rounds: seq<Round>, numSharders: nat, chain: seq<BlockHeader>)
    requires rounds != []
    requires AllVotedFor(rounds[..|rounds| - 1], numSharders, chain)
    ensures AllVotedFor(rounds, numSharders, chain)
  {
    var fewer := rounds[..|rounds| - 1];
    forall j | 0 <= j < |chain| ensures VotedFor(rounds, numSharders, chain[j]) {
      assert VotedFor(fewer, numSharders, chain[j]);
      var k, i: nat :| 0 <= k < |fewer| && DecidedBy(fewer[k], i, chain[j], numSharders);
      assert DecidedBy(rounds[k], i, chain[j], numSharders);
    }
  }

  /** No settled round is passed over: until the walk is done, a decided header that extends its tip is
      appended, any other round changes nothing, and the walk is done as soon as it is long enough. */
  lemma NothingPassedOver(w: World, cfg: Config, start: string, rounds: seq<Round>, k: nat)
    requires k < |rounds| && !WalkChain(w, cfg, start, rounds[..k]).done
    ensures WalkChain(w, cfg, start, rounds[..0]) == Walk([], false)
    ensures var held, next := WalkChain(w, cfg, start, rounds[..k]).chain, WalkChain(w, cfg, start, rounds[..k + 1]);
            if exists i: nat, b :: DecidedBy(rounds[k], i, b, cfg.numSharders)
                                   && IsBlockExtends(w.hash, Tip(start, held), b)
            then
              exists i: nat, b :: DecidedBy(rounds[k], i, b, cfg.numSharders) && next.chain == held + [b]
            else next.chain == held
    ensures var next := WalkChain(w, cfg, start, rounds[..k + 1]);
            next.done <==> (exists i: nat, b :: DecidedBy(rounds[k], i, b, cfg.numSharders))
                           && |next.chain| >= cfg.chainLength - 1
  {
    WalkStep(w, cfg, start, rounds, k);
    var held := WalkChain(w, cfg, start, rounds[..k]).chain;
    if i: nat, b :| DecidedBy(rounds[k], i, b, cfg.numSharders) && IsBlockExtends(w.hash, Tip(start, held), b) {
      WinnerFound(rounds[k], i, b, cfg.numSharders);
    }
  }

  /** The j-th call decides the j-th header. */
  ghost predicate DecidedInTurn(rounds: seq<Round>, numSharders: nat, bs: seq<BlockHeader>) {
    |rounds| == |bs| && forall j :: 0 <= j < |bs| ==> Decides(rounds[j], numSharders, bs[j])
  }

  ghost predicate Decides(round: Round, numSharders: nat, b: BlockHeader) {
    exists i: nat :: DecidedBy(round, i, b, numSharders)
  }

  /** Call by call, the replies decide a chain linked to the start and of the required length. */
  ghost predicate DecideChain(w: World, cfg: Config, start: string, rounds: seq<Round>) {
    exists bs :: DecidedInTurn(rounds, cfg.numSharders, bs) && Linked(w.hash, start, bs)
                 && |bs| == cfg.chainLength - 1 >= 1
  }

  /** Some chain of the required length is linked to the start and voted for. */
  ghost predicate ChainVotedFor(w: World, cfg: Config, start: string, rounds: seq<Round>) {
    exists chain :: Linked(w.hash, start, chain) && |chain| >= cfg.chainLength - 1
                    && AllVotedFor(rounds, cfg.numSharders, chain)
  }

  lemma TurnIsFollowed(w: World, cfg: Config, start: string, walk: Walk, round: Round, b: BlockHeader)
    requires Decides(round, cfg.numSharders, b) && !walk.done && IsBlockExtends(w.hash, Tip(start, walk.chain), b)
    ensures Advance(w, cfg, start, walk, Winner(round, cfg.numSharders))
         == Walk(walk.chain + [b], |walk.chain| + 1 >= cfg.chainLength - 1)
  {
    var i: nat :| DecidedBy(round, i, b, cfg.numSharders);
    WinnerFound(round, i, b, cfg.numSharders);
  }

  /** The k-th call decides the k-th header, and this extends the one before. */
  ghost predicate Follows(w: World, cfg: Config, start: string, rounds: seq<Round>, bs: seq<BlockHeader>, k: nat)
    requires k < |bs| == |rounds|
  {
    Decides(rounds[k], cfg.numSharders, bs[k]) && IsBlockExtends(w.hash, Tip(start, bs[..k]), bs[k])
  }

  lemma {:induction false} WalkFollows(
    w: World, cfg: Config, start: string, rounds: seq<Round>, bs: seq<BlockHeader>, n: nat)
    requires n <= |bs| == |rounds| && |bs| <= cfg.chainLength - 1
    requires forall k: nat :: k < |bs| ==> Follows(w, cfg, start, rounds, bs, k)
    ensures WalkChain(w, cfg, start, rounds[..n]) == Walk(bs[..n], n > 0 && n == cfg.chainLength - 1)
  {
    if n > 0 {
      WalkFollows(w, cfg, start, rounds, bs, n - 1);
      assert Follows(w, cfg, start, rounds, bs, n - 1);
      OneMoreTurn(w, cfg, start, rounds, n - 1, bs[..n - 1], bs[n - 1]);
      assert bs[..n] == bs[..n - 1] + [bs[n - 1]];
    }
  }

  /** Completeness: calls that decide, one after the other, the headers of a chain linked to the start are
      all followed, until the chain is long enough. */
  lemma WalkIsComplete(w: World, cfg: Config, start: string, rounds: seq<Round>, bs: seq<BlockHeader>)
    requires DecidedInTurn(rounds, cfg.numSharders, bs) && Linked(w.hash, start, bs)
    requires |bs| <= cfg.chainLength - 1
    ensures WalkChain(w, cfg, start, rounds) == Walk(bs, bs != [] && |bs| == cfg.chainLength - 1)
  {
    forall k: nat | k < |bs| ensures Follows(w, cfg, start, rounds, bs, k) {
      assert Decides(rounds[k], cfg.numSharders, bs[k]);
      TipExtends(w.hash, start, bs, k);
    }
    WalkFollows(w, cfg, start, rounds, bs, |bs|);
    assert rounds[..|bs|] == rounds && bs[..|bs|] == bs;
  }

  lemma OneMoreTurn(
    w: World, cfg: Config, start: string, rounds: seq<Round>, k: nat, held: seq<BlockHeader>, b: BlockHeader)
    requires k < |rounds| && WalkChain(w, cfg, start, rounds[..k]) == Walk(held, false)
    requires Decides(rounds[k], cfg.numSharders, b) && IsBlockExtends(w.hash, Tip(start, held), b)
    ensures WalkChain(w, cfg, start, rounds[..k + 1]) == Walk(held + [b], |held| + 1 >= cfg.chainLength - 1)
  {
    WalkStep(w, cfg, start, rounds, k);
    TurnIsFollowed(w, cfg, start, Walk(held, false), rounds[k], b);
  }

  datatype ChainVerdict = Validated | Broken | StillWaiting

  /** validateChain on a finite stretch of replies; StillWaiting when they are used up. It validates when
      the replies decide, call by call, a chain of the required length linked to the confirmed block, and
      only when they have voted for such a chain. */
  method ValidateChain(w: World, cfg: Config, confirmBlock: BlockHeader, rounds: seq<Round>)
    returns (verdict: ChainVerdict)
    requires Bounded(rounds, cfg.numSharders)
    ensures verdict == if WalkChain(w, cfg, confirmBlock.hash, rounds).done then Validated else StillWaiting
    ensures DecideChain(w, cfg, confirmBlock.hash, rounds) ==> verdict == Validated
    ensures verdict == Validated ==> ChainVotedFor(w, cfg, confirmBlock.hash, rounds)
  {
    ChainLaws(w, cfg, confirmBlock.hash, rounds);
    verdict := FollowChain(w, cfg, confirmBlock, rounds);
  }

  /** The retrying loop computes the plain walk: it holds a path of round - confirmRound - 1 linked headers
      at every turn, and `return false` is never reached. */
  method FollowChain(w: World, cfg: Config, confirmBlock: BlockHeader, rounds: seq<Round>)
    returns (verdict: ChainVerdict)
    requires Bounded(rounds, cfg.numSharders)
    ensures verdict == if WalkChain(w, cfg, confirmBlock.hash, rounds).done then Validated else StillWaiting
  {
    var confirmRound := confirmBlock.round;
    var currentBlockHash := confirmBlock.hash;
    var round := confirmRound + 1;
    var k := 0;
    verdict := StillWaiting;
    ghost var walk := WalkChain(w, cfg, confirmBlock.hash, rounds[..0]);
    while verdict == StillWaiting && k < |rounds|
      invariant 0 <= k <= |rounds|
      invariant walk == WalkChain(w, cfg, confirmBlock.hash, rounds[..k])
      invariant |walk.chain| == round - confirmRound - 1
      invariant currentBlockHash == Tip(confirmBlock.hash, walk.chain)
      invariant verdict == if walk.done then Validated else StillWaiting
    {
      var info := GetBlockInfoByRound(cfg.numSharders, rounds[k]);
      WalkStep(w, cfg, confirmBlock.hash, rounds, k);
      k := k + 1;
      if !info.Found? {
        // one retry after a second
        if k == |rounds| {
          break;
        }
        info := GetBlockInfoByRound(cfg.numSharders, rounds[k]);
        WalkStep(w, cfg, confirmBlock.hash, rounds, k);
        k := k + 1;
        if !info.Found? {
          continue;
        }
      }
      var nextBlock := info.header;
      walk := Advance(w, cfg, confirmBlock.hash, walk, Some(nextBlock));
      if IsBlockExtends(w.hash, currentBlockHash, nextBlock) {
        currentBlockHash := nextBlock.hash;
        round := round + 1;
      }
      if round > confirmRound && round - confirmRound < cfg.chainLength {
        continue;
      }
      verdict := if round < confirmRound then Broken else Validated;
    }
    assert rounds[..|rounds|] == rounds;
    if verdict == Validated {
      DoneStaysDone(w, cfg, confirmBlock.hash, rounds, k);
    }
  }

  lemma ChainLaws(w: World, cfg: Config, start: string, rounds: seq<Round>)
    ensures DecideChain(w, cfg, start, rounds) ==> WalkChain(w, cfg, start, rounds).done
    ensures WalkChain(w, cfg, start, rounds).done ==> ChainVotedFor(w, cfg, start, rounds)
  {
    WalkIsSound(w, cfg, start, rounds);
    if bs :| DecidedInTurn(rounds, cfg.numSharders, bs) && Linked(w.hash, start, bs)
             && |bs| == cfg.chainLength - 1 >= 1 {
      WalkIsComplete(w, cfg, start, rounds, bs);
    }
  }

  // ----- evidence -----

  /** The confirmation was decoded from this raw block. */
  ghost predicate IsFrom(w: World, cfm: Confirmation, block: RawObject) {
    "confirmation" in block && w.parseConfirmation(block["confirmation"]) == Some(cfm)
  }

  /** The transaction is confirmed, but the replies so far do not make its chain long enough. */
  ghost predicate ChainTooShort(w: World, cfg: Config, txnHash: string, turn: Turn, e: Evidence) {
    && IsFrom(w, e.cfm, e.block) && Proves(w, txnHash, e.cfm, e.header)
    && IsFound(w, txnHash, turn, e.header, e.block)
    && e.chain == WalkChain(w, cfg, e.header.hash, turn.rounds).chain
    && !WalkChain(w, cfg, e.header.hash, turn.rounds).done
  }

  /** What backs a successful verification: a parsed confirmation that proves the transaction hash by
      both Merkle paths and hashes to its own block hash, and a hash-linked chain of at least
      chainLength - 1 later headers, each sent by a quarter of the queried sharders. */
  ghost predicate Supported(w: World, cfg: Config, txnHash: string, rounds: seq<Round>, e: Evidence) {
    && IsFrom(w, e.cfm, e.block) && Proves(w, txnHash, e.cfm, e.header)
    && Linked(w.hash, e.header.hash, e.chain)
    && |e.chain| >= cfg.chainLength - 1
    && AllVotedFor(rounds, cfg.numSharders, e.chain)
  }

  datatype Evidence = Evidence(block: RawObject, cfm: Confirmation, header: BlockHeader, chain: seq<BlockHeader>)

  /** The deadline has come, by the clock or by the finalized block the fast reply reports. */
  ghost predicate DeadlineCome(w: World, txnHash: string, creationDate: int, turn: Turn) {
    || turn.now >= creationDate + 60
    || exists lfb :: FastReports(w, txnHash, turn.fast, lfb) && lfb.creationDate >= creationDate + 60
  }

  /** The fast reply vouches for the transaction, or it does not, the deadline has come, and the replies to
      the consensus query have a quorum. */
  ghost predicate LookupSucceeds(w: World, cfg: Config, txnHash: string, creationDate: int, turn: Turn) {
    || FastProves(w, txnHash, turn.fast)
    || (DeadlineCome(w, txnHash, creationDate, turn) && Quorum(w, txnHash, turn.delivered, cfg.minShardersVerify))
  }

  /** The outcome of a turn's queries: what the fast reply says, replaced by the answer of the consensus
      query when the fast one vouches for nothing and the deadline has come. */
  ghost predicate Finds(w: World, cfg: Config, txnHash: string, creationDate: int, turn: Turn, found: Lookup) {
    if !FastProves(w, txnHash, turn.fast) && DeadlineCome(w, txnHash, creationDate, turn)
    then Answers(w, cfg.minShardersVerify, txnHash, turn.delivered, found)
    else FastAnswers(w, txnHash, turn.fast, found)
  }

  /** The header and block that a turn goes on with: the ones the fast reply vouches for, or, when it
      vouches for none, those of a consensus reply whose block no other one outnumbers. */
  ghost predicate IsFound(w: World, txnHash: string, turn: Turn, header: BlockHeader, block: RawObject) {
    if FastProves(w, txnHash, turn.fast) then FastVouches(w, txnHash, turn.fast, header, block)
    else exists i: nat :: ConfirmedBy(w, txnHash, turn.delivered, i, header, block)
  }

  /** The branch that declares the transaction expired: nothing found, but a finalized block, which, like
      the clock, is past the deadline, unless it bears no date. */
  ghost predicate ExpiredWith(creationDate: int, found: Lookup, now: int) {
    && found.error.Some? && found.lfb.Some? && now > creationDate + 60
    && (found.lfb.value.creationDate == 0 || found.lfb.value.creationDate > creationDate + 60)
  }

  /** What backs an expiry: in this very turn the fast reply vouched for nothing, the consensus query was
      made and found no quorum, the clock was past the deadline, and so was the finalized block that the
      consensus query reported, unless it bears no date. */
  ghost predicate Expired(w: World, cfg: Config, txnHash: string, creationDate: int, turn: Turn) {
    && !FastProves(w, txnHash, turn.fast)
    && turn.now > creationDate + 60
    && !Quorum(w, txnHash, turn.delivered, cfg.minShardersVerify)
    && exists i: nat, lfb ::
         && LfbFrom(w, txnHash, turn.delivered, i, lfb)
         && (lfb.creationDate == 0 || lfb.creationDate > creationDate + 60)
  }

  /** The comparison the loop makes. */
  lemma DeadlineTest(w: World, txnHash: string, creationDate: int, turn: Turn, fast: Lookup)
    requires FastAnswers(w, txnHash, turn.fast, fast) && fast.error.Some?
    ensures Max(GetCreationDate(fast.lfb, turn.now), turn.now) >= creationDate + TXN_EXPIRATION_SECONDS
       <==> DeadlineCome(w, txnHash, creationDate, turn)
  {
    if fast.lfb.Some? {
      assert FastReports(w, txnHash, turn.fast, fast.lfb.value);
    }
  }

  lemma FoundIsChecked(w: World, txnHash: string, turn: Turn, header: BlockHeader, block: RawObject)
    requires IsFound(w, txnHash, turn, header, block)
    ensures GetBlockHeader(w, txnHash, block) == Checked.Ok(header)
  {
    CheckedMeansProved(w, txnHash, block, header);
  }

  lemma ExpiryTest(creationDate: int, found: Lookup, now: int)
    requires found.error.Some? && found.lfb.Some?
    ensures IsTransactionExpired(creationDate, GetCreationDate(found.lfb, now), now)
       <==> ExpiredWith(creationDate, found, now)
  {
  }

  lemma ExpiredIsBacked(w: World, cfg: Config, txnHash: string, creationDate: int, turn: Turn, found: Lookup)
    requires Finds(w, cfg, txnHash, creationDate, turn, found)
    requires ExpiredWith(creationDate, found, turn.now)
    ensures Expired(w, cfg, txnHash, creationDate, turn)
  {
    var i: nat :| LfbFrom(w, txnHash, turn.delivered, i, found.lfb.value);
  }

  /** The fast reply vouches for the transaction, and the calls of this turn decide a chain of the required
      length behind its block. */
  ghost predicate Confirms(w: World, cfg: Config, txnHash: string, turn: Turn) {
    exists header, block ::
      FastVouches(w, txnHash, turn.fast, header, block) && DecideChain(w, cfg, header.hash, turn.rounds)
  }

  /** A turn that confirms neither goes round again nor waits for the chain. */
  lemma ConfirmingTurn(w: World, cfg: Config, txnHash: string, creationDate: int, turn: Turn)
    requires Confirms(w, cfg, txnHash, turn)
    ensures !Continues(w, cfg, txnHash, creationDate, turn) && !Expired(w, cfg, txnHash, creationDate, turn)
    ensures forall e :: !ChainTooShort(w, cfg, txnHash, turn, e)
  {
    var header, block :| FastVouches(w, txnHash, turn.fast, header, block)
                         && DecideChain(w, cfg, header.hash, turn.rounds);
    assert FastProves(w, txnHash, turn.fast);
    ChainLaws(w, cfg, header.hash, turn.rounds);
    forall e ensures !ChainTooShort(w, cfg, txnHash, turn, e) {
      if ChainTooShort(w, cfg, txnHash, turn, e) {
        OneFastAnswer(w, txnHash, turn.fast, header, block, e.header, e.block);
      }
    }
  }

  lemma {:induction false} EachContinues(
    w: World, cfg: Config, txnHash: string, creationDate: int, turns: seq<Turn>, n: nat, k: nat)
    requires AllContinue(w, cfg, txnHash, creationDate, turns, n) && k < n
    ensures Continues(w, cfg, txnHash, creationDate, turns[k])
  {
    if k < n - 1 {
      EachContinues(w, cfg, txnHash, creationDate, turns, n - 1, k);
    }
  }

  /** So the loop ends, at the latest, in the first turn that confirms: no turn it has left behind does. */
  lemma NoConfirmingTurnIsPassed(
    w: World, cfg: Config, txnHash: string, creationDate: int, turns: seq<Turn>, n: nat, k: nat)
    requires AllContinue(w, cfg, txnHash, creationDate, turns, n) && k < n
    ensures !Confirms(w, cfg, txnHash, turns[k])
  {
    EachContinues(w, cfg, txnHash, creationDate, turns, n, k);
    ContinuingConfirmsNothing(w, cfg, txnHash, creationDate, turns[k]);
  }

  lemma ContinuingConfirmsNothing(w: World, cfg: Config, txnHash: string, creationDate: int, turn: Turn)
    requires Continues(w, cfg, txnHash, creationDate, turn)
    ensures !Confirms(w, cfg, txnHash, turn)
  {
    if Confirms(w, cfg, txnHash, turn) {
      ConfirmingTurn(w, cfg, txnHash, creationDate, turn);
    }
  }

  lemma OneFastAnswer(w: World, txnHash: string, reply: FastReply,
                      header: BlockHeader, block: RawObject, header': BlockHeader, block': RawObject)
    requires FastVouches(w, txnHash, reply, header, block) && FastVouches(w, txnHash, reply, header', block')
    ensures header == header' && block == block'
  {
    FastQueryAnswers(w, txnHash, reply);
  }

  lemma ConclusionIsBacked(w: World, cfg: Config, txnHash: string, turn: Turn, e: Evidence)
    requires IsFrom(w, e.cfm, e.block) && Proves(w, txnHash, e.cfm, e.header)
    requires e.chain == WalkChain(w, cfg, e.header.hash, turn.rounds).chain
    requires WalkChain(w, cfg, e.header.hash, turn.rounds).done
    ensures Supported(w, cfg, txnHash, turn.rounds, e)
  {
    WalkIsSound(w, cfg, e.header.hash, turn.rounds);
  }

  /** The loop goes on after this turn: no confirmation was found, and no expiry. */
  ghost predicate Continues(w: World, cfg: Config, txnHash: string, creationDate: int, turn: Turn) {
    && !LookupSucceeds(w, cfg, txnHash, creationDate, turn)
    && exists found :: Finds(w, cfg, txnHash, creationDate, turn, found) && !ExpiredWith(creationDate, found, turn.now)
  }

  /** Decoding the transaction on its own or as part of the confirmation gives the same value. */
  ghost predicate Coherent(w: World) {
    forall raw :: w.parseConfirmation(raw).Some? && w.parseConfirmation(raw).value.transaction.Some?
                  && TxnOf(w, raw).Some?
                  ==> TxnOf(w, raw) == w.parseConfirmation(raw).value.transaction
  }

  /** How the verification of a block with a long enough chain ends, by the transaction its confirmation
      holds; None without a callback, when there is no transaction to decode. */
  ghost function CompletionOf(w: World, block: RawObject): Option<Completion>
    requires "confirmation" in block
  {
    var txn := TxnOf(w, block["confirmation"]);
    if w.marshal(block).None? then Some(NotMarshalled)
    else if txn.None? then None
    else Some(if txn.value.status == 1 || txn.value.status == 2 then Confirmed else FailedOnChain)
  }

  /** Each of the first n turns went round again. */
  ghost predicate AllContinue(w: World, cfg: Config, txnHash: string, creationDate: int, turns: seq<Turn>, n: nat) {
    n <= |turns| && (n == 0 || (AllContinue(w, cfg, txnHash, creationDate, turns, n - 1)
                                && Continues(w, cfg, txnHash, creationDate, turns[n - 1])))
  }

  /** What backs a completion, given with the evidence e. */
  ghost predicate Backed(w: World, cfg: Config, txnHash: string, creationDate: int,
                         turn: Turn, c: Option<Completion>, e: Option<Evidence>) {
    if c == Some(ExpiredTxn) then Expired(w, cfg, txnHash, creationDate, turn)
    else
      && e.Some? && Supported(w, cfg, txnHash, turn.rounds, e.value) && c == CompletionOf(w, e.value.block)
      && IsFound(w, txnHash, turn, e.value.header, e.value.block)
  }

  datatype Completion = Confirmed | FailedOnChain | ExpiredTxn | NotMarshalled

  /** A turn goes round again, waits for more rounds of the chain, or ends the goroutine: with a
      callback, or without one when the confirmation cannot be decoded a second time. */
  datatype TurnResult = Again | ChainPending | End(completion: Option<Completion>)

  datatype Result = InvalidTransaction | NoSharders | StillRunning | Ended(completion: Option<Completion>)

  function GetCreationDate(b: Option<BlockHeader>, default: int): int {
    if b.None? then default else b.value.creationDate
  }

  /** isTransactionExpired. */
  function IsTransactionExpired(creationDate: int, lfbCreationTime: int, now: int): bool {
    var lfb := if lfbCreationTime == 0 then now else lfbCreationTime;
    Min(lfb, now) > creationDate + TXN_EXPIRATION_SECONDS
  }

  function Max(x: int, y: int): int { if x > y then x else y }

  /** The object of zcncore/transaction_base.go:158-170. Callbacks are recorded in order. */
  class Transaction {
    var txn: Txn
    var signed: bool
    var txnOut: string
    var txnHash: string
    var txnStatus: int
    var verifyStatus: int
    var verifyConfirmationStatus: int
    var verifyOut: string
    var txnCallbacks: seq<int>
    var verifyCallbacks: seq<int>
    const cache: NonceCache.NonceCache

    constructor (txn: Txn, signed: bool, cache: NonceCache.NonceCache)
      ensures this.txn == txn && this.signed == signed && this.cache == cache
      ensures txnHash == "" && txnStatus == verifyStatus == STATUS_UNKNOWN
      ensures txnCallbacks == verifyCallbacks == []
    {
      this.txn, this.signed, this.cache := txn, signed, cache;
      txnOut, txnHash, verifyOut := "", "", "";
      txnStatus, verifyStatus, verifyConfirmationStatus := STATUS_UNKNOWN, STATUS_UNKNOWN, 0;
      txnCallbacks, verifyCallbacks := [], [];
    }

    /** What the callback of a completed verification can rely on. */
    predicate Settled(c: Completion)
      reads this, cache
    {
      match c
      case Confirmed =>
        && verifyStatus == STATUS_SUCCESS
        && ((txn.status == 1 && verifyConfirmationStatus == CONFIRMED_SUCCESS)
            || (txn.status == 2 && verifyConfirmationStatus == CHARGEABLE_ERROR && verifyOut == txn.output))
      case FailedOnChain =>
        && verifyStatus == STATUS_ERROR && verifyConfirmationStatus == 0
        && txn.clientId !in cache.cache && txn.status != 1 && txn.status != 2
      case _ =>
        && verifyStatus == STATUS_ERROR && verifyConfirmationStatus == 0
        && txn.clientId !in cache.cache && verifyOut == ""
    }

    // ----- submission -----

    method CompleteTxn(status: int, out: string)
      modifies this`txnStatus, this`txnOut, this`txnCallbacks
      ensures txnStatus == status && txnOut == out && txnCallbacks == old(txnCallbacks) + [status]
    {
      txnStatus, txnOut := status, out;
      txnCallbacks := txnCallbacks + [status];
    }

    method SetNonce(fetched: Option<int>)
      modifies this`txn, cache
      ensures txn == old(txn).(nonce := txn.nonce)
      ensures old(txn.nonce) >= 1 ==> txn.nonce == old(txn.nonce)
      ensures old(txn.nonce) < 1 ==> txn.nonce == Next(old(cache.cache), txn.clientId, fetched)
      ensures cache.cache == old(cache.cache)[txn.clientId := txn.nonce]
    {
      var nonce := txn.nonce;
      if nonce < 1 {
        nonce := cache.GetNextNonce(txn.clientId, fetched);
      } else {
        cache.Set(txn.clientId, nonce);
      }
      txn := txn.(nonce := nonce);
    }

    /** submitTxn: hashes and signs if there is no signature yet, then races the miners. `hashOf` is the
        hash over the fields of a transaction, `run` any run of the race that has come to a verdict. */
    method SubmitTxn(hashOf: Txn -> string, signOk: bool, o: seq<SubmitRace.Outcome>, run: seq<SubmitRace.State>)
      requires signed || signOk ==> SubmitRace.Run(o, run) && run[|run| - 1].verdict != SubmitRace.Waiting
      modifies this`txn, this`txnStatus, this`txnOut, this`txnCallbacks, this`signed, cache
      ensures txn == if old(signed) then old(txn) else old(txn).(hash := hashOf(old(txn)))
      ensures txnCallbacks == old(txnCallbacks) + [txnStatus] && signed == (old(signed) || signOk)
      ensures txnStatus == STATUS_SUCCESS
         <==> (old(signed) || signOk) && exists i :: 0 <= i < |o| && SubmitRace.Answers200(o[i])
      ensures txnStatus == STATUS_SUCCESS ==>
                cache.cache == old(cache.cache)
                && exists i :: 0 <= i < |o| && SubmitRace.Answers200(o[i]) && txnOut == o[i].body
      ensures txnStatus != STATUS_SUCCESS ==>
                txnStatus == STATUS_ERROR && txnOut == "" && cache.cache == old(cache.cache) - {txn.clientId}
    {
      txnStatus, txnOut := STATUS_UNKNOWN, "";
      if !signed {
        txn := txn.(hash := hashOf(txn));
        if !signOk {
          CompleteTxn(STATUS_ERROR, "");
          cache.Evict(txn.clientId);
          return;
        }
        signed := true;
      }
      var last := run[|run| - 1];
      SubmitRace.VerdictIsScheduleIndependent(o, run, |run| - 1);
      SubmitRace.RunKeepsInv(o, run, |run| - 1);
      if last.verdict.AllFailed? {
        CompleteTxn(STATUS_ERROR, "");
        cache.Evict(txn.clientId);
      } else {
        assert SubmitRace.Told(last, last.verdict.worker);
        var ret := o[last.verdict.worker];
        if ret.statusCode == STATUS_OK {
          CompleteTxn(STATUS_SUCCESS, ret.body);
        } else {
          CompleteTxn(STATUS_ERROR, "");
          cache.Evict(txn.clientId);
        }
      }
    }

    /** setNonceAndSubmit in a sequential run: a failure leaves no cached nonce for the client; a success
        leaves the nonce that was used, so the next automatic nonce is one more. Other clients are not
        touched. The hash covers the nonce unless the transaction was signed before. */
    method SetNonceAndSubmit(fetched: Option<int>, hashOf: Txn -> string, signOk: bool,
                             o: seq<SubmitRace.Outcome>, run: seq<SubmitRace.State>)
      requires signed || signOk ==> SubmitRace.Run(o, run) && run[|run| - 1].verdict != SubmitRace.Waiting
      modifies this`txn, this`txnStatus, this`txnOut, this`txnCallbacks, this`signed, cache
      ensures var t := old(txn).(nonce := txn.nonce);
              txn == if old(signed) then t else t.(hash := hashOf(t))
      ensures txn.nonce ==
                if old(txn.nonce) >= 1 then old(txn.nonce)
                else Next(old(cache.cache), txn.clientId, fetched)
      ensures txnCallbacks == old(txnCallbacks) + [txnStatus]
      ensures txnStatus == STATUS_SUCCESS
         <==> (old(signed) || signOk) && exists i :: 0 <= i < |o| && SubmitRace.Answers200(o[i])
      ensures txnStatus == STATUS_ERROR ==> txn.clientId !in cache.cache
      ensures txnStatus == STATUS_SUCCESS ==> txn.clientId in cache.cache && cache.cache[txn.clientId] == txn.nonce
      ensures txnStatus == STATUS_SUCCESS && old(txn.nonce) >= 1 ==>
                forall again :: Next(cache.cache, txn.clientId, again) == old(txn.nonce) + 1
      ensures txnStatus == STATUS_SUCCESS || txnStatus == STATUS_ERROR
      ensures cache.cache - {txn.clientId} == old(cache.cache) - {txn.clientId}
    {
      SetNonce(fetched);
      SubmitTxn(hashOf, signOk, o, run);
    }

    // ----- verification -----

    method CompleteVerify(status: int, conStatus: int, out: string)
      modifies this`verifyStatus, this`verifyConfirmationStatus, this`verifyOut, this`verifyCallbacks, cache
      ensures verifyStatus == status && verifyConfirmationStatus == conStatus && verifyOut == out
      ensures verifyCallbacks == old(verifyCallbacks) + [status]
      ensures cache.cache == if status == STATUS_ERROR then old(cache.cache) - {txn.clientId} else old(cache.cache)
    {
      verifyStatus, verifyConfirmationStatus, verifyOut := status, conStatus, out;
      if status == STATUS_ERROR {
        cache.Evict(txn.clientId);
      }
      verifyCallbacks := verifyCallbacks + [status];
    }

    /** Reports a confirmed block: decodes the transaction again from the raw confirmation, adopts it and
        completes with its status; returns without a callback when it cannot be decoded. */
    method Report(w: World, confirmationBlock: RawObject) returns (c: Option<Completion>)
      requires "confirmation" in confirmationBlock
      modifies this`txn, this`verifyStatus, this`verifyConfirmationStatus, this`verifyOut, this`verifyCallbacks, cache
      ensures c == CompletionOf(w, confirmationBlock)
      ensures c == Some(NotMarshalled) <==> w.marshal(confirmationBlock).None?
      ensures c.None? ==>
                w.parseObject(confirmationBlock["confirmation"]).None?
                || "txn" !in w.parseObject(confirmationBlock["confirmation"]).value
                || w.parseTxn(w.parseObject(confirmationBlock["confirmation"]).value["txn"]).None?
      ensures c.None? ==> unchanged(this) && unchanged(cache)
      ensures c.Some? ==> verifyCallbacks == old(verifyCallbacks) + [verifyStatus]
      ensures c.Some? ==> Settled(c.value)
      ensures c == Some(Confirmed) || c == Some(FailedOnChain) ==>
                TxnOf(w, confirmationBlock["confirmation"]) == Some(txn)
      ensures c == Some(FailedOnChain) || (c == Some(Confirmed) && txn.status == 1) ==>
                Some(verifyOut) == w.marshal(confirmationBlock)
    {
      var output := w.marshal(confirmationBlock);
      if output.None? {
        CompleteVerify(STATUS_ERROR, 0, "");
        return Some(NotMarshalled);
      }
      var conf := w.parseObject(confirmationBlock["confirmation"]);
      if conf.None? || "txn" !in conf.value {
        return None;
      }
      var tt := w.parseTxn(conf.value["txn"]);
      if tt.None? {
        return None;
      }
      txn := tt.value;
      if tt.value.status == 1 {
        CompleteVerify(STATUS_SUCCESS, CONFIRMED_SUCCESS, output.value);
        return Some(Confirmed);
      } else if tt.value.status == 2 {
        CompleteVerify(STATUS_SUCCESS, CHARGEABLE_ERROR, tt.value.output);
        return Some(Confirmed);
      } else {
        CompleteVerify(STATUS_ERROR, 0, output.value);
        return Some(FailedOnChain);
      }
    }

    /** One turn of the loop. The loop goes on exactly when both lookups failed and the transaction is
        not expired; a turn whose lookup succeeds waits until the chain behind the confirmed block is
        long enough, and then ends the loop. */
    method TakeTurn(w: World, cfg: Config, turn: Turn) returns (r: TurnResult, ghost e: Option<Evidence>)
      requires Bounded(turn.rounds, cfg.numSharders)
      modifies this`txn, this`verifyStatus, this`verifyConfirmationStatus, this`verifyOut, this`verifyCallbacks, cache
      ensures r.End? && r.completion.Some? ==>
                && verifyCallbacks == old(verifyCallbacks) + [verifyStatus]
                && Settled(r.completion.value)
      ensures !(r.End? && r.completion.Some?) ==> unchanged(this) && unchanged(cache)
      ensures Confirms(w, cfg, txnHash, turn) ==> r.End? && r.completion != Some(ExpiredTxn)
      ensures r.Again? ==> Continues(w, cfg, txnHash, old(txn.creationDate), turn)
      ensures r.ChainPending? ==> e.Some? && ChainTooShort(w, cfg, txnHash, turn, e.value)
      ensures r.End? ==> Backed(w, cfg, txnHash, old(txn.creationDate), turn, r.completion, e)
      ensures r == End(Some(Confirmed)) && Coherent(w) ==> txn.hash == txnHash
    {
      if Confirms(w, cfg, txnHash, turn) {
        ConfirmingTurn(w, cfg, txnHash, txn.creationDate, turn);
      }
      var found := Find(w, cfg, turn);
      if found.error.Some? {
        if found.lfb.Some? {
          ExpiryTest(txn.creationDate, found, turn.now);
        }
        if found.lfb.None? || !IsTransactionExpired(txn.creationDate, GetCreationDate(found.lfb, turn.now), turn.now) {
          return Again, None;
        }
        ExpiredIsBacked(w, cfg, txnHash, txn.creationDate, turn, found);
        CompleteVerify(STATUS_ERROR, 0, "");
        return End(Some(ExpiredTxn)), None;
      }
      r, e := Conclude(w, cfg, turn, found);
    }

    /** validateChain behind the confirmed block, then the report. */
    method Conclude(w: World, cfg: Config, turn: Turn, found: Lookup) returns (r: TurnResult, ghost e: Option<Evidence>)
      requires Bounded(turn.rounds, cfg.numSharders)
      requires found.header.Some? && GetBlockHeader(w, txnHash, found.block) == Checked.Ok(found.header.value)
      requires IsFound(w, txnHash, turn, found.header.value, found.block)
      modifies this`txn, this`verifyStatus, this`verifyConfirmationStatus, this`verifyOut, this`verifyCallbacks, cache
      ensures r.End? && r.completion.Some? ==>
                verifyCallbacks == old(verifyCallbacks) + [verifyStatus] && Settled(r.completion.value)
      ensures !(r.End? && r.completion.Some?) ==> unchanged(this) && unchanged(cache)
      ensures !r.Again? && e.Some? && r != End(Some(ExpiredTxn))
      ensures r.ChainPending? ==> ChainTooShort(w, cfg, txnHash, turn, e.value)
      ensures r.End? ==>
                && Supported(w, cfg, txnHash, turn.rounds, e.value) && r.completion == CompletionOf(w, e.value.block)
                && IsFound(w, txnHash, turn, e.value.header, e.value.block)
      ensures r == End(Some(Confirmed)) && Coherent(w) ==> txn.hash == txnHash
    {
      var header := found.header.value;
      CheckedMeansProved(w, txnHash, found.block, header);
      ghost var cfm := w.parseConfirmation(found.block["confirmation"]).value;
      e := Some(Evidence(found.block, cfm, header, WalkChain(w, cfg, header.hash, turn.rounds).chain));
      var verdict := ValidateChain(w, cfg, header, turn.rounds);
      if verdict != Validated {
        return ChainPending, e;
      }
      var completion := Report(w, found.block);
      ConclusionIsBacked(w, cfg, txnHash, turn, e.value);
      if completion == Some(Confirmed) && Coherent(w) {
        SameTransaction(w, found.block["confirmation"], cfm, txn);
      }
      return End(completion), e;
    }

    /** The fast query, then the consensus query if the fast one failed near or past the deadline. */
    method Find(w: World, cfg: Config, turn: Turn) returns (found: Lookup)
      ensures Finds(w, cfg, txnHash, txn.creationDate, turn, found)
      ensures found.error.None? <==> LookupSucceeds(w, cfg, txnHash, txn.creationDate, turn)
      ensures found.error.None? ==>
                && found.header.Some? && IsFound(w, txnHash, turn, found.header.value, found.block)
                && GetBlockHeader(w, txnHash, found.block) == Checked.Ok(found.header.value)
    {
      found := GetFastConfirmation(w, txnHash, turn.fast);
      FastQueryAnswers(w, txnHash, turn.fast);
      if found.error.Some? {
        DeadlineTest(w, txnHash, txn.creationDate, turn, found);
        if Max(GetCreationDate(found.lfb, turn.now), turn.now) >= txn.creationDate + TXN_EXPIRATION_SECONDS {
          found := GetConsensusConfirmation(w, cfg.minShardersVerify, txnHash, turn.delivered);
        }
      }
      if found.error.None? {
        FoundIsChecked(w, txnHash, turn, found.header.value, found.block);
      }
    }

    /** The goroutine's loop: `at` is the turn the trace ended in, or its length. The callback fires at
        most once; every completion is backed by evidence from its own turn, every earlier turn went
        round again, and a trace that has not ended is used up or waits for the chain. */
    method VerifyLoop(w: World, cfg: Config, turns: seq<Turn>)
      returns (completion: Option<Completion>, ended: bool, at: nat, ghost e: Option<Evidence>)
      requires forall k :: 0 <= k < |turns| ==> Bounded(turns[k].rounds, cfg.numSharders)
      modifies this`txn, this`verifyStatus, this`verifyConfirmationStatus, this`verifyOut, this`verifyCallbacks, cache
      ensures verifyCallbacks == old(verifyCallbacks) + if ended && completion.Some? then [verifyStatus] else []
      ensures ended && completion.Some? ==> Settled(completion.value)
      ensures ended ==> at < |turns| && Backed(w, cfg, txnHash, old(txn.creationDate), turns[at], completion, e)
      ensures ended && completion == Some(Confirmed) && Coherent(w) ==> txn.hash == txnHash
      ensures !ended ==>
                at == |turns| || (at < |turns| && e.Some? && ChainTooShort(w, cfg, txnHash, turns[at], e.value))
      ensures AllContinue(w, cfg, txnHash, old(txn.creationDate), turns, at)
      ensures !ended && at < |turns| ==> !Confirms(w, cfg, txnHash, turns[at])
    {
      at, e := 0, None;
      while at < |turns|
        invariant at <= |turns|
        invariant unchanged(this) && unchanged(cache)
        invariant AllContinue(w, cfg, txnHash, txn.creationDate, turns, at)
      {
        var result;
        result, e := TakeTurn(w, cfg, turns[at]);
        if result.End? {
          return result.completion, true, at, e;
        }
        if result.ChainPending? {
          return None, false, at, e;
        }
        at := at + 1;
      }
      return None, false, at, e;
    }

    /** Verify with the goroutine it starts, on a finite trace of turns. */
    method Verify(w: World, cfg: Config, entityHash: string, startTime: int, turns: seq<Turn>)
      returns (r: Result, at: nat, ghost e: Option<Evidence>)
      requires forall k :: 0 <= k < |turns| ==> Bounded(turns[k].rounds, cfg.numSharders)
      modifies this, cache
      ensures r.InvalidTransaction? <==>
                old(txnHash) == ""
                && (old(txnStatus) == STATUS_UNKNOWN || (old(txnStatus) == STATUS_SUCCESS && entityHash == ""))
      ensures !r.InvalidTransaction? ==>
                txnHash == if old(txnHash) == "" && old(txnStatus) == STATUS_SUCCESS then entityHash else old(txnHash)
      ensures r.InvalidTransaction? ==>
                && txn == old(txn)
                && cache.cache == old(cache.cache) - if old(txnStatus) == STATUS_SUCCESS then {txn.clientId} else {}
      ensures r.NoSharders? <==> !r.InvalidTransaction? && cfg.numSharders == 0
      ensures verifyCallbacks == old(verifyCallbacks) + if r.Ended? && r.completion.Some? then [verifyStatus] else []
      ensures r.Ended? && r.completion.Some? ==> Settled(r.completion.value)
      ensures r.Ended? ==>
                && at < |turns|
                && Backed(w, cfg, txnHash, StartOr(old(txn.creationDate), startTime), turns[at], r.completion, e)
      ensures r == Ended(Some(Confirmed)) && Coherent(w) ==> txn.hash == txnHash
      ensures r.StillRunning? ==>
                at == |turns| || (at < |turns| && e.Some? && ChainTooShort(w, cfg, txnHash, turns[at], e.value))
      ensures r.StillRunning? && at < |turns| ==> !Confirms(w, cfg, txnHash, turns[at])
      ensures r.Ended? || r.StillRunning? ==>
                AllContinue(w, cfg, txnHash, StartOr(old(txn.creationDate), startTime), turns, at)
    {
      at, e := 0, None;
      if txnHash == "" && txnStatus == STATUS_UNKNOWN {
        return InvalidTransaction, at, e;
      }
      if txnHash == "" && txnStatus == STATUS_SUCCESS {
        txnHash := entityHash;
        if txnHash == "" {
          cache.Evict(txn.clientId);
          return InvalidTransaction, at, e;
        }
      }
      if txn.creationDate == 0 {
        txn := txn.(creationDate := startTime);
      }
      if cfg.numSharders == 0 {
        return NoSharders, at, e;
      }
      var completion, ended;
      completion, ended, at, e := VerifyLoop(w, cfg, turns);
      r := if ended then Ended(completion) else StillRunning;
    }
  }

  /** The nonce after the cached one, or after the fetched one; the first one is 1. */
  ghost function Next(cache: map<string, int>, client: string, fetched: Option<int>): int {
    if client in cache then cache[client] + 1
    else match fetched
      case Some(n) => n + 1
      case None => 1
  }

  function StartOr(creationDate: int, startTime: int): int {
    if creationDate == 0 then startTime else creationDate
  }

  /** The transaction decoded on its own from the raw confirmation. */
  function TxnOf(w: World, raw: string): Option<Txn> {
    match w.parseObject(raw)
    case None => None
    case Some(members) => if "txn" in members then w.parseTxn(members["txn"]) else None
  }

  lemma SameTransaction(w: World, raw: string, cfm: Confirmation, txn: Txn)
    requires Coherent(w)
    requires w.parseConfirmation(raw) == Some(cfm) && cfm.transaction.Some?
    requires TxnOf(w, raw) == Some(txn)
    ensures txn == cfm.transaction.value
  {
  }

  /** Two verifications whose chains have equal length and end in the same block confirm the same block
      and ran through the same later blocks, unless they exhibit a hash collision. */
  lemma VerificationsAgree(w: World, cfg: Config, hash1: string, rounds1: seq<Round>, e1: Evidence,
                           hash2: string, rounds2: seq<Round>, e2: Evidence)
    requires Supported(w, cfg, hash1, rounds1, e1) && Supported(w, cfg, hash2, rounds2, e2)
    requires |e1.chain| == |e2.chain| && Tip(e1.header.hash, e1.chain) == Tip(e2.header.hash, e2.chain)
    requires ColonFree(Before(e1), Path(e1)) && ColonFree(Before(e2), Path(e2)) && MinersApart(Path(e1), Path(e2))
    requires NoCollision(w.hash, Before(e1), Path(e1), Before(e2), Path(e2))
    ensures SameBlocks(Before(e1), Path(e1), Before(e2), Path(e2))
  {
    PrependLinked(w.hash, Before(e1), e1.header, e1.chain);
    PrependLinked(w.hash, Before(e2), e2.header, e2.chain);
    SameTipSameChain(w.hash, Before(e1), Path(e1), Before(e2), Path(e2));
  }

  /** The predecessor of the confirmed block, and the confirmed block followed by its chain. */
  function Before(e: Evidence): string { e.cfm.previousBlockHash }

  function Path(e: Evidence): seq<BlockHeader> { [e.header] + e.chain }

  lemma {:induction false} PrependLinked(hash: HashFunction, start: string, b: BlockHeader, chain: seq<BlockHeader>)
    requires IsBlockExtends(hash, start, b)
    requires Linked(hash, b.hash, chain)
    ensures Linked(hash, start, [b] + chain)
    ensures Tip(start, [b] + chain) == Tip(b.hash, chain)
  {
    var all := [b] + chain;
    if chain == [] {
      assert all[..0] == [];
    } else {
      var m := |chain| - 1;
      PrependLinked(hash, start, b, chain[..m]);
      assert all[..|all| - 1] == [b] + chain[..m];
    }
  }
}
